/**
 The time windows the trend drawer derives from a well test, and what the shape of the rows the
 service can produce says about them. Times are epoch milliseconds; `Stamp` is a wire timestamp.
 */
module WellTestWindow {
  import opened Prelude
  import opened WellTests
  import BucketedTrends

  datatype Stamp = Absent | Unparseable | At(ms: int)

  datatype WireRow = WireRow(
    status: Status,
    connectedAt: Stamp, stabilizationStartedAt: Stamp, stabilizationEndedAt: Stamp,
    officialStartedAt: Stamp, officialEndedAt: Stamp, disconnectedAt: Stamp, abortedAt: Stamp)

  datatype Pill = LastHour | Stabilization | OfficialWindow | FullTest

  datatype Reason =
    | StabilizationNotStarted | InvalidStabilizationStart
    | NoActiveTest | OfficialNotStarted | InvalidOfficialStart | MissingOfficialEnd
    | NotConnected | NoValidStart

  datatype Badge =
    | Diagnostic | StabilizationPhase | FullTestBadge
    | OfficialBadge | OfficialInProgress | OfficialCompleted | OfficialAborted | OfficialInvariantViolation

  datatype Window =
    | Disabled(pill: Pill, reason: Reason, badge: Badge)
    | Enabled(pill: Pill, fromMs: int, toMs: int, badge: Badge, aborted: bool, endsAtNow: bool)

  const ONE_HOUR_MS := 60 * 60 * 1000
  const CACHE_BUCKET_MS := 15 * 1000

  function Quantize(nowMs: int): int { nowMs / CACHE_BUCKET_MS * CACHE_BUCKET_MS }

  function ParseIso(s: Stamp): Option<int> {
    if s.At? then Some(s.ms) else None
  }

  function StabilizationWindow(active: Option<WireRow>, nowMs: int): Window {
    if active.None? || active.value.stabilizationStartedAt.Absent? then
      Disabled(Stabilization, StabilizationNotStarted, StabilizationPhase)
    else
      var row := active.value;
      var start := ParseIso(row.stabilizationStartedAt);
      if start.None? then Disabled(Stabilization, InvalidStabilizationStart, StabilizationPhase)
      else
        var end := ParseIso(row.stabilizationEndedAt).Else(ParseIso(row.officialStartedAt));
        Enabled(Stabilization, start.value, end.GetOr(nowMs), StabilizationPhase, false, end.None?)
  }

  function OfficialWindowOf(active: Option<WireRow>, nowMs: int): Window {
    if active.None? then Disabled(OfficialWindow, NoActiveTest, OfficialBadge)
    else if active.value.officialStartedAt.Absent? then Disabled(OfficialWindow, OfficialNotStarted, OfficialBadge)
    else
      var row := active.value;
      var start := ParseIso(row.officialStartedAt);
      if start.None? then Disabled(OfficialWindow, InvalidOfficialStart, OfficialBadge)
      else
        var end := ParseIso(row.officialEndedAt);
        match row.status
        case Measuring =>
          Enabled(OfficialWindow, start.value, nowMs, OfficialInProgress, false, true)
        case Completed =>
          if end.None? then Disabled(OfficialWindow, MissingOfficialEnd, OfficialInvariantViolation)
          else Enabled(OfficialWindow, start.value, end.value, OfficialCompleted, false, false)
        case Closed =>
          if end.None? then Disabled(OfficialWindow, MissingOfficialEnd, OfficialInvariantViolation)
          else Enabled(OfficialWindow, start.value, end.value, OfficialCompleted, false, false)
        case Aborted =>
          var clamp := ParseIso(row.abortedAt).Else(end);
          Enabled(OfficialWindow, start.value, clamp.GetOr(nowMs), OfficialAborted, true, clamp.None?)
        case _ => // a pre-measuring status
          Enabled(OfficialWindow, start.value, nowMs, OfficialInProgress, false, true)
  }

  function FullTestWindow(active: Option<WireRow>, nowMs: int): Window {
    if active.None? then Disabled(FullTest, NoActiveTest, FullTestBadge)
    else if active.value.connectedAt.Absent? && active.value.stabilizationStartedAt.Absent? then
      Disabled(FullTest, NotConnected, FullTestBadge)
    else
      var row := active.value;
      var start := ParseIso(row.connectedAt)
                   .Else(ParseIso(row.stabilizationStartedAt)).Else(ParseIso(row.officialStartedAt));
      if start.None? then Disabled(FullTest, NoValidStart, FullTestBadge)
      else
        var end := ParseIso(row.disconnectedAt).Else(ParseIso(row.officialEndedAt));
        Enabled(FullTest, start.value, end.GetOr(nowMs), FullTestBadge, row.status.Aborted?, end.None?)
  }

  function Derive(active: Option<WireRow>, pill: Pill, nowMs: int): Window {
    match pill
    case LastHour => Enabled(LastHour, nowMs - ONE_HOUR_MS, nowMs, Diagnostic, false, true)
    case Stabilization => StabilizationWindow(active, nowMs)
    case OfficialWindow => OfficialWindowOf(active, nowMs)
    case FullTest => FullTestWindow(active, nowMs)
  }

  function DefaultPill(active: Option<WireRow>): Pill {
    if active.None? then LastHour
    else match active.value.status
      case Measuring => OfficialWindow
      case Completed => OfficialWindow
      case Closed => OfficialWindow
      case Stabilizing => Stabilization
      case Aborted => if active.value.officialStartedAt.Absent? then LastHour else OfficialWindow
      case Scheduled => LastHour
      case Connected => LastHour
  }

  // -------------------------------------------------------------------------
  // From the service's rows to windows
  // -------------------------------------------------------------------------

  function ToStamp(t: Option<int>): Stamp { if t.Some? then At(t.value) else Absent }

  function ToWire(row: Row): WireRow {
    WireRow(row.status, ToStamp(row.connectedAt), ToStamp(row.stabilizationStartedAt),
            ToStamp(row.stabilizationEndedAt), ToStamp(row.officialStartedAt),
            ToStamp(row.officialEndedAt), ToStamp(row.disconnectedAt), ToStamp(row.abortedAt))
  }

  // What the hook derives at `nowMs` from the row of test `id` after the calls.
  function Shown(calls: seq<Call>, id: string, pill: Pill, nowMs: int): Window
    requires id in Run(calls)
  {
    Derive(Some(ToWire(Run(calls)[id])), pill, nowMs)
  }

  predicate WithinBy(inner: Window, outer: Window, slack: int)
    requires inner.Enabled?
  {
    outer.Enabled? && outer.fromMs <= inner.fromMs && inner.toMs <= outer.toMs + slack
  }

  lemma RowWindowsAreWellFormed(row: Row, nowMs: int)
    requires ShapeFits(row) && FullChain(row) && NoLaterThan(row, nowMs)
    ensures forall pill :: var w := Derive(Some(ToWire(row)), pill, nowMs); w.Enabled? ==> w.fromMs <= w.toMs
    ensures var stab, off := StabilizationWindow(Some(ToWire(row)), nowMs), OfficialWindowOf(Some(ToWire(row)), nowMs);
            && (row.officialStartedAt.Some? ==> stab.Enabled? && off.Enabled? && stab.toMs == off.fromMs)
            && (stab.Enabled? ==> WithinBy(stab, FullTestWindow(Some(ToWire(row)), nowMs), 0))
            && (off.Enabled? ==> WithinBy(off, FullTestWindow(Some(ToWire(row)), nowMs), 0))
  {
  }

  /** No window is inverted, the two phases abut, and both lie inside Full Test. */
  lemma WindowsAreWellFormed(calls: seq<Call>, id: string, nowMs: int)
    requires ClockNeverGoesBack(calls) && id in Run(calls) && NoLaterThan(Run(calls)[id], nowMs)
    ensures forall pill :: Shown(calls, id, pill, nowMs).Enabled? ==>
                             Shown(calls, id, pill, nowMs).fromMs <= Shown(calls, id, pill, nowMs).toMs
    ensures var stab, off := Shown(calls, id, Stabilization, nowMs), Shown(calls, id, OfficialWindow, nowMs);
            Run(calls)[id].officialStartedAt.Some? ==> stab.Enabled? && off.Enabled? && stab.toMs == off.fromMs
    ensures forall pill | pill in {Stabilization, OfficialWindow} && Shown(calls, id, pill, nowMs).Enabled?
              :: WithinBy(Shown(calls, id, pill, nowMs), Shown(calls, id, FullTest, nowMs), 0)
  {
    ReachableInvariant(calls);
    MonotoneClockGivesFullChain(calls);
    RowWindowsAreWellFormed(Run(calls)[id], nowMs);
  }

  lemma QuantizeRoundsDown(nowMs: int)
    ensures nowMs - CACHE_BUCKET_MS < Quantize(nowMs) <= nowMs
  {
  }

  lemma RowInversionIsUnder15s(row: Row, nowMs: int, q: int)
    requires ShapeFits(row) && FullChain(row) && NoLaterThan(row, nowMs)
    requires nowMs - CACHE_BUCKET_MS < q <= nowMs
    ensures forall pill :: var w := Derive(Some(ToWire(row)), pill, q);
                           w.Enabled? ==> w.fromMs - w.toMs < CACHE_BUCKET_MS
    ensures var stab, off := StabilizationWindow(Some(ToWire(row)), q), OfficialWindowOf(Some(ToWire(row)), q);
            && (stab.Enabled? ==> WithinBy(stab, FullTestWindow(Some(ToWire(row)), q), CACHE_BUCKET_MS - 1))
            && (off.Enabled? ==> WithinBy(off, FullTestWindow(Some(ToWire(row)), q), CACHE_BUCKET_MS - 1))
  {
  }

  /** The hook reads a clock rounded down to 15 s: an inversion, or a phase sticking out of
      Full Test, is then always under 15 000 ms. */
  lemma QuantisedInversionIsUnder15s(calls: seq<Call>, id: string, nowMs: int)
    requires ClockNeverGoesBack(calls) && id in Run(calls) && NoLaterThan(Run(calls)[id], nowMs)
    ensures forall pill :: var w := Shown(calls, id, pill, Quantize(nowMs));
                           w.Enabled? ==> w.fromMs - w.toMs < CACHE_BUCKET_MS
    ensures forall pill | pill in {Stabilization, OfficialWindow} && Shown(calls, id, pill, Quantize(nowMs)).Enabled?
              :: WithinBy(Shown(calls, id, pill, Quantize(nowMs)), Shown(calls, id, FullTest, Quantize(nowMs)),
                          CACHE_BUCKET_MS - 1)
  {
    ReachableInvariant(calls);
    MonotoneClockGivesFullChain(calls);
    QuantizeRoundsDown(nowMs);
    RowInversionIsUnder15s(Run(calls)[id], nowMs, Quantize(nowMs));
  }

  /** ... and the bound is met: connected 1 ms before the end of a bucket, viewed at once. */
  lemma QuantisedInversionReaches14999(plan: TestPlan) returns (calls: seq<Call>)
    ensures ClockNeverGoesBack(calls) && "t" in Run(calls) && NoLaterThan(Run(calls)["t"], 14999)
    ensures var w := Shown(calls, "t", FullTest, Quantize(14999)); w.Enabled? && w.fromMs - w.toMs == 14999
  {
    calls := [Created(plan), Moved(Connect, 14999)];
    OneByOne([], Created(plan));
    OneByOne([Created(plan)], Moved(Connect, 14999));
  }

  // What inverts the window of a pill, read off the row and the viewer's clock.
  predicate InvertedFor(row: Row, pill: Pill, nowMs: int) {
    match pill
    case LastHour => false
    case Stabilization =>
      row.officialStartedAt.None? && row.stabilizationStartedAt.Some? && nowMs < row.stabilizationStartedAt.value
    case OfficialWindow =>
      && row.officialStartedAt.Some?
      && ((row.status.Measuring? && nowMs < row.officialStartedAt.value)
          || (row.status.Aborted? && row.abortedAt.GetOr(nowMs) < row.officialStartedAt.value))
    case FullTest =>
      && row.connectedAt.Some?
      && ((row.disconnectedAt.Some? && row.disconnectedAt.value < row.connectedAt.value)
          || (row.officialEndedAt.None? && nowMs < row.connectedAt.value))
  }

  lemma RowInvertedExactlyWhen(row: Row, pill: Pill, nowMs: int)
    requires ShapeFits(row) && OrderFits(row)
    ensures var w := Derive(Some(ToWire(row)), pill, nowMs);
            (w.Enabled? && w.toMs < w.fromMs) <==> InvertedFor(row, pill, nowMs)
  {
  }

  /** Without any assumption on the clocks: exactly when a pill's window is inverted. Only a viewer behind
      the start of a window that still ends at the viewer's clock, an abort stamped too early, or a
      disconnection stamped before the connection can do it. */
  lemma WindowInvertedExactlyWhen(calls: seq<Call>, id: string, pill: Pill, nowMs: int)
    requires id in Run(calls)
    ensures var w := Shown(calls, id, pill, nowMs);
            (w.Enabled? && w.toMs < w.fromMs) <==> InvertedFor(Run(calls)[id], pill, nowMs)
  {
    ReachableInvariant(calls);
    RowInvertedExactlyWhen(Run(calls)[id], pill, nowMs);
  }

  // What makes a phase end after Full Test does, read off the row and the viewer's clock.
  predicate OverhangsFor(row: Row, pill: Pill, nowMs: int) {
    if pill.Stabilization? then
      && row.officialStartedAt.Some?
      && ((row.disconnectedAt.Some? && row.disconnectedAt.value < row.officialStartedAt.value)
          || (row.officialEndedAt.None? && nowMs < row.officialStartedAt.value))
    else
      || (row.disconnectedAt.Some? && row.officialEndedAt.Some?
          && row.disconnectedAt.value < row.officialEndedAt.value)
      || (row.status.Aborted? && row.officialStartedAt.Some? && nowMs < row.abortedAt.GetOr(nowMs))
  }

  lemma RowOverhangsExactlyWhen(row: Row, pill: Pill, nowMs: int)
    requires ShapeFits(row) && OrderFits(row) && pill in {Stabilization, OfficialWindow}
    ensures var w, full := Derive(Some(ToWire(row)), pill, nowMs), FullTestWindow(Some(ToWire(row)), nowMs);
            w.Enabled? ==> full.Enabled? && full.fromMs <= w.fromMs
    ensures var w, full := Derive(Some(ToWire(row)), pill, nowMs), FullTestWindow(Some(ToWire(row)), nowMs);
            (w.Enabled? && !WithinBy(w, full, 0)) <==> OverhangsFor(row, pill, nowMs)
  {
  }

  /** Without any assumption on the clocks: a phase never begins before Full Test, and exactly when it ends
      after it; and Stabilization always ends where the Official Window begins. */
  lemma PhaseOverhangsExactlyWhen(calls: seq<Call>, id: string, pill: Pill, nowMs: int)
    requires id in Run(calls) && pill in {Stabilization, OfficialWindow}
    ensures var w, full := Shown(calls, id, pill, nowMs), Shown(calls, id, FullTest, nowMs);
            w.Enabled? ==> full.Enabled? && full.fromMs <= w.fromMs
    ensures var w, full := Shown(calls, id, pill, nowMs), Shown(calls, id, FullTest, nowMs);
            (w.Enabled? && !WithinBy(w, full, 0)) <==> OverhangsFor(Run(calls)[id], pill, nowMs)
    ensures var stab, off := Shown(calls, id, Stabilization, nowMs), Shown(calls, id, OfficialWindow, nowMs);
            Run(calls)[id].officialStartedAt.Some? ==> stab.Enabled? && off.Enabled? && stab.toMs == off.fromMs
  {
    ReachableInvariant(calls);
    RowOverhangsExactlyWhen(Run(calls)[id], pill, nowMs);
  }

  /** ... and it happens under the hook's rounded clock, by as much as it can: the official window started
      1 ms before the end of a bucket, viewed at once. */
  lemma StabilizationOverhangs14999(plan: TestPlan) returns (calls: seq<Call>)
    ensures ClockNeverGoesBack(calls) && "t" in Run(calls) && NoLaterThan(Run(calls)["t"], 14999)
    ensures Shown(calls, "t", Stabilization, Quantize(14999)) ==
            Enabled(Stabilization, 0, 14999, StabilizationPhase, false, false)
    ensures Shown(calls, "t", FullTest, Quantize(14999)) == Enabled(FullTest, 0, 0, FullTestBadge, false, true)
  {
    var before := [Created(plan), Moved(Connect, 0)];
    calls := before + [Moved(StartStabilization, 0)] + [Moved(StartOfficial, 14999)];
    OneByOne([], Created(plan));
    OneByOne([Created(plan)], Moved(Connect, 0));
    OneByOne(before, Moved(StartStabilization, 0));
    OneByOne(before + [Moved(StartStabilization, 0)], Moved(StartOfficial, 14999));
  }

  /** The default pill is never disabled, with or without an active test, and it is the furthest phase
      on show: the Official Window whenever that is enabled, else Stabilization while stabilizing, else
      Last Hour. */
  lemma DefaultPillIsEnabled(calls: seq<Call>, id: string, nowMs: int)
    requires id in Run(calls)
    ensures Shown(calls, id, DefaultPill(Some(ToWire(Run(calls)[id]))), nowMs).Enabled?
    ensures Derive(None, DefaultPill(None), nowMs).Enabled?
    ensures var pill := DefaultPill(Some(ToWire(Run(calls)[id])));
            && (pill.OfficialWindow? <==> Shown(calls, id, OfficialWindow, nowMs).Enabled?)
            && (pill.Stabilization? <==> && Shown(calls, id, Stabilization, nowMs).Enabled?
                                         && Shown(calls, id, OfficialWindow, nowMs).Disabled?
                                         && !Shown(calls, id, FullTest, nowMs).aborted)
            && (!pill.OfficialWindow? && !pill.Stabilization? ==> pill.LastHour?)
    ensures DefaultPill(None).LastHour?
  {
    ReachableInvariant(calls);
  }

  /** On reachable rows a pill is disabled only because its phase has not begun: the invalid-timestamp
      and missing-end branches are dead, and the in-progress badge means `measuring`. */
  lemma DefensiveBranchesAreUnreachable(calls: seq<Call>, id: string, pill: Pill, nowMs: int)
    requires id in Run(calls)
    ensures var row, w := Run(calls)[id], Shown(calls, id, pill, nowMs);
            && (w.Disabled? <==> || (pill.Stabilization? && row.stabilizationStartedAt.None?)
                                 || (pill.OfficialWindow? && row.officialStartedAt.None?)
                                 || (pill.FullTest? && row.connectedAt.None?))
            && (w.Disabled? ==> w.reason == match pill
                                  case Stabilization => StabilizationNotStarted
                                  case OfficialWindow => OfficialNotStarted
                                  case _ => NotConnected)
            && (w.badge == OfficialInProgress <==> pill.OfficialWindow? && row.status.Measuring?)
            && (w.badge == OfficialBadge <==> pill.OfficialWindow? && row.officialStartedAt.None?)
            && (w.badge == Diagnostic <==> pill.LastHour?)
            && (w.badge == StabilizationPhase <==> pill.Stabilization?)
            && (w.badge == FullTestBadge <==> pill.FullTest?)
            && (w.Enabled? ==> (w.aborted <==> row.status.Aborted? && pill in {OfficialWindow, FullTest}))
            && w.pill == pill
            && (w.badge == OfficialCompleted <==> pill.OfficialWindow? && row.status in {Completed, Closed})
            && (w.badge == OfficialAborted <==>
                pill.OfficialWindow? && row.status.Aborted? && row.officialStartedAt.Some?)
            && w.badge != OfficialInvariantViolation
            && (w.Enabled? && w.badge == OfficialAborted ==> !w.endsAtNow)
  {
    ReachableInvariant(calls);
  }

  /** Without an active test the hook offers Last Hour alone, and says why not the others. */
  lemma NoTestNoWindows(pill: Pill, nowMs: int)
    ensures Derive(None, pill, nowMs) ==
            match pill
            case LastHour => Enabled(LastHour, nowMs - 3_600_000, nowMs, Diagnostic, false, true)
            case Stabilization => Disabled(Stabilization, StabilizationNotStarted, StabilizationPhase)
            case OfficialWindow => Disabled(OfficialWindow, NoActiveTest, OfficialBadge)
            case FullTest => Disabled(FullTest, NoActiveTest, FullTestBadge)
  {
  }

  /** On any row off the wire, also one no run produces: a phase whose start does not parse is disabled as
      invalid, a finished test whose official end does not parse violates the invariant, and an official
      start before `measuring` counts as in progress. Nothing else is disabled but what has not begun. */
  lemma DefensiveBranchesAreExact(row: WireRow, nowMs: int)
    ensures var w := Derive(Some(row), Stabilization, nowMs);
            && (w.Enabled? <==> row.stabilizationStartedAt.At?)
            && (w.Disabled? ==> w.reason == if row.stabilizationStartedAt.Absent? then StabilizationNotStarted
                                            else InvalidStabilizationStart)
            && (w.Enabled? ==> w.fromMs == row.stabilizationStartedAt.ms)
    ensures var w := Derive(Some(row), OfficialWindow, nowMs);
            var unended := row.status in {Completed, Closed} && !row.officialEndedAt.At?;
            && (w.Enabled? <==> row.officialStartedAt.At? && !unended)
            && (w.Disabled? ==> w.reason == if row.officialStartedAt.Absent? then OfficialNotStarted
                                            else if row.officialStartedAt.Unparseable? then InvalidOfficialStart
                                            else MissingOfficialEnd)
            && (w.badge == OfficialInvariantViolation <==> row.officialStartedAt.At? && unended)
            && (w.Enabled? ==> w.fromMs == row.officialStartedAt.ms)
            && (w.Enabled? && row.status in {Scheduled, Connected, Stabilizing, Measuring} ==>
                  w.toMs == nowMs && w.badge == OfficialInProgress && w.endsAtNow)
    ensures var w := Derive(Some(row), FullTest, nowMs);
            && (w.Enabled? <==> row.connectedAt.At? || row.stabilizationStartedAt.At?
                                || (row.officialStartedAt.At?
                                    && !(row.connectedAt.Absent? && row.stabilizationStartedAt.Absent?)))
            && (w.Disabled? ==> w.reason == if row.connectedAt.Absent? && row.stabilizationStartedAt.Absent?
                                            then NotConnected else NoValidStart)
            && (w.Enabled? && row.connectedAt.At? ==> w.fromMs == row.connectedAt.ms)
            && (w.Enabled? && !row.connectedAt.At? && row.stabilizationStartedAt.At? ==>
                  w.fromMs == row.stabilizationStartedAt.ms)
  {
  }

  lemma LaterRowHasSameOfficialWindow(row: Row, later: Row, nowMs: int, laterMs: int)
    requires ShapeFits(row) && ShapeFits(later) && Extends(row, later)
    requires row.status in {Completed, Closed, Aborted}
    ensures OfficialWindowOf(Some(ToWire(row)), nowMs) == OfficialWindowOf(Some(ToWire(later)), laterMs)
  {
  }

  /** Once completed (or aborted) the Official Window is the same in every later state and at every moment. */
  lemma OfficialWindowIsFrozen(calls: seq<Call>, k: nat, id: string, nowMs: int, laterMs: int)
    requires k <= |calls| && id in Run(calls[..k])
    requires Run(calls[..k])[id].status in {Completed, Closed, Aborted}
    ensures id in Run(calls)
    ensures Shown(calls[..k], id, OfficialWindow, nowMs) == Shown(calls, id, OfficialWindow, laterMs)
  {
    TimestampsAreWriteOnce(calls, k, id);
    ReachableInvariant(calls[..k]);
    ReachableInvariant(calls);
    LaterRowHasSameOfficialWindow(Run(calls[..k])[id], Run(calls)[id], nowMs, laterMs);
  }

  predicate SettledFor(row: Row, pill: Pill) {
    match pill
    case LastHour => false
    case Stabilization => row.stabilizationStartedAt.None? || row.officialStartedAt.Some?
    case OfficialWindow => !row.status.Measuring?
    case FullTest => row.connectedAt.None? || row.officialEndedAt.Some?
  }

  /** Exactly which windows stand still while the clock runs. An aborted test's Full Test window, and
      its Stabilization window when aborted while stabilizing, keep growing for ever. */
  lemma WindowStandsStillExactlyWhenSettled(calls: seq<Call>, id: string, pill: Pill)
    requires id in Run(calls)
    ensures (forall a, b :: Shown(calls, id, pill, a) == Shown(calls, id, pill, b)) <==>
            SettledFor(Run(calls)[id], pill)
    ensures Shown(calls, id, pill, 0).Enabled? ==>
              (Shown(calls, id, pill, 0).endsAtNow <==> !SettledFor(Run(calls)[id], pill))
    ensures Run(calls)[id].status.Aborted? && Run(calls)[id].connectedAt.Some? ==> !SettledFor(Run(calls)[id], FullTest)
  {
    ReachableInvariant(calls);
    if !SettledFor(Run(calls)[id], pill) {
      assert Shown(calls, id, pill, 0).toMs == 0 && Shown(calls, id, pill, 1).toMs == 1;
    }
  }

  /** ... and both happen: a test connected at 1 and aborted at 2 ... */
  lemma AbortedFullTestGrows(plan: TestPlan, nowMs: int) returns (calls: seq<Call>)
    ensures ClockNeverGoesBack(calls) && "t" in Run(calls)
    ensures Run(calls)["t"].status.Aborted? && Run(calls)["t"].connectedAt.Some?
    ensures Shown(calls, "t", FullTest, nowMs) == Enabled(FullTest, 1, nowMs, FullTestBadge, true, true)
  {
    var before := [Created(plan), Moved(Connect, 1)];
    calls := before + [Moved(Abort("r"), 2)];
    OneByOne([], Created(plan));
    OneByOne([Created(plan)], Moved(Connect, 1));
    OneByOne(before, Moved(Abort("r"), 2));
  }

  /** ... and one aborted at 3 while stabilizing since 2. */
  lemma AbortedStabilizationGrows(plan: TestPlan, nowMs: int) returns (calls: seq<Call>)
    ensures ClockNeverGoesBack(calls) && "t" in Run(calls) && Run(calls)["t"].status.Aborted?
    ensures Shown(calls, "t", Stabilization, nowMs) == Enabled(Stabilization, 2, nowMs, StabilizationPhase, false, true)
  {
    var before := [Created(plan), Moved(Connect, 1)];
    calls := before + [Moved(StartStabilization, 2)] + [Moved(Abort("r"), 3)];
    OneByOne([], Created(plan));
    OneByOne([Created(plan)], Moved(Connect, 1));
    OneByOne(before, Moved(StartStabilization, 2));
    OneByOne(before + [Moved(StartStabilization, 2)], Moved(Abort("r"), 3));
  }

  // The bucketed request the trend client makes for a window.
  predicate AsksFor(q: BucketedTrends.Query, w: Window) {
    && w.Enabled? && q.from == w.fromMs * 1000 && q.to == w.toMs * 1000
    && BucketedTrends.PolicyForWidth(w.toMs - w.fromMs) == Some(q.bucket)
  }

  // Where a connected row's Full Test ends.
  function FullTestEnd(row: Row, nowMs: int): int {
    row.disconnectedAt.Else(row.officialEndedAt).GetOr(nowMs)
  }

  lemma RowFullTest(row: Row, nowMs: int)
    requires ShapeFits(row) && row.connectedAt.Some?
    ensures FullTestWindow(Some(ToWire(row)), nowMs) ==
            Enabled(FullTest, row.connectedAt.value, FullTestEnd(row, nowMs), FullTestBadge, row.status.Aborted?,
                    row.officialEndedAt.None?)
    ensures IsActive(row.status) ==> FullTestEnd(row, nowMs) == nowMs
  {
  }

  /** The Full Test trend of any test that was ever connected is refused exactly when the window is wider
      than 1500 quarter-hours: for an active test, once that much time has passed since the connection. */
  lemma FullTestTrendIsRefusedExactlyWhen(calls: seq<Call>, id: string, nowMs: int, q: BucketedTrends.Query)
    requires id in Run(calls) && Run(calls)[id].connectedAt.Some?
    requires AsksFor(q, Shown(calls, id, FullTest, nowMs))
    ensures var row := Run(calls)[id];
            && (!BucketedTrends.Accepted(q) <==>
                FullTestEnd(row, nowMs) > row.connectedAt.value + 1500 * 15 * 60 * 1000)
            && (IsActive(row.status) ==> FullTestEnd(row, nowMs) == nowMs)
  {
    ReachableInvariant(calls);
    RowFullTest(Run(calls)[id], nowMs);
    BucketedTrends.PolicyIsAcceptedExactlyWhen(q);
  }

  /** ... and it happens: a test connected at 0 and left so for a millisecond more than that. */
  lemma LongConnectedTestIsRefused(plan: TestPlan, q: BucketedTrends.Query) returns (calls: seq<Call>, nowMs: int)
    ensures ClockNeverGoesBack(calls) && "t" in Run(calls) && IsActive(Run(calls)["t"].status)
    ensures AsksFor(q, Shown(calls, "t", FullTest, nowMs)) <==>
            q.from == 0 && q.to == 1_350_000_001_000 && q.bucket == BucketedTrends.FifteenMinutes
    ensures AsksFor(q, Shown(calls, "t", FullTest, nowMs)) ==> !BucketedTrends.Accepted(q)
  {
    calls, nowMs := [Created(plan), Moved(Connect, 0)], 1_350_000_001;
    OneByOne([], Created(plan));
    OneByOne([Created(plan)], Moved(Connect, 0));
  }

  /** Last Hour is the widest window the trend client still asks for in raw mode. */
  lemma LastHourIsTheWidestRawWindow(active: Option<WireRow>, nowMs: int)
    ensures var w := Derive(active, LastHour, nowMs);
            && w.Enabled? && w.toMs == nowMs
            && BucketedTrends.PolicyForWidth(w.toMs - w.fromMs).None?
            && BucketedTrends.PolicyForWidth(w.toMs - w.fromMs + 1).Some?
  {
  }
}
