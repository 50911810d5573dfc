/**
 Where a row's columns come from, and what each call answers, told by the calls of the run and by
 timestamps alone: a milestone is a column that is set, and nothing here asks for the status.
 */
module WellTestHistory {
  import opened Prelude
  import opened WellTests
  import opened WellTestWindow

  // -------------------------------------------------------------------------
  // Calls and columns
  // -------------------------------------------------------------------------

  // Call i succeeded, on `id`.
  predicate Did(calls: seq<Call>, i: int, id: string) {
    0 <= i < |calls| && calls[i].id == id && Answer(Run(calls[..i]), calls[i]).Ok?
  }

  predicate SameKind(a: Transition, b: Transition) {
    match a
    case Connect => b.Connect?
    case StartStabilization => b.StartStabilization?
    case StartOfficial => b.StartOfficial?
    case EndOfficial => b.EndOfficial?
    case Abort(_) => b.Abort?
    case Close(_) => b.Close?
  }

  // Call i is a successful transition of that kind.
  predicate DidStep(calls: seq<Call>, i: int, id: string, t: Transition) {
    Did(calls, i, id) && calls[i].TransitionCall? && SameKind(calls[i].transition, t)
  }

  // The column that records a transition.
  function Stamp(row: Row, t: Transition): Option<int> {
    match t
    case Connect => row.connectedAt
    case StartStabilization => row.stabilizationStartedAt
    case StartOfficial => row.officialStartedAt
    case EndOfficial => row.officialEndedAt
    case Abort(_) => row.abortedAt
    case Close(_) => row.disconnectedAt
  }

  lemma DidBefore(calls: seq<Call>, i: int, id: string)
    requires 0 <= i < |calls| - 1
    ensures Did(calls[..|calls| - 1], i, id) <==> Did(calls, i, id)
  {
    assert calls[..|calls| - 1][..i] == calls[..i];
  }

  lemma StepStamps(db: Table, c: Call, t: Transition)
    requires c.TransitionCall? && Answer(db, c).Ok?
    ensures c.id in db
    ensures Stamp(Answer(db, c).value, t) == if SameKind(c.transition, t) then Some(c.now) else Stamp(db[c.id], t)
    ensures c.transition.StartOfficial? ==> Answer(db, c).value.stabilizationEndedAt == Some(c.now)
    ensures c.transition.Abort? ==> Answer(db, c).value.abortReason == Some(c.transition.reason)
    ensures c.transition.Close? ==>
              Answer(db, c).value.reportGeneratedAt == c.transition.reportGeneratedAt.Else(db[c.id].reportGeneratedAt)
  {
  }

  // A row that can be closed has no report yet, and a closed row never changes again.
  lemma CloseSetsTheReport(db: Table, c: Call)
    requires Invariant(db) && c.TransitionCall? && c.transition.Close? && Answer(db, c).Ok?
    ensures Answer(db, c).value.reportGeneratedAt == c.transition.reportGeneratedAt
    ensures Answer(db, c).value.status.Closed?
  {
  }

  /** Every set timestamp is the clock of a successful call of its own kind ... */
  lemma {:induction false} StampComesFromItsCall(calls: seq<Call>, id: string, t: Transition) returns (i: int)
    requires id in Run(calls) && Stamp(Run(calls)[id], t).Some?
    ensures DidStep(calls, i, id, t) && Stamp(Run(calls)[id], t) == Some(calls[i].now)
  {
    var n := |calls| - 1;
    var before, c := Run(calls[..n]), calls[n];
    if c.TransitionCall? && Answer(before, c).Ok? {
      StepStamps(before, c, t);
    }
    if Did(calls, n, id) && c.TransitionCall? && SameKind(c.transition, t) {
      i := n;
    } else {
      i := StampComesFromItsCall(calls[..n], id, t);
      DidBefore(calls, i, id);
    }
  }

  /** ... and the clock of every successful call stands in its column at the end of the run, with the
      reason of an abort and the report of a close. */
  lemma SuccessLeavesItsStamp(calls: seq<Call>, i: int, id: string)
    requires Did(calls, i, id) && calls[i].TransitionCall?
    ensures id in Run(calls)
    ensures var row, c := Run(calls)[id], calls[i];
            && Stamp(row, c.transition) == Some(c.now)
            && (c.transition.StartOfficial? ==> row.stabilizationEndedAt == Some(c.now))
            && (c.transition.Abort? ==> row.abortReason == Some(c.transition.reason))
            && (c.transition.Close? ==> row.reportGeneratedAt == c.transition.reportGeneratedAt)
  {
    var before, c := Run(calls[..i]), calls[i];
    assert calls[..i + 1][..i] == calls[..i];
    ReachableInvariant(calls[..i]);
    StepStamps(before, c, c.transition);
    TimestampsAreWriteOnce(calls, i + 1, id);
    if c.transition.Close? {
      CloseSetsTheReport(before, c);
      ReachableInvariant(calls[..i + 1]);
    }
  }

  /** So an abort reason, or a report, is there only because a successful abort, or close, gave it. */
  lemma ReasonAndReportAreGiven(calls: seq<Call>, id: string)
    requires id in Run(calls)
    ensures var row := Run(calls)[id];
            && (row.stabilizationEndedAt == row.officialStartedAt)
            && (row.abortReason.Some? ==>
                  exists i :: DidStep(calls, i, id, Abort("")) && row.abortReason == Some(calls[i].transition.reason))
            && (row.reportGeneratedAt.Some? ==>
                  exists i :: DidStep(calls, i, id, Close(None))
                              && row.reportGeneratedAt == calls[i].transition.reportGeneratedAt)
  {
    ReachableInvariant(calls);
    var row := Run(calls)[id];
    if row.abortReason.Some? {
      var i := StampComesFromItsCall(calls, id, Abort(""));
      SuccessLeavesItsStamp(calls, i, id);
    }
    if row.reportGeneratedAt.Some? {
      var i := StampComesFromItsCall(calls, id, Close(None));
      SuccessLeavesItsStamp(calls, i, id);
    }
  }

  // -------------------------------------------------------------------------
  // Identity, plan and notes
  // -------------------------------------------------------------------------

  // Field by field; only an empty client reference is not kept.
  predicate IsPlanOf(stored: TestPlan, asked: TestPlan) {
    && stored.testType == asked.testType && stored.reportType == asked.reportType
    && stored.plannedHours == asked.plannedHours
    && stored.clientReference.GetOr("") == asked.clientReference.GetOr("") && stored.clientReference != Some("")
  }

  // The columns a create call gives a row for good.
  ghost predicate IsOfCreate(row: Row, c: Call) {
    && c.CreateCall? && c.job.Some?
    && row.tenant == c.job.value.tenant && row.job == c.input.job && row.createdAt == c.createdAt
    && row.well == c.input.well == c.job.value.well && row.unit == c.input.unit == c.job.value.unit
    && IsPlanOf(row.plan, c.input.plan)
  }

  lemma CreateMakesTheRow(db: Table, c: Call)
    requires c.CreateCall? && Answer(db, c).Ok?
    ensures c.id !in db && IsOfCreate(Answer(db, c).value, c)
  {
  }

  lemma TransitionKeepsTheRow(db: Table, c: Call, made: Call)
    requires c.TransitionCall? && Answer(db, c).Ok? && c.id in db && IsOfCreate(db[c.id], made)
    ensures IsOfCreate(Answer(db, c).value, made)
  {
  }

  lemma {:induction false} StaysKnown(calls: seq<Call>, i: int, id: string)
    requires Did(calls, i, id)
    ensures id in Run(calls)
  {
    assert calls[..i + 1][..i] == calls[..i];
    TimestampsAreWriteOnce(calls, i + 1, id);
  }

  /** Every row was made by one successful create of its id, and keeps that call's tenant, job, well, unit
      and plan. */
  lemma {:induction false} RowComesFromItsCreate(calls: seq<Call>, id: string) returns (i: int)
    requires id in Run(calls)
    ensures Did(calls, i, id) && IsOfCreate(Run(calls)[id], calls[i])
    ensures forall j :: Did(calls, j, id) && calls[j].CreateCall? ==> j == i
  {
    var n := |calls| - 1;
    var before, c := Run(calls[..n]), calls[n];
    if id !in before {
      i := n;
      CreateMakesTheRow(before, c);
      forall j | Did(calls, j, id) && calls[j].CreateCall?
        ensures j == n
      {
        if j < n {
          DidBefore(calls, j, id);
          StaysKnown(calls[..n], j, id);
        }
      }
    } else {
      i := RowComesFromItsCreate(calls[..n], id);
      DidBefore(calls, i, id);
      if Did(calls, n, id) {
        TransitionKeepsTheRow(before, c, calls[i]);
      }
      forall j | Did(calls, j, id) && calls[j].CreateCall?
        ensures j == i
      {
        if j < n {
          DidBefore(calls, j, id);
        }
      }
    }
  }

  function NotesOf(c: Call): Option<string> {
    if c.CreateCall? then c.input.notes else c.notes
  }

  // The call brings notes that are not empty.
  predicate Notes(c: Call) { NotesOf(c).Some? && NotesOf(c).value != "" }

  // Call i is the last successful one on `id` that brought notes.
  ghost predicate LastToNote(calls: seq<Call>, i: int, id: string) {
    Did(calls, i, id) && Notes(calls[i]) && forall j :: i < j < |calls| && Did(calls, j, id) ==> !Notes(calls[j])
  }

  ghost predicate NobodyNotes(calls: seq<Call>, id: string) {
    forall i :: Did(calls, i, id) ==> !Notes(calls[i])
  }

  lemma AnswerNotes(db: Table, c: Call)
    requires Answer(db, c).Ok?
    ensures Answer(db, c).value.notes ==
            if Notes(c) then NotesOf(c) else if c.id in db then db[c.id].notes else None
  {
  }

  lemma NobodyNotesOneMore(calls: seq<Call>, id: string)
    requires calls != []
    requires forall i :: Did(calls[..|calls| - 1], i, id) ==> !Notes(calls[i])
    requires Did(calls, |calls| - 1, id) ==> !Notes(calls[|calls| - 1])
    ensures NobodyNotes(calls, id)
  {
    forall i | Did(calls, i, id)
      ensures !Notes(calls[i])
    {
      if i < |calls| - 1 {
        DidBefore(calls, i, id);
      }
    }
  }

  lemma LastToNoteOneMore(calls: seq<Call>, i: int, id: string)
    requires calls != [] && LastToNote(calls[..|calls| - 1], i, id)
    requires Did(calls, |calls| - 1, id) ==> !Notes(calls[|calls| - 1])
    ensures LastToNote(calls, i, id)
  {
    DidBefore(calls, i, id);
    forall j | i < j < |calls| && Did(calls, j, id)
      ensures !Notes(calls[j])
    {
      if j < |calls| - 1 {
        DidBefore(calls, j, id);
      }
    }
  }

  lemma NobodyDid(calls: seq<Call>, id: string)
    requires id !in Run(calls)
    ensures forall i :: !Did(calls, i, id)
  {
    forall i
      ensures !Did(calls, i, id)
    {
      if Did(calls, i, id) {
        StaysKnown(calls, i, id);
      }
    }
  }

  /** A row's notes are the last non-empty ones a successful call brought, and none if none did. */
  lemma {:induction false} NotesAreTheLastGiven(calls: seq<Call>, id: string) returns (i: int)
    requires id in Run(calls)
    ensures Run(calls)[id].notes.None? ==> NobodyNotes(calls, id)
    ensures Run(calls)[id].notes.Some? ==> LastToNote(calls, i, id) && Run(calls)[id].notes == NotesOf(calls[i])
  {
    var n := |calls| - 1;
    var before, c := Run(calls[..n]), calls[n];
    i := n;
    if Answer(before, c).Ok? {
      AnswerNotes(before, c);
    }
    if !(Did(calls, n, id) && Notes(c)) {
      if id in before {
        i := NotesAreTheLastGiven(calls[..n], id);
      } else {
        NobodyDid(calls[..n], id);
      }
      if Run(calls)[id].notes.Some? {
        LastToNoteOneMore(calls, i, id);
      } else {
        NobodyNotesOneMore(calls, id);
      }
    }
  }

  // -------------------------------------------------------------------------
  // One open test per unit
  // -------------------------------------------------------------------------

  // Connected, and neither ended nor aborted.
  predicate IsOpen(row: Row) {
    row.connectedAt.Some? && row.officialEndedAt.None? && row.abortedAt.None?
  }

  predicate Visible(ctx: Option<string>, tenant: string) { ctx.None? || ctx.value == "" || ctx.value == tenant }

  lemma OpenMeansActive(row: Row)
    requires ShapeFits(row)
    ensures IsOpen(row) <==> IsActive(row.status)
  {
  }

  /** In every run, at most one test of a tenant's unit is connected and neither ended nor aborted. */
  lemma OneOpenTestPerUnit(calls: seq<Call>, a: string, b: string)
    requires a in Run(calls) && b in Run(calls) && IsOpen(Run(calls)[a]) && IsOpen(Run(calls)[b])
    requires Run(calls)[a].tenant == Run(calls)[b].tenant && Run(calls)[a].unit == Run(calls)[b].unit
    ensures a == b
  {
    ReachableInvariant(calls);
    OpenMeansActive(Run(calls)[a]);
    OpenMeansActive(Run(calls)[b]);
  }

  predicate IsOpenFor(row: Row, ctx: Option<string>, unit: string) {
    Visible(ctx, row.tenant) && row.unit == unit && IsOpen(row)
  }

  // The newest open test of the unit the caller sees, if there is one.
  ghost predicate IsNewestOpen(db: Table, ctx: Option<string>, unit: string, r: Option<string>) {
    if r.None? then forall id :: id in db ==> !IsOpenFor(db[id], ctx, unit)
    else
      && r.value in db && IsOpenFor(db[r.value], ctx, unit)
      && forall id :: id in db && IsOpenFor(db[id], ctx, unit) ==> db[id].createdAt <= db[r.value].createdAt
  }

  /** `getActive` answers with the newest open test of the unit that the caller sees, and with none exactly
      when there is none; a caller with a tenant has no other to see. */
  lemma GetActiveReturnsTheOpenTest(calls: seq<Call>, ctx: Option<string>, unit: string, r: Option<string>)
    requires Finds(Run(calls), ctx, unit, r)
    ensures IsNewestOpen(Run(calls), ctx, unit, r)
    ensures forall id | r.Some? && ctx.Some? && ctx.value != "" && id in Run(calls)
              :: IsOpenFor(Run(calls)[id], ctx, unit) ==> Some(id) == r
  {
    var db := Run(calls);
    ReachableInvariant(calls);
    forall id | id in db
      ensures IsOpenFor(db[id], ctx, unit) <==> ActiveFor(db[id], ctx, unit)
    {
      OpenMeansActive(db[id]);
    }
  }

  // -------------------------------------------------------------------------
  // What each call answers
  // -------------------------------------------------------------------------

  // The transition is the row's next one: exactly the milestones before it are set.
  predicate IsNext(row: Row, t: Transition) {
    && row.abortedAt.None?
    && match t
       case Connect => row.connectedAt.None?
       case StartStabilization => row.connectedAt.Some? && row.stabilizationStartedAt.None?
       case StartOfficial => row.stabilizationStartedAt.Some? && row.officialStartedAt.None?
       case EndOfficial => row.officialStartedAt.Some? && row.officialEndedAt.None?
       case Abort(_) => row.officialEndedAt.None?
       case Close(_) => row.officialEndedAt.Some? && row.disconnectedAt.None?
  }

  // Another open test stands on the row's unit.
  ghost predicate UnitIsTaken(db: Table, id: string)
    requires id in db
  {
    exists o :: o in db && o != id && db[o].tenant == db[id].tenant && db[o].unit == db[id].unit && IsOpen(db[o])
  }

  // The clock stands before the milestone the transition follows.
  predicate IsEarly(row: Row, t: Transition, now: int) {
    match t
    case StartStabilization => row.connectedAt.Some? && now < row.connectedAt.value
    case StartOfficial => row.stabilizationStartedAt.Some? && now < row.stabilizationStartedAt.value
    case EndOfficial => row.officialStartedAt.Some? && now < row.officialStartedAt.value
    case _ => false
  }

  lemma NextMeansAllowed(row: Row, t: Transition)
    requires ShapeFits(row)
    ensures row.status in AllowedFrom(t) <==> IsNext(row, t)
  {
    match t {
      case Connect =>
      case StartStabilization =>
      case StartOfficial =>
      case EndOfficial =>
      case Abort(_) =>
      case Close(_) =>
    }
  }

  lemma TakenMeansOtherActive(db: Table, id: string)
    requires Invariant(db) && id in db
    ensures UnitIsTaken(db, id) <==> OtherActive(db, db[id].tenant, db[id].unit, id)
  {
    forall o | o in db
      ensures IsOpen(db[o]) <==> IsActive(db[o].status)
    {
      OpenMeansActive(db[o]);
    }
  }

  /** What a transition answers after any run: it succeeds exactly when the caller sees the row, it is the
      row's next one, no other open test stands on the unit of a test to be connected, and the clock is
      not early; else the first of these that fails gives the error. */
  lemma TransitionAnswersExactly(calls: seq<Call>, c: Call)
    requires c.TransitionCall?
    ensures var db, t := Run(calls), c.transition;
            var found := c.id in db && Visible(c.ctx, db[c.id].tenant);
            var free := found && IsNext(db[c.id], t) && !(t.Connect? && UnitIsTaken(db, c.id));
            var early := free && IsEarly(db[c.id], t, c.now);
            && (Answer(db, c).Ok? <==> free && !early)
            && (Answer(db, c) == Err(NotFound) <==> !found)
            && (Answer(db, c) == Err(Conflict) <==> found && !free)
            && (Answer(db, c) == Err(CheckViolation) <==> early && t.StartStabilization?)
            && (Answer(db, c) == Err(BadRequest) <==> early && !t.StartStabilization?)
  {
    var db := Run(calls);
    ReachableInvariant(calls);
    if c.id in db && Visible(c.ctx, db[c.id].tenant) {
      NextMeansAllowed(db[c.id], c.transition);
      TakenMeansOtherActive(db, c.id);
      if Admitted(c.transition, db[c.id], c.now) {
        StepFits(c.transition, db[c.id], c.notes, c.now);
      }
    }
  }

  /** What `create` answers: a row with no milestone exactly when the caller sees the job, its well and unit
      are those asked for, and the id is new. */
  lemma CreateAnswersExactly(calls: seq<Call>, c: Call)
    requires c.CreateCall?
    ensures var db := Run(calls);
            var found := c.job.Some? && Visible(c.ctx, c.job.value.tenant);
            var fits := found && c.job.value.well == c.input.well && c.job.value.unit == c.input.unit;
            && (Answer(db, c) == Err(NotFound) <==> !found)
            && (Answer(db, c) == Err(BadRequest) <==> found && !fits)
            && (Answer(db, c) == Err(DuplicateId) <==> fits && c.id in db)
            && (Answer(db, c).Ok? <==> fits && c.id !in db)
            && (Answer(db, c).Ok? ==> Answer(db, c).value.status.Scheduled? && Reached(Answer(db, c).value) == 0)
  {
  }

  // -------------------------------------------------------------------------
  // The windows, told by the calls
  // -------------------------------------------------------------------------

  // The clock of the successful call of that kind on `id`, if there was one.
  function TimeOf(calls: seq<Call>, id: string, t: Transition): Option<int> {
    if calls == [] then None
    else if DidStep(calls, |calls| - 1, id, t) then Some(calls[|calls| - 1].now)
    else TimeOf(calls[..|calls| - 1], id, t)
  }

  lemma UnknownBefore(calls: seq<Call>, id: string)
    requires calls != [] && id !in Run(calls)
    ensures id !in Run(calls[..|calls| - 1])
  {
  }

  lemma {:induction false} NobodyStepped(calls: seq<Call>, id: string, t: Transition)
    requires id !in Run(calls)
    ensures TimeOf(calls, id, t).None?
  {
    if calls != [] {
      NobodyDid(calls, id);
      UnknownBefore(calls, id);
      NobodyStepped(calls[..|calls| - 1], id, t);
    }
  }

  lemma {:induction false} StampIsTimeOfItsCall(calls: seq<Call>, id: string, t: Transition)
    requires id in Run(calls)
    ensures Stamp(Run(calls)[id], t) == TimeOf(calls, id, t)
  {
    var n := |calls| - 1;
    var before, c := Run(calls[..n]), calls[n];
    if c.TransitionCall? && Answer(before, c).Ok? {
      StepStamps(before, c, t);
    }
    if !DidStep(calls, n, id, t) {
      if id in before {
        StampIsTimeOfItsCall(calls[..n], id, t);
      } else {
        NobodyStepped(calls[..n], id, t);
      }
    }
  }

  // The window is on once its phase has begun, from then to its end or to the viewer's clock.
  predicate Runs(w: Window, begin: Option<int>, end: Option<int>, nowMs: int) {
    if begin.None? then w.Disabled? else w.Enabled? && w.fromMs == begin.value && w.toMs == end.GetOr(nowMs)
  }

  lemma RowWindowsAreItsStamps(row: Row, nowMs: int)
    requires ShapeFits(row)
    ensures var wire := Some(ToWire(row));
            && Runs(StabilizationWindow(wire, nowMs), row.stabilizationStartedAt, row.officialStartedAt, nowMs)
            && Runs(OfficialWindowOf(wire, nowMs), row.officialStartedAt,
                    row.officialEndedAt.Else(row.abortedAt), nowMs)
            && Runs(FullTestWindow(wire, nowMs), row.connectedAt,
                    row.disconnectedAt.Else(row.officialEndedAt), nowMs)
  {
  }

  lemma WindowsRunBetweenStamps(calls: seq<Call>, id: string, nowMs: int)
    requires id in Run(calls)
    ensures var row := Run(calls)[id];
            && Runs(Shown(calls, id, Stabilization, nowMs), row.stabilizationStartedAt, row.officialStartedAt, nowMs)
            && Runs(Shown(calls, id, OfficialWindow, nowMs), row.officialStartedAt,
                    row.officialEndedAt.Else(row.abortedAt), nowMs)
            && Runs(Shown(calls, id, FullTest, nowMs), row.connectedAt,
                    row.disconnectedAt.Else(row.officialEndedAt), nowMs)
  {
    ReachableInvariant(calls);
    RowWindowsAreItsStamps(Run(calls)[id], nowMs);
  }

  /** Every derived window begins at the clock of the call that began its phase, and ends at that of the
      call that ended it or, where there was none, at the viewer's clock: Stabilization ... */
  lemma StabilizationRunsBetweenCalls(calls: seq<Call>, id: string, nowMs: int)
    requires id in Run(calls)
    ensures Runs(Shown(calls, id, Stabilization, nowMs),
                 TimeOf(calls, id, StartStabilization), TimeOf(calls, id, StartOfficial), nowMs)
  {
    StampIsTimeOfItsCall(calls, id, StartStabilization);
    StampIsTimeOfItsCall(calls, id, StartOfficial);
    WindowsRunBetweenStamps(calls, id, nowMs);
  }

  /** ... the Official Window, which an abort ends too ... */
  lemma OfficialRunsBetweenCalls(calls: seq<Call>, id: string, nowMs: int)
    requires id in Run(calls)
    ensures Runs(Shown(calls, id, OfficialWindow, nowMs), TimeOf(calls, id, StartOfficial),
                 TimeOf(calls, id, EndOfficial).Else(TimeOf(calls, id, Abort(""))), nowMs)
  {
    StampIsTimeOfItsCall(calls, id, StartOfficial);
    StampIsTimeOfItsCall(calls, id, EndOfficial);
    StampIsTimeOfItsCall(calls, id, Abort(""));
    WindowsRunBetweenStamps(calls, id, nowMs);
  }

  /** ... and Full Test, which an abort does not end. */
  lemma FullTestRunsBetweenCalls(calls: seq<Call>, id: string, nowMs: int)
    requires id in Run(calls)
    ensures Runs(Shown(calls, id, FullTest, nowMs), TimeOf(calls, id, Connect),
                 TimeOf(calls, id, Close(None)).Else(TimeOf(calls, id, EndOfficial)), nowMs)
  {
    StampIsTimeOfItsCall(calls, id, Connect);
    StampIsTimeOfItsCall(calls, id, Close(None));
    StampIsTimeOfItsCall(calls, id, EndOfficial);
    WindowsRunBetweenStamps(calls, id, nowMs);
  }
}
