/**
 The header summary and the active-alarms panel, two independent walks over the same jobs, and their
 agreement with each other and with the unit cards.
 */
module AlarmViews {
  import opened Prelude
  import opened Telemetry
  import opened TagState

  datatype Severity = Alarm | Warn | StaleSignal
  datatype Tone = NormalTone | WarnTone | AlarmTone | StaleTone

  datatype Entry = Entry(job: string, well: string, tag: string, severity: Severity, title: string)

  datatype Summary = Summary(alarmCount: nat, warningCount: nat, staleCount: nat, tone: Tone)

  // -------------------------------------------------------------------------
  // The panel
  // -------------------------------------------------------------------------

  // The entry one enabled mapping gives, if any.
  function EntryFor(feed: Feed, job: ActiveJob, m: Mapping, nowMs: int): Option<Entry> {
    var reading := LatestReading(feed, job.jobId, m.tag);
    var stale := ComputeStale(reading, m.tag, job.snapshot, nowMs);
    if !m.enabled then None
    else if !IsFresh(stale) then
      Some(Entry(job.jobId, job.wellId, m.tag, StaleSignal,
                 if stale.Offline? then "OFFLINE SIGNAL" else "STALE SIGNAL"))
    else if reading.None? then None
    else match EvaluateReading(reading.value, job.snapshot)
      case AlarmHigh => Some(Entry(job.jobId, job.wellId, m.tag, Alarm, "HIGH ALARM"))
      case AlarmLow => Some(Entry(job.jobId, job.wellId, m.tag, Alarm, "LOW ALARM"))
      case WarningHigh => Some(Entry(job.jobId, job.wellId, m.tag, Warn, "HIGH WARNING"))
      case WarningLow => Some(Entry(job.jobId, job.wellId, m.tag, Warn, "LOW WARNING"))
      case _ => None
  }

  function EntriesOfJob(feed: Feed, job: ActiveJob, sensors: seq<Mapping>, nowMs: int): seq<Entry> {
    if sensors == [] then []
    else
      var e := EntryFor(feed, job, sensors[|sensors| - 1], nowMs);
      EntriesOfJob(feed, job, sensors[..|sensors| - 1], nowMs) + if e.Some? then [e.value] else []
  }

  // Job by job, mapping by mapping: the panel before sorting.
  function Entries(feed: Feed, jobs: seq<ActiveJob>, nowMs: int): seq<Entry> {
    if jobs == [] then []
    else
      var job := jobs[|jobs| - 1];
      Entries(feed, jobs[..|jobs| - 1], nowMs) + EntriesOfJob(feed, job, job.snapshot.sensors, nowMs)
  }

  function Only(entries: seq<Entry>, s: Severity): seq<Entry> {
    if entries == [] then []
    else
      var last := entries[|entries| - 1];
      Only(entries[..|entries| - 1], s) + if last.severity == s then [last] else []
  }

  function CountOf(entries: seq<Entry>, s: Severity): nat { |Only(entries, s)| }

  function SeverityRank(s: Severity): int {
    match s case Alarm => 3 case Warn => 2 case StaleSignal => 1
  }

  ghost predicate SortedBySeverity(entries: seq<Entry>) {
    forall i, j :: 0 <= i < j < |entries| ==> SeverityRank(entries[i].severity) >= SeverityRank(entries[j].severity)
  }

  // A stable sort by descending severity can only be this (see SortIsTheStableSort).
  function SortEntries(entries: seq<Entry>): seq<Entry> {
    Only(entries, Alarm) + Only(entries, Warn) + Only(entries, StaleSignal)
  }

  ghost function Grown(entries: seq<Entry>, e: Option<Entry>): seq<Entry> {
    if e.Some? then entries + [e.value] else entries
  }

  lemma EntriesGrow(feed: Feed, job: ActiveJob, i: nat, nowMs: int)
    requires i < |job.snapshot.sensors|
    ensures EntriesOfJob(feed, job, job.snapshot.sensors[..i + 1], nowMs) ==
            Grown(EntriesOfJob(feed, job, job.snapshot.sensors[..i], nowMs),
                  EntryFor(feed, job, job.snapshot.sensors[i], nowMs))
  {
    assert job.snapshot.sensors[..i + 1][..i] == job.snapshot.sensors[..i];
  }

  lemma JobEntriesGrow(feed: Feed, job: ActiveJob, i: nat, nowMs: int, done: seq<Entry>)
    requires i < |job.snapshot.sensors|
    ensures done + EntriesOfJob(feed, job, job.snapshot.sensors[..i + 1], nowMs) ==
            Grown(done + EntriesOfJob(feed, job, job.snapshot.sensors[..i], nowMs),
                  EntryFor(feed, job, job.snapshot.sensors[i], nowMs))
  {
    EntriesGrow(feed, job, i, nowMs);
  }

  method CollectEntries(feed: Feed, jobs: seq<ActiveJob>, nowMs: int) returns (out: seq<Entry>)
    ensures out == Entries(feed, jobs, nowMs)
  {
    out := [];
    for j := 0 to |jobs|
      invariant out == Entries(feed, jobs[..j], nowMs)
    {
      var job := jobs[j];
      assert jobs[..j + 1][..j] == jobs[..j];
      ghost var done := out;
      for i := 0 to |job.snapshot.sensors|
        invariant out == done + EntriesOfJob(feed, job, job.snapshot.sensors[..i], nowMs)
      {
        var mapping := job.snapshot.sensors[i];
        ghost var entry := EntryFor(feed, job, mapping, nowMs);
        JobEntriesGrow(feed, job, i, nowMs, done);
        if !mapping.enabled {
          continue;
        }
        var reading := LatestReading(feed, job.jobId, mapping.tag);
        var stale := ComputeStale(reading, mapping.tag, job.snapshot, nowMs);
        if stale.Offline? || stale.Stale? {
          out := out + [Entry(job.jobId, job.wellId, mapping.tag, StaleSignal,
                              if stale.Offline? then "OFFLINE SIGNAL" else "STALE SIGNAL")];
          continue;
        }
        if reading.None? {
          continue;
        }
        var state := EvaluateReading(reading.value, job.snapshot);
        if state.AlarmHigh? || state.AlarmLow? {
          out := out + [Entry(job.jobId, job.wellId, mapping.tag, Alarm,
                              if state.AlarmHigh? then "HIGH ALARM" else "LOW ALARM")];
        } else if state.WarningHigh? || state.WarningLow? {
          out := out + [Entry(job.jobId, job.wellId, mapping.tag, Warn,
                              if state.WarningHigh? then "HIGH WARNING" else "LOW WARNING")];
        }
      }
      assert job.snapshot.sensors[..|job.snapshot.sensors|] == job.snapshot.sensors;
    }
    assert jobs[..|jobs|] == jobs;
  }

  ghost function Bag(a: seq<Entry>, s: Severity): multiset<Entry> { multiset(Only(a, s)) }

  ghost function AllBags(a: seq<Entry>): multiset<Entry> {
    Bag(a, Alarm) + Bag(a, Warn) + Bag(a, StaleSignal)
  }

  lemma OnlyGains(before: seq<Entry>, last: Entry, s: Severity)
    ensures Only(before + [last], s) == Only(before, s) + if last.severity == s then [last] else []
  {
    assert (before + [last])[..|before|] == before;
  }

  lemma AllBagsGain(before: seq<Entry>, last: Entry)
    ensures AllBags(before + [last]) == AllBags(before) + multiset{last}
  {
    OnlyGains(before, last, Alarm);
    OnlyGains(before, last, Warn);
    OnlyGains(before, last, StaleSignal);
  }

  lemma {:induction false} BagsMakeUpAll(a: seq<Entry>)
    ensures AllBags(a) == multiset(a)
  {
    if a != [] {
      var before, last := a[..|a| - 1], a[|a| - 1];
      BagsMakeUpAll(before);
      AllBagsGain(before, last);
      assert a == before + [last];
    }
  }

  lemma OnlyPartitions(a: seq<Entry>)
    ensures multiset(SortEntries(a)) == multiset(a)
    ensures |a| == CountOf(a, Alarm) + CountOf(a, Warn) + CountOf(a, StaleSignal)
  {
    BagsMakeUpAll(a);
    assert multiset(SortEntries(a)) == AllBags(a);
    assert |multiset(SortEntries(a))| == |multiset(a)|;
  }

  lemma {:induction false} OnlyAppends(a: seq<Entry>, b: seq<Entry>, s: Severity)
    ensures Only(a + b, s) == Only(a, s) + Only(b, s)
  {
    if b == [] {
      assert a + b == a;
    } else {
      OnlyAppends(a, b[..|b| - 1], s);
      assert (a + b)[..|a + b| - 1] == a + b[..|b| - 1];
    }
  }

  lemma {:induction false} OnlyOfOnly(a: seq<Entry>, s: Severity, t: Severity)
    ensures Only(Only(a, s), t) == if s == t then Only(a, s) else []
  {
    if a != [] {
      var before, last := a[..|a| - 1], a[|a| - 1];
      OnlyOfOnly(before, s, t);
      if last.severity == s {
        OnlyGains(Only(before, s), last, t);
      } else {
        assert Only(a, s) == Only(before, s);
      }
    }
  }

  lemma SortKeepsOrderWithin(a: seq<Entry>, s: Severity)
    ensures Only(SortEntries(a), s) == Only(a, s)
  {
    var alarms, warns, stales := Only(a, Alarm), Only(a, Warn), Only(a, StaleSignal);
    OnlyOfOnly(a, Alarm, s);
    OnlyOfOnly(a, Warn, s);
    OnlyOfOnly(a, StaleSignal, s);
    OnlyAppends(alarms + warns, stales, s);
    OnlyAppends(alarms, warns, s);
  }

  lemma {:induction false} OnlyHasSeverity(a: seq<Entry>, s: Severity)
    ensures forall i :: 0 <= i < |Only(a, s)| ==> Only(a, s)[i].severity == s
  {
    if a != [] {
      OnlyHasSeverity(a[..|a| - 1], s);
    }
  }

  lemma SortSorts(a: seq<Entry>)
    ensures SortedBySeverity(SortEntries(a))
  {
    OnlyHasSeverity(a, Alarm);
    OnlyHasSeverity(a, Warn);
    OnlyHasSeverity(a, StaleSignal);
  }

  lemma SortIsStablePermutation(a: seq<Entry>)
    ensures SortedBySeverity(SortEntries(a)) && multiset(SortEntries(a)) == multiset(a)
    ensures forall s :: Only(SortEntries(a), s) == Only(a, s)
  {
    OnlyPartitions(a);
    SortSorts(a);
    forall s
      ensures Only(SortEntries(a), s) == Only(a, s)
    {
      SortKeepsOrderWithin(a, s);
    }
  }

  method DeriveEntries(feed: Feed, jobs: seq<ActiveJob>, nowMs: int) returns (out: seq<Entry>)
    ensures SortedBySeverity(out)
    ensures multiset(out) == multiset(Entries(feed, jobs, nowMs))
    ensures forall s :: Only(out, s) == Only(Entries(feed, jobs, nowMs), s)
  {
    out := CollectEntries(feed, jobs, nowMs);
    SortIsStablePermutation(out);
    out := SortEntries(out);
  }

  /** Within a job the panel walks the mappings in order: what the first `i` give comes before what mapping i
      gives, if anything, and that before the rest. */
  lemma {:induction false} JobEntriesWalk(feed: Feed, job: ActiveJob, sensors: seq<Mapping>, nowMs: int, i: nat)
    requires i < |sensors|
    ensures var e := EntryFor(feed, job, sensors[i], nowMs);
            EntriesOfJob(feed, job, sensors, nowMs) ==
            EntriesOfJob(feed, job, sensors[..i], nowMs)
            + (if e.Some? then [e.value] else [])
            + EntriesOfJob(feed, job, sensors[i + 1..], nowMs)
  {
    var n := |sensors| - 1;
    if i < n {
      JobEntriesWalk(feed, job, sensors[..n], nowMs, i);
      assert sensors[..n][..i] == sensors[..i] && sensors[..n][i + 1..] == sensors[i + 1..][..n - i - 1];
    }
  }

  /** Across jobs it walks them in order: what the first `j` jobs give comes before what job `j` gives, and
      that before the rest. */
  lemma {:induction false} EntriesWalk(feed: Feed, jobs: seq<ActiveJob>, nowMs: int, j: nat)
    requires j < |jobs|
    ensures Entries(feed, jobs, nowMs) ==
            Entries(feed, jobs[..j], nowMs)
            + EntriesOfJob(feed, jobs[j], jobs[j].snapshot.sensors, nowMs)
            + Entries(feed, jobs[j + 1..], nowMs)
  {
    var n := |jobs| - 1;
    if j < n {
      EntriesWalk(feed, jobs[..n], nowMs, j);
      assert jobs[..n][..j] == jobs[..j] && jobs[..n][j + 1..] == jobs[j + 1..][..n - j - 1];
    }
  }

  lemma SortAppends(before: seq<Entry>, last: Entry)
    requires forall t :: SeverityRank(t) < SeverityRank(last.severity) ==> Only(before, t) == []
    ensures SortEntries(before + [last]) == SortEntries(before) + [last]
  {
    assert (before + [last])[..|before|] == before;
    match last.severity {
      case Alarm =>
        assert Only(before, Warn) == [] && Only(before, StaleSignal) == [];
      case Warn =>
        assert Only(before, StaleSignal) == [];
      case StaleSignal =>
    }
  }

  lemma {:induction false} NothingBelow(entries: seq<Entry>, s: Severity)
    requires forall e :: e in entries ==> SeverityRank(e.severity) >= SeverityRank(s)
    ensures forall t :: SeverityRank(t) < SeverityRank(s) ==> Only(entries, t) == []
  {
    if entries != [] {
      NothingBelow(entries[..|entries| - 1], s);
      assert entries[|entries| - 1] in entries;
    }
  }

  /** Any sorted sequence that keeps each severity's order is this one: the contract of `DeriveEntries`
      determines its result. */
  lemma {:induction false} SortIsTheStableSort(sorted: seq<Entry>)
    requires SortedBySeverity(sorted)
    ensures sorted == SortEntries(sorted)
  {
    if sorted != [] {
      var before, last := sorted[..|sorted| - 1], sorted[|sorted| - 1];
      SortIsTheStableSort(before);
      NothingBelow(before, last.severity);
      SortAppends(before, last);
      assert sorted == before + [last];
    }
  }

  // -------------------------------------------------------------------------
  // The header
  // -------------------------------------------------------------------------

  function ComputeStateForTag(feed: Feed, job: ActiveJob, enabled: bool, tag: string, nowMs: int): AlarmState {
    var reading := LatestReading(feed, job.jobId, tag);
    if !enabled then Disabled
    else if !IsFresh(ComputeStale(reading, tag, job.snapshot, nowMs)) then NoData
    else if reading.None? then NoData
    else EvaluateReading(reading.value, job.snapshot)
  }

  function ToneOf(alarms: nat, warnings: nat, stales: nat): Tone {
    if alarms > 0 then AlarmTone
    else if warnings > 0 then WarnTone
    else if stales > 0 then StaleTone
    else NormalTone
  }

  /** The header's tone is that of the panel's first row; it is normal exactly when the panel is empty. */
  lemma ToneIsThatOfFirstRow(entries: seq<Entry>)
    ensures var tone := ToneOf(CountOf(entries, Alarm), CountOf(entries, Warn), CountOf(entries, StaleSignal));
            var rows := SortEntries(entries);
            tone == if rows == [] then NormalTone
                    else match rows[0].severity
                         case Alarm => AlarmTone case Warn => WarnTone case StaleSignal => StaleTone
  {
    OnlyHasSeverity(entries, Alarm);
    OnlyHasSeverity(entries, Warn);
    OnlyHasSeverity(entries, StaleSignal);
  }

  ghost predicate Counted(entries: seq<Entry>, alarms: nat, warnings: nat, stales: nat) {
    alarms == CountOf(entries, Alarm) && warnings == CountOf(entries, Warn) && stales == CountOf(entries, StaleSignal)
  }

  lemma CountedGrows(entries: seq<Entry>, alarms: nat, warnings: nat, stales: nat, e: Option<Entry>)
    requires Counted(entries, alarms, warnings, stales)
    ensures e.None? ==> Counted(Grown(entries, e), alarms, warnings, stales)
    ensures e.Some? && e.value.severity.Alarm? ==> Counted(Grown(entries, e), alarms + 1, warnings, stales)
    ensures e.Some? && e.value.severity.Warn? ==> Counted(Grown(entries, e), alarms, warnings + 1, stales)
    ensures e.Some? && e.value.severity.StaleSignal? ==> Counted(Grown(entries, e), alarms, warnings, stales + 1)
  {
    assert e.Some? ==> Grown(entries, e)[..|entries|] == entries;
  }

  // What one more mapping does to the counters.
  lemma CountersGrow(feed: Feed, job: ActiveJob, i: nat, nowMs: int, done: seq<Entry>,
                     alarms: nat, warnings: nat, stales: nat)
    requires i < |job.snapshot.sensors|
    requires Counted(done + EntriesOfJob(feed, job, job.snapshot.sensors[..i], nowMs), alarms, warnings, stales)
    ensures var e, s := EntryFor(feed, job, job.snapshot.sensors[i], nowMs), job.snapshot.sensors[..i + 1];
            Counted(done + EntriesOfJob(feed, job, s, nowMs),
                    alarms + if e.Some? && e.value.severity.Alarm? then 1 else 0,
                    warnings + if e.Some? && e.value.severity.Warn? then 1 else 0,
                    stales + if e.Some? && e.value.severity.StaleSignal? then 1 else 0)
  {
    var before := done + EntriesOfJob(feed, job, job.snapshot.sensors[..i], nowMs);
    JobEntriesGrow(feed, job, i, nowMs, done);
    CountedGrows(before, alarms, warnings, stales, EntryFor(feed, job, job.snapshot.sensors[i], nowMs));
  }

  // One job's share of the loop: the counters go on from where the jobs before left them.
  method CountJob(feed: Feed, job: ActiveJob, nowMs: int, alarms: nat, warnings: nat, stales: nat,
                  ghost done: seq<Entry>)
    returns (alarmCount: nat, warningCount: nat, staleCount: nat)
    requires Counted(done, alarms, warnings, stales)
    ensures Counted(done + EntriesOfJob(feed, job, job.snapshot.sensors, nowMs), alarmCount, warningCount, staleCount)
  {
    alarmCount, warningCount, staleCount := alarms, warnings, stales;
    assert done + [] == done;
    for i := 0 to |job.snapshot.sensors|
      invariant Counted(done + EntriesOfJob(feed, job, job.snapshot.sensors[..i], nowMs),
                        alarmCount, warningCount, staleCount)
    {
      var mapping := job.snapshot.sensors[i];
      CountersGrow(feed, job, i, nowMs, done, alarmCount, warningCount, staleCount);
      if !mapping.enabled {
        continue;
      }
      var reading := LatestReading(feed, job.jobId, mapping.tag);
      var stale := ComputeStale(reading, mapping.tag, job.snapshot, nowMs);
      if stale.Stale? || stale.Offline? {
        staleCount := staleCount + 1;
        continue;
      }
      if reading.None? {
        continue;
      }
      var state := ComputeStateForTag(feed, job, true, mapping.tag, nowMs);
      if state.AlarmHigh? || state.AlarmLow? {
        alarmCount := alarmCount + 1;
      } else if state.WarningHigh? || state.WarningLow? {
        warningCount := warningCount + 1;
      }
    }
    assert job.snapshot.sensors[..|job.snapshot.sensors|] == job.snapshot.sensors;
  }

  /** The header counts exactly the panel's entries, severity by severity. */
  method SummarizeAlarms(feed: Feed, jobs: seq<ActiveJob>, nowMs: int) returns (r: Summary)
    ensures r.alarmCount == CountOf(Entries(feed, jobs, nowMs), Alarm)
    ensures r.warningCount == CountOf(Entries(feed, jobs, nowMs), Warn)
    ensures r.staleCount == CountOf(Entries(feed, jobs, nowMs), StaleSignal)
    ensures r.tone == ToneOf(r.alarmCount, r.warningCount, r.staleCount)
  {
    var alarmCount, warningCount, staleCount := 0, 0, 0;
    for j := 0 to |jobs|
      invariant Counted(Entries(feed, jobs[..j], nowMs), alarmCount, warningCount, staleCount)
    {
      assert jobs[..j + 1][..j] == jobs[..j];
      alarmCount, warningCount, staleCount :=
        CountJob(feed, jobs[j], nowMs, alarmCount, warningCount, staleCount, Entries(feed, jobs[..j], nowMs));
    }
    assert jobs[..|jobs|] == jobs;
    return Summary(alarmCount, warningCount, staleCount, ToneOf(alarmCount, warningCount, staleCount));
  }

  // -------------------------------------------------------------------------
  // The cards
  // -------------------------------------------------------------------------

  predicate ShownAs(v: TagView, s: Severity) {
    match s
    case Alarm => IsAlarm(v.alarm)
    case Warn => IsWarning(v.alarm)
    case StaleSignal => !IsFresh(v.stale)
  }

  // The enabled tags of a job that its card shows as `s`.
  ghost function TagsShownAs(byTag: map<string, TagView>, sensors: seq<Mapping>, s: Severity): set<string> {
    set m | m in sensors && m.enabled && m.tag in byTag && ShownAs(byTag[m.tag], s) :: m.tag
  }

  // The mapping gives a panel entry of severity `s`.
  predicate Gives(feed: Feed, job: ActiveJob, m: Mapping, nowMs: int, s: Severity) {
    m.enabled && ShownAs(ViewOf(feed, job.snapshot, job.jobId, m, nowMs), s)
  }

  lemma EntryIsGiven(feed: Feed, job: ActiveJob, m: Mapping, nowMs: int, s: Severity)
    ensures var e := EntryFor(feed, job, m, nowMs);
            (e.Some? && e.value.severity == s) <==> Gives(feed, job, m, nowMs, s)
  {
  }

  ghost function GivenTags(feed: Feed, job: ActiveJob, sensors: seq<Mapping>, nowMs: int, s: Severity): set<string> {
    set m | m in sensors && Gives(feed, job, m, nowMs, s) :: m.tag
  }

  ghost predicate GivenOnce(feed: Feed, job: ActiveJob, sensors: seq<Mapping>, nowMs: int, s: Severity) {
    forall i, j | && 0 <= i < j < |sensors|
                  && Gives(feed, job, sensors[i], nowMs, s) && Gives(feed, job, sensors[j], nowMs, s)
      :: sensors[i].tag != sensors[j].tag
  }

  lemma GivenTagsGrow(feed: Feed, job: ActiveJob, before: seq<Mapping>, m: Mapping, nowMs: int, s: Severity)
    ensures GivenTags(feed, job, before + [m], nowMs, s) ==
            GivenTags(feed, job, before, nowMs, s) + if Gives(feed, job, m, nowMs, s) then {m.tag} else {}
  {
    assert m in before + [m];
    assert forall x :: x in before ==> x in before + [m];
  }

  lemma GivenOnceGrows(feed: Feed, job: ActiveJob, before: seq<Mapping>, m: Mapping, nowMs: int, s: Severity)
    ensures GivenOnce(feed, job, before + [m], nowMs, s) <==>
            && GivenOnce(feed, job, before, nowMs, s)
            && (Gives(feed, job, m, nowMs, s) ==> m.tag !in GivenTags(feed, job, before, nowMs, s))
  {
    var all, n := before + [m], |before|;
    assert forall i :: 0 <= i < n ==> all[i] == before[i];
    if Gives(feed, job, m, nowMs, s) && m.tag in GivenTags(feed, job, before, nowMs, s) {
      var x :| x in before && Gives(feed, job, x, nowMs, s) && x.tag == m.tag;
      var i :| 0 <= i < n && before[i] == x;
      assert all[i].tag == all[n].tag;
    }
  }

  lemma CountGrows(feed: Feed, job: ActiveJob, before: seq<Mapping>, m: Mapping, nowMs: int, s: Severity)
    ensures CountOf(EntriesOfJob(feed, job, before + [m], nowMs), s) ==
            CountOf(EntriesOfJob(feed, job, before, nowMs), s) + if Gives(feed, job, m, nowMs, s) then 1 else 0
  {
    var all, e := EntriesOfJob(feed, job, before, nowMs), EntryFor(feed, job, m, nowMs);
    assert (before + [m])[..|before|] == before;
    assert EntriesOfJob(feed, job, before + [m], nowMs) == Grown(all, e);
    EntryIsGiven(feed, job, m, nowMs, s);
    if e.Some? {
      assert (all + [e.value])[..|all|] == all;
    }
  }

  // A job's count is at least the number of tags that give an entry, and exactly it when none does so twice.
  ghost predicate CountFits(feed: Feed, job: ActiveJob, sensors: seq<Mapping>, nowMs: int, s: Severity) {
    var count, tags := CountOf(EntriesOfJob(feed, job, sensors, nowMs), s), |GivenTags(feed, job, sensors, nowMs, s)|;
    count >= tags && (count == tags <==> GivenOnce(feed, job, sensors, nowMs, s))
  }

  lemma CountFitsGrows(feed: Feed, job: ActiveJob, before: seq<Mapping>, m: Mapping, nowMs: int, s: Severity)
    requires CountFits(feed, job, before, nowMs, s)
    ensures CountFits(feed, job, before + [m], nowMs, s)
  {
    CountGrows(feed, job, before, m, nowMs, s);
    GivenTagsGrow(feed, job, before, m, nowMs, s);
    GivenOnceGrows(feed, job, before, m, nowMs, s);
  }

  lemma {:induction false} CountOfGivenTags(feed: Feed, job: ActiveJob, sensors: seq<Mapping>, nowMs: int, s: Severity)
    ensures CountFits(feed, job, sensors, nowMs, s)
  {
    if sensors != [] {
      var before, m := sensors[..|sensors| - 1], sensors[|sensors| - 1];
      CountOfGivenTags(feed, job, before, nowMs, s);
      CountFitsGrows(feed, job, before, m, nowMs, s);
      assert sensors == before + [m];
    }
  }

  // The mapping the card goes by is on, where that matters: a stale signal shows either way.
  predicate IsOnForCard(job: ActiveJob, m: Mapping, s: Severity) {
    var last := LastMapping(job.snapshot.sensors, m.tag);
    s.StaleSignal? || (last.Some? && last.value.enabled)
  }

  ghost predicate CardsMappingIsOn(feed: Feed, job: ActiveJob, nowMs: int, s: Severity) {
    forall m | m in job.snapshot.sensors && Gives(feed, job, m, nowMs, s) :: IsOnForCard(job, m, s)
  }

  lemma ShownTagIsGiven(feed: Feed, job: ActiveJob, nowMs: int, byTag: map<string, TagView>, s: Severity, m: Mapping)
    requires ShowsAll(byTag, job.snapshot.sensors, feed, job.snapshot, job.jobId, nowMs)
    requires m in job.snapshot.sensors && m.enabled
    ensures m.tag in byTag
    ensures ShownAs(byTag[m.tag], s) <==> Gives(feed, job, m, nowMs, s) && IsOnForCard(job, m, s)
  {
    LastMappingExists(job.snapshot.sensors, m);
    LastMappingIsMember(job.snapshot.sensors, m.tag);
  }

  lemma ShownTagsAreGiven(feed: Feed, job: ActiveJob, nowMs: int, byTag: map<string, TagView>, s: Severity)
    requires ShowsAll(byTag, job.snapshot.sensors, feed, job.snapshot, job.jobId, nowMs)
    ensures var shown := TagsShownAs(byTag, job.snapshot.sensors, s);
            var given := GivenTags(feed, job, job.snapshot.sensors, nowMs, s);
            shown <= given && (shown == given <==> CardsMappingIsOn(feed, job, nowMs, s))
  {
    var shown := TagsShownAs(byTag, job.snapshot.sensors, s);
    var given := GivenTags(feed, job, job.snapshot.sensors, nowMs, s);
    forall tag | tag in shown
      ensures tag in given
    {
      var m :| m in job.snapshot.sensors && m.enabled && m.tag in byTag && ShownAs(byTag[m.tag], s) && m.tag == tag;
      ShownTagIsGiven(feed, job, nowMs, byTag, s, m);
    }
    forall m | m in job.snapshot.sensors && Gives(feed, job, m, nowMs, s)
      ensures m.tag in shown <==> IsOnForCard(job, m, s)
    {
      ShownTagIsGiven(feed, job, nowMs, byTag, s, m);
      if m.tag in shown {
        assert ShownAs(byTag[m.tag], s);
      }
    }
    forall tag | tag in given && CardsMappingIsOn(feed, job, nowMs, s)
      ensures tag in shown
    {
      var m :| m in job.snapshot.sensors && Gives(feed, job, m, nowMs, s) && m.tag == tag;
    }
    if shown == given {
      forall m | m in job.snapshot.sensors && Gives(feed, job, m, nowMs, s)
        ensures IsOnForCard(job, m, s)
      {
        assert m.tag in given;
      }
    }
  }

  lemma SubsetSize<T>(a: set<T>, b: set<T>)
    requires a <= b
    ensures |a| <= |b| && (|a| == |b| <==> a == b)
  {
    assert b == a + (b - a);
  }

  function JobCount(feed: Feed, job: ActiveJob, nowMs: int, s: Severity): nat {
    CountOf(EntriesOfJob(feed, job, job.snapshot.sensors, nowMs), s)
  }

  lemma EachMappingCounts(feed: Feed, job: ActiveJob, m: Mapping, nowMs: int, s: Severity)
    requires Gives(feed, job, m, nowMs, s)
    ensures CountOf(EntriesOfJob(feed, job, [m, m], nowMs), s) == 2
  {
    assert [] + [m] == [m] && [m] + [m] == [m, m];
    CountGrows(feed, job, [], m, nowMs, s);
    CountGrows(feed, job, [m], m, nowMs, s);
  }

  /** On each job, whatever it maps, header and panel never count less than the enabled tags the card shows
      in that state, and they agree exactly when no tag gives two entries and, for alarms and warnings, the
      mapping the card goes by is on. */
  lemma CardAgreesExactlyWhen(feed: Feed, job: ActiveJob, nowMs: int, byTag: map<string, TagView>, s: Severity)
    requires ShowsAll(byTag, job.snapshot.sensors, feed, job.snapshot, job.jobId, nowMs)
    ensures JobCount(feed, job, nowMs, s) >= |TagsShownAs(byTag, job.snapshot.sensors, s)|
    ensures JobCount(feed, job, nowMs, s) == |TagsShownAs(byTag, job.snapshot.sensors, s)| <==>
            GivenOnce(feed, job, job.snapshot.sensors, nowMs, s) && CardsMappingIsOn(feed, job, nowMs, s)
  {
    CountOfGivenTags(feed, job, job.snapshot.sensors, nowMs, s);
    ShownTagsAreGiven(feed, job, nowMs, byTag, s);
    SubsetSize(TagsShownAs(byTag, job.snapshot.sensors, s), GivenTags(feed, job, job.snapshot.sensors, nowMs, s));
  }

  /** ... and they can differ: a tag mapped twice, without a reading, is two stale signals and one tile. */
  lemma DoubledTagCountsTwice(job: ActiveJob, m: Mapping, nowMs: int, byTag: map<string, TagView>)
    requires job.snapshot.sensors == [m, m] && m.enabled
    requires ShowsAll(byTag, job.snapshot.sensors, map[], job.snapshot, job.jobId, nowMs)
    ensures JobCount(map[], job, nowMs, StaleSignal) == 2
    ensures TagsShownAs(byTag, job.snapshot.sensors, StaleSignal) == {m.tag}
  {
    EachMappingCounts(map[], job, m, nowMs, StaleSignal);
    assert m in job.snapshot.sensors;
    ShownTagIsGiven(map[], job, nowMs, byTag, StaleSignal, m);
  }

  ghost predicate UniqueTags(sensors: seq<Mapping>) {
    forall i, j :: 0 <= i < j < |sensors| ==> sensors[i].tag != sensors[j].tag
  }

  /** With no tag mapped twice they agree. */
  lemma CardAgrees(feed: Feed, job: ActiveJob, nowMs: int, byTag: map<string, TagView>, s: Severity)
    requires UniqueTags(job.snapshot.sensors)
    requires ShowsAll(byTag, job.snapshot.sensors, feed, job.snapshot, job.jobId, nowMs)
    ensures JobCount(feed, job, nowMs, s) == |TagsShownAs(byTag, job.snapshot.sensors, s)|
  {
    CardAgreesExactlyWhen(feed, job, nowMs, byTag, s);
    forall m | m in job.snapshot.sensors
      ensures LastMapping(job.snapshot.sensors, m.tag) == Some(m)
    {
      LastMappingExists(job.snapshot.sensors, m);
      LastMappingIsMember(job.snapshot.sensors, m.tag);
    }
  }

  function Total(counts: seq<nat>): nat {
    if counts == [] then 0 else Total(counts[..|counts| - 1]) + counts[|counts| - 1]
  }

  lemma {:induction false} TotalsCompare(a: seq<nat>, b: seq<nat>)
    requires |a| == |b| && forall i :: 0 <= i < |a| ==> a[i] >= b[i]
    ensures Total(a) >= Total(b) && (Total(a) == Total(b) <==> a == b)
  {
    if a != [] {
      var n := |a| - 1;
      TotalsCompare(a[..n], b[..n]);
      assert a == a[..n] + [a[n]] && b == b[..n] + [b[n]];
    }
  }

  function JobCounts(feed: Feed, jobs: seq<ActiveJob>, nowMs: int, s: Severity): (counts: seq<nat>)
    ensures |counts| == |jobs|
    ensures forall i :: 0 <= i < |jobs| ==> counts[i] == JobCount(feed, jobs[i], nowMs, s)
  {
    if jobs == [] then []
    else JobCounts(feed, jobs[..|jobs| - 1], nowMs, s) + [JobCount(feed, jobs[|jobs| - 1], nowMs, s)]
  }

  lemma {:induction false} HeaderIsTotal(feed: Feed, jobs: seq<ActiveJob>, nowMs: int, s: Severity)
    ensures CountOf(Entries(feed, jobs, nowMs), s) == Total(JobCounts(feed, jobs, nowMs, s))
  {
    if jobs != [] {
      var before, job := jobs[..|jobs| - 1], jobs[|jobs| - 1];
      HeaderIsTotal(feed, before, nowMs, s);
      OnlyAppends(Entries(feed, before, nowMs), EntriesOfJob(feed, job, job.snapshot.sensors, nowMs), s);
    }
  }

  /** What an entry says: whose it is, and in its title what the latest reading does to the bounds. */
  lemma EntryReadsItsReading(feed: Feed, job: ActiveJob, m: Mapping, nowMs: int)
    requires EntryFor(feed, job, m, nowMs).Some?
    ensures var e, r := EntryFor(feed, job, m, nowMs).value, LatestReading(feed, job.jobId, m.tag);
            && e.job == job.jobId && e.well == job.wellId && e.tag == m.tag && m.enabled
            && (e.severity.StaleSignal? ==>
                  e.title == if ComputeStale(r, m.tag, job.snapshot, nowMs).Offline? then "OFFLINE SIGNAL"
                             else "STALE SIGNAL")
            && (!e.severity.StaleSignal? ==>
                  && r.Some? && r.value.value.Some? && r.value.tag in job.snapshot.thresholds
                  && var v, b := r.value.value.value, job.snapshot.thresholds[r.value.tag];
                     var over, high := b.alarmHigh.Some? && v >= b.alarmHigh.value,
                                       b.warningHigh.Some? && v >= b.warningHigh.value;
                     && (e.severity.Alarm? ==> e.title == if over then "HIGH ALARM" else "LOW ALARM")
                     && (e.severity.Warn? ==> e.title == if high then "HIGH WARNING" else "LOW WARNING"))
  {
  }

  // The inequality alone.
  lemma CardShowsNoMore(feed: Feed, job: ActiveJob, nowMs: int, byTag: map<string, TagView>, s: Severity)
    requires ShowsAll(byTag, job.snapshot.sensors, feed, job.snapshot, job.jobId, nowMs)
    ensures JobCount(feed, job, nowMs, s) >= |TagsShownAs(byTag, job.snapshot.sensors, s)|
  {
    CardAgreesExactlyWhen(feed, job, nowMs, byTag, s);
  }

  /** Over all jobs, the header's count is at least the sum of what the cards show, and exactly that when
      the two agree on every job. */
  lemma HeaderIsSumOfCards(feed: Feed, jobs: seq<ActiveJob>, nowMs: int, cards: seq<map<string, TagView>>,
                           s: Severity, shown: seq<nat>)
    requires |cards| == |jobs| == |shown|
    requires forall i :: 0 <= i < |jobs| ==>
               ShowsAll(cards[i], jobs[i].snapshot.sensors, feed, jobs[i].snapshot, jobs[i].jobId, nowMs)
    requires forall i :: 0 <= i < |jobs| ==> shown[i] == |TagsShownAs(cards[i], jobs[i].snapshot.sensors, s)|
    ensures CountOf(Entries(feed, jobs, nowMs), s) >= Total(shown)
    ensures CountOf(Entries(feed, jobs, nowMs), s) == Total(shown) <==>
            forall i :: 0 <= i < |jobs| ==> JobCount(feed, jobs[i], nowMs, s) == shown[i]
  {
    forall i | 0 <= i < |jobs|
      ensures JobCount(feed, jobs[i], nowMs, s) >= shown[i]
    {
      CardShowsNoMore(feed, jobs[i], nowMs, cards[i], s);
    }
    HeaderIsTotal(feed, jobs, nowMs, s);
    TotalsCompare(JobCounts(feed, jobs, nowMs, s), shown);
  }

  // -------------------------------------------------------------------------
  // Time passing
  // -------------------------------------------------------------------------

  lemma CountsAdd(a: seq<Entry>, b: seq<Entry>)
    ensures forall s :: CountOf(a + b, s) == CountOf(a, s) + CountOf(b, s)
  {
    forall s
      ensures CountOf(a + b, s) == CountOf(a, s) + CountOf(b, s)
    {
      OnlyAppends(a, b, s);
    }
  }

  lemma EntryOnlyAges(feed: Feed, job: ActiveJob, m: Mapping, nowMs: int, laterMs: int)
    requires nowMs <= laterMs
    ensures var now, later := EntryFor(feed, job, m, nowMs), EntryFor(feed, job, m, laterMs);
            && (later.Some? && !later.value.severity.StaleSignal? ==> now == later)
            && (now.Some? && now.value.severity.StaleSignal? ==> later.Some? && later.value.severity.StaleSignal?)
  {
    StatusOnlyAges(LatestReading(feed, job.jobId, m.tag), m.tag, job.snapshot, nowMs, laterMs);
  }

  ghost predicate CountsOnlyAge(now: seq<Entry>, later: seq<Entry>) {
    && CountOf(later, Alarm) <= CountOf(now, Alarm)
    && CountOf(later, Warn) <= CountOf(now, Warn)
    && CountOf(now, StaleSignal) <= CountOf(later, StaleSignal)
  }

  lemma {:induction false} JobCountsOnlyAge(feed: Feed, job: ActiveJob, sensors: seq<Mapping>, nowMs: int, laterMs: int)
    requires nowMs <= laterMs
    ensures CountsOnlyAge(EntriesOfJob(feed, job, sensors, nowMs), EntriesOfJob(feed, job, sensors, laterMs))
  {
    if sensors != [] {
      var n := |sensors| - 1;
      JobCountsOnlyAge(feed, job, sensors[..n], nowMs, laterMs);
      EntryOnlyAges(feed, job, sensors[n], nowMs, laterMs);
      var a, b := EntriesOfJob(feed, job, sensors[..n], nowMs), EntriesOfJob(feed, job, sensors[..n], laterMs);
      assert EntriesOfJob(feed, job, sensors, nowMs) == Grown(a, EntryFor(feed, job, sensors[n], nowMs));
      assert EntriesOfJob(feed, job, sensors, laterMs) == Grown(b, EntryFor(feed, job, sensors[n], laterMs));
      CountedGrows(a, CountOf(a, Alarm), CountOf(a, Warn), CountOf(a, StaleSignal),
                   EntryFor(feed, job, sensors[n], nowMs));
      CountedGrows(b, CountOf(b, Alarm), CountOf(b, Warn), CountOf(b, StaleSignal),
                   EntryFor(feed, job, sensors[n], laterMs));
    }
  }

  /** With no ingest, as time passes the header's alarm and warning counts never grow and its stale
      count never shrinks. */
  lemma {:induction false} HeaderCountsOnlyAge(feed: Feed, jobs: seq<ActiveJob>, nowMs: int, laterMs: int)
    requires nowMs <= laterMs
    ensures CountsOnlyAge(Entries(feed, jobs, nowMs), Entries(feed, jobs, laterMs))
  {
    if jobs != [] {
      var n := |jobs| - 1;
      HeaderCountsOnlyAge(feed, jobs[..n], nowMs, laterMs);
      var sensors := jobs[n].snapshot.sensors;
      JobCountsOnlyAge(feed, jobs[n], sensors, nowMs, laterMs);
      CountsAdd(Entries(feed, jobs[..n], nowMs), EntriesOfJob(feed, jobs[n], sensors, nowMs));
      CountsAdd(Entries(feed, jobs[..n], laterMs), EntriesOfJob(feed, jobs[n], sensors, laterMs));
    }
  }
}
