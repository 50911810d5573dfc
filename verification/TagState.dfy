/**
 What one tag looks like at a moment: its staleness, its alarm band, and the per-unit snapshot the
 cards are drawn from.
 */
module TagState {
  import opened Prelude
  import opened Telemetry

  // -------------------------------------------------------------------------
  // Staleness
  // -------------------------------------------------------------------------

  datatype Status = Live | Delayed | Stale | Offline

  datatype Timings = Timings(delayedAfterSec: real, staleAfterSec: real, offlineAfterSec: real)

  const DEFAULT_STALE_TIMINGS := Timings(10.0, 30.0, 120.0)

  function ResolveTimings(tag: string, overrides: map<string, Override>): Timings {
    if tag !in overrides then DEFAULT_STALE_TIMINGS
    else
      var ov := overrides[tag];
      Timings(ov.delayedAfterSec.GetOr(DEFAULT_STALE_TIMINGS.delayedAfterSec),
              ov.staleAfterSec.GetOr(DEFAULT_STALE_TIMINGS.staleAfterSec),
              ov.offlineAfterSec.GetOr(DEFAULT_STALE_TIMINGS.offlineAfterSec))
  }

  function AgeStatus(ageSec: real, t: Timings): Status {
    if ageSec >= t.offlineAfterSec then Offline
    else if ageSec >= t.staleAfterSec then Stale
    else if ageSec >= t.delayedAfterSec then Delayed
    else Live
  }

  function AgeSec(lastMs: int, nowMs: int): real {
    if nowMs <= lastMs then 0.0 else (nowMs - lastMs) as real / 1000.0
  }

  // No reading, or one whose timestamp does not parse, is offline.
  function ComputeStale(last: Option<Reading>, tag: string, snapshot: Snapshot, nowMs: int): Status {
    if last.None? || last.value.ts.Unparseable? then Offline
    else AgeStatus(AgeSec(last.value.ts.ms, nowMs), ResolveTimings(tag, snapshot.staleTimings))
  }

  predicate IsFresh(s: Status) { s.Live? || s.Delayed? }

  function StatusRank(s: Status): int {
    match s case Live => 0 case Delayed => 1 case Stale => 2 case Offline => 3
  }

  /** The status by age alone: without a reading that has a time it is offline; else the offline limit comes
      before the stale limit and that before the delayed one, and a time ahead of the clock has age 0. */
  lemma StatusIsExact(last: Option<Reading>, tag: string, snapshot: Snapshot, nowMs: int)
    ensures last.None? || last.value.ts.Unparseable? ==> ComputeStale(last, tag, snapshot, nowMs).Offline?
    ensures last.Some? && last.value.ts.At? ==>
              var t, s := ResolveTimings(tag, snapshot.staleTimings), ComputeStale(last, tag, snapshot, nowMs);
              var ageMs := (if last.value.ts.ms > nowMs then 0 else nowMs - last.value.ts.ms) as real;
              && (s.Offline? <==> ageMs >= t.offlineAfterSec * 1000.0)
              && (s.Stale? <==> t.staleAfterSec * 1000.0 <= ageMs < t.offlineAfterSec * 1000.0)
              && (s.Live? <==> && ageMs < t.delayedAfterSec * 1000.0 && ageMs < t.staleAfterSec * 1000.0
                               && ageMs < t.offlineAfterSec * 1000.0)
  {
  }

  /** With no new reading the status only moves live -> delayed -> stale -> offline, however the
      override timings are ordered. */
  lemma StatusOnlyAges(last: Option<Reading>, tag: string, snapshot: Snapshot, nowMs: int, laterMs: int)
    requires nowMs <= laterMs
    ensures StatusRank(ComputeStale(last, tag, snapshot, nowMs)) <=
            StatusRank(ComputeStale(last, tag, snapshot, laterMs))
  {
    if last.Some? && last.value.ts.At? {
      assert AgeSec(last.value.ts.ms, nowMs) <= AgeSec(last.value.ts.ms, laterMs);
    }
  }

  /** "Live means younger than the delayed limit" holds at every age exactly when that limit is not
      past the other two; overrides are not checked for that. */
  lemma LiveMeansBelowDelayedExactlyWhen(t: Timings)
    ensures (forall age | age >= 0.0 :: AgeStatus(age, t).Live? <==> age < t.delayedAfterSec) <==>
            || t.delayedAfterSec <= 0.0
            || (t.delayedAfterSec <= t.staleAfterSec && t.delayedAfterSec <= t.offlineAfterSec)
  {
    if t.delayedAfterSec > 0.0 {
      if t.staleAfterSec < t.delayedAfterSec {
        assert !AgeStatus(if t.staleAfterSec < 0.0 then 0.0 else t.staleAfterSec, t).Live?;
      }
      if t.offlineAfterSec < t.delayedAfterSec {
        assert !AgeStatus(if t.offlineAfterSec < 0.0 then 0.0 else t.offlineAfterSec, t).Live?;
      }
    }
  }

  /** ... and an override can break it: with the delayed limit raised to 30 s and the stale limit lowered to
      10 s, a reading 20 s old is stale although it is younger than the delayed limit. */
  lemma YoungerThanDelayedCanBeStale(overrides: map<string, Override>)
    ensures var t := ResolveTimings("t", overrides["t" := Override(Some(30.0), Some(10.0), None)]);
            20.0 < t.delayedAfterSec && AgeStatus(20.0, t) == Stale
  {
  }

  /** An override replaces exactly the limits it names, each on its own, and of its own tag only; a tag
      without one keeps every default. */
  lemma OverridesArePerTagAndField(tag: string, other: string, overrides: map<string, Override>, ov: Override)
    ensures var t := ResolveTimings(tag, overrides[tag := ov]);
            && (ov.delayedAfterSec.Some? ==> t.delayedAfterSec == ov.delayedAfterSec.value)
            && (ov.delayedAfterSec.None? ==> t.delayedAfterSec == 10.0)
            && (ov.staleAfterSec.Some? ==> t.staleAfterSec == ov.staleAfterSec.value)
            && (ov.staleAfterSec.None? ==> t.staleAfterSec == 30.0)
            && (ov.offlineAfterSec.Some? ==> t.offlineAfterSec == ov.offlineAfterSec.value)
            && (ov.offlineAfterSec.None? ==> t.offlineAfterSec == 120.0)
    ensures other != tag ==> ResolveTimings(other, overrides[tag := ov]) == ResolveTimings(other, overrides)
    ensures other !in overrides ==> ResolveTimings(other, overrides) == Timings(10.0, 30.0, 120.0)
  {
  }

  // -------------------------------------------------------------------------
  // Alarm bands
  // -------------------------------------------------------------------------

  datatype AlarmState = Normal | WarningLow | WarningHigh | AlarmLow | AlarmHigh | NoData | Disabled

  predicate IsAlarm(s: AlarmState) { s.AlarmHigh? || s.AlarmLow? }
  predicate IsWarning(s: AlarmState) { s.WarningHigh? || s.WarningLow? }

  // The first mapping of a tag: the one the evaluator goes by.
  function FindMapping(sensors: seq<Mapping>, tag: string): Option<Mapping> {
    if sensors == [] then None
    else if sensors[0].tag == tag then Some(sensors[0])
    else FindMapping(sensors[1..], tag)
  }

  /** It is that of the first place that maps the tag. */
  lemma {:induction false} FindMappingIsFirst(sensors: seq<Mapping>, tag: string, i: nat)
    requires i < |sensors| && sensors[i].tag == tag
    requires forall j :: 0 <= j < i ==> sensors[j].tag != tag
    ensures FindMapping(sensors, tag) == Some(sensors[i])
  {
    if i > 0 {
      FindMappingIsFirst(sensors[1..], tag, i - 1);
    }
  }

  // The band of a usable value: alarm bounds first, on both sides.
  function BandOf(v: real, t: Thresholds): AlarmState {
    if t.alarmHigh.Some? && v >= t.alarmHigh.value then AlarmHigh
    else if t.alarmLow.Some? && v <= t.alarmLow.value then AlarmLow
    else if t.warningHigh.Some? && v >= t.warningHigh.value then WarningHigh
    else if t.warningLow.Some? && v <= t.warningLow.value then WarningLow
    else Normal
  }

  function EvaluateReading(r: Reading, snapshot: Snapshot): AlarmState {
    var mapping := FindMapping(snapshot.sensors, r.tag);
    if mapping.None? || !mapping.value.enabled then Disabled
    else if r.quality.Bad? || r.value.None? then NoData
    else if r.tag !in snapshot.thresholds then Disabled
    else BandOf(r.value.value, snapshot.thresholds[r.tag])
  }

  /** The band by the bounds alone: a mapping that is off or missing disables it, an unusable reading has no
      data, and a bound counts when it is reached; alarm bounds come first on both sides, and high before low. */
  lemma BandIsExact(r: Reading, snapshot: Snapshot)
    ensures var first, s := FindMapping(snapshot.sensors, r.tag), EvaluateReading(r, snapshot);
            var on, usable := first.Some? && first.value.enabled, r.quality != Bad && r.value.Some?;
            && (s.Disabled? <==> !on || (usable && r.tag !in snapshot.thresholds))
            && (s.NoData? <==> on && !usable)
            && (on && usable && r.tag in snapshot.thresholds ==>
                  var v, b := r.value.value, snapshot.thresholds[r.tag];
                  var over, under := b.alarmHigh.Some? && v >= b.alarmHigh.value,
                                     b.alarmLow.Some? && v <= b.alarmLow.value;
                  var high, low := b.warningHigh.Some? && v >= b.warningHigh.value,
                                   b.warningLow.Some? && v <= b.warningLow.value;
                  && (s.AlarmHigh? <==> over) && (s.AlarmLow? <==> under && !over)
                  && (s.WarningHigh? <==> high && !over && !under)
                  && (s.WarningLow? <==> low && !high && !over && !under))
  {
  }

  // -------------------------------------------------------------------------
  // Selectors
  // -------------------------------------------------------------------------

  datatype TagView = TagView(reading: Option<Reading>, alarm: AlarmState, stale: Status)

  function SelectAlarmState(feed: Feed, snapshot: Snapshot, job: string, tag: string, nowMs: int): Option<AlarmState> {
    var reading := LatestReading(feed, job, tag);
    if reading.None? then None
    else if !IsFresh(ComputeStale(reading, tag, snapshot, nowMs)) then Some(NoData)
    else Some(EvaluateReading(reading.value, snapshot))
  }

  function ViewOf(feed: Feed, snapshot: Snapshot, job: string, m: Mapping, nowMs: int): TagView {
    var reading := LatestReading(feed, job, m.tag);
    var stale := ComputeStale(reading, m.tag, snapshot, nowMs);
    TagView(reading,
            if !m.enabled then Disabled
            else if reading.None? || !IsFresh(stale) then NoData
            else EvaluateReading(reading.value, snapshot),
            stale)
  }

  // A later mapping of a tag overwrites an earlier one.
  function LastMapping(sensors: seq<Mapping>, tag: string): Option<Mapping> {
    if sensors == [] then None
    else if sensors[|sensors| - 1].tag == tag then Some(sensors[|sensors| - 1])
    else LastMapping(sensors[..|sensors| - 1], tag)
  }

  lemma {:induction false} LastMappingIsMember(sensors: seq<Mapping>, tag: string)
    requires LastMapping(sensors, tag).Some?
    ensures LastMapping(sensors, tag).value in sensors && LastMapping(sensors, tag).value.tag == tag
  {
    if sensors[|sensors| - 1].tag != tag {
      LastMappingIsMember(sensors[..|sensors| - 1], tag);
    }
  }

  lemma {:induction false} LastMappingExists(sensors: seq<Mapping>, m: Mapping)
    requires m in sensors
    ensures LastMapping(sensors, m.tag).Some?
  {
    if sensors[|sensors| - 1].tag != m.tag {
      LastMappingExists(sensors[..|sensors| - 1], m);
    }
  }

  // `byTag` shows, for every tag among `sensors` and no other, the view of its last mapping.
  ghost predicate ShowsAll(byTag: map<string, TagView>, sensors: seq<Mapping>, feed: Feed, snapshot: Snapshot,
                           job: string, nowMs: int) {
    && (forall tag :: tag in byTag <==> LastMapping(sensors, tag).Some?)
    && (forall tag :: tag in byTag ==>
          && LastMapping(sensors, tag).Some?
          && byTag[tag] == ViewOf(feed, snapshot, job, LastMapping(sensors, tag).value, nowMs))
  }

  method SelectUnitTelemetrySnapshot(feed: Feed, snapshot: Snapshot, job: string, nowMs: int)
    returns (byTag: map<string, TagView>)
    ensures ShowsAll(byTag, snapshot.sensors, feed, snapshot, job, nowMs)
  {
    byTag := map[];
    for i := 0 to |snapshot.sensors|
      invariant ShowsAll(byTag, snapshot.sensors[..i], feed, snapshot, job, nowMs)
    {
      var mapping := snapshot.sensors[i];
      assert snapshot.sensors[..i + 1][..i] == snapshot.sensors[..i];
      var tag := mapping.tag;
      var reading := LatestReading(feed, job, tag);
      var stale := ComputeStale(reading, tag, snapshot, nowMs);
      var alarm: AlarmState;
      if !mapping.enabled {
        alarm := Disabled;
      } else if reading.None? || stale.Stale? || stale.Offline? {
        alarm := NoData;
      } else {
        alarm := EvaluateReading(reading.value, snapshot);
      }
      byTag := byTag[tag := TagView(reading, alarm, stale)];
    }
    assert snapshot.sensors[..|snapshot.sensors|] == snapshot.sensors;
  }

  // Each reading sits under its own key and job ids are free of '#'; so has every store fed such readings.
  ghost predicate Coherent(feed: Feed) {
    forall key :: key in feed ==> key == TagKey(feed[key].job, feed[key].tag) && '#' !in feed[key].job
  }

  lemma LatestReadingIsOwn(feed: Feed, job: string, tag: string)
    requires Coherent(feed) && '#' !in job && LatestReading(feed, job, tag).Some?
    ensures LatestReading(feed, job, tag).value.job == job && LatestReading(feed, job, tag).value.tag == tag
  {
    var r := LatestReading(feed, job, tag).value;
    TagKeyIsInjective(job, tag, r.job, r.tag);
  }

  predicate Usable(r: Reading) { !r.quality.Bad? && r.value.Some? }

  // The latest reading vouches for the tag: fresh by both limits, usable, strictly inside the alarm bounds.
  predicate Trustworthy(feed: Feed, snapshot: Snapshot, job: string, tag: string, nowMs: int) {
    var reading := LatestReading(feed, job, tag);
    && reading.Some?
    && Usable(reading.value)
    && reading.value.ts.At?
    && (var age, t := AgeSec(reading.value.ts.ms, nowMs), ResolveTimings(tag, snapshot.staleTimings);
        age < t.staleAfterSec && age < t.offlineAfterSec)
    && tag in snapshot.thresholds
    && (var v, bounds := reading.value.value.value, snapshot.thresholds[tag];
        && (bounds.alarmHigh.Some? ==> v < bounds.alarmHigh.value)
        && (bounds.alarmLow.Some? ==> bounds.alarmLow.value < v))
  }

  predicate Reporting(v: TagView) { IsFresh(v.stale) && !v.alarm.NoData? }

  // The evaluator goes by a tag's first mapping, the card by its last; usually they are the same.
  predicate FirstIsOn(snapshot: Snapshot, tag: string) {
    FindMapping(snapshot.sensors, tag).Some? && FindMapping(snapshot.sensors, tag).value.enabled
  }

  /** The tile of a mapping reports without an alarm exactly when the mapping is on, the evaluator's is too,
      and the tag can be trusted. */
  lemma QuietTileExactlyWhenTrustworthy(feed: Feed, snapshot: Snapshot, job: string, m: Mapping, nowMs: int)
    requires Coherent(feed) && '#' !in job
    ensures var v := ViewOf(feed, snapshot, job, m, nowMs);
            !v.alarm.Disabled? && Reporting(v) && !IsAlarm(v.alarm) <==>
            m.enabled && FirstIsOn(snapshot, m.tag) && Trustworthy(feed, snapshot, job, m.tag, nowMs)
  {
    if LatestReading(feed, job, m.tag).Some? {
      LatestReadingIsOwn(feed, job, m.tag);
    }
  }

  /** What the label `disabled` covers: the mapping is off, or a fresh reading meets an evaluator whose
      mapping is off, or it is usable and the tag has no thresholds. Without thresholds and without fresh
      data the same tag counts as `no_data`. */
  lemma DisabledExactlyWhen(feed: Feed, snapshot: Snapshot, job: string, m: Mapping, nowMs: int)
    requires Coherent(feed) && '#' !in job
    ensures var v, r := ViewOf(feed, snapshot, job, m, nowMs), LatestReading(feed, job, m.tag);
            v.alarm.Disabled? <==>
            || !m.enabled
            || (r.Some? && IsFresh(v.stale)
                && (!FirstIsOn(snapshot, m.tag) || (Usable(r.value) && m.tag !in snapshot.thresholds)))
  {
    if LatestReading(feed, job, m.tag).Some? {
      LatestReadingIsOwn(feed, job, m.tag);
    }
  }

  /** ... and one tag is both in turn: on, without thresholds, `disabled` while its reading is 10 s old and
      `no_data` once it is 30 s old. */
  lemma UnratedTagTurnsNoData(feed: Feed, snapshot: Snapshot, m: Mapping, value: real)
    requires feed == map[TagKey("j", "t") := Reading(At(0), "j", "t", Some(value), "bar", Good, None)]
    requires snapshot == Snapshot([m], map[], map[]) && m == Mapping("s", "t", true)
    ensures Coherent(feed)
    ensures ViewOf(feed, snapshot, "j", m, 10_000).alarm == Disabled
    ensures ViewOf(feed, snapshot, "j", m, 30_000).alarm == NoData
  {
    assert AgeSec(0, 10_000) == 10.0 && AgeSec(0, 30_000) == 30.0;
  }

  /** The single-tag selector has no answer exactly for a tag without a reading. Else it and the unit snapshot
      agree, except exactly when the mapping is off and the selector, which goes by the first mapping, still
      says something else: that its reading is not fresh, or what an evaluator whose mapping is on makes of it. */
  lemma SelectorsDisagreeExactlyWhen(feed: Feed, snapshot: Snapshot, job: string, m: Mapping, nowMs: int)
    requires Coherent(feed) && '#' !in job
    ensures var v, r := ViewOf(feed, snapshot, job, m, nowMs), LatestReading(feed, job, m.tag);
            && (SelectAlarmState(feed, snapshot, job, m.tag, nowMs).None? <==> r.None?)
            && (r.Some? ==>
                  (SelectAlarmState(feed, snapshot, job, m.tag, nowMs) != Some(v.alarm) <==>
                   && !m.enabled
                   && (!IsFresh(v.stale)
                       || (FirstIsOn(snapshot, m.tag) && (m.tag in snapshot.thresholds || !Usable(r.value))))))
    ensures FindMapping(snapshot.sensors, m.tag) == Some(m) && LatestReading(feed, job, m.tag).Some? ==>
              (SelectAlarmState(feed, snapshot, job, m.tag, nowMs) !=
               Some(ViewOf(feed, snapshot, job, m, nowMs).alarm) <==>
               !m.enabled && !IsFresh(ViewOf(feed, snapshot, job, m, nowMs).stale))
  {
    if LatestReading(feed, job, m.tag).Some? {
      LatestReadingIsOwn(feed, job, m.tag);
    }
  }
}
