/** The badge on a unit card: one roll-up over the tiles the operator sees. */
module UnitBadge {
  import opened Telemetry
  import opened TagState

  datatype Badge = TESTING | ALARM | DEGRADED | OFFLINE

  datatype Rollup = Rollup(status: Badge, worstAlarm: AlarmState, staleCount: nat, liveCount: nat, enabledCount: nat)

  function Rank(s: AlarmState): int {
    match s
    case AlarmHigh => 5 case AlarmLow => 5
    case WarningHigh => 3 case WarningLow => 3
    case NoData => 1
    case Disabled => 0 case Normal => 0
  }

  function Higher(a: AlarmState, b: AlarmState): AlarmState { if Rank(a) >= Rank(b) then a else b }

  type ByTag = map<string, TagView>

  // How one considered key counts. A key the snapshot does not know is enabled but offline.
  predicate CountsEnabled(byTag: ByTag, key: string) { key in byTag ==> !byTag[key].alarm.Disabled? }
  predicate CountsLive(byTag: ByTag, key: string) {
    key in byTag && !byTag[key].alarm.Disabled? && Reporting(byTag[key])
  }
  predicate CountsStale(byTag: ByTag, key: string) { CountsEnabled(byTag, key) && !CountsLive(byTag, key) }
  predicate InAlarm(byTag: ByTag, key: string) { key in byTag && IsAlarm(byTag[key].alarm) }

  datatype Shade = LiveTiles | StaleTiles

  predicate Counts(shade: Shade, byTag: ByTag, key: string) {
    if shade.LiveTiles? then CountsLive(byTag, key) else CountsStale(byTag, key)
  }

  function Tally(shade: Shade, byTag: ByTag, keys: seq<string>): nat {
    if keys == [] then 0
    else Tally(shade, byTag, keys[..|keys| - 1]) + if Counts(shade, byTag, keys[|keys| - 1]) then 1 else 0
  }

  // ALARM if a tile is in alarm; else OFFLINE if none is live; else DEGRADED if one is stale; else TESTING.
  ghost function BadgeOf(byTag: ByTag, keys: seq<string>): Badge {
    if exists key :: key in keys && InAlarm(byTag, key) then ALARM
    else if forall key :: key in keys ==> !CountsLive(byTag, key) then OFFLINE
    else if exists key :: key in keys && CountsStale(byTag, key) then DEGRADED
    else TESTING
  }

  function RankAt(byTag: ByTag, key: string): int { if key in byTag then Rank(byTag[key].alarm) else 0 }

  // Key i is the first of the greatest rank, and that rank is above that of a normal tile.
  ghost predicate IsFirstWorst(byTag: ByTag, keys: seq<string>, i: int) {
    && 0 <= i < |keys| && RankAt(byTag, keys[i]) > 0
    && (forall j :: 0 <= j < |keys| ==> RankAt(byTag, keys[j]) <= RankAt(byTag, keys[i]))
    && (forall j :: 0 <= j < i ==> RankAt(byTag, keys[j]) < RankAt(byTag, keys[i]))
  }

  // The state of that key; normal if there is none.
  ghost predicate IsWorst(byTag: ByTag, keys: seq<string>, worst: AlarmState) {
    || (worst == Normal && forall j :: 0 <= j < |keys| ==> RankAt(byTag, keys[j]) == 0)
    || exists i :: IsFirstWorst(byTag, keys, i) && byTag[keys[i]].alarm == worst
  }

  lemma AlarmExactlyWhenWorst(byTag: ByTag, keys: seq<string>, worst: AlarmState)
    requires IsWorst(byTag, keys, worst)
    ensures IsAlarm(worst) <==> exists key :: key in keys && InAlarm(byTag, key)
  {
    if key :| key in keys && InAlarm(byTag, key) {
      var j :| 0 <= j < |keys| && keys[j] == key;
      assert RankAt(byTag, keys[j]) == 5;
    }
    if IsAlarm(worst) {
      var i :| IsFirstWorst(byTag, keys, i) && byTag[keys[i]].alarm == worst;
      assert InAlarm(byTag, keys[i]);
    }
  }

  ghost predicate Shows(byTag: ByTag, keys: seq<string>, states: set<AlarmState>) {
    exists key :: key in keys && key in byTag && byTag[key].alarm in states
  }

  // `s` is what the first tile in one of the states shows.
  ghost predicate FirstShows(byTag: ByTag, keys: seq<string>, states: set<AlarmState>, s: AlarmState) {
    exists i :: && 0 <= i < |keys| && keys[i] in byTag && byTag[keys[i]].alarm == s && s in states
                && forall j :: 0 <= j < i && keys[j] in byTag ==> byTag[keys[j]].alarm !in states
  }

  /** The worst state is that of the first tile in alarm if there is one, else of the first with a warning, else
      no data if a tile shows that, else normal. */
  lemma WorstIsGravest(byTag: ByTag, keys: seq<string>, worst: AlarmState)
    requires IsWorst(byTag, keys, worst)
    ensures var alarms, warnings := {AlarmHigh, AlarmLow}, {WarningHigh, WarningLow};
            if Shows(byTag, keys, alarms) then FirstShows(byTag, keys, alarms, worst)
            else if Shows(byTag, keys, warnings) then FirstShows(byTag, keys, warnings, worst)
            else worst == if Shows(byTag, keys, {NoData}) then NoData else Normal
  {
    forall key | key in keys && key in byTag
      ensures Rank(byTag[key].alarm) <= Rank(worst)
    {
      var j :| 0 <= j < |keys| && keys[j] == key;
      assert RankAt(byTag, keys[j]) <= Rank(worst);
    }
    if i :| IsFirstWorst(byTag, keys, i) && byTag[keys[i]].alarm == worst {
      assert keys[i] in keys;
      forall j | 0 <= j < i && keys[j] in byTag
        ensures Rank(byTag[keys[j]].alarm) < Rank(worst)
      {
        assert RankAt(byTag, keys[j]) < RankAt(byTag, keys[i]);
      }
    }
  }

  lemma WorstGrows(byTag: ByTag, keys: seq<string>, k: string, worst: AlarmState)
    requires IsWorst(byTag, keys, worst)
    ensures IsWorst(byTag, keys + [k],
                    if k in byTag && !byTag[k].alarm.Disabled? then Higher(worst, byTag[k].alarm) else worst)
  {
    var all, n := keys + [k], |keys|;
    assert forall j :: 0 <= j < n ==> all[j] == keys[j];
    if i :| IsFirstWorst(byTag, keys, i) && byTag[keys[i]].alarm == worst {
      if RankAt(byTag, k) <= RankAt(byTag, keys[i]) {
        assert IsFirstWorst(byTag, all, i);
      } else {
        assert IsFirstWorst(byTag, all, n);
      }
    } else if RankAt(byTag, k) > 0 {
      assert IsFirstWorst(byTag, all, n);
    }
  }

  lemma {:induction false} TallyIsZeroExactlyWhenNone(shade: Shade, byTag: ByTag, keys: seq<string>)
    ensures Tally(shade, byTag, keys) == 0 <==> forall key :: key in keys ==> !Counts(shade, byTag, key)
  {
    if keys != [] {
      var n := |keys| - 1;
      TallyIsZeroExactlyWhenNone(shade, byTag, keys[..n]);
      assert keys == keys[..n] + [keys[n]];
    }
  }

  method RollUpUnitStatus(byTag: ByTag, keys: seq<string>) returns (r: Rollup)
    ensures r.liveCount == Tally(LiveTiles, byTag, keys) && r.staleCount == Tally(StaleTiles, byTag, keys)
    ensures r.enabledCount == r.liveCount + r.staleCount
    ensures IsWorst(byTag, keys, r.worstAlarm)
    ensures r.status == BadgeOf(byTag, keys)
  {
    var worst := Normal;
    var staleCount, liveCount, enabledCount := 0, 0, 0;
    for i := 0 to |keys|
      invariant liveCount == Tally(LiveTiles, byTag, keys[..i]) && staleCount == Tally(StaleTiles, byTag, keys[..i])
      invariant enabledCount == liveCount + staleCount
      invariant IsWorst(byTag, keys[..i], worst)
    {
      var k := keys[i];
      assert keys[..i + 1][..i] == keys[..i] && keys[..i + 1] == keys[..i] + [k];
      WorstGrows(byTag, keys[..i], k, worst);
      if k !in byTag {
        enabledCount := enabledCount + 1;
        staleCount := staleCount + 1;
        continue;
      }
      var v := byTag[k];
      if v.alarm.Disabled? {
        continue;
      }
      enabledCount := enabledCount + 1;
      worst := Higher(worst, v.alarm);
      var reporting := (v.stale.Live? || v.stale.Delayed?) && !v.alarm.NoData?;
      if reporting {
        liveCount := liveCount + 1;
      } else {
        staleCount := staleCount + 1;
      }
    }
    assert keys[..|keys|] == keys;
    TallyIsZeroExactlyWhenNone(LiveTiles, byTag, keys);
    TallyIsZeroExactlyWhenNone(StaleTiles, byTag, keys);
    AlarmExactlyWhenWorst(byTag, keys, worst);
    if worst == AlarmHigh || worst == AlarmLow {
      return Rollup(ALARM, worst, staleCount, liveCount, enabledCount);
    }
    if enabledCount == 0 || liveCount == 0 {
      return Rollup(OFFLINE, worst, staleCount, liveCount, enabledCount);
    }
    if staleCount > 0 {
      return Rollup(DEGRADED, worst, staleCount, liveCount, enabledCount);
    }
    return Rollup(TESTING, worst, staleCount, liveCount, enabledCount);
  }

  lemma Position(a: seq<string>, b: seq<string>) returns (i: nat)
    requires a != [] && multiset(a) == multiset(b)
    ensures i < |b| && b[i] == a[|a| - 1]
  {
    assert a[|a| - 1] in multiset(a);
    i :| 0 <= i < |b| && b[i] == a[|a| - 1];
  }

  lemma RemoveOne(s: seq<string>, i: nat)
    requires i < |s|
    ensures multiset(s[..i] + s[i + 1..]) == multiset(s) - multiset{s[i]}
  {
    assert s == s[..i] + [s[i]] + s[i + 1..];
  }

  lemma {:induction false} TallyAppends(shade: Shade, byTag: ByTag, a: seq<string>, b: seq<string>)
    ensures Tally(shade, byTag, a + b) == Tally(shade, byTag, a) + Tally(shade, byTag, b)
  {
    if b == [] {
      assert a + b == a;
    } else {
      TallyAppends(shade, byTag, a, b[..|b| - 1]);
      assert (a + b)[..|a + b| - 1] == a + b[..|b| - 1];
    }
  }

  lemma TallyOfMiddle(shade: Shade, byTag: ByTag, a: seq<string>, x: string, b: seq<string>)
    ensures Tally(shade, byTag, a + [x] + b) == Tally(shade, byTag, a + b) + if Counts(shade, byTag, x) then 1 else 0
  {
    TallyAppends(shade, byTag, a + [x], b);
    TallyAppends(shade, byTag, a, [x]);
    TallyAppends(shade, byTag, a, b);
    assert [x][..0] == [];
  }

  lemma {:induction false} TallyIgnoresOrder(shade: Shade, byTag: ByTag, a: seq<string>, b: seq<string>)
    requires multiset(a) == multiset(b)
    ensures Tally(shade, byTag, a) == Tally(shade, byTag, b)
  {
    if a == [] {
      assert |multiset(b)| == 0;
    } else {
      var n := |a| - 1;
      var i := Position(a, b);
      RemoveOne(a, n);
      RemoveOne(b, i);
      assert a[..n] + a[n + 1..] == a[..n];
      TallyIgnoresOrder(shade, byTag, a[..n], b[..i] + b[i + 1..]);
      TallyOfMiddle(shade, byTag, b[..i], b[i], b[i + 1..]);
      assert b[..i] + [b[i]] + b[i + 1..] == b;
    }
  }

  lemma SameKeys(a: seq<string>, b: seq<string>, key: string)
    requires multiset(a) == multiset(b)
    ensures key in a <==> key in b
  {
    assert key in a <==> key in multiset(a);
    assert key in b <==> key in multiset(b);
  }

  // `IsWorst` determines the state, and its rank is the greatest of all keys.
  lemma WorstIsDetermined(byTag: ByTag, keys: seq<string>, worst: AlarmState, other: AlarmState)
    requires IsWorst(byTag, keys, worst) && IsWorst(byTag, keys, other)
    ensures other == worst
  {
    if i :| IsFirstWorst(byTag, keys, i) && byTag[keys[i]].alarm == worst {
      var j :| IsFirstWorst(byTag, keys, j) && byTag[keys[j]].alarm == other;
      assert i == j;
    }
  }

  lemma WorstRanksHighest(byTag: ByTag, keys: seq<string>, worst: AlarmState)
    requires IsWorst(byTag, keys, worst)
    ensures forall key :: key in keys ==> RankAt(byTag, key) <= Rank(worst)
    ensures Rank(worst) == 0 || exists key :: key in keys && RankAt(byTag, key) == Rank(worst)
  {
    if i :| IsFirstWorst(byTag, keys, i) && byTag[keys[i]].alarm == worst {
      assert keys[i] in keys;
    }
  }

  /** Reordering the tags changes neither the status, nor the counts, nor the rank of the worst state. */
  lemma RollupIgnoresOrder(byTag: ByTag, a: seq<string>, b: seq<string>)
    requires multiset(a) == multiset(b)
    ensures BadgeOf(byTag, a) == BadgeOf(byTag, b)
    ensures forall shade :: Tally(shade, byTag, a) == Tally(shade, byTag, b)
    ensures forall x, y :: IsWorst(byTag, a, x) && IsWorst(byTag, b, y) ==> Rank(x) == Rank(y)
  {
    forall key
      ensures key in a <==> key in b
    {
      SameKeys(a, b, key);
    }
    TallyIgnoresOrder(LiveTiles, byTag, a, b);
    TallyIgnoresOrder(StaleTiles, byTag, a, b);
    forall x, y | IsWorst(byTag, a, x) && IsWorst(byTag, b, y)
      ensures Rank(x) == Rank(y)
    {
      WorstRanksHighest(byTag, a, x);
      WorstRanksHighest(byTag, b, y);
    }
  }

  predicate IsLiveTile(v: TagView) { v.stale in {Live, Delayed} && v.alarm !in {Disabled, NoData} }

  /** The badge by the tiles alone: ALARM if one is in alarm; else OFFLINE if none is live; else DEGRADED if a
      considered tag is unknown, or neither live nor disabled; else TESTING. */
  lemma BadgeReadsTiles(byTag: ByTag, keys: seq<string>)
    ensures var alarm := Shows(byTag, keys, {AlarmHigh, AlarmLow});
            var live := exists key :: key in keys && key in byTag && IsLiveTile(byTag[key]);
            var other := exists key :: key in keys
                                       && (key in byTag ==> !IsLiveTile(byTag[key]) && byTag[key].alarm != Disabled);
            BadgeOf(byTag, keys) ==
            if alarm then ALARM else if !live then OFFLINE else if other then DEGRADED else TESTING
  {
    forall key
      ensures CountsLive(byTag, key) <==> key in byTag && IsLiveTile(byTag[key])
      ensures CountsStale(byTag, key) <==> key in byTag ==> !IsLiveTile(byTag[key]) && byTag[key].alarm != Disabled
      ensures InAlarm(byTag, key) <==> key in byTag && byTag[key].alarm in {AlarmHigh, AlarmLow}
    {
    }
  }

  ghost function Positions(shade: Shade, byTag: ByTag, keys: seq<string>): set<int> {
    set i | 0 <= i < |keys| && Counts(shade, byTag, keys[i])
  }

  lemma PositionsGrow(shade: Shade, byTag: ByTag, before: seq<string>, key: string)
    ensures Positions(shade, byTag, before + [key]) ==
            Positions(shade, byTag, before) + if Counts(shade, byTag, key) then {|before|} else {}
    ensures |before| !in Positions(shade, byTag, before)
  {
    assert forall i :: 0 <= i < |before| ==> (before + [key])[i] == before[i];
  }

  /** The counts are numbers of considered tags. */
  lemma {:induction false} TallyCountsPositions(shade: Shade, byTag: ByTag, keys: seq<string>)
    ensures Tally(shade, byTag, keys) == |Positions(shade, byTag, keys)|
  {
    if keys == [] {
      assert Positions(shade, byTag, keys) == {};
    } else {
      var before, key := keys[..|keys| - 1], keys[|keys| - 1];
      TallyCountsPositions(shade, byTag, before);
      PositionsGrow(shade, byTag, before, key);
      assert keys == before + [key];
    }
  }

  /** A TESTING badge is sound and complete: every considered tag is known and is either disabled or has a
      trustworthy latest reading, and at least one is not disabled. */
  lemma TestingExactlyWhen(feed: Feed, snapshot: Snapshot, job: string, nowMs: int, byTag: ByTag, keys: seq<string>)
    requires Coherent(feed) && '#' !in job
    requires ShowsAll(byTag, snapshot.sensors, feed, snapshot, job, nowMs)
    ensures BadgeOf(byTag, keys) == TESTING <==>
            && (forall key | key in keys
                  :: key in byTag && (byTag[key].alarm.Disabled? || Trustworthy(feed, snapshot, job, key, nowMs)))
            && (exists key :: key in keys && key in byTag && !byTag[key].alarm.Disabled?)
  {
    forall key | key in keys && key in byTag && !byTag[key].alarm.Disabled?
      ensures Reporting(byTag[key]) && !IsAlarm(byTag[key].alarm) <==> Trustworthy(feed, snapshot, job, key, nowMs)
    {
      var m := LastMapping(snapshot.sensors, key).value;
      LastMappingIsMember(snapshot.sensors, key);
      QuietTileExactlyWhenTrustworthy(feed, snapshot, job, m, nowMs);
      DisabledExactlyWhen(feed, snapshot, job, m, nowMs);
    }
  }

  // -------------------------------------------------------------------------
  // Time passing
  // -------------------------------------------------------------------------

  /** With no ingest, as time passes a tile can stop being live and start being stale, never the reverse. */
  lemma ViewOnlyAges(feed: Feed, snapshot: Snapshot, job: string, nowMs: int, laterMs: int, now: ByTag, later: ByTag,
                     key: string)
    requires nowMs <= laterMs
    requires ShowsAll(now, snapshot.sensors, feed, snapshot, job, nowMs)
    requires ShowsAll(later, snapshot.sensors, feed, snapshot, job, laterMs)
    ensures CountsLive(later, key) ==> CountsLive(now, key)
    ensures CountsStale(now, key) ==> CountsStale(later, key)
    ensures InAlarm(later, key) ==> InAlarm(now, key)
  {
    if key in now {
      var m := LastMapping(snapshot.sensors, key).value;
      LastMappingIsMember(snapshot.sensors, key);
      StatusOnlyAges(LatestReading(feed, job, m.tag), m.tag, snapshot, nowMs, laterMs);
    }
  }

  /** So the roll-up's live count never grows, its stale count never shrinks, and no alarm appears. */
  lemma {:induction false} RollupOnlyDegrades(feed: Feed, snapshot: Snapshot, job: string, nowMs: int, laterMs: int,
                                              now: ByTag, later: ByTag, keys: seq<string>)
    requires nowMs <= laterMs
    requires ShowsAll(now, snapshot.sensors, feed, snapshot, job, nowMs)
    requires ShowsAll(later, snapshot.sensors, feed, snapshot, job, laterMs)
    ensures Tally(LiveTiles, later, keys) <= Tally(LiveTiles, now, keys)
    ensures Tally(StaleTiles, now, keys) <= Tally(StaleTiles, later, keys)
    ensures BadgeOf(later, keys) == ALARM ==> BadgeOf(now, keys) == ALARM
  {
    if keys != [] {
      var n := |keys| - 1;
      RollupOnlyDegrades(feed, snapshot, job, nowMs, laterMs, now, later, keys[..n]);
      ViewOnlyAges(feed, snapshot, job, nowMs, laterMs, now, later, keys[n]);
    }
    if key :| key in keys && InAlarm(later, key) {
      ViewOnlyAges(feed, snapshot, job, nowMs, laterMs, now, later, key);
    }
  }
}
