/**
 Bucketed trends: a `generate_series` grid left-joined with `date_bin` groups. Times are integer
 microseconds in UTC; the result is an exact partition of the qualifying rows, and coarse buckets
 combine the finer ones because every bin shares one origin.
 */
module BucketedTrends {
  import opened Prelude
  import opened ReadingQuality
  import BinArithmetic

  datatype BucketSize = OneMinute | FiveMinutes | FifteenMinutes | OneHour | OneDay
  datatype Kind = Avg | Min | Max | Count | First | Last
  datatype Policy = GoodOnly | IncludeUncertain | IncludeAll

  datatype Reading = Reading(at: int, value: real, tenant: string, unit: string, tag: string,
                             job: Option<string>, quality: Quality, source: string)

  datatype Query = Query(
    tenant: Option<string>, unit: string, tag: string, from: int, to: int, bucket: BucketSize, kind: Kind,
    policy: Policy, job: Option<string>, quality: Option<Quality>, source: Option<string>)

  datatype Bucket = Bucket(start: int, end: int, value: Option<real>, sampleCount: nat)

  // 2000-01-01T00:00:00Z, the origin of every bin.
  const ORIGIN := 946_684_800_000_000
  const MINUTE := 60_000_000

  function Width(b: BucketSize): (w: int)
    ensures w > 0
  {
    match b
    case OneMinute => MINUTE
    case FiveMinutes => 5 * MINUTE
    case FifteenMinutes => 15 * MINUTE
    case OneHour => 60 * MINUTE
    case OneDay => 1440 * MINUTE
  }

  function DateBin(w: int, t: int): int
    requires w > 0
  {
    ORIGIN + (t - ORIGIN) / w * w
  }

  // From `start` in steps, up to and including `stop`.
  function Series(start: int, stop: int, step: int): seq<int>
    requires step > 0
    decreases stop - start
  {
    if start > stop then [] else [start] + Series(start + step, stop, step)
  }

  function Grid(q: Query): seq<int> {
    Series(DateBin(Width(q.bucket), q.from), q.to - 1, Width(q.bucket))
  }

  predicate PolicyAdmits(p: Policy, quality: Quality) {
    match p
    case GoodOnly => quality == Good
    case IncludeUncertain => quality == Good || quality == Uncertain
    case IncludeAll => true
  }

  predicate Qualifies(q: Query, r: Reading) {
    && r.unit == q.unit && r.tag == q.tag
    && q.from <= r.at < q.to
    && (q.tenant.Some? ==> r.tenant == q.tenant.value)
    && (q.job.Some? ==> r.job == q.job)
    && (q.quality.Some? ==> r.quality == q.quality.value)
    && PolicyAdmits(q.policy, r.quality)
    && (q.source.Some? ==> r.source == q.source.value)
  }

  // The rows of one GROUP BY group, in table order.
  function Group(q: Query, table: seq<Reading>, start: int): seq<Reading> {
    if table == [] then []
    else if Qualifies(q, table[0]) && DateBin(Width(q.bucket), table[0].at) == start then
      [table[0]] + Group(q, table[1..], start)
    else Group(q, table[1..], start)
  }

  function GroupStarts(q: Query, table: seq<Reading>): set<int> {
    set r | r in table && Qualifies(q, r) :: DateBin(Width(q.bucket), r.at)
  }

  // -------------------------------------------------------------------------
  // Aggregates
  // -------------------------------------------------------------------------

  function Sum(rows: seq<Reading>): real {
    if rows == [] then 0.0 else rows[0].value + Sum(rows[1..])
  }

  function Lesser(a: real, b: real): real { if a <= b then a else b }
  function Greater(a: real, b: real): real { if a >= b then a else b }

  function Minimum(rows: seq<Reading>): real
    requires rows != []
  {
    if |rows| == 1 then rows[0].value else Lesser(rows[0].value, Minimum(rows[1..]))
  }

  function Maximum(rows: seq<Reading>): real
    requires rows != []
  {
    if |rows| == 1 then rows[0].value else Greater(rows[0].value, Maximum(rows[1..]))
  }

  // The first row by timestamp; among rows with the same timestamp, the first of the table.
  function Earliest(rows: seq<Reading>): Reading
    requires rows != []
  {
    if |rows| == 1 then rows[0]
    else if rows[0].at <= Earliest(rows[1..]).at then rows[0] else Earliest(rows[1..])
  }

  function Latest(rows: seq<Reading>): Reading
    requires rows != []
  {
    if |rows| == 1 then rows[0]
    else if rows[0].at >= Latest(rows[1..]).at then rows[0] else Latest(rows[1..])
  }

  function Aggregate(kind: Kind, rows: seq<Reading>): real
    requires rows != []
  {
    match kind
    case Avg => Sum(rows) / |rows| as real
    case Min => Minimum(rows)
    case Max => Maximum(rows)
    case Count => |rows| as real
    case First => Earliest(rows).value
    case Last => Latest(rows).value
  }

  lemma GroupIsNonEmpty(q: Query, table: seq<Reading>, start: int)
    ensures start in GroupStarts(q, table) <==> Group(q, table, start) != []
  {
    if table != [] {
      GroupIsNonEmpty(q, table[1..], start);
      assert table == [table[0]] + table[1..];
    }
  }

  // The bucket of one grid start; without a group it has no value and count 0.
  function Joined(q: Query, table: seq<Reading>, start: int): Bucket {
    if start in GroupStarts(q, table) then
      GroupIsNonEmpty(q, table, start);
      Bucket(start, start + Width(q.bucket), Some(Aggregate(q.kind, Group(q, table, start))), |Group(q, table, start)|)
    else
      Bucket(start, start + Width(q.bucket), None, 0)
  }

  function RunBucketedQuery(q: Query, table: seq<Reading>): (buckets: seq<Bucket>)
    ensures |buckets| == |Grid(q)|
  {
    seq(|Grid(q)|, i requires 0 <= i < |Grid(q)| => Joined(q, table, Grid(q)[i]))
  }

  // -------------------------------------------------------------------------
  // The grid
  // -------------------------------------------------------------------------

  // An edge of the bins of size `b`.
  predicate IsEdge(b: BucketSize, t: int) { (t - ORIGIN) % Width(b) == 0 }

  lemma DateBinIsTheEdgeBelow(b: BucketSize, t: int, edge: int)
    ensures DateBin(Width(b), t) == edge <==> IsEdge(b, edge) && edge <= t < edge + Width(b)
  {
    BinArithmetic.FloorIsTheMultipleBelow(Width(b), t - ORIGIN, edge - ORIGIN);
  }

  lemma NextEdge(b: BucketSize, edge: int)
    requires IsEdge(b, edge)
    ensures IsEdge(b, edge + Width(b))
  {
    BinArithmetic.ModPlus(edge - ORIGIN, Width(b));
  }

  // `grid` is the ascending run of abutting edges from `start` up to the bin holding `stop`.
  ghost predicate IsGrid(b: BucketSize, start: int, stop: int, grid: seq<int>) {
    && (start <= stop ==> grid != [] && grid[0] == start && grid[|grid| - 1] <= stop < grid[|grid| - 1] + Width(b))
    && (forall i :: 0 <= i < |grid| ==> IsEdge(b, grid[i]) && start <= grid[i] <= stop)
    && (forall i :: 0 <= i < |grid| - 1 ==> grid[i + 1] == grid[i] + Width(b))
    && (forall i, j :: 0 <= i < j < |grid| ==> grid[i] + Width(b) <= grid[j])
  }

  lemma GridGrows(b: BucketSize, start: int, stop: int, rest: seq<int>)
    requires start <= stop && IsEdge(b, start)
    requires IsGrid(b, start + Width(b), stop, rest)
    requires rest == [] ==> stop < start + Width(b)
    ensures IsGrid(b, start, stop, [start] + rest)
  {
    var grid := [start] + rest;
    assert forall i :: 0 < i < |grid| ==> grid[i] == rest[i - 1];
  }

  lemma {:induction false} SeriesIsGrid(b: BucketSize, start: int, stop: int)
    requires IsEdge(b, start)
    ensures IsGrid(b, start, stop, Series(start, stop, Width(b)))
    decreases stop - start
  {
    if start <= stop {
      NextEdge(b, start);
      var rest := Series(start + Width(b), stop, Width(b));
      SeriesIsGrid(b, start + Width(b), stop);
      GridGrows(b, start, stop, rest);
    }
  }

  lemma QueryGridIsGrid(q: Query)
    ensures IsGrid(q.bucket, DateBin(Width(q.bucket), q.from), q.to - 1, Grid(q))
  {
    DateBinIsTheEdgeBelow(q.bucket, q.from, DateBin(Width(q.bucket), q.from));
    SeriesIsGrid(q.bucket, DateBin(Width(q.bucket), q.from), q.to - 1);
  }

  lemma {:induction false} SeriesFinds(b: BucketSize, start: int, stop: int, t: int) returns (i: nat)
    requires start <= t <= stop
    ensures i < |Series(start, stop, Width(b))|
    ensures Series(start, stop, Width(b))[i] <= t < Series(start, stop, Width(b))[i] + Width(b)
    decreases stop - start
  {
    if t < start + Width(b) {
      i := 0;
    } else {
      i := SeriesFinds(b, start + Width(b), stop, t);
      i := i + 1;
    }
  }

  /** Buckets ascend, abut and cover [from, to). */
  lemma GridCovers(q: Query, table: seq<Reading>)
    requires q.from < q.to
    ensures var bs := RunBucketedQuery(q, table);
            && bs != []
            && (forall i :: 0 <= i < |bs| ==> bs[i].start < q.to && bs[i].end == bs[i].start + Width(q.bucket))
            && (forall i :: 0 <= i < |bs| - 1 ==> bs[i].end == bs[i + 1].start)
            && bs[0].start <= q.from < bs[0].end
            && q.to <= bs[|bs| - 1].end
  {
    QueryGridIsGrid(q);
    DateBinIsTheEdgeBelow(q.bucket, q.from, DateBin(Width(q.bucket), q.from));
  }

  function CeilDiv(a: int, b: int): int
    requires b > 0
  {
    (a + b - 1) / b
  }

  lemma SeriesLengthStep(span: int, w: int)
    requires w > 0 && 0 <= span
    ensures span / w + 1 == if span < w then 1 else (span - w) / w + 1 + 1
  {
    if span < w {
      BinArithmetic.DivModUnique(w, 0, span, span);
    } else {
      BinArithmetic.ModPlus(span - w, w);
    }
  }

  lemma {:induction false} SeriesLength(b: BucketSize, start: int, stop: int)
    ensures |Series(start, stop, Width(b))| == if start > stop then 0 else (stop - start) / Width(b) + 1
    decreases stop - start
  {
    if start <= stop {
      SeriesLength(b, start + Width(b), stop);
      SeriesLengthStep(stop - start, Width(b));
    }
  }

  /** The exact number of buckets: one more than ceil(W / width) exactly when the range straddles
      one more bin boundary than its length alone needs. */
  lemma BucketCountIsExact(q: Query, table: seq<Reading>)
    requires q.from < q.to
    ensures var w, W := Width(q.bucket), q.to - q.from;
            |RunBucketedQuery(q, table)| ==
            CeilDiv(W, w) + if (q.from - ORIGIN) % w + (W - 1) % w >= w then 1 else 0
  {
    var w := Width(q.bucket);
    DateBinIsTheEdgeBelow(q.bucket, q.from, DateBin(w, q.from));
    SeriesLength(q.bucket, DateBin(w, q.from), q.to - 1);
    BinArithmetic.FloorOfSum(w, q.from - ORIGIN, q.to - q.from - 1);
  }

  // -------------------------------------------------------------------------
  // The width policy of the web client
  // -------------------------------------------------------------------------

  datatype TrendWindow = W15m | W1h | W6h | W24h | W7d

  function WindowMs(w: TrendWindow): int {
    match w
    case W15m => 15 * 60 * 1000
    case W1h => 60 * 60 * 1000
    case W6h => 6 * 60 * 60 * 1000
    case W24h => 24 * 60 * 60 * 1000
    case W7d => 7 * 24 * 60 * 60 * 1000
  }

  // None is raw mode; both policies ask for avg / good_only otherwise.
  function PolicyForWindow(w: TrendWindow): Option<BucketSize> {
    match w
    case W15m => None
    case W1h => None
    case W6h => Some(OneMinute)
    case W24h => Some(FiveMinutes)
    case W7d => Some(FifteenMinutes)
  }

  function PolicyForWidth(widthMs: int): Option<BucketSize> {
    if widthMs <= WindowMs(W1h) then None
    else if widthMs <= WindowMs(W6h) then Some(OneMinute)
    else if widthMs <= WindowMs(W24h) then Some(FiveMinutes)
    else Some(FifteenMinutes)
  }

  /** Any range of at most 24 h whose bucket the policy picked yields at most 361 buckets, and a
      7-day one at most 673; a fixed window gets the policy of its width. */
  lemma PolicyBoundsBuckets(q: Query, table: seq<Reading>)
    requires q.from < q.to && (q.to - q.from) % 1000 == 0
    requires PolicyForWidth((q.to - q.from) / 1000) == Some(q.bucket)
    ensures (q.to - q.from) / 1000 <= WindowMs(W24h) ==> |RunBucketedQuery(q, table)| <= 361
    ensures (q.to - q.from) / 1000 <= WindowMs(W7d) ==> |RunBucketedQuery(q, table)| <= 673
    ensures forall w :: PolicyForWindow(w) == PolicyForWidth(WindowMs(w))
  {
    BucketCountIsExact(q, table);
  }

  /** The policy by the width alone. */
  lemma PolicyByWidth(widthMs: int)
    ensures PolicyForWidth(widthMs).None? <==> widthMs <= 3_600_000
    ensures PolicyForWidth(widthMs) == Some(OneMinute) <==> 3_600_000 < widthMs <= 21_600_000
    ensures PolicyForWidth(widthMs) == Some(FiveMinutes) <==> 21_600_000 < widthMs <= 86_400_000
    ensures PolicyForWidth(widthMs) == Some(FifteenMinutes) <==> 86_400_000 < widthMs
  {
  }

  /** The fixed windows, with the bucket their policy picks, give 360, 288 and 672 buckets on a bin edge and
      one more off it; the two shorter ones are raw. */
  lemma FixedWindowCounts(q: Query, table: seq<Reading>, w: TrendWindow)
    requires q.to - q.from == WindowMs(w) * 1000
    ensures PolicyForWindow(w).None? <==> w in {W15m, W1h}
    ensures 4 * WindowMs(W15m) == WindowMs(W1h)
    ensures PolicyForWindow(w) == Some(q.bucket) ==>
              |RunBucketedQuery(q, table)| ==
              (match w case W6h => 360 case W24h => 288 case _ => 672)
              + if (q.from - ORIGIN) % Width(q.bucket) == 0 then 0 else 1
  {
    if PolicyForWindow(w) == Some(q.bucket) {
      BucketCountIsExact(q, table);
    }
  }

  /** 361 is reached: six hours at one minute, starting off the minute. */
  lemma SixHoursOffTheMinuteGives361(q: Query, table: seq<Reading>)
    requires q.bucket == OneMinute && q.to == q.from + 6 * 60 * MINUTE
    ensures |RunBucketedQuery(q, table)| == if (q.from - ORIGIN) % MINUTE == 0 then 360 else 361
  {
    BucketCountIsExact(q, table);
  }

  // The request schema's cap, on ceil(span / width).
  const BUCKETS_MAX := 1500

  predicate Accepted(q: Query) {
    q.from < q.to && CeilDiv(q.to - q.from, Width(q.bucket)) <= BUCKETS_MAX
  }

  /** The cap is on the span, not on the grid: an accepted request can return 1501 buckets, and does
      exactly when its span needs all 1500 and it starts off a bin edge by enough. */
  lemma CapIsExceededExactlyWhen(q: Query, table: seq<Reading>)
    requires Accepted(q)
    ensures |RunBucketedQuery(q, table)| <= BUCKETS_MAX + 1
    ensures var w, W := Width(q.bucket), q.to - q.from;
            |RunBucketedQuery(q, table)| > BUCKETS_MAX <==>
            CeilDiv(W, w) == BUCKETS_MAX && (q.from - ORIGIN) % w + (W - 1) % w >= w
  {
    BucketCountIsExact(q, table);
  }

  /** ... and it happens: 1500 minutes at one minute, starting on the half minute. */
  lemma AcceptedRequestReturns1501(q: Query, table: seq<Reading>)
    requires q.bucket == OneMinute && q.from == ORIGIN + MINUTE / 2 && q.to == q.from + 1500 * MINUTE
    ensures Accepted(q) && |RunBucketedQuery(q, table)| == 1501
  {
    BucketCountIsExact(q, table);
  }

  /** The client's own policy is not always within the cap: its requests are accepted exactly up to 1500
      quarter-hours, 15 days and 15 hours. */
  lemma PolicyIsAcceptedExactlyWhen(q: Query)
    requires (q.to - q.from) % 1000 == 0
    requires PolicyForWidth((q.to - q.from) / 1000) == Some(q.bucket)
    ensures Accepted(q) <==> q.to - q.from <= 1500 * 15 * MINUTE
  {
  }

  // -------------------------------------------------------------------------
  // Exact partition
  // -------------------------------------------------------------------------

  predicate Holds(b: Bucket, r: Reading) { b.start <= r.at < b.end }

  lemma QualifyingRowHasItsBucket(q: Query, r: Reading) returns (i: nat)
    requires Qualifies(q, r)
    ensures i < |Grid(q)| && Grid(q)[i] == DateBin(Width(q.bucket), r.at)
  {
    var start := DateBin(Width(q.bucket), q.from);
    DateBinIsTheEdgeBelow(q.bucket, q.from, start);
    i := SeriesFinds(q.bucket, start, q.to - 1, r.at);
    QueryGridIsGrid(q);
    DateBinIsTheEdgeBelow(q.bucket, r.at, Grid(q)[i]);
  }

  lemma {:induction false} GroupHoldsExactly(q: Query, table: seq<Reading>, start: int, r: Reading)
    ensures r in Group(q, table, start) <==> r in table && Qualifies(q, r) && DateBin(Width(q.bucket), r.at) == start
  {
    if table != [] {
      GroupHoldsExactly(q, table[1..], start, r);
      assert table == [table[0]] + table[1..];
    }
  }

  /** Every qualifying row falls in exactly one bucket, and is in the group of exactly that one. */
  lemma EachRowInExactlyOneBucket(q: Query, table: seq<Reading>, r: Reading) returns (i: nat)
    requires r in table && Qualifies(q, r)
    ensures i < |RunBucketedQuery(q, table)|
    ensures forall j :: 0 <= j < |Grid(q)| ==> (Holds(RunBucketedQuery(q, table)[j], r) <==> j == i)
    ensures forall j :: 0 <= j < |Grid(q)| ==> (r in Group(q, table, Grid(q)[j]) <==> j == i)
  {
    i := QualifyingRowHasItsBucket(q, r);
    QueryGridIsGrid(q);
    DateBinIsTheEdgeBelow(q.bucket, r.at, Grid(q)[i]);
    forall j | 0 <= j < |Grid(q)|
      ensures Holds(RunBucketedQuery(q, table)[j], r) <==> j == i
      ensures r in Group(q, table, Grid(q)[j]) <==> j == i
    {
      DateBinIsTheEdgeBelow(q.bucket, r.at, Grid(q)[j]);
      GroupHoldsExactly(q, table, Grid(q)[j], r);
    }
  }

  function Qualifying(q: Query, table: seq<Reading>): seq<Reading> {
    if table == [] then []
    else if Qualifies(q, table[0]) then [table[0]] + Qualifying(q, table[1..])
    else Qualifying(q, table[1..])
  }

  // The rows of all groups along the grid, as a bag.
  function Gathered(q: Query, table: seq<Reading>, grid: seq<int>): multiset<Reading> {
    if grid == [] then multiset{} else multiset(Group(q, table, grid[0])) + Gathered(q, table, grid[1..])
  }

  function TotalSamples(bs: seq<Bucket>): nat {
    if bs == [] then 0 else bs[0].sampleCount + TotalSamples(bs[1..])
  }

  lemma {:induction false} CountsAreGathered(q: Query, table: seq<Reading>, grid: seq<int>, bs: seq<Bucket>)
    requires |grid| == |bs| && forall i :: 0 <= i < |grid| ==> bs[i] == Joined(q, table, grid[i])
    ensures TotalSamples(bs) == |Gathered(q, table, grid)|
  {
    if grid != [] {
      GroupIsNonEmpty(q, table, grid[0]);
      CountsAreGathered(q, table, grid[1..], bs[1..]);
    }
  }

  lemma {:induction false} GatheredFromNothing(q: Query, grid: seq<int>)
    ensures Gathered(q, [], grid) == multiset{}
  {
    if grid != [] {
      GatheredFromNothing(q, grid[1..]);
    }
  }

  lemma {:induction false} GatheredGainsRow(q: Query, r: Reading, rest: seq<Reading>, grid: seq<int>)
    requires forall i, j :: 0 <= i < j < |grid| ==> grid[i] < grid[j]
    ensures Gathered(q, [r] + rest, grid) ==
            Gathered(q, rest, grid) +
            if Qualifies(q, r) && DateBin(Width(q.bucket), r.at) in grid then multiset{r} else multiset{}
  {
    if grid != [] {
      GatheredGainsRow(q, r, rest, grid[1..]);
      assert ([r] + rest)[1..] == rest;
      assert grid[0] !in grid[1..];
    }
  }

  lemma {:induction false} GatheredIsQualifying(q: Query, table: seq<Reading>)
    ensures Gathered(q, table, Grid(q)) == multiset(Qualifying(q, table))
  {
    if table == [] {
      GatheredFromNothing(q, Grid(q));
    } else {
      var r, rest := table[0], table[1..];
      assert table == [r] + rest;
      GatheredIsQualifying(q, rest);
      QueryGridIsGrid(q);
      GatheredGainsRow(q, r, rest, Grid(q));
      if Qualifies(q, r) {
        var i := QualifyingRowHasItsBucket(q, r);
        assert DateBin(Width(q.bucket), r.at) in Grid(q);
      }
    }
  }

  /** The buckets are an exact partition: their groups together are the qualifying rows, no row lost
      or repeated; the counts add up to their number; a value is null exactly where the count is 0. */
  lemma BucketsPartitionRows(q: Query, table: seq<Reading>)
    ensures Gathered(q, table, Grid(q)) == multiset(Qualifying(q, table))
    ensures TotalSamples(RunBucketedQuery(q, table)) == |Qualifying(q, table)|
    ensures forall b :: b in RunBucketedQuery(q, table) ==> (b.value.None? <==> b.sampleCount == 0)
    ensures forall b :: b in RunBucketedQuery(q, table) ==> b.sampleCount == |Group(q, table, b.start)|
  {
    GatheredIsQualifying(q, table);
    CountsAreGathered(q, table, Grid(q), RunBucketedQuery(q, table));
    forall b | b in RunBucketedQuery(q, table)
      ensures (b.value.None? <==> b.sampleCount == 0) && b.sampleCount == |Group(q, table, b.start)|
    {
      GroupIsNonEmpty(q, table, b.start);
    }
  }

  // How many rows enter the bin at `start` under a policy, with the row filter set to `quality`.
  function Samples(q: Query, table: seq<Reading>, start: int, policy: Policy, quality: Option<Quality>): nat {
    |Group(q.(policy := policy, quality := quality), table, start)|
  }

  /** The quality policies conserve samples: everything is the good, the uncertain and the bad rows
      together, include_uncertain drops the bad ones, good_only the uncertain ones too. */
  lemma {:induction false} PoliciesConserveSamples(q: Query, table: seq<Reading>, start: int)
    ensures var good := Samples(q, table, start, IncludeAll, Some(Good));
            var uncertain := Samples(q, table, start, IncludeAll, Some(Uncertain));
            var bad := Samples(q, table, start, IncludeAll, Some(Bad));
            && Samples(q, table, start, IncludeAll, None) == good + uncertain + bad
            && Samples(q, table, start, IncludeUncertain, None) == good + uncertain
            && Samples(q, table, start, GoodOnly, None) == good
            && Samples(q, table, start, GoodOnly, Some(Bad)) == 0
  {
    if table != [] {
      PoliciesConserveSamples(q, table[1..], start);
    }
  }

  // The row lies outside the range or differs from a filter that is set.
  predicate Foreign(q: Query, r: Reading) {
    || r.unit != q.unit || r.tag != q.tag || r.at < q.from || q.to <= r.at
    || (q.tenant.Some? && r.tenant != q.tenant.value)
    || (q.job.Some? && r.job != q.job)
    || (q.quality.Some? && r.quality != q.quality.value)
    || (q.source.Some? && r.source != q.source.value)
  }

  lemma {:induction false} GroupWithoutForeign(q: Query, before: seq<Reading>, r: Reading, after: seq<Reading>,
                                               start: int)
    requires Foreign(q, r)
    ensures Group(q, before + [r] + after, start) == Group(q, before + after, start)
  {
    if before == [] {
      assert [] + [r] + after == [r] + after && [] + after == after;
      assert ([r] + after)[1..] == after;
    } else {
      GroupWithoutForeign(q, before[1..], r, after, start);
      assert (before + [r] + after)[1..] == before[1..] + [r] + after;
      assert (before + after)[1..] == before[1..] + after;
    }
  }

  /** Rows of other units, tags, tenants, jobs, sources or times do not interfere: with or without one,
      at any place in the table, the response is the same. */
  lemma ForeignRowsDoNotInterfere(q: Query, before: seq<Reading>, r: Reading, after: seq<Reading>)
    requires Foreign(q, r)
    ensures RunBucketedQuery(q, before + [r] + after) == RunBucketedQuery(q, before + after)
  {
    forall i | 0 <= i < |Grid(q)|
      ensures Joined(q, before + [r] + after, Grid(q)[i]) == Joined(q, before + after, Grid(q)[i])
    {
      GroupWithoutForeign(q, before, r, after, Grid(q)[i]);
      GroupIsNonEmpty(q, before + [r] + after, Grid(q)[i]);
      GroupIsNonEmpty(q, before + after, Grid(q)[i]);
    }
  }
}
