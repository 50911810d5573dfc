/**
 What a bucket's numbers mean, told by the response and the rows of the table alone: which rows feed it,
 what one more row does to it, and what each aggregate reports of the rows that feed it.
 */
module BucketMeaning {
  import opened Prelude
  import opened ReadingQuality
  import opened BucketedTrends
  import opened BucketHierarchy
  import BinArithmetic

  // -------------------------------------------------------------------------
  // Which rows feed a bucket
  // -------------------------------------------------------------------------

  // Inside the range, equal to every filter that is set, and of a quality the policy lets in.
  predicate IsAskedFor(q: Query, r: Reading) {
    && !Foreign(q, r)
    && (r.quality == Bad ==> q.policy == IncludeAll)
    && (r.quality == Uncertain ==> q.policy != GoodOnly)
  }

  predicate Feeds(q: Query, b: Bucket, r: Reading) { IsAskedFor(q, r) && Holds(b, r) }

  lemma AskedForMeansQualifies(q: Query, r: Reading)
    ensures IsAskedFor(q, r) <==> Qualifies(q, r)
  {
  }

  lemma FeedsMeansInBin(q: Query, table: seq<Reading>, i: nat, r: Reading)
    requires i < |Grid(q)|
    ensures Feeds(q, RunBucketedQuery(q, table)[i], r) <==>
            Qualifies(q, r) && DateBin(Width(q.bucket), r.at) == Grid(q)[i]
  {
    AskedForMeansQualifies(q, r);
    QueryGridIsGrid(q);
    DateBinIsTheEdgeBelow(q.bucket, r.at, Grid(q)[i]);
  }

  // -------------------------------------------------------------------------
  // One more row
  // -------------------------------------------------------------------------

  lemma {:induction false} GroupJoins(q: Query, a: seq<Reading>, b: seq<Reading>, start: int)
    ensures Group(q, a + b, start) == Group(q, a, start) + Group(q, b, start)
  {
    if a == [] {
      assert a + b == b;
    } else {
      var head := if Qualifies(q, a[0]) && DateBin(Width(q.bucket), a[0].at) == start then [a[0]] else [];
      GroupJoins(q, a[1..], b, start);
      assert (a + b)[0] == a[0] && (a + b)[1..] == a[1..] + b;
      assert Group(q, a + b, start) == head + Group(q, a[1..] + b, start);
      assert Group(q, a, start) == head + Group(q, a[1..], start);
    }
  }

  lemma {:induction false} SumJoins(a: seq<Reading>, b: seq<Reading>)
    ensures Sum(a + b) == Sum(a) + Sum(b)
  {
    if a == [] {
      assert a + b == b;
    } else {
      SumJoins(a[1..], b);
      assert (a + b)[1..] == a[1..] + b;
    }
  }

  lemma GroupWithRow(q: Query, before: seq<Reading>, r: Reading, after: seq<Reading>, start: int)
    ensures var gets := Qualifies(q, r) && DateBin(Width(q.bucket), r.at) == start;
            Group(q, before + [r] + after, start) ==
            Group(q, before, start) + (if gets then [r] else []) + Group(q, after, start)
  {
    GroupJoins(q, before + [r], after, start);
    GroupJoins(q, before, [r], start);
    assert [r][1..] == [];
  }

  // Value times count: what the average weighs.
  function Weight(b: Bucket): real { b.value.GetOr(0.0) * b.sampleCount as real }

  lemma JoinedWeighs(q: Query, table: seq<Reading>, start: int)
    ensures Joined(q, table, start).sampleCount == |Group(q, table, start)|
    ensures q.kind.Avg? ==> Weight(Joined(q, table, start)) == Sum(Group(q, table, start))
  {
    GroupIsNonEmpty(q, table, start);
    if Group(q, table, start) != [] {
      AverageTimesCount(Sum(Group(q, table, start)), |Group(q, table, start)| as real);
    }
  }

  /** One more row, wherever it stands in the table: the bucket it feeds counts one more and, averaging,
      weighs its value more; every other bucket of the response is as it was. */
  lemma OneMoreRow(q: Query, before: seq<Reading>, r: Reading, after: seq<Reading>, i: nat)
    requires i < |Grid(q)|
    ensures var b, b' := RunBucketedQuery(q, before + after)[i], RunBucketedQuery(q, before + [r] + after)[i];
            if Feeds(q, b, r) then
              && b'.start == b.start && b'.end == b.end
              && b'.sampleCount == b.sampleCount + 1
              && (q.kind.Avg? ==> Weight(b') == Weight(b) + r.value)
            else b' == b
  {
    var start := Grid(q)[i];
    FeedsMeansInBin(q, before + after, i, r);
    GroupWithRow(q, before, r, after, start);
    GroupJoins(q, before, after, start);
    GroupIsNonEmpty(q, before + after, start);
    GroupIsNonEmpty(q, before + [r] + after, start);
    assert Group(q, before, start) + [] + Group(q, after, start) == Group(q, before, start) + Group(q, after, start);
    if Feeds(q, RunBucketedQuery(q, before + after)[i], r) {
      JoinedWeighs(q, before + after, start);
      JoinedWeighs(q, before + [r] + after, start);
      SumJoins(Group(q, before, start) + [r], Group(q, after, start));
      SumJoins(Group(q, before, start), [r]);
      SumJoins(Group(q, before, start), Group(q, after, start));
      assert [r][1..] == [];
    }
  }

  /** ... and without any row every bucket is empty. Together the two determine every count and average. */
  lemma NoRowsNoValues(q: Query, i: nat)
    requires i < |Grid(q)|
    ensures RunBucketedQuery(q, [])[i].value.None? && RunBucketedQuery(q, [])[i].sampleCount == 0
  {
  }

  /** A row whose value changes by `d` moves the weight of the bucket it feeds by `d`, and no other. */
  lemma ChangedValueMovesItsBucket(q: Query, before: seq<Reading>, r: Reading, after: seq<Reading>, d: real, i: nat)
    requires i < |Grid(q)| && q.kind.Avg?
    ensures var b := RunBucketedQuery(q, before + [r] + after)[i];
            var b' := RunBucketedQuery(q, before + [r.(value := r.value + d)] + after)[i];
            if Feeds(q, b, r) then b'.sampleCount == b.sampleCount && Weight(b') == Weight(b) + d else b' == b
  {
    var r' := r.(value := r.value + d);
    OneMoreRow(q, before, r, after, i);
    OneMoreRow(q, before, r', after, i);
    var b := RunBucketedQuery(q, before + after)[i];
    assert Feeds(q, b, r) <==> Feeds(q, b, r');
  }

  lemma {:induction false} SumOfEqualValues(rows: seq<Reading>, v: real)
    requires forall r :: r in rows ==> r.value == v
    ensures Sum(rows) == |rows| as real * v
  {
    if rows != [] {
      SumOfEqualValues(rows[1..], v);
      assert rows == [rows[0]] + rows[1..];
    }
  }

  lemma Quotient(n: real, v: real)
    requires n != 0.0
    ensures n * v / n == v
  {
  }

  lemma MeanOfEqualValues(rows: seq<Reading>, v: real)
    requires rows != [] && forall r :: r in rows ==> r.value == v
    ensures Aggregate(Avg, rows) == v
  {
    var n := |rows| as real;
    SumOfEqualValues(rows, v);
    Quotient(n, v);
    assert Aggregate(Avg, rows) == Sum(rows) / n;
  }

  /** The average of equal values is that value. */
  lemma AverageOfEqualValues(q: Query, table: seq<Reading>, i: nat, v: real)
    requires i < |Grid(q)| && q.kind.Avg?
    requires forall r :: r in table && Feeds(q, RunBucketedQuery(q, table)[i], r) ==> r.value == v
    ensures RunBucketedQuery(q, table)[i].sampleCount > 0 ==> RunBucketedQuery(q, table)[i].value == Some(v)
  {
    var start := Grid(q)[i];
    var rows := Group(q, table, start);
    forall r | r in rows
      ensures r.value == v
    {
      GroupHoldsExactly(q, table, start, r);
      FeedsMeansInBin(q, table, i, r);
    }
    GroupIsNonEmpty(q, table, start);
    if rows != [] {
      MeanOfEqualValues(rows, v);
    }
  }

  // -------------------------------------------------------------------------
  // The other aggregates
  // -------------------------------------------------------------------------

  // Row k of the table feeds the bucket.
  predicate FeedsAt(q: Query, b: Bucket, table: seq<Reading>, k: int) {
    0 <= k < |table| && Feeds(q, b, table[k])
  }

  // Row k comes before row j by time, or by its place in the table at the same time.
  predicate NotAfter(table: seq<Reading>, k: int, j: int)
    requires 0 <= k < |table| && 0 <= j < |table|
  {
    table[k].at < table[j].at || (table[k].at == table[j].at && k <= j)
  }

  // Row k is later than row j, or before it in the table at the same time.
  predicate NotBefore(table: seq<Reading>, k: int, j: int)
    requires 0 <= k < |table| && 0 <= j < |table|
  {
    table[j].at < table[k].at || (table[k].at == table[j].at && k <= j)
  }

  predicate InBin(q: Query, table: seq<Reading>, start: int, k: int) {
    0 <= k < |table| && Qualifies(q, table[k]) && DateBin(Width(q.bucket), table[k].at) == start
  }

  lemma NobodyInBin(q: Query, table: seq<Reading>, start: int)
    requires Group(q, table, start) == []
    ensures forall j :: !InBin(q, table, start, j)
  {
    forall j
      ensures !InBin(q, table, start, j)
    {
      if InBin(q, table, start, j) {
        GroupHoldsExactly(q, table, start, table[j]);
      }
    }
  }

  lemma {:induction false} EarliestStands(q: Query, table: seq<Reading>, start: int) returns (k: int)
    requires Group(q, table, start) != []
    ensures InBin(q, table, start, k) && Earliest(Group(q, table, start)) == table[k]
    ensures forall j :: InBin(q, table, start, j) ==> NotAfter(table, k, j)
  {
    var rest := table[1..];
    assert forall j :: 0 < j < |table| ==>
                         table[j] == rest[j - 1] && (InBin(q, table, start, j) <==> InBin(q, rest, start, j - 1));
    if Group(q, rest, start) == [] {
      k := 0;
      NobodyInBin(q, rest, start);
    } else {
      k := EarliestStands(q, rest, start);
      k := k + 1;
      if InBin(q, table, start, 0) && table[0].at <= table[k].at {
        k := 0;
      }
    }
  }

  lemma {:induction false} LatestStands(q: Query, table: seq<Reading>, start: int) returns (k: int)
    requires Group(q, table, start) != []
    ensures InBin(q, table, start, k) && Latest(Group(q, table, start)) == table[k]
    ensures forall j :: InBin(q, table, start, j) ==> NotBefore(table, k, j)
  {
    var rest := table[1..];
    assert forall j :: 0 < j < |table| ==>
                         table[j] == rest[j - 1] && (InBin(q, table, start, j) <==> InBin(q, rest, start, j - 1));
    if Group(q, rest, start) == [] {
      k := 0;
      NobodyInBin(q, rest, start);
    } else {
      k := LatestStands(q, rest, start);
      k := k + 1;
      if InBin(q, table, start, 0) && table[0].at >= table[k].at {
        k := 0;
      }
    }
  }

  // The reported value is that of row k.
  predicate Reports(b: Bucket, table: seq<Reading>, k: int) {
    0 <= k < |table| && b.value == Some(table[k].value)
  }

  lemma RowInBin(q: Query, table: seq<Reading>, start: int, r: Reading) returns (k: int)
    requires r in Group(q, table, start)
    ensures InBin(q, table, start, k) && table[k] == r
    ensures forall j :: InBin(q, table, start, j) ==> table[j] in Group(q, table, start)
  {
    GroupHoldsExactly(q, table, start, r);
    k :| 0 <= k < |table| && table[k] == r;
    forall j | InBin(q, table, start, j)
      ensures table[j] in Group(q, table, start)
    {
      GroupHoldsExactly(q, table, start, table[j]);
    }
  }

  lemma ReportedRow(q: Query, table: seq<Reading>, start: int) returns (k: int)
    requires Group(q, table, start) != []
    ensures InBin(q, table, start, k)
    ensures !q.kind.Avg? && !q.kind.Count? ==> Aggregate(q.kind, Group(q, table, start)) == table[k].value
    ensures forall j :: InBin(q, table, start, j) ==>
                        match q.kind
                        case Min => table[k].value <= table[j].value
                        case Max => table[k].value >= table[j].value
                        case First => NotAfter(table, k, j)
                        case Last => NotBefore(table, k, j)
                        case _ => true
  {
    match q.kind {
      case First => k := EarliestStands(q, table, start);
      case Last => k := LatestStands(q, table, start);
      case Min =>
        ExtremesAreAttained(Group(q, table, start));
        var r :| r in Group(q, table, start) && r.value == Minimum(Group(q, table, start));
        k := RowInBin(q, table, start, r);
      case Max =>
        ExtremesAreAttained(Group(q, table, start));
        var r :| r in Group(q, table, start) && r.value == Maximum(Group(q, table, start));
        k := RowInBin(q, table, start, r);
      case Avg => k := RowInBin(q, table, start, Group(q, table, start)[0]);
      case Count => k := RowInBin(q, table, start, Group(q, table, start)[0]);
    }
  }

  /** A bucket has a value exactly when a row feeds it. A minimum (maximum) is the value of a row that feeds
      it and bounds them all; a first (last) value is that of the row that comes first (last), the first in
      the table of those at the same time; a count is the sample count. */
  lemma BucketReportsItsRows(q: Query, table: seq<Reading>, i: nat)
    requires i < |Grid(q)|
    ensures var b := RunBucketedQuery(q, table)[i];
            && (b.value.Some? <==> exists k :: FeedsAt(q, b, table, k))
            && (b.value.Some? && !q.kind.Avg? && !q.kind.Count? ==>
                  exists k :: FeedsAt(q, b, table, k) && Reports(b, table, k)
                              && forall j :: FeedsAt(q, b, table, j) ==>
                                   match q.kind
                                   case Min => table[k].value <= table[j].value
                                   case Max => table[k].value >= table[j].value
                                   case First => NotAfter(table, k, j)
                                   case _ => NotBefore(table, k, j))
            && (b.value.Some? && q.kind.Count? ==> b.value == Some(b.sampleCount as real))
  {
    var b, start := RunBucketedQuery(q, table)[i], Grid(q)[i];
    forall k
      ensures FeedsAt(q, b, table, k) <==> InBin(q, table, start, k)
    {
      if 0 <= k < |table| {
        FeedsMeansInBin(q, table, i, table[k]);
      }
    }
    GroupIsNonEmpty(q, table, start);
    if Group(q, table, start) == [] {
      NobodyInBin(q, table, start);
    } else {
      var k := ReportedRow(q, table, start);
      assert FeedsAt(q, b, table, k);
    }
  }

  // -------------------------------------------------------------------------
  // The clock on the wall
  // -------------------------------------------------------------------------

  const SECOND := 1_000_000

  lemma OriginIsWhole(b: BucketSize)
    ensures ORIGIN % Width(b) == 0
  {
  }

  /** Buckets are as long as their name says, and start on the wall clock's own minute, hour or midnight in
      UTC, counted from the epoch: the origin 2000-01-01 is 10957 days after it. */
  lemma BucketsAreWallClockUnits(q: Query, table: seq<Reading>, i: nat)
    requires i < |Grid(q)|
    ensures var b := RunBucketedQuery(q, table)[i];
            var w := match q.bucket
                     case OneMinute => 60 * SECOND
                     case FiveMinutes => 300 * SECOND
                     case FifteenMinutes => 900 * SECOND
                     case OneHour => 3600 * SECOND
                     case OneDay => 86400 * SECOND;
            b.end - b.start == w && b.start % w == 0
    ensures ORIGIN == 10957 * 86400 * SECOND
  {
    QueryGridIsGrid(q);
    OriginIsWhole(q.bucket);
    var w, d := Width(q.bucket), Grid(q)[i] - ORIGIN;
    BinArithmetic.DivModUnique(w, d / w + ORIGIN / w, 0, Grid(q)[i]);
  }
}
