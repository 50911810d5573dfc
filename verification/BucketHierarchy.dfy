/**
 Bucket sizes form a hierarchy: for the same range and filters every coarse bucket is the combination
 of the finer buckets inside it.
 */
module BucketHierarchy {
  import opened Prelude
  import opened BucketedTrends
  import BinArithmetic

  // -------------------------------------------------------------------------
  // Combining buckets, from their responses alone
  // -------------------------------------------------------------------------

  // The buckets that start inside [lo, hi).
  function Inside(bs: seq<Bucket>, lo: int, hi: int): seq<Bucket> {
    if bs == [] then []
    else if lo <= bs[0].start < hi then [bs[0]] + Inside(bs[1..], lo, hi)
    else Inside(bs[1..], lo, hi)
  }

  function WeightedSum(bs: seq<Bucket>): real {
    if bs == [] then 0.0
    else (if bs[0].value.Some? then bs[0].value.value * bs[0].sampleCount as real else 0.0) + WeightedSum(bs[1..])
  }

  function Merge(pick: (real, real) -> real, a: Option<real>, b: Option<real>): Option<real> {
    if a.Some? && b.Some? then Some(pick(a.value, b.value)) else a.Else(b)
  }

  function MinOf(bs: seq<Bucket>): Option<real> {
    if bs == [] then None else Merge(Lesser, bs[0].value, MinOf(bs[1..]))
  }

  function MaxOf(bs: seq<Bucket>): Option<real> {
    if bs == [] then None else Merge(Greater, bs[0].value, MaxOf(bs[1..]))
  }

  function FirstOf(bs: seq<Bucket>): Option<real> {
    if bs == [] then None else bs[0].value.Else(FirstOf(bs[1..]))
  }

  function LastOf(bs: seq<Bucket>): Option<real> {
    if bs == [] then None else LastOf(bs[1..]).Else(bs[0].value)
  }

  function Combine(kind: Kind, bs: seq<Bucket>): Option<real> {
    match kind
    case Avg => if TotalSamples(bs) == 0 then None else Some(WeightedSum(bs) / TotalSamples(bs) as real)
    case Min => MinOf(bs)
    case Max => MaxOf(bs)
    case Count => if TotalSamples(bs) == 0 then None else Some(TotalSamples(bs) as real)
    case First => FirstOf(bs)
    case Last => LastOf(bs)
  }

  // -------------------------------------------------------------------------
  // What the aggregates mean
  // -------------------------------------------------------------------------

  /** The two ordering aggregates are a member with the least (greatest) timestamp. */
  lemma {:induction false} EarliestIsMember(rows: seq<Reading>)
    requires rows != []
    ensures Earliest(rows) in rows && forall r :: r in rows ==> Earliest(rows).at <= r.at
  {
    if |rows| > 1 {
      EarliestIsMember(rows[1..]);
      assert rows == [rows[0]] + rows[1..];
    }
  }

  lemma {:induction false} LatestIsMember(rows: seq<Reading>)
    requires rows != []
    ensures Latest(rows) in rows && forall r :: r in rows ==> r.at <= Latest(rows).at
  {
    if |rows| > 1 {
      LatestIsMember(rows[1..]);
      assert rows == [rows[0]] + rows[1..];
    }
  }

  /** min and max are attained bounds. */
  lemma {:induction false} ExtremesAreAttained(rows: seq<Reading>)
    requires rows != []
    ensures exists r :: r in rows && r.value == Minimum(rows)
    ensures exists r :: r in rows && r.value == Maximum(rows)
    ensures forall r :: r in rows ==> Minimum(rows) <= r.value <= Maximum(rows)
  {
    assert rows[0] in rows;
    if |rows| > 1 {
      ExtremesAreAttained(rows[1..]);
      assert rows == [rows[0]] + rows[1..];
    }
  }

  // -------------------------------------------------------------------------
  // Qualifying rows of a time range
  // -------------------------------------------------------------------------

  function RowsIn(q: Query, table: seq<Reading>, lo: int, hi: int): seq<Reading> {
    if table == [] then []
    else if Qualifies(q, table[0]) && lo <= table[0].at < hi then [table[0]] + RowsIn(q, table[1..], lo, hi)
    else RowsIn(q, table[1..], lo, hi)
  }

  lemma {:induction false} GroupIsRange(q: Query, table: seq<Reading>, start: int)
    requires IsEdge(q.bucket, start)
    ensures Group(q, table, start) == RowsIn(q, table, start, start + Width(q.bucket))
  {
    if table != [] {
      DateBinIsTheEdgeBelow(q.bucket, table[0].at, start);
      GroupIsRange(q, table[1..], start);
    }
  }

  lemma {:induction false} RowsInRange(q: Query, table: seq<Reading>, lo: int, hi: int)
    ensures forall r :: r in RowsIn(q, table, lo, hi) ==> Qualifies(q, r) && lo <= r.at < hi
  {
    if table != [] {
      RowsInRange(q, table[1..], lo, hi);
    }
  }

  lemma {:induction false} NoRows(q: Query, table: seq<Reading>, lo: int, hi: int)
    requires hi <= lo || q.to <= lo
    ensures RowsIn(q, table, lo, hi) == []
  {
    if table != [] {
      NoRows(q, table[1..], lo, hi);
    }
  }

  // Where a range starts before `from` makes no difference, nor does the bucket size.
  lemma {:induction false} SameRows(q: Query, p: Query, table: seq<Reading>, lo: int, later: int, hi: int)
    requires p == q.(bucket := p.bucket)
    requires lo == later || lo < later <= q.from
    ensures RowsIn(q, table, lo, hi) == RowsIn(p, table, later, hi)
  {
    if table != [] {
      SameRows(q, p, table[1..], lo, later, hi);
    }
  }

  // `all` is an interleaving of `left` and the later `right`, as far as the aggregates can tell.
  ghost predicate Splits(all: seq<Reading>, left: seq<Reading>, right: seq<Reading>) {
    && |all| == |left| + |right|
    && Sum(all) == Sum(left) + Sum(right)
    && (left == [] ==> all == right)
    && (right == [] ==> all == left)
    && (left != [] && right != [] ==>
          && Minimum(all) == Lesser(Minimum(left), Minimum(right))
          && Maximum(all) == Greater(Maximum(left), Maximum(right))
          && Earliest(all) == Earliest(left)
          && Latest(all) == Latest(right))
  }

  lemma SplitGainsLeft(r: Reading, all: seq<Reading>, left: seq<Reading>, right: seq<Reading>, mid: int)
    requires Splits(all, left, right) && r.at < mid
    requires forall x :: x in right ==> mid <= x.at
    ensures Splits([r] + all, [r] + left, right)
  {
    assert ([r] + all)[1..] == all && ([r] + left)[1..] == left;
    if left == [] && right != [] {
      EarliestIsMember(right);
      EarliestIsMember(all);
    }
    if right != [] {
      EarliestIsMember(right);
      LatestIsMember(right);
    }
  }

  lemma SplitGainsRight(r: Reading, all: seq<Reading>, left: seq<Reading>, right: seq<Reading>, mid: int)
    requires Splits(all, left, right) && mid <= r.at
    requires forall x :: x in left ==> x.at < mid
    ensures Splits([r] + all, left, [r] + right)
  {
    assert ([r] + all)[1..] == all && ([r] + right)[1..] == right;
    if left != [] {
      EarliestIsMember(left);
      LatestIsMember(left);
    }
  }

  lemma {:induction false} RangeSplits(q: Query, table: seq<Reading>, lo: int, mid: int, hi: int)
    requires lo <= mid <= hi
    ensures Splits(RowsIn(q, table, lo, hi), RowsIn(q, table, lo, mid), RowsIn(q, table, mid, hi))
  {
    if table != [] {
      var r, rest := table[0], table[1..];
      RangeSplits(q, rest, lo, mid, hi);
      var all, left, right := RowsIn(q, rest, lo, hi), RowsIn(q, rest, lo, mid), RowsIn(q, rest, mid, hi);
      RowsInRange(q, rest, lo, mid);
      RowsInRange(q, rest, mid, hi);
      if Qualifies(q, r) && lo <= r.at < mid {
        SplitGainsLeft(r, all, left, right, mid);
      } else if Qualifies(q, r) && mid <= r.at < hi {
        SplitGainsRight(r, all, left, right, mid);
      }
    }
  }

  // -------------------------------------------------------------------------
  // The hierarchy
  // -------------------------------------------------------------------------

  lemma SizesDivide(fine: BucketSize, coarse: BucketSize)
    requires Width(fine) <= Width(coarse)
    ensures Width(coarse) % Width(fine) == 0
  {
  }

  lemma CoarseEdgeIsFineEdge(fine: BucketSize, coarse: BucketSize, edge: int)
    requires Width(fine) <= Width(coarse) && IsEdge(coarse, edge)
    ensures IsEdge(fine, edge)
  {
    SizesDivide(fine, coarse);
    BinArithmetic.DivisorOfDivisor(Width(fine), Width(coarse), edge - ORIGIN);
  }

  lemma EdgesAreApart(b: BucketSize, e: int, f: int)
    requires IsEdge(b, e) && IsEdge(b, f) && e < f
    ensures e + Width(b) <= f
  {
    var w := Width(b);
    var d, k := (e - ORIGIN) / w, (f - ORIGIN) / w;
    assert e - ORIGIN == d * w && f - ORIGIN == k * w;
    if k < d {
      BinArithmetic.MultiplesApart(w, k, d);
    } else if d < k {
      BinArithmetic.MultiplesApart(w, d, k);
    }
  }

  // The buckets stand for exactly these rows.
  ghost predicate Stands(kind: Kind, bs: seq<Bucket>, rows: seq<Reading>) {
    && TotalSamples(bs) == |rows|
    && (if rows == [] then Combine(kind, bs) == None else Combine(kind, bs) == Some(Aggregate(kind, rows)))
    && (kind.Avg? ==> WeightedSum(bs) == Sum(rows))
  }

  lemma AverageTimesCount(sum: real, n: real)
    requires n != 0.0
    ensures sum / n * n == sum
  {
  }

  lemma StandsGrows(kind: Kind, b: Bucket, bs: seq<Bucket>, all: seq<Reading>, left: seq<Reading>, right: seq<Reading>)
    requires Splits(all, left, right)
    requires b.sampleCount == |left| && b.value == if left == [] then None else Some(Aggregate(kind, left))
    requires Stands(kind, bs, right)
    ensures Stands(kind, [b] + bs, all)
  {
    assert ([b] + bs)[1..] == bs;
    match kind {
      case Avg =>
        if left != [] {
          AverageTimesCount(Sum(left), |left| as real);
        }
        assert WeightedSum([b] + bs) == Sum(all);
        assert all != [] ==> Aggregate(kind, all) == WeightedSum([b] + bs) / TotalSamples([b] + bs) as real;
      case Min =>
      case Max =>
      case Count =>
      case First =>
      case Last =>
    }
  }

  function JoinedAll(q: Query, table: seq<Reading>, grid: seq<int>): (bs: seq<Bucket>)
    ensures |bs| == |grid| && forall i :: 0 <= i < |grid| ==> bs[i] == Joined(q, table, grid[i])
  {
    if grid == [] then [] else [Joined(q, table, grid[0])] + JoinedAll(q, table, grid[1..])
  }

  lemma BucketStandsBefore(q: Query, table: seq<Reading>, start: int, hi: int, tail: seq<Bucket>)
    requires IsEdge(q.bucket, start) && start + Width(q.bucket) <= hi
    requires Stands(q.kind, tail, RowsIn(q, table, start + Width(q.bucket), hi))
    ensures Stands(q.kind, [Joined(q, table, start)] + tail, RowsIn(q, table, start, hi))
  {
    var mid := start + Width(q.bucket);
    RangeSplits(q, table, start, mid, hi);
    GroupIsRange(q, table, start);
    GroupIsNonEmpty(q, table, start);
    StandsGrows(q.kind, Joined(q, table, start), tail,
                RowsIn(q, table, start, hi), RowsIn(q, table, start, mid), RowsIn(q, table, mid, hi));
  }

  // The fine buckets from `start` on that lie in [lo, hi) stand for the rows from there to `hi`.
  lemma {:induction false} TailStands(q: Query, table: seq<Reading>, start: int, lo: int, hi: int)
    requires IsEdge(q.bucket, start) && IsEdge(q.bucket, lo) && IsEdge(q.bucket, hi) && lo < hi
    ensures Stands(q.kind, Inside(JoinedAll(q, table, Series(start, q.to - 1, Width(q.bucket))), lo, hi),
                   RowsIn(q, table, if start < lo then lo else start, hi))
    decreases q.to - start
  {
    var w := Width(q.bucket);
    var from := if start < lo then lo else start;
    if start > q.to - 1 {
      NoRows(q, table, from, hi);
    } else {
      NextEdge(q.bucket, start);
      TailStands(q, table, start + w, lo, hi);
      assert Series(start, q.to - 1, w)[1..] == Series(start + w, q.to - 1, w);
      if start < lo {
        EdgesAreApart(q.bucket, start, lo);
      } else if start < hi {
        EdgesAreApart(q.bucket, start, hi);
        BucketStandsBefore(q, table, start, hi, Inside(JoinedAll(q, table, Series(start + w, q.to - 1, w)), lo, hi));
      } else {
        NoRows(q, table, start, hi);
        NoRows(q, table, start + w, hi);
      }
    }
  }

  // The rows of a coarse bin, as the fine query sees them.
  lemma CoarseGroupInFineQuery(coarse: Query, fine: Query, table: seq<Reading>, edge: int)
    requires fine == coarse.(bucket := fine.bucket) && IsEdge(coarse.bucket, edge)
    ensures var start := DateBin(Width(fine.bucket), fine.from);
            Group(coarse, table, edge) ==
            RowsIn(fine, table, if start < edge then edge else start, edge + Width(coarse.bucket))
  {
    var start := DateBin(Width(fine.bucket), fine.from);
    DateBinIsTheEdgeBelow(fine.bucket, fine.from, start);
    GroupIsRange(coarse, table, edge);
    SameRows(coarse, fine, table, edge, if start < edge then edge else start, edge + Width(coarse.bucket));
  }

  lemma FineBucketsStand(coarse: Query, fine: Query, table: seq<Reading>, edge: int)
    requires fine == coarse.(bucket := fine.bucket) && Width(fine.bucket) <= Width(coarse.bucket)
    requires IsEdge(coarse.bucket, edge)
    ensures Stands(coarse.kind, Inside(RunBucketedQuery(fine, table), edge, edge + Width(coarse.bucket)),
                   Group(coarse, table, edge))
  {
    var start := DateBin(Width(fine.bucket), fine.from);
    NextEdge(coarse.bucket, edge);
    CoarseEdgeIsFineEdge(fine.bucket, coarse.bucket, edge);
    CoarseEdgeIsFineEdge(fine.bucket, coarse.bucket, edge + Width(coarse.bucket));
    DateBinIsTheEdgeBelow(fine.bucket, fine.from, start);
    TailStands(fine, table, start, edge, edge + Width(coarse.bucket));
    assert JoinedAll(fine, table, Grid(fine)) == RunBucketedQuery(fine, table);
    CoarseGroupInFineQuery(coarse, fine, table, edge);
  }

  /** Every coarse bucket is the combination of the finer buckets it contains: counts add up, the
      average is count-weighted, min, max, first and last carry over. */
  lemma CoarseBucketCombinesFineOnes(coarse: Query, fine: Query, table: seq<Reading>, i: nat)
    requires fine == coarse.(bucket := fine.bucket) && Width(fine.bucket) <= Width(coarse.bucket)
    requires i < |RunBucketedQuery(coarse, table)|
    ensures var c := RunBucketedQuery(coarse, table)[i];
            var inside := Inside(RunBucketedQuery(fine, table), c.start, c.end);
            && c.sampleCount == TotalSamples(inside)
            && c.value == Combine(coarse.kind, inside)
  {
    var edge := Grid(coarse)[i];
    QueryGridIsGrid(coarse);
    FineBucketsStand(coarse, fine, table, edge);
    GroupIsNonEmpty(coarse, table, edge);
  }
}
