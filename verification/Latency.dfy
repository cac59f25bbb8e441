/** The latency histogram and the percentile read back from it. float64 is modelled by real. */
module Latency {

  const InfBucket := 999_999_999

  const LatencyBuckets: seq<int> := [10, 25, 50, 100, 250, 500, 1000, 2500, 5000, InfBucket]

  datatype LatencyBucket = LatencyBucket(upperMs: int, count: int)

  // ----- bucketing -----

  function IndexFrom(ms: real, i: nat): (k: nat)
    requires i < |LatencyBuckets|
    ensures i <= k < |LatencyBuckets|
    ensures forall j | i <= j < k :: ms > LatencyBuckets[j] as real
    ensures k < |LatencyBuckets| - 1 ==> ms <= LatencyBuckets[k] as real
    decreases |LatencyBuckets| - i
  {
    if ms <= LatencyBuckets[i] as real || i == |LatencyBuckets| - 1 then i else IndexFrom(ms, i + 1)
  }

  /** The bucket a latency falls into; beyond the last bound it is the infinity bucket too. */
  function IndexOf(ms: real): (k: nat)
    ensures k < |LatencyBuckets|
    ensures forall j | 0 <= j < k :: ms > LatencyBuckets[j] as real
    ensures k < |LatencyBuckets| - 1 ==> ms <= LatencyBuckets[k] as real
  {
    IndexFrom(ms, 0)
  }

  lemma BoundsAscend()
    ensures forall i, j | 0 <= i < j < |LatencyBuckets| :: 0 < LatencyBuckets[i] < LatencyBuckets[j]
  {}

  method BucketForLatency(ms: real) returns (upper: int)
    ensures upper == LatencyBuckets[IndexOf(ms)]
  {
    var bounds := LatencyBuckets;
    for i := 0 to |bounds|
      invariant i < |bounds| ==> IndexOf(ms) == IndexFrom(ms, i)
      invariant i == |bounds| ==> IndexOf(ms) == i - 1
    {
      if ms <= bounds[i] as real { return bounds[i]; }
    }
    return InfBucket;
  }

  /** The smallest of the nine bounds that the latency fits, and the sentinel if it fits none. */
  lemma BucketIsSmallest(ms: real)
    ensures var bounds := [10, 25, 50, 100, 250, 500, 1000, 2500, 5000]; var upper := LatencyBuckets[IndexOf(ms)];
            && ((upper in bounds && ms <= upper as real) || upper == 999_999_999)
            && forall b <- bounds | ms <= b as real :: upper <= b
  {
    var bounds, k := [10, 25, 50, 100, 250, 500, 1000, 2500, 5000], IndexOf(ms);
    assert LatencyBuckets == bounds + [999_999_999];
    if k < 9 { assert LatencyBuckets[k] == bounds[k]; }
    forall b <- bounds | ms <= b as real ensures LatencyBuckets[k] <= b {
      var j :| 0 <= j < 9 && bounds[j] == b;
      assert LatencyBuckets[j] == b;
      BoundsAscend();
    }
  }

  // ----- the percentile -----

  function Cum(bs: seq<LatencyBucket>, i: nat): int
    requires i <= |bs|
  {
    if i == 0 then 0 else Cum(bs, i - 1) + bs[i - 1].count
  }

  function Total(bs: seq<LatencyBucket>): int { Cum(bs, |bs|) }

  function Prev(bs: seq<LatencyBucket>, i: nat): int
    requires i <= |bs|
  {
    if i == 0 then 0 else bs[i - 1].upperMs
  }

  /** The upper end shown for bucket i: five times the previous bound for the infinity bucket. */
  function Upper(bs: seq<LatencyBucket>, i: nat): int
    requires i < |bs|
  {
    if bs[i].upperMs < InfBucket then bs[i].upperMs else if Prev(bs, i) == 0 then 5000 else Prev(bs, i) * 5
  }

  /** Conversion to int truncates toward zero. */
  function Trunc(x: real): int { if x >= 0.0 then x.Floor else -((-x).Floor) }

  /** int(f * float64(w)) */
  function Part(f: real, w: int): int { Trunc(f * w as real) }

  function Ratio(n: real, d: real): real
    requires d > 0.0
  {
    n / d
  }

  function Frac(bs: seq<LatencyBucket>, i: nat, rank: real): real
    requires i < |bs| && bs[i].count > 0
  {
    Ratio(rank - Cum(bs, i) as real, bs[i].count as real)
  }

  function Shown(bs: seq<LatencyBucket>, i: nat, rank: real): int
    requires i < |bs| && bs[i].count > 0
  {
    Prev(bs, i) + Part(Frac(bs, i, rank), Upper(bs, i) - Prev(bs, i))
  }

  predicate Hit(bs: seq<LatencyBucket>, i: nat, rank: real)
    requires i < |bs|
  {
    Cum(bs, i + 1) as real >= rank && bs[i].count > 0
  }

  /** The first bucket from i on where the count reaches the rank; |bs| if there is none. */
  function Pick(bs: seq<LatencyBucket>, rank: real, i: nat): (k: nat)
    requires i <= |bs|
    ensures i <= k <= |bs|
    ensures forall j | i <= j < k :: !Hit(bs, j, rank)
    ensures k < |bs| ==> Hit(bs, k, rank)
    decreases |bs| - i
  {
    if i == |bs| || Hit(bs, i, rank) then i else Pick(bs, rank, i + 1)
  }

  function Clamp(target: real): real { if target < 0.0 then 0.0 else if target > 1.0 then 1.0 else target }

  function Rank(bs: seq<LatencyBucket>, target: real): real { Clamp(target) * Total(bs) as real }

  function LastFinite(bs: seq<LatencyBucket>): int {
    if bs == [] then 0
    else if bs[|bs| - 1].upperMs < InfBucket then bs[|bs| - 1].upperMs
    else LastFinite(bs[..|bs| - 1])
  }

  function Percentile(bs: seq<LatencyBucket>, target: real): int {
    if Total(bs) == 0 then 0
    else
      var rank := Rank(bs, target);
      var i := Pick(bs, rank, 0);
      if i < |bs| then Shown(bs, i, rank) else LastFinite(bs)
  }

  method PercentileFromBuckets(buckets: seq<LatencyBucket>, target: real) returns (r: int)
    ensures r == Percentile(buckets, target)
  {
    hide Shown, Pick, LastFinite;
    var total := 0;
    for i := 0 to |buckets|
      invariant total == Cum(buckets, i)
    {
      total := total + buckets[i].count;
    }
    if total == 0 { return 0; }
    var t := target;
    if t < 0.0 { t := 0.0; }
    if t > 1.0 { t := 1.0; }

    assert t == Clamp(target) && total == Total(buckets);
    var rank := t * total as real;
    assert rank == Rank(buckets, target);
    r := WalkToRank(buckets, rank);
  }

  /** The walk of PercentileFromBuckets, from the rank on. */
  method WalkToRank(buckets: seq<LatencyBucket>, rank: real) returns (r: int)
    ensures var i := Pick(buckets, rank, 0);
            r == if i < |buckets| then Shown(buckets, i, rank) else LastFinite(buckets)
  {
    hide Part;
    var cum := 0;
    var prevUpper := 0;
    for i := 0 to |buckets|
      invariant cum == Cum(buckets, i) && prevUpper == Prev(buckets, i)
      invariant Pick(buckets, rank, 0) == Pick(buckets, rank, i)
    {
      var b := buckets[i];
      var next := cum + b.count;
      if next as real >= rank && b.count > 0 {
        var into := rank - cum as real;
        var frac := Ratio(into, b.count as real);
        var upper := b.upperMs;
        if upper >= InfBucket {
          upper := prevUpper * 5;
          if upper == 0 { upper := 5000; }
        }
        return prevUpper + Part(frac, upper - prevUpper);
      }
      cum := next;
      prevUpper := b.upperMs;
    }
    var j := |buckets|;
    assert buckets[..j] == buckets;
    while j > 0
      invariant 0 <= j <= |buckets|
      invariant LastFinite(buckets) == LastFinite(buckets[..j])
    {
      j := j - 1;
      assert buckets[..j + 1][..j] == buckets[..j];
      if buckets[j].upperMs < InfBucket { return buckets[j].upperMs; }
    }
    return 0;
  }

  // ----- histograms -----

  /** Nonnegative counts, strictly ascending positive bounds, only the last one possibly infinite. */
  ghost predicate Shaped(bs: seq<LatencyBucket>) {
    && (forall i | 0 <= i < |bs| :: bs[i].count >= 0 && bs[i].upperMs > Prev(bs, i))
    && (forall i | 0 <= i < |bs| - 1 :: bs[i].upperMs < InfBucket)
  }

  lemma {:induction false} CumGrows(bs: seq<LatencyBucket>, i: nat, j: nat)
    requires Shaped(bs) && i <= j <= |bs|
    ensures 0 <= Cum(bs, i) <= Cum(bs, j)
    decreases j
  {
    if i < j { CumGrows(bs, i, j - 1); } else if i > 0 { CumGrows(bs, i - 1, i - 1); }
  }

  lemma {:induction false} BoundsGrow(bs: seq<LatencyBucket>, i: nat, j: nat)
    requires Shaped(bs) && i < j < |bs|
    ensures 0 <= Prev(bs, i) < Upper(bs, i) <= Prev(bs, j) < Upper(bs, j)
    decreases j
  {
    if i + 1 < j { BoundsGrow(bs, i, j - 1); }
    BoundOrder(bs, i);
    BoundOrder(bs, j);
  }

  lemma {:induction false} BoundOrder(bs: seq<LatencyBucket>, i: nat)
    requires Shaped(bs) && i < |bs|
    ensures 0 <= Prev(bs, i) < Upper(bs, i)
  {
    if i > 0 { BoundOrder(bs, i - 1); }
  }

  /** Some bucket is always hit, so the loop that follows the main loop never runs; what lies
      below the hit bucket is below the rank (or nothing at all, for rank zero). */
  lemma {:induction false} PickHits(bs: seq<LatencyBucket>, rank: real, i: nat)
    requires Shaped(bs) && Total(bs) > 0 && 0.0 <= rank <= Total(bs) as real && i <= |bs|
    requires Cum(bs, i) as real < rank || Cum(bs, i) == 0
    ensures var k := Pick(bs, rank, i);
            k < |bs| && (Cum(bs, k) as real < rank || Cum(bs, k) == 0)
            && Cum(bs, k) as real <= rank <= Cum(bs, k + 1) as real
    decreases |bs| - i
  {
    hide Shaped;
    if i < |bs| {
      CountStep(bs, i);
      if !Hit(bs, i, rank) { PickHits(bs, rank, i + 1); }
    }
  }

  lemma CountStep(bs: seq<LatencyBucket>, i: nat)
    requires Shaped(bs) && i < |bs|
    ensures bs[i].count >= 0 && Cum(bs, i + 1) == Cum(bs, i) + bs[i].count
  {}

  lemma Scaled(f: real, g: real, w: int)
    requires 0.0 <= f <= g <= 1.0 && w >= 0
    ensures 0 <= Part(f, w) <= Part(g, w) <= w
  {
    assert 0.0 <= f * w as real <= g * w as real <= w as real;
  }

  lemma DivLe(n: real, d: real, f: real)
    requires d > 0.0
    ensures n <= f * d ==> Ratio(n, d) <= f
    ensures n >= f * d ==> Ratio(n, d) >= f
    ensures Ratio(n, d) * d == n
  {}

  lemma FracInUnit(bs: seq<LatencyBucket>, i: nat, rank: real)
    requires i < |bs| && bs[i].count > 0 && Cum(bs, i) as real <= rank <= Cum(bs, i + 1) as real
    ensures 0.0 <= Frac(bs, i, rank) <= 1.0
    ensures Frac(bs, i, rank) * bs[i].count as real == rank - Cum(bs, i) as real
  {
    DivLe(rank - Cum(bs, i) as real, bs[i].count as real, 0.0);
    DivLe(rank - Cum(bs, i) as real, bs[i].count as real, 1.0);
  }

  lemma RankInRange(bs: seq<LatencyBucket>, target: real)
    requires Total(bs) > 0
    ensures 0.0 <= Rank(bs, target) <= Total(bs) as real
  {}

  /** The interpolation fraction stays in [0, 1], the report lies in the hit bucket, and the
      fallback after the main loop is unreachable. */
  lemma PercentileInBucket(bs: seq<LatencyBucket>, target: real)
    requires Shaped(bs) && Total(bs) > 0
    ensures var rank := Rank(bs, target); var i := Pick(bs, rank, 0);
            && i < |bs|
            && 0.0 <= Frac(bs, i, rank) <= 1.0
            && Percentile(bs, target) == Shown(bs, i, rank)
            && 0 <= Prev(bs, i) <= Percentile(bs, target) <= Upper(bs, i)
  {
    hide Part, Frac, Rank;
    var rank := Rank(bs, target);
    RankInRange(bs, target);
    PickHits(bs, rank, 0);
    var i := Pick(bs, rank, 0);
    FracInUnit(bs, i, rank);
    BoundOrder(bs, i);
    Scaled(Frac(bs, i, rank), 1.0, Upper(bs, i) - Prev(bs, i));
  }

  lemma FracGrows(bs: seq<LatencyBucket>, i: nat, q: real, r: real)
    requires i < |bs| && bs[i].count > 0 && q <= r
    ensures Frac(bs, i, q) <= Frac(bs, i, r)
  {
    DivLe(r - Cum(bs, i) as real, bs[i].count as real, 0.0);
    DivLe(q - Cum(bs, i) as real, bs[i].count as real, Frac(bs, i, r));
  }

  lemma SameBucketOrder(bs: seq<LatencyBucket>, i: nat, f: real, g: real)
    requires Shaped(bs) && i < |bs| && 0.0 <= f <= g <= 1.0
    ensures Part(f, Upper(bs, i) - Prev(bs, i)) <= Part(g, Upper(bs, i) - Prev(bs, i))
  {
    hide Part;
    BoundOrder(bs, i);
    Scaled(f, g, Upper(bs, i) - Prev(bs, i));
  }

  lemma RankGrows(bs: seq<LatencyBucket>, s: real, t: real)
    requires Total(bs) > 0 && s <= t
    ensures Rank(bs, s) <= Rank(bs, t)
  {
    TimesGrows(Clamp(s), Clamp(t), Total(bs) as real);
  }

  lemma TimesGrows(x: real, y: real, z: real)
    requires x <= y && z >= 0.0
    ensures x * z <= y * z
  {}

  /** A higher target never reports less, the clamps at 0 and 1 included. */
  lemma PercentileIsMonotone(bs: seq<LatencyBucket>, s: real, t: real)
    requires Shaped(bs) && s <= t
    ensures Percentile(bs, s) <= Percentile(bs, t)
  {
    hide Part, Frac, Rank, Upper;
    if Total(bs) != 0 {
      CumGrows(bs, 0, |bs|);
      RankGrows(bs, s, t);
      PercentileInBucket(bs, s);
      PercentileInBucket(bs, t);
      var i, j := Pick(bs, Rank(bs, s), 0), Pick(bs, Rank(bs, t), 0);
      assert j < i ==> !Hit(bs, j, Rank(bs, s));
      if i < j {
        BoundsGrow(bs, i, j);
      } else {
        FracGrows(bs, i, Rank(bs, s), Rank(bs, t));
        SameBucketOrder(bs, i, Frac(bs, i, Rank(bs, s)), Frac(bs, i, Rank(bs, t)));
      }
    }
  }

  // ----- the report, read off the histogram -----

  /** r is read off bucket i: the first nonempty one whose running count reaches the rank. Its part of the bucket, rounded
      down to a whole number, is the rank's part of the bucket's count. Beyond the last bound the bucket is taken to
      end at five times that bound, or at 5000 if there is none. */
  ghost predicate ReadOff(bs: seq<LatencyBucket>, rank: real, i: nat, r: int)
    requires i < |bs|
  {
    var prev := if i == 0 then 0 else bs[i - 1].upperMs;
    var upper := if bs[i].upperMs < 999_999_999 then bs[i].upperMs else if prev == 0 then 5000 else 5 * prev;
    var c, into := bs[i].count as real, rank - Cum(bs, i) as real;
    && bs[i].count > 0 && into <= c
    && (forall j | 0 <= j < i && bs[j].count > 0 :: rank - Cum(bs, j) as real > bs[j].count as real)
    && (r - prev) as real * c <= into * (upper - prev) as real < (r - prev + 1) as real * c
  }

  ghost predicate IsReadOff(bs: seq<LatencyBucket>, rank: real, r: int) { exists i | 0 <= i < |bs| :: ReadOff(bs, rank, i, r) }

  lemma PartIsFloor(f: real, w: int, c: real, into: real)
    requires 0.0 <= f && 0 <= w && c > 0.0 && f * c == into
    ensures Part(f, w) as real * c <= into * w as real < (Part(f, w) + 1) as real * c
  {
    var x, p := f * w as real, Part(f, w);
    FloorIsNear(f, w);
    Reordered(f, c, w as real);
    TimesGrows(p as real, x, c);
    TimesLess(x, (p + 1) as real, c);
  }

  lemma FloorIsNear(f: real, w: int)
    requires 0.0 <= f && 0 <= w
    ensures Part(f, w) as real <= f * w as real < (Part(f, w) + 1) as real
  {
    assert f * w as real >= 0.0;
  }

  lemma Reordered(x: real, y: real, z: real)
    ensures (x * y) * z == (x * z) * y
  {}

  lemma TimesLess(x: real, y: real, z: real)
    requires x < y && z > 0.0
    ensures x * z < y * z
  {
    assert (y - x) * z > 0.0;
  }

  lemma EarlierNotHit(bs: seq<LatencyBucket>, rank: real, i: nat)
    requires i <= |bs| && forall j | 0 <= j < i :: !Hit(bs, j, rank)
    ensures forall j | 0 <= j < i && bs[j].count > 0 :: rank - Cum(bs, j) as real > bs[j].count as real
  {
    forall j | 0 <= j < i && bs[j].count > 0 ensures rank - Cum(bs, j) as real > bs[j].count as real {
      assert !Hit(bs, j, rank);
    }
  }

  /** What the dashboard is told: nothing measured is reported as 0, and otherwise the report interpolates linearly
      in the bucket the rank falls into. */
  lemma InterpolationIsLinear(bs: seq<LatencyBucket>, target: real)
    requires Shaped(bs)
    ensures Total(bs) == 0 ==> Percentile(bs, target) == 0
    ensures Total(bs) > 0 ==>
              var t := if target < 0.0 then 0.0 else if target > 1.0 then 1.0 else target;
              IsReadOff(bs, t * Total(bs) as real, Percentile(bs, target))
  {
    hide Percentile, Total, IsReadOff;
    if Total(bs) == 0 { NothingMeasured(bs, target); }
    if Total(bs) > 0 {
      PercentileIsReadOff(bs, target);
      RankMeans(bs, target);
    }
  }

  lemma NothingMeasured(bs: seq<LatencyBucket>, target: real)
    requires Total(bs) == 0
    ensures Percentile(bs, target) == 0
  {}

  lemma RankMeans(bs: seq<LatencyBucket>, target: real)
    ensures Rank(bs, target) == (if target < 0.0 then 0.0 else if target > 1.0 then 1.0 else target) * Total(bs) as real
  {}

  lemma PercentileIsReadOff(bs: seq<LatencyBucket>, target: real)
    requires Shaped(bs) && Total(bs) > 0
    ensures IsReadOff(bs, Rank(bs, target), Percentile(bs, target))
  {
    hide Part, Frac, Cum, Pick, Shaped, Rank, Total, ReadOff, Percentile;
    var rank := Rank(bs, target);
    RankInRange(bs, target);
    PercentileInBucket(bs, target);
    StartsAtZero(bs);
    PickHits(bs, rank, 0);
    ShownIsReadOff(bs, rank, Pick(bs, rank, 0));
  }

  lemma ShownIsReadOff(bs: seq<LatencyBucket>, rank: real, i: nat)
    requires Shaped(bs) && i < |bs| && bs[i].count > 0 && Cum(bs, i) as real <= rank <= Cum(bs, i + 1) as real
    requires forall j | 0 <= j < i :: !Hit(bs, j, rank)
    ensures ReadOff(bs, rank, i, Shown(bs, i, rank))
  {
    hide Part, Frac, Cum, Shaped, Hit;
    CountStep(bs, i);
    FracInUnit(bs, i, rank);
    BoundOrder(bs, i);
    EarlierNotHit(bs, rank, i);
    PartIsFloor(Frac(bs, i, rank), Upper(bs, i) - Prev(bs, i), bs[i].count as real, rank - Cum(bs, i) as real);
  }

  lemma StartsAtZero(bs: seq<LatencyBucket>) ensures Cum(bs, 0) == 0 {}

  /** The fallback's answer, for any list: the last bound that is not the sentinel, 0 if there is none. */
  lemma {:induction false} FallbackIsLastBound(bs: seq<LatencyBucket>)
    ensures var r := LastFinite(bs);
            || (r == 0 && forall k | 0 <= k < |bs| :: bs[k].upperMs >= 999_999_999)
            || exists k | 0 <= k < |bs| :: bs[k].upperMs == r < 999_999_999 && forall l | k < l < |bs| :: bs[l].upperMs >= 999_999_999
  {
    if bs != [] && bs[|bs| - 1].upperMs >= InfBucket { FallbackIsLastBound(bs[..|bs| - 1]); }
  }
}
