/** How far a reported percentile is from the true order statistic. */
module LatencyTheorems {
  import opened Latency

  // ----- accuracy against order statistics -----

  function Count(samples: seq<real>, p: real -> bool): nat {
    if samples == [] then 0 else (if p(samples[0]) then 1 else 0) + Count(samples[1..], p)
  }

  lemma {:induction false} CountMono(samples: seq<real>, p: real -> bool, q: real -> bool)
    requires forall x | p(x) :: q(x)
    ensures Count(samples, p) <= Count(samples, q) <= |samples|
  {
    if samples != [] { CountMono(samples[1..], p, q); }
  }

  function Below(x: real): real -> bool { s => s < x }

  function UpTo(x: real): real -> bool { s => s <= x }

  function InBucket(i: nat): real -> bool { s => IndexOf(s) == i }

  function BeforeBucket(i: nat): real -> bool { s => IndexOf(s) < i }

  /** The full bucket list with the samples counted into it. */
  function Histogram(samples: seq<real>): seq<LatencyBucket> {
    seq(|LatencyBuckets|, i requires 0 <= i < |LatencyBuckets| => LatencyBucket(LatencyBuckets[i], Count(samples, InBucket(i))))
  }

  lemma {:induction false} CountSplits(samples: seq<real>, i: nat)
    ensures Count(samples, BeforeBucket(i + 1)) == Count(samples, BeforeBucket(i)) + Count(samples, InBucket(i))
    ensures Count(samples, BeforeBucket(0)) == 0
    ensures Count(samples, BeforeBucket(|LatencyBuckets|)) == |samples|
  {
    if samples != [] { CountSplits(samples[1..], i); }
  }

  lemma {:induction false} CumCounts(samples: seq<real>, i: nat)
    requires i <= |LatencyBuckets|
    ensures Cum(Histogram(samples), i) == Count(samples, BeforeBucket(i))
  {
    CountSplits(samples, 0);
    if i > 0 {
      CumCounts(samples, i - 1);
      CountSplits(samples, i - 1);
    }
  }

  lemma HistogramIsShaped(samples: seq<real>)
    ensures Shaped(Histogram(samples)) && Total(Histogram(samples)) == |samples|
  {
    BoundsAscend();
    CumCounts(samples, |LatencyBuckets|);
    CountSplits(samples, 0);
  }

  lemma IndexIsMonotone(x: real, y: real)
    requires x <= y
    ensures IndexOf(x) <= IndexOf(y)
  {}

  /** x is the k-th smallest sample (counting from one). */
  ghost predicate IsNearestRank(samples: seq<real>, k: int, x: real) {
    x in samples && Count(samples, Below(x)) < k <= Count(samples, UpTo(x))
  }

  function Ceil(x: real): int { -((-x).Floor) }

  lemma CumOfHistogram(samples: seq<real>, i: nat)
    requires i < |LatencyBuckets|
    ensures Cum(Histogram(samples), i) == Count(samples, BeforeBucket(i))
    ensures Cum(Histogram(samples), i + 1) == Count(samples, BeforeBucket(i + 1))
  {
    CumCounts(samples, i);
    CumCounts(samples, i + 1);
  }

  lemma CeilIsLeast(x: real, n: int)
    ensures n as real < x ==> n < Ceil(x)
    ensures x <= n as real ==> Ceil(x) <= n
    ensures x > 0.0 ==> Ceil(x) > 0
  {}

  /** An order statistic lies in the bucket whose cumulative counts enclose its rank. */
  lemma BucketOfRank(samples: seq<real>, k: int, x: real, i: nat)
    requires IsNearestRank(samples, k, x)
    requires Count(samples, BeforeBucket(i)) < k <= Count(samples, BeforeBucket(i + 1))
    ensures IndexOf(x) == i
  {
    var t := IndexOf(x);
    if t < i {
      forall s | UpTo(x)(s) ensures BeforeBucket(i)(s) { IndexIsMonotone(s, x); }
      CountMono(samples, UpTo(x), BeforeBucket(i));
    } else if i < t {
      forall s | BeforeBucket(i + 1)(s) ensures Below(x)(s) { if s >= x { IndexIsMonotone(x, s); } }
      CountMono(samples, BeforeBucket(i + 1), Below(x));
    }
  }

  /** The hit bucket of the histogram is the bucket of the true order statistic. */
  lemma PicksTrueBucket(samples: seq<real>, rank: real, x: real)
    requires 0.0 < rank <= |samples| as real && IsNearestRank(samples, Ceil(rank), x)
    ensures Pick(Histogram(samples), rank, 0) == IndexOf(x)
  {
    var h := Histogram(samples);
    HistogramIsShaped(samples);
    PickHits(h, rank, 0);
    var i := Pick(h, rank, 0);
    CumOfHistogram(samples, i);
    CeilIsLeast(rank, Cum(h, i));
    CeilIsLeast(rank, Cum(h, i + 1));
    BucketOfRank(samples, Ceil(rank), x, i);
  }

  lemma RankOfHistogram(samples: seq<real>, target: real)
    requires samples != [] && 0.0 < target <= 1.0
    ensures Rank(Histogram(samples), target) == target * |samples| as real
    ensures 0.0 < Rank(Histogram(samples), target) <= |samples| as real
  {
    HistogramIsShaped(samples);
  }

  /** The report and the true nearest-rank order statistic lie in the same bucket's closed
      interval; in the infinity bucket the true value is above 5000 and the report in [5000, 25000]. */
  lemma PercentileIsAccurate(samples: seq<real>, target: real, x: real)
    requires samples != [] && 0.0 < target <= 1.0 && forall s <- samples :: s >= 0.0
    requires IsNearestRank(samples, Ceil(target * |samples| as real), x)
    ensures var i := IndexOf(x); var p := Percentile(Histogram(samples), target);
            var lower := if i == 0 then 0 else LatencyBuckets[i - 1];
            && lower <= p && lower as real <= x
            && (LatencyBuckets[i] != InfBucket ==> p <= LatencyBuckets[i] && x <= LatencyBuckets[i] as real)
            && (LatencyBuckets[i] == InfBucket ==> x > 5000.0 && 5000 <= p <= 25000)
  {
    hide Percentile, Pick, Cum;
    RankOfHistogram(samples, target);
    HistogramIsShaped(samples);
    PicksTrueBucket(samples, Rank(Histogram(samples), target), x);
    PercentileInBucket(Histogram(samples), target);
    BoundsAscend();
  }

  /** The k-th element of the sorted samples is that order statistic, so there always is one. */
  lemma {:induction false} SortedHasRank(samples: seq<real>, k: nat)
    requires 0 < k <= |samples| && forall i, j | 0 <= i < j < |samples| :: samples[i] <= samples[j]
    ensures IsNearestRank(samples, k, samples[k - 1])
  {
    var x := samples[k - 1];
    CountFrom(samples, Below(x), k - 1);
    CountUpTo(samples, UpTo(x), k);
  }

  lemma {:induction false} CountFrom(samples: seq<real>, p: real -> bool, m: nat)
    requires m <= |samples| && forall i | m <= i < |samples| :: !p(samples[i])
    ensures Count(samples, p) <= m
  {
    if samples != [] { CountFrom(samples[1..], p, if m > 0 then m - 1 else 0); }
  }

  lemma {:induction false} CountUpTo(samples: seq<real>, p: real -> bool, m: nat)
    requires m <= |samples| && forall i | 0 <= i < m :: p(samples[i])
    ensures Count(samples, p) >= m
  {
    if m > 0 { CountUpTo(samples[1..], p, m - 1); }
  }
}
