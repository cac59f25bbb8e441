/** Aggregation: the percentile of a sum of histograms lies between theirs. */
module LatencyMerge {
  import opened Latency

  ghost predicate SameShape(a: seq<LatencyBucket>, b: seq<LatencyBucket>) {
    |a| == |b| && forall i | 0 <= i < |a| :: a[i].upperMs == b[i].upperMs
  }

  function Merge(a: seq<LatencyBucket>, b: seq<LatencyBucket>): seq<LatencyBucket>
    requires |a| == |b|
  {
    seq(|a|, i requires 0 <= i < |a| => LatencyBucket(a[i].upperMs, a[i].count + b[i].count))
  }

  lemma {:induction false} CumMerges(a: seq<LatencyBucket>, b: seq<LatencyBucket>, i: nat)
    requires |a| == |b| && i <= |a|
    ensures Cum(Merge(a, b), i) == Cum(a, i) + Cum(b, i)
  {
    if i > 0 { CumMerges(a, b, i - 1); }
  }

  lemma MergeIsShaped(a: seq<LatencyBucket>, b: seq<LatencyBucket>)
    requires Shaped(a) && Shaped(b) && SameShape(a, b)
    ensures Shaped(Merge(a, b)) && Total(Merge(a, b)) == Total(a) + Total(b)
  {
    hide Cum;
    CumMerges(a, b, |a|);
    var m := Merge(a, b);
    forall i | 0 <= i < |m| ensures m[i].count >= 0 && m[i].upperMs > Prev(m, i) {
      assert a[i].upperMs > Prev(a, i) && b[i].count >= 0;
    }
    forall i | 0 <= i < |m| - 1 ensures m[i].upperMs < InfBucket { assert a[i].upperMs < InfBucket; }
  }

  lemma SameBounds(a: seq<LatencyBucket>, b: seq<LatencyBucket>, i: nat)
    requires SameShape(a, b) && i < |a|
    ensures Prev(a, i) == Prev(Merge(a, b), i) == Prev(b, i)
    ensures Upper(a, i) == Upper(Merge(a, b), i) == Upper(b, i)
  {}

  lemma RankMerges(a: seq<LatencyBucket>, b: seq<LatencyBucket>, target: real)
    requires |a| == |b| && Total(Merge(a, b)) == Total(a) + Total(b)
    ensures Rank(Merge(a, b), target) == Rank(a, target) + Rank(b, target)
  {}

  /** Bucket i holds the rank: what Pick finds. */
  ghost predicate Holds(bs: seq<LatencyBucket>, rank: real, i: nat) {
    && i < |bs| && bs[i].count > 0 && i == Pick(bs, rank, 0)
    && (Cum(bs, i) as real < rank || Cum(bs, i) == 0)
    && Cum(bs, i) as real <= rank <= Cum(bs, i + 1) as real
  }

  lemma HoldsAtPick(bs: seq<LatencyBucket>, target: real)
    requires Shaped(bs) && Total(bs) > 0
    ensures Holds(bs, Rank(bs, target), Pick(bs, Rank(bs, target), 0))
  {
    RankInRange(bs, target);
    PickHits(bs, Rank(bs, target), 0);
  }

  lemma HeldFrom(bs: seq<LatencyBucket>, rank: real, k: nat, i: nat)
    requires Shaped(bs) && Holds(bs, rank, i) && k <= i
    ensures 0 <= Cum(bs, k) && Cum(bs, k) as real <= rank
    ensures Cum(bs, k) as real < rank || Cum(bs, k) == 0
  {
    CumGrows(bs, k, i);
  }

  lemma HeldUpTo(bs: seq<LatencyBucket>, rank: real, i: nat, k: nat)
    requires Shaped(bs) && Holds(bs, rank, i) && i < k <= |bs|
    ensures rank <= Cum(bs, k) as real
  {
    CumGrows(bs, i + 1, k);
  }

  /** The merged rank is held between the two buckets. */
  lemma MergedBucket(a: seq<LatencyBucket>, b: seq<LatencyBucket>, q: real, r: real, i: nat, j: nat, k: nat)
    requires Shaped(a) && Shaped(b) && SameShape(a, b) && i <= j
    requires Holds(a, q, i) && Holds(b, r, j) && Holds(Merge(a, b), q + r, k)
    ensures i <= k <= j
  {
    MergedNotAfter(a, b, q, r, i, j, k);
    if k < i { MergedNotBefore(a, b, q, r, i, j, k); }
  }

  lemma MergedNotAfter(a: seq<LatencyBucket>, b: seq<LatencyBucket>, q: real, r: real, i: nat, j: nat, k: nat)
    requires Shaped(a) && Shaped(b) && SameShape(a, b) && i <= j
    requires Holds(a, q, i) && Holds(b, r, j) && Holds(Merge(a, b), q + r, k)
    ensures k <= j
  {
    hide Cum, Shaped;
    var m := Merge(a, b);
    CumMerges(a, b, j + 1);
    HeldUpTo(a, q, i, j + 1);
    HeldUpTo(b, r, j, j + 1);
    CountStep(a, j);
    assert Hit(m, j, q + r);
  }

  /** A bucket before both holds no merged rank: what is counted up to it is below both ranks. */
  lemma MergedNotBefore(a: seq<LatencyBucket>, b: seq<LatencyBucket>, q: real, r: real, i: nat, j: nat, k: nat)
    requires Shaped(a) && Shaped(b) && SameShape(a, b) && k < i <= j
    requires Holds(a, q, i) && Holds(b, r, j)
    ensures !Holds(Merge(a, b), q + r, k)
  {
    hide Cum, Shaped, Pick;
    MergeIsShaped(a, b);
    CumMerges(a, b, k);
    CumMerges(a, b, k + 1);
    CountStep(Merge(a, b), k);
    HeldFrom(a, q, k, i);
    HeldFrom(b, r, k, j);
    HeldFrom(a, q, k + 1, i);
    HeldFrom(b, r, k + 1, j);
  }

  lemma Mediant(x: real, y: real, p: real, q: real, f: real)
    requires p + q > 0.0
    ensures x >= f * p && y >= f * q ==> Ratio(x + y, p + q) >= f
    ensures x <= f * p && y <= f * q ==> Ratio(x + y, p + q) <= f
  {
    DivLe(x + y, p + q, f);
  }

  /** The bucket's own share of a rank: everything, something or nothing. */
  lemma Share(bs: seq<LatencyBucket>, rank: real, i: nat, k: nat)
    requires Shaped(bs) && Holds(bs, rank, i) && k < |bs|
    ensures bs[k].count >= 0
    ensures k < i ==> rank - Cum(bs, k) as real >= bs[k].count as real
    ensures i < k ==> rank - Cum(bs, k) as real <= 0.0
  {
    hide Cum, Pick;
    CountStep(bs, k);
    if k < i {
      HeldFrom(bs, rank, k + 1, i);
    } else if i < k {
      HeldUpTo(bs, rank, i, k);
    }
  }

  lemma OwnShare(bs: seq<LatencyBucket>, rank: real, i: nat)
    requires Holds(bs, rank, i)
    ensures rank - Cum(bs, i) as real == Frac(bs, i, rank) * bs[i].count as real && 0.0 <= Frac(bs, i, rank) <= 1.0
  {
    hide Pick;
    FracInUnit(bs, i, rank);
  }

  lemma Products(f: real, g: real, c: real)
    requires 0.0 <= f <= g <= 1.0 && c >= 0.0
    ensures 0.0 <= f * c <= g * c <= c
  {}

  lemma MergedFrac(a: seq<LatencyBucket>, b: seq<LatencyBucket>, q: real, r: real, i: nat)
    requires |a| == |b| && i < |a| && a[i].count + b[i].count > 0
    ensures Frac(Merge(a, b), i, q + r)
            == Ratio((q - Cum(a, i) as real) + (r - Cum(b, i) as real), a[i].count as real + b[i].count as real)
  {
    hide Cum, Ratio;
    CumMerges(a, b, i);
  }

  lemma MergedFracAbove(a: seq<LatencyBucket>, b: seq<LatencyBucket>, q: real, r: real, i: nat, j: nat)
    requires Shaped(a) && Shaped(b) && SameShape(a, b) && i <= j
    requires Holds(a, q, i) && Holds(b, r, j) && Holds(Merge(a, b), q + r, i)
    requires i == j ==> Frac(a, i, q) <= Frac(b, j, r)
    ensures Frac(a, i, q) <= Frac(Merge(a, b), i, q + r)
  {
    hide Cum, Shaped, Pick, Frac;
    var f := Frac(a, i, q);
    var p, c := a[i].count as real, b[i].count as real;
    OwnShare(a, q, i);
    OwnShare(b, r, j);
    Share(b, r, j, i);
    Products(f, if i == j then Frac(b, j, r) else 1.0, c);
    MergedFrac(a, b, q, r, i);
    Mediant(q - Cum(a, i) as real, r - Cum(b, i) as real, p, c, f);
  }

  lemma MergedFracBelow(a: seq<LatencyBucket>, b: seq<LatencyBucket>, q: real, r: real, i: nat, j: nat)
    requires Shaped(a) && Shaped(b) && SameShape(a, b) && i <= j
    requires Holds(a, q, i) && Holds(b, r, j) && Holds(Merge(a, b), q + r, j)
    requires i == j ==> Frac(a, i, q) <= Frac(b, j, r)
    ensures Frac(Merge(a, b), j, q + r) <= Frac(b, j, r)
  {
    hide Cum, Shaped, Pick, Frac;
    var f := Frac(b, j, r);
    var p, c := a[j].count as real, b[j].count as real;
    OwnShare(a, q, i);
    OwnShare(b, r, j);
    Share(a, q, i, j);
    Products(if i == j then Frac(a, i, q) else 0.0, f, p);
    MergedFrac(a, b, q, r, j);
    Mediant(q - Cum(a, j) as real, r - Cum(b, j) as real, p, c, f);
  }

  lemma MergeOrdered(a: seq<LatencyBucket>, b: seq<LatencyBucket>, target: real)
    requires Shaped(a) && Shaped(b) && SameShape(a, b) && Total(a) > 0 && Total(b) > 0
    requires var i, j := Pick(a, Rank(a, target), 0), Pick(b, Rank(b, target), 0);
             i < j || (i == j < |a| && a[i].count > 0 && b[i].count > 0
                       && Frac(a, i, Rank(a, target)) <= Frac(b, j, Rank(b, target)))
    ensures Percentile(a, target) <= Percentile(Merge(a, b), target) <= Percentile(b, target)
  {
    hide Part, Frac, Rank, Upper, Prev, Percentile, Pick, Cum, Shaped;
    var m := Merge(a, b);
    MergeIsShaped(a, b);
    RankMerges(a, b, target);
    var q, r := Rank(a, target), Rank(b, target);
    HoldsAtPick(a, target);
    HoldsAtPick(b, target);
    HoldsAtPick(m, target);
    var i, j, k := Pick(a, q, 0), Pick(b, r, 0), Pick(m, q + r, 0);
    MergedBucket(a, b, q, r, i, j, k);
    SameBounds(a, b, i);
    SameBounds(a, b, j);
    SameBounds(a, b, k);
    PercentileInBucket(a, target);
    PercentileInBucket(b, target);
    PercentileInBucket(m, target);
    if i < k {
      BoundsGrow(m, i, k);
    } else {
      MergedFracAbove(a, b, q, r, i, j);
      SameBucketOrder(m, k, Frac(a, i, q), Frac(m, k, q + r));
    }
    if k < j {
      BoundsGrow(m, k, j);
    } else {
      MergedFracBelow(a, b, q, r, i, j);
      SameBucketOrder(m, k, Frac(m, k, q + r), Frac(b, j, r));
    }
  }

  /** For every target, the percentile of the count-wise sum of two histograms lies between
      the two percentiles. */
  lemma MergedPercentileIsBetween(a: seq<LatencyBucket>, b: seq<LatencyBucket>, target: real)
    requires Shaped(a) && Shaped(b) && SameShape(a, b) && Total(a) > 0 && Total(b) > 0
    ensures var p, q, m := Percentile(a, target), Percentile(b, target), Percentile(Merge(a, b), target);
            p <= m <= q || q <= m <= p
  {
    hide Frac, Rank, Percentile, Pick;
    var i, j := Pick(a, Rank(a, target), 0), Pick(b, Rank(b, target), 0);
    HoldsAtPick(a, target);
    HoldsAtPick(b, target);
    assert Merge(a, b) == Merge(b, a);
    if i < j || (i == j && Frac(a, i, Rank(a, target)) <= Frac(b, j, Rank(b, target))) {
      MergeOrdered(a, b, target);
    } else {
      MergeOrdered(b, a, target);
    }
  }
}
