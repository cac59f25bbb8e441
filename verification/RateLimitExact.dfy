/** Exactly which calls a bucket refuses, and the rate bound that follows. */
module RateLimitExact {
  import opened RateLimit

  // ----- one key that is never evicted, called at any times in any order -----

  function Uses(times: seq<real>): seq<SlotStep> { seq(|times|, k requires 0 <= k < |times| => Use(times[k])) }

  function After(cfg: Config, times: seq<real>): Slot { SlotAfter(cfg, Uses(times), false) }

  predicate Admitted(cfg: Config, times: seq<real>, n: nat)
    requires n < |times|
  {
    Admits(cfg, After(cfg, times[..n]), times[n])
  }

  function LevelAt(cfg: Config, times: seq<real>, n: nat): real
    requires n < |times|
  {
    Level(cfg, After(cfg, times[..n]), times[n])
  }

  /** Admissions among calls k..n-1. */
  function Admissions(cfg: Config, times: seq<real>, k: nat, n: nat): int
    requires k <= n <= |times|
    decreases n
  {
    if k == n then 0 else Admissions(cfg, times, k, n - 1) + if Admitted(cfg, times, n - 1) then 1 else 0
  }

  /** What the bucket allows between call k and call n, less what it gave in between. */
  function Spare(cfg: Config, times: seq<real>, k: nat, n: nat): real
    requires k <= n < |times|
  {
    cfg.burst + Refill(cfg.rps, times[n] - times[k]) - Admissions(cfg, times, k, n) as real
  }

  lemma RefillAdds(rps: real, x: real, y: real)
    ensures Refill(rps, x + y) == Refill(rps, x) + Refill(rps, y)
    ensures Refill(rps, 0.0) == 0.0
  {}

  lemma AfterSnoc(cfg: Config, times: seq<real>, n: nat)
    requires n < |times|
    ensures After(cfg, times[..n + 1]) == Present(Charge(cfg, After(cfg, times[..n]), times[n]))
  {
    var steps := Uses(times[..n + 1]);
    assert steps[..n] == Uses(times[..n]);
    assert steps[n] == Use(times[n]);
  }

  /** One call lowers the level by the admission and raises it by the refill, up to the burst. */
  lemma LevelNext(cfg: Config, times: seq<real>, n: nat)
    requires n + 1 < |times|
    ensures var carried := LevelAt(cfg, times, n) - (if Admitted(cfg, times, n) then 1.0 else 0.0)
                           + Refill(cfg.rps, times[n + 1] - times[n]);
            LevelAt(cfg, times, n + 1) == if carried > cfg.burst then cfg.burst else carried
  {
    hide Refill;
    AfterSnoc(cfg, times, n);
  }

  /** The level is the least spare over all starting points up to the call. */
  lemma {:induction false} LevelIsLeastSpare(cfg: Config, times: seq<real>, n: nat)
    requires n < |times|
    ensures forall k | 0 <= k <= n :: LevelAt(cfg, times, n) <= Spare(cfg, times, k, n)
    ensures exists k | 0 <= k <= n :: LevelAt(cfg, times, n) == Spare(cfg, times, k, n)
  {
    hide Refill, Level, Admits;
    SpareAtOnce(cfg, times, n);
    if n == 0 {
      assert times[..0] == [];
      FirstLevel(cfg, times);
    } else {
      LevelIsLeastSpare(cfg, times, n - 1);
      LevelNext(cfg, times, n - 1);
      forall k | 0 <= k < n ensures Spare(cfg, times, k, n) == Carried(cfg, times, k, n) { SpareNext(cfg, times, k, n); }
      var k :| 0 <= k <= n - 1 && LevelAt(cfg, times, n - 1) == Spare(cfg, times, k, n - 1);
      assert Spare(cfg, times, k, n) == Carried(cfg, times, k, n);
    }
  }

  ghost function Carried(cfg: Config, times: seq<real>, k: nat, n: nat): real
    requires k < n < |times|
  {
    Spare(cfg, times, k, n - 1) - (if Admitted(cfg, times, n - 1) then 1.0 else 0.0) + Refill(cfg.rps, times[n] - times[n - 1])
  }

  lemma SpareAtOnce(cfg: Config, times: seq<real>, n: nat)
    requires n < |times|
    ensures Spare(cfg, times, n, n) == cfg.burst
  {
    RefillAdds(cfg.rps, 0.0, 0.0);
  }

  lemma FirstLevel(cfg: Config, times: seq<real>)
    requires |times| > 0
    ensures LevelAt(cfg, times, 0) == cfg.burst
  {}

  lemma SpareNext(cfg: Config, times: seq<real>, k: nat, n: nat)
    requires k < n < |times|
    ensures Spare(cfg, times, k, n) == Carried(cfg, times, k, n)
  {
    hide Refill, Admitted;
    RefillAdds(cfg.rps, times[n - 1] - times[k], times[n] - times[n - 1]);
    assert times[n] - times[k] == (times[n - 1] - times[k]) + (times[n] - times[n - 1]);
  }

  /** Counting call n too, the stretch from k to n would exceed burst + rps * (t_n - t_k). */
  predicate Exceeds(cfg: Config, times: seq<real>, k: nat, n: nat)
    requires k <= n < |times|
  {
    (Admissions(cfg, times, k, n) + 1) as real > cfg.burst + Refill(cfg.rps, times[n] - times[k])
  }

  /** Call n is refused iff admitting it would break the rate bound from some call up to it.
      Below a burst of one token only the very first call of a key is ever admitted. */
  lemma RefusedIffExceeds(cfg: Config, times: seq<real>, n: nat)
    requires n < |times|
    ensures n > 0 || cfg.burst >= 1.0 ==> (!Admitted(cfg, times, n) <==> exists k | 0 <= k <= n :: Exceeds(cfg, times, k, n))
    ensures cfg.burst < 1.0 ==> (Admitted(cfg, times, n) <==> n == 0)
  {
    hide Refill, Level;
    LevelIsLeastSpare(cfg, times, n);
    if n == 0 {
      assert times[..0] == [];
      FirstLevel(cfg, times);
    } else {
      AfterSnoc(cfg, times, n - 1);
    }
    var k :| 0 <= k <= n && LevelAt(cfg, times, n) == Spare(cfg, times, k, n);
    assert Spare(cfg, times, k, n) < 1.0 <==> Exceeds(cfg, times, k, n);
    SpareAtOnce(cfg, times, n);
    assert LevelAt(cfg, times, n) <= Spare(cfg, times, n, n);
    forall j | 0 <= j <= n && Exceeds(cfg, times, j, n) ensures LevelAt(cfg, times, n) < 1.0 {
      assert Spare(cfg, times, j, n) < 1.0;
    }
  }

  /** The rate bound: no stretch that ends in an admission holds more than burst + rps * its length. */
  lemma StretchesAreBounded(cfg: Config, times: seq<real>, k: nat, n: nat)
    requires k <= n < |times| && cfg.burst >= 1.0 && Admitted(cfg, times, n)
    ensures Admissions(cfg, times, k, n + 1) as real <= cfg.burst + Refill(cfg.rps, times[n] - times[k])
  {
    hide Refill, Admitted;
    RefusedIffExceeds(cfg, times, n);
    assert !Exceeds(cfg, times, k, n);
  }

  // ----- the same for a key of the shared limiter -----

  /** The times at which the steps call a key. */
  function CallTimes(steps: seq<Step>, key: string): seq<real> {
    if steps == [] then []
    else
      var n := |steps| - 1;
      var before := CallTimes(steps[..n], key);
      if steps[n].Call? && steps[n].key == key then before + [steps[n].now] else before
  }

  lemma {:induction false} UnevictedSlot(cfg: Config, steps: seq<Step>, key: string)
    ensures SlotAfter(cfg, Seen(steps, key), false) == After(cfg, CallTimes(steps, key))
  {
    if steps != [] {
      hide Charge;
      var n := |steps| - 1;
      UnevictedSlot(cfg, steps[..n], key);
      var before, times := CallTimes(steps[..n], key), CallTimes(steps, key);
      var seenBefore, seen := Seen(steps[..n], key), Seen(steps, key);
      if |seen| > |seenBefore| { assert seen[..|seen| - 1] == seenBefore; }
      if |times| > |before| {
        assert times[..|before|] == before && times[..|before| + 1] == times;
        AfterSnoc(cfg, times, |before|);
      }
    }
  }

  /** A call to the shared limiter is answered as if its key had the limiter to itself. */
  lemma SharedAnswer(cfg: Config, steps: seq<Step>, n: nat)
    requires n < |steps| && steps[n].Call?
    ensures var key := steps[n].key; var times := CallTimes(steps[..n], key) + [steps[n].now];
            Answer(cfg, steps, false, n) <==> Admitted(cfg, times, |times| - 1)
  {
    hide Admits;
    var key := steps[n].key;
    KeysAreIndependent(cfg, steps[..n], false, key);
    UnevictedSlot(cfg, steps[..n], key);
    var times := CallTimes(steps[..n], key) + [steps[n].now];
    assert times[..|times| - 1] == CallTimes(steps[..n], key);
  }
}
