/** When evicting idle buckets can be noticed, by how far behind a clock reading may fall: it is taken before the lock. */
module RateLimitGc {
  import opened RateLimit
  import opened RateLimitExact

  /** No reading is more than d behind an earlier one. */
  ghost predicate Lagging(steps: seq<Step>, d: real) {
    forall i, j | 0 <= i < j < |steps| :: steps[i].now - d <= steps[j].now
  }

  /** Every call is answered as by a limiter that never evicts. */
  ghost predicate SameAnswers(cfg: Config, steps: seq<Step>) {
    forall n | 0 <= n < |steps| && steps[n].Call? :: Answer(cfg, steps, true, n) <==> Answer(cfg, steps, false, n)
  }

  /** A bucket is full again within the idle time, short of twice the lag: the reading that emptied it may
      have been d ahead of the one it was left at, and the next may be d behind the tick that evicts it. */
  predicate RefillsInTime(cfg: Config, d: real) {
    cfg.burst >= 1.0 && Refill(cfg.rps, cfg.idleTTL - 2.0 * d) >= cfg.burst
  }

  // ----- sufficiency: a simulation between the two limiters -----

  function Max(x: real, y: real): real { if x <= y then y else x }

  /** The latest reading. */
  function Top(steps: seq<SlotStep>): real
    requires steps != []
  {
    var n := |steps| - 1;
    if n == 0 then steps[0].now else Max(Top(steps[..n]), steps[n].now)
  }

  ghost predicate LagsTo(steps: seq<SlotStep>, t: real, d: real) {
    && (forall i | 0 <= i < |steps| :: steps[i].now - d <= t)
    && (forall i, j | 0 <= i < j < |steps| :: steps[i].now - d <= steps[j].now)
  }

  lemma {:induction false} TopIsAReading(steps: seq<SlotStep>)
    requires steps != []
    ensures exists i | 0 <= i < |steps| :: steps[i].now == Top(steps)
    decreases |steps|
  {
    var n := |steps| - 1;
    assert n == 0 || Top(steps) == Top(steps[..n]) || Top(steps) == steps[n].now;
    if n > 0 && Top(steps) != steps[n].now {
      TopIsAReading(steps[..n]);
      var i :| 0 <= i < n && steps[..n][i].now == Top(steps[..n]);
      assert steps[i].now == Top(steps);
    } else {
      assert steps[n].now == Top(steps);
    }
  }

  /** Refilled up to the latest reading the bucket owes nothing, and it never owes more than a lag's refill. */
  ghost predicate Owes(cfg: Config, bucket: Bucket, top: real, d: real) {
    && bucket.tokens + Refill(cfg.rps, top - bucket.last) >= 0.0
    && bucket.tokens + Refill(cfg.rps, d) >= 0.0
  }

  /** With eviction the slot is the same, or gone while the kept bucket is full at any reading still to come. */
  ghost predicate Similar(cfg: Config, a: Slot, b: Slot, top: real, d: real) {
    && (b.Present? ==> Owes(cfg, b.bucket, top, d))
    && (a == b || (a.Absent? && b.Present? && b.bucket.tokens + Refill(cfg.rps, top - d - b.bucket.last) >= cfg.burst))
  }

  lemma RefillGrows(rps: real, x: real, y: real)
    requires rps > 0.0 && x <= y
    ensures Refill(rps, x) <= Refill(rps, y)
    ensures x >= 0.0 ==> Refill(rps, x) >= 0.0
  {}

  lemma SimilarLater(cfg: Config, a: Slot, b: Slot, top: real, u: real, d: real)
    requires Similar(cfg, a, b, top, d) && top <= u && cfg.rps > 0.0
    ensures Similar(cfg, a, b, u, d)
  {
    if b.Present? {
      hide Refill;
      RefillGrows(cfg.rps, top - b.bucket.last, u - b.bucket.last);
      RefillGrows(cfg.rps, top - d - b.bucket.last, u - d - b.bucket.last);
    }
  }

  lemma SimilarAnswers(cfg: Config, a: Slot, b: Slot, top: real, d: real, now: real)
    requires Similar(cfg, a, b, top, d) && cfg.burst >= 1.0 && cfg.rps > 0.0 && top - d <= now
    ensures Admits(cfg, a, now) <==> Admits(cfg, b, now)
    ensures Charge(cfg, a, now) == Charge(cfg, b, now)
  {
    hide Refill;
    if b.Present? { RefillGrows(cfg.rps, top - d - b.bucket.last, now - b.bucket.last); }
  }

  lemma ChargeOwes(cfg: Config, slot: Slot, top: real, d: real, now: real)
    requires cfg.burst >= 1.0 && cfg.rps > 0.0 && d >= 0.0 && top - d <= now
    requires slot.Present? ==> Owes(cfg, slot.bucket, top, d)
    ensures Owes(cfg, Charge(cfg, slot, now), Max(top, now), d)
  {
    hide Refill;
    var u := Max(top, now);
    RefillAdds(cfg.rps, 0.0, 0.0);
    RefillGrows(cfg.rps, 0.0, u - now);
    RefillGrows(cfg.rps, u - now, d);
    if slot.Present? {
      RefillAdds(cfg.rps, now - slot.bucket.last, u - now);
      assert now - slot.bucket.last + (u - now) == u - slot.bucket.last;
      RefillGrows(cfg.rps, top - slot.bucket.last, u - slot.bucket.last);
    }
  }

  lemma UseKeeps(cfg: Config, a: Slot, b: Slot, top: real, d: real, now: real)
    requires Similar(cfg, a, b, top, d) && cfg.burst >= 1.0 && cfg.rps > 0.0 && d >= 0.0 && top - d <= now
    ensures Similar(cfg, Present(Charge(cfg, a, now)), Present(Charge(cfg, b, now)), Max(top, now), d)
  {
    hide Refill, Charge, Admits, Owes;
    SimilarAnswers(cfg, a, b, top, d, now);
    ChargeOwes(cfg, b, top, d, now);
  }

  lemma SweepKeeps(cfg: Config, a: Slot, b: Slot, top: real, d: real, now: real)
    requires Similar(cfg, a, b, top, d) && RefillsInTime(cfg, d) && cfg.rps > 0.0 && d >= 0.0
    ensures Similar(cfg, SlotNext(cfg, a, Sweep(now), true), b, Max(top, now), d)
  {
    hide Refill;
    var u := Max(top, now);
    SimilarLater(cfg, a, b, top, u, d);
    if a == b && b.Present? && Idle(cfg, b.bucket, now) {
      RefillAdds(cfg.rps, cfg.idleTTL - 2.0 * d, d);
      assert cfg.idleTTL - 2.0 * d + d == cfg.idleTTL - d;
      RefillGrows(cfg.rps, cfg.idleTTL - d, u - d - b.bucket.last);
    }
  }

  lemma {:induction false} SlotsStaySimilar(cfg: Config, steps: seq<SlotStep>, d: real)
    requires RefillsInTime(cfg, d) && cfg.rps > 0.0 && d >= 0.0
    requires steps != [] && forall i, j | 0 <= i < j < |steps| :: steps[i].now - d <= steps[j].now
    ensures Similar(cfg, SlotAfter(cfg, steps, true), SlotAfter(cfg, steps, false), Top(steps), d)
    decreases |steps|
  {
    hide Refill, Charge, Similar, Idle;
    var n := |steps| - 1;
    var now := steps[n].now;
    var before := steps[..n];
    var top := if n == 0 then now else Top(before);
    if n > 0 {
      SlotsStaySimilar(cfg, before, d);
      TopIsAReading(before);
    } else {
      NothingHeld(cfg, before, now, d);
    }
    var a, b := SlotAfter(cfg, before, true), SlotAfter(cfg, before, false);
    match steps[n]
    case Use(_) => UseKeeps(cfg, a, b, top, d, now);
    case Sweep(_) => SweepKeeps(cfg, a, b, top, d, now);
  }

  lemma NothingHeld(cfg: Config, before: seq<SlotStep>, top: real, d: real)
    requires before == []
    ensures Similar(cfg, SlotAfter(cfg, before, true), SlotAfter(cfg, before, false), top, d)
  {}

  lemma {:induction false} SeenLags(steps: seq<Step>, key: string, t: real, d: real)
    requires Lagging(steps, d) && forall i | 0 <= i < |steps| :: steps[i].now - d <= t
    ensures LagsTo(Seen(steps, key), t, d)
    decreases |steps|
  {
    if steps != [] {
      var n := |steps| - 1;
      SeenLags(steps[..n], key, t, d);
      SeenLags(steps[..n], key, steps[n].now, d);
    }
  }

  lemma GcIsUnobservable(cfg: Config, d: real, steps: seq<Step>)
    requires RefillsInTime(cfg, d) && cfg.rps > 0.0 && d >= 0.0 && Lagging(steps, d)
    ensures SameAnswers(cfg, steps)
  {
    hide Refill, Admits;
    forall n | 0 <= n < |steps| && steps[n].Call?
      ensures Answer(cfg, steps, true, n) <==> Answer(cfg, steps, false, n)
    {
      var key, now := steps[n].key, steps[n].now;
      var seen := Seen(steps[..n], key);
      SeenLags(steps[..n], key, now, d);
      KeysAreIndependent(cfg, steps[..n], true, key);
      KeysAreIndependent(cfg, steps[..n], false, key);
      SeenAnswers(cfg, d, seen, now);
    }
  }

  lemma SeenAnswers(cfg: Config, d: real, seen: seq<SlotStep>, now: real)
    requires RefillsInTime(cfg, d) && cfg.rps > 0.0 && d >= 0.0 && LagsTo(seen, now, d)
    ensures Admits(cfg, SlotAfter(cfg, seen, true), now) <==> Admits(cfg, SlotAfter(cfg, seen, false), now)
  {
    hide Refill, Admits, Similar;
    if seen != [] {
      SlotsStaySimilar(cfg, seen, d);
      TopIsAReading(seen);
      SimilarAnswers(cfg, SlotAfter(cfg, seen, true), SlotAfter(cfg, seen, false), Top(seen), d, now);
    }
  }

  // ----- necessity: a trace that tells the two limiters apart -----

  /** m calls at one instant. */
  function Volley(m: nat, t: real): seq<SlotStep> { seq(m, _ => Use(t)) }

  lemma {:induction false} VolleyDrains(cfg: Config, before: seq<SlotStep>, m: nat, t: real, evict: bool)
    requires m > 0 && m as real <= Level(cfg, SlotAfter(cfg, before, evict), t) <= cfg.burst
    ensures SlotAfter(cfg, before + Volley(m, t), evict)
            == Present(Bucket(Level(cfg, SlotAfter(cfg, before, evict), t) - m as real, t))
  {
    hide Refill;
    var steps := before + Volley(m, t);
    assert steps[..|steps| - 1] == before + Volley(m - 1, t);
    if m == 1 {
      assert before + Volley(0, t) == before;
    } else {
      VolleyDrains(cfg, before, m - 1, t, evict);
      RefillAdds(cfg.rps, 0.0, 0.0);
    }
  }

  lemma RefillExact(rps: real, y: real)
    requires rps > 0.0
    ensures Refill(rps, y / rps) == y
  {}

  /** Empty the bucket exactly: whole tokens at time zero, then one more the moment it is back. */
  function Emptying(cfg: Config): seq<SlotStep>
    requires cfg.rps > 0.0 && cfg.burst >= 1.0
  {
    Volley(cfg.burst.Floor, 0.0) + [Use(EmptyAt(cfg))]
  }

  function EmptyAt(cfg: Config): real
    requires cfg.rps > 0.0
  {
    (1.0 - (cfg.burst - cfg.burst.Floor as real)) / cfg.rps
  }

  lemma EmptyAtRefills(cfg: Config)
    requires cfg.rps > 0.0
    ensures Refill(cfg.rps, EmptyAt(cfg)) == 1.0 - (cfg.burst - cfg.burst.Floor as real)
  {
    hide Refill;
    RefillExact(cfg.rps, 1.0 - (cfg.burst - cfg.burst.Floor as real));
  }

  lemma EmptyingEmpties(cfg: Config, evict: bool)
    requires cfg.rps > 0.0 && cfg.burst >= 1.0
    ensures SlotAfter(cfg, Emptying(cfg), evict) == Present(Bucket(0.0, EmptyAt(cfg)))
  {
    hide Refill, EmptyAt;
    var f := cfg.burst.Floor;
    var volley := Volley(f, 0.0);
    assert [] + volley == volley;
    VolleyDrains(cfg, [], f, 0.0, evict);
    EmptyAtRefills(cfg);
    var all := Emptying(cfg);
    assert all[..|volley|] == volley && all[|all| - 1] == Use(EmptyAt(cfg));
    assert EmptyAt(cfg) - 0.0 == EmptyAt(cfg);
  }

  /** Then a call read d earlier, which is refused and dates the bucket back. */
  function Dated(cfg: Config, d: real): seq<SlotStep>
    requires cfg.rps > 0.0 && cfg.burst >= 1.0
  {
    Emptying(cfg) + [Use(EmptyAt(cfg) - d)]
  }

  lemma DatedSlot(cfg: Config, d: real, evict: bool)
    requires cfg.rps > 0.0 && cfg.burst >= 1.0 && d >= 0.0
    ensures SlotAfter(cfg, Dated(cfg, d), evict) == Present(Bucket(Refill(cfg.rps, -d), EmptyAt(cfg) - d))
  {
    hide Refill, EmptyAt;
    EmptyingEmpties(cfg, evict);
    var all := Dated(cfg, d);
    assert all[..|all| - 1] == Emptying(cfg);
    assert EmptyAt(cfg) - d - EmptyAt(cfg) == -d;
    RefillAdds(cfg.rps, -d, d);
    RefillGrows(cfg.rps, 0.0, d);
    RefillAdds(cfg.rps, 0.0, 0.0);
  }

  /** What is missing when the idle time, less twice the lag, is over; half of it is what the tick waits. */
  function Wait(cfg: Config, d: real): real
    requires cfg.rps > 0.0
  {
    ((cfg.burst - Refill(cfg.rps, cfg.idleTTL - 2.0 * d)) / 2.0) / cfg.rps
  }

  /** Then a tick just past the idle time, and no earlier than the calls. */
  function SweepAt(cfg: Config, d: real): real
    requires cfg.rps > 0.0
  {
    EmptyAt(cfg) + Max(0.0, cfg.idleTTL - d + Wait(cfg, d))
  }

  function Swept(cfg: Config, d: real): seq<SlotStep>
    requires cfg.rps > 0.0 && cfg.burst >= 1.0
  {
    Dated(cfg, d) + [Sweep(SweepAt(cfg, d))]
  }

  /** The configurations in which the wait is positive and falls short of a full bucket. */
  ghost predicate Slow(cfg: Config, d: real) {
    cfg.rps > 0.0 && cfg.burst >= 1.0 && cfg.idleTTL >= 0.0 && d >= 0.0 && Refill(cfg.rps, cfg.idleTTL - 2.0 * d) < cfg.burst
  }

  lemma WaitFallsShort(cfg: Config, d: real)
    requires Slow(cfg, d)
    ensures Wait(cfg, d) > 0.0 && Refill(cfg.rps, cfg.idleTTL - 2.0 * d + Wait(cfg, d)) < cfg.burst
  {
    hide Refill;
    var half := (cfg.burst - Refill(cfg.rps, cfg.idleTTL - 2.0 * d)) / 2.0;
    RefillExact(cfg.rps, half);
    RefillAdds(cfg.rps, cfg.idleTTL - 2.0 * d, half / cfg.rps);
  }

  /** The kept bucket's level at a call read d before the tick. */
  function KeptLevel(cfg: Config, d: real): real
    requires cfg.rps > 0.0
  {
    Refill(cfg.rps, SweepAt(cfg, d) - d - EmptyAt(cfg))
  }

  lemma KeptFallsShort(cfg: Config, d: real)
    requires Slow(cfg, d)
    ensures KeptLevel(cfg, d) < cfg.burst
  {
    hide Refill, EmptyAt, Wait;
    WaitFallsShort(cfg, d);
    RefillAdds(cfg.rps, 0.0, 0.0);
    if cfg.idleTTL - d + Wait(cfg, d) >= 0.0 {
      assert SweepAt(cfg, d) - d - EmptyAt(cfg) == cfg.idleTTL - 2.0 * d + Wait(cfg, d);
    } else {
      assert SweepAt(cfg, d) - d - EmptyAt(cfg) == -d;
      RefillGrows(cfg.rps, -d, 0.0);
    }
  }

  lemma SweptSlots(cfg: Config, d: real)
    requires Slow(cfg, d)
    ensures SlotAfter(cfg, Swept(cfg, d), true) == Absent
    ensures SlotAfter(cfg, Swept(cfg, d), false) == Present(Bucket(Refill(cfg.rps, -d), EmptyAt(cfg) - d))
  {
    hide Refill, EmptyAt, Wait;
    DatedSlot(cfg, d, true);
    DatedSlot(cfg, d, false);
    WaitFallsShort(cfg, d);
    var all := Swept(cfg, d);
    assert all[..|all| - 1] == Dated(cfg, d);
  }

  lemma SweptLevels(cfg: Config, d: real)
    requires Slow(cfg, d)
    ensures Level(cfg, SlotAfter(cfg, Swept(cfg, d), true), SweepAt(cfg, d) - d) == cfg.burst
    ensures Level(cfg, SlotAfter(cfg, Swept(cfg, d), false), SweepAt(cfg, d) - d) == KeptLevel(cfg, d)
  {
    hide Refill, EmptyAt, SweepAt;
    SweptSlots(cfg, d);
    KeptFallsShort(cfg, d);
    var g := SweepAt(cfg, d) - d;
    RefillAdds(cfg.rps, -d, g - (EmptyAt(cfg) - d));
    assert -d + (g - (EmptyAt(cfg) - d)) == g - EmptyAt(cfg);
  }

  /** The distinguishing trace: use up the kept bucket's whole tokens; if the fresh one then has
      no whole token either, wait until it has. */
  function Probe(cfg: Config, d: real): (nat, real)
    requires cfg.rps > 0.0
  {
    var g := SweepAt(cfg, d) - d;
    var x := KeptLevel(cfg, d);
    var m := if x >= 0.0 then x.Floor else 0;
    var left := cfg.burst - m as real;
    (m, if left >= 1.0 then g else g + (1.0 - left) / cfg.rps)
  }

  function Trace(cfg: Config, d: real): seq<SlotStep>
    requires cfg.rps > 0.0 && cfg.burst >= 1.0
  {
    Swept(cfg, d) + Volley(Probe(cfg, d).0, SweepAt(cfg, d) - d)
  }

  lemma LevelAtOnce(cfg: Config, bucket: Bucket)
    requires bucket.tokens <= cfg.burst
    ensures Level(cfg, Present(bucket), bucket.last) == bucket.tokens
  {
    hide Refill;
    RefillAdds(cfg.rps, 0.0, 0.0);
  }

  lemma WholeTokens(cfg: Config, d: real)
    requires Slow(cfg, d)
    ensures var m := Probe(cfg, d).0; m as real < cfg.burst && KeptLevel(cfg, d) - m as real < 1.0
    ensures var m := Probe(cfg, d).0; m > 0 ==> m as real <= KeptLevel(cfg, d)
  {
    hide KeptLevel, SweepAt;
    KeptFallsShort(cfg, d);
  }

  lemma AfterVolley(cfg: Config, d: real)
    requires Slow(cfg, d)
    ensures var m := Probe(cfg, d).0; var g := SweepAt(cfg, d) - d;
            && m as real < cfg.burst
            && SlotAfter(cfg, Trace(cfg, d), true) == (if m == 0 then Absent else Present(Bucket(cfg.burst - m as real, g)))
            && Level(cfg, SlotAfter(cfg, Trace(cfg, d), false), g) == KeptLevel(cfg, d) - m as real < 1.0
            && SlotAfter(cfg, Trace(cfg, d), false).Present?
  {
    hide Refill, EmptyAt, SweepAt, KeptLevel, SlotAfter, Level, Swept, Probe, Volley;
    SweptSlots(cfg, d);
    SweptLevels(cfg, d);
    WholeTokens(cfg, d);
    KeptFallsShort(cfg, d);
    var m, g := Probe(cfg, d).0, SweepAt(cfg, d) - d;
    if m > 0 {
      VolleyDrains(cfg, Swept(cfg, d), m, g, true);
      VolleyDrains(cfg, Swept(cfg, d), m, g, false);
      LevelAtOnce(cfg, Bucket(KeptLevel(cfg, d) - m as real, g));
    } else {
      EmptyVolley(Swept(cfg, d), g);
    }
  }

  lemma EmptyVolley(before: seq<SlotStep>, t: real)
    ensures before + Volley(0, t) == before
  {}

  lemma LevelLater(cfg: Config, slot: Slot, g: real, h: real)
    requires slot.Present? && g <= h && cfg.rps > 0.0
    ensures Level(cfg, slot, h) <= Level(cfg, slot, g) + Refill(cfg.rps, h - g)
  {
    hide Refill;
    RefillAdds(cfg.rps, g - slot.bucket.last, h - g);
    assert g - slot.bucket.last + (h - g) == h - slot.bucket.last;
    RefillGrows(cfg.rps, 0.0, h - g);
    RefillAdds(cfg.rps, 0.0, 0.0);
  }

  lemma ProbeTellsApart(cfg: Config, d: real)
    requires Slow(cfg, d)
    ensures Admits(cfg, SlotAfter(cfg, Trace(cfg, d), true), Probe(cfg, d).1)
    ensures !Admits(cfg, SlotAfter(cfg, Trace(cfg, d), false), Probe(cfg, d).1)
    ensures SweepAt(cfg, d) - d <= Probe(cfg, d).1
  {
    hide Refill, EmptyAt, SweepAt, KeptLevel, SlotAfter, Trace;
    AfterVolley(cfg, d);
    KeptFallsShort(cfg, d);
    var g := SweepAt(cfg, d) - d;
    var (m, h) := Probe(cfg, d);
    var left := cfg.burst - m as real;
    RefillAdds(cfg.rps, 0.0, 0.0);
    if left < 1.0 {
      RefillExact(cfg.rps, 1.0 - left);
      assert h - g == (1.0 - left) / cfg.rps;
    }
    LevelLater(cfg, SlotAfter(cfg, Trace(cfg, d), false), g, h);
  }

  // ----- the trace as steps of the shared limiter -----

  function Lift(steps: seq<SlotStep>): seq<Step> {
    seq(|steps|, k requires 0 <= k < |steps| => match steps[k] case Use(t) => Call("ip", t) case Sweep(t) => Tick(t))
  }

  lemma {:induction false} SeenLift(steps: seq<SlotStep>)
    ensures Seen(Lift(steps), "ip") == steps
  {
    if steps != [] {
      var n := |steps| - 1;
      SeenLift(steps[..n]);
      assert Lift(steps)[..n] == Lift(steps[..n]);
      assert steps == steps[..n] + [steps[n]];
    }
  }

  lemma EmptyAtIsLater(cfg: Config)
    requires cfg.rps > 0.0
    ensures EmptyAt(cfg) >= 0.0
  {
  }

  /** The calls at time zero, the emptying one, the dated one, the tick, then the probes. */
  lemma TraceLags(cfg: Config, d: real)
    requires Slow(cfg, d)
    ensures Lagging(Lift(Trace(cfg, d) + [Use(Probe(cfg, d).1)]), d)
  {
    hide Refill, Admits, SlotAfter, SweepAt, EmptyAt, Probe;
    SweepIsLater(cfg, d);
    ProbeTellsApart(cfg, d);
    EmptyAtIsLater(cfg);
  }

  lemma SweepIsLater(cfg: Config, d: real)
    requires cfg.rps > 0.0
    ensures EmptyAt(cfg) <= SweepAt(cfg, d)
  {}

  lemma LiftTellsApart(cfg: Config, trace: seq<SlotStep>, h: real)
    requires Admits(cfg, SlotAfter(cfg, trace, true), h) != Admits(cfg, SlotAfter(cfg, trace, false), h)
    ensures !SameAnswers(cfg, Lift(trace + [Use(h)]))
  {
    hide Admits, SlotAfter;
    var steps := Lift(trace + [Use(h)]);
    SeenLift(trace);
    assert steps[..|trace|] == Lift(trace);
    KeysAreIndependent(cfg, Lift(trace), true, "ip");
    KeysAreIndependent(cfg, Lift(trace), false, "ip");
    assert Answer(cfg, steps, true, |trace|) != Answer(cfg, steps, false, |trace|);
  }

  lemma GcIsObservableIfSlow(cfg: Config, d: real)
    requires Slow(cfg, d)
    ensures exists steps :: Lagging(steps, d) && !SameAnswers(cfg, steps)
  {
    hide Refill, Admits, SlotAfter, Probe, Trace;
    TraceLags(cfg, d);
    ProbeTellsApart(cfg, d);
    LiftTellsApart(cfg, Trace(cfg, d), Probe(cfg, d).1);
  }

  /** A burst below one token admits nothing but a key's first call, and eviction makes every next call a first one. */
  lemma GcIsObservableIfSmall(cfg: Config, d: real)
    requires cfg.rps > 0.0 && cfg.burst < 1.0 && cfg.idleTTL >= 0.0 && d >= 0.0
    ensures exists steps :: Lagging(steps, d) && !SameAnswers(cfg, steps)
  {
    var later := cfg.idleTTL + 1.0;
    var trace := [Use(0.0), Sweep(later)];
    SmallSlots(cfg, later);
    hide SlotAfter;
    LiftTellsApart(cfg, trace, later);
  }

  lemma SmallSlots(cfg: Config, later: real)
    requires cfg.burst < 1.0 && later > cfg.idleTTL >= 0.0
    ensures SlotAfter(cfg, [Use(0.0), Sweep(later)], true) == Absent
    ensures SlotAfter(cfg, [Use(0.0), Sweep(later)], false).Present?
  {
    var steps := [Use(0.0), Sweep(later)];
    assert steps[..1] == [Use(0.0)] && steps[..1][..0] == [];
  }

  /** Eviction is noticed on some run whose readings lag no more than d. */
  lemma GcIsObservable(cfg: Config, d: real)
    requires cfg.rps > 0.0 && cfg.idleTTL >= 0.0 && d >= 0.0 && !RefillsInTime(cfg, d)
    ensures exists steps :: Lagging(steps, d) && !SameAnswers(cfg, steps)
  {
    hide Refill, Lagging, SameAnswers;
    if cfg.burst < 1.0 { GcIsObservableIfSmall(cfg, d); } else { GcIsObservableIfSlow(cfg, d); }
  }

  /** Eviction goes unnoticed on every run whose readings lag no more than d iff the burst is a whole token
      or more and a bucket refills within the idle time less twice d. Readings in order are d == 0. */
  lemma GcIsTransparentIff(cfg: Config, d: real)
    requires cfg.rps > 0.0 && cfg.idleTTL >= 0.0 && d >= 0.0
    ensures (forall steps | Lagging(steps, d) :: SameAnswers(cfg, steps)) <==> RefillsInTime(cfg, d)
  {
    hide RefillsInTime, SameAnswers, Lagging;
    if RefillsInTime(cfg, d) {
      forall steps | Lagging(steps, d) ensures SameAnswers(cfg, steps) { GcIsUnobservable(cfg, d, steps); }
    } else {
      GcIsObservable(cfg, d);
    }
  }

  /** The default limiter tolerates readings up to 290 seconds late, and no later. */
  lemma DefaultTolerates(d: real)
    requires d >= 0.0
    ensures (forall steps | Lagging(steps, d) :: SameAnswers(Config(1.0, 20.0, 600.0), steps)) <==> d <= 290.0
  {
    hide SameAnswers, Lagging;
    GcIsTransparentIff(Config(1.0, 20.0, 600.0), d);
  }

  /** No configuration tolerates readings as late as the idle time. */
  lemma OutOfOrderIsObservable(cfg: Config)
    requires cfg.rps > 0.0 && cfg.idleTTL >= 0.0
    ensures exists steps :: Lagging(steps, cfg.idleTTL) && !SameAnswers(cfg, steps)
  {
    hide SameAnswers, Lagging, Refill;
    RefillGrows(cfg.rps, -cfg.idleTTL, 0.0);
    RefillAdds(cfg.rps, 0.0, 0.0);
    GcIsObservable(cfg, cfg.idleTTL);
  }
}
