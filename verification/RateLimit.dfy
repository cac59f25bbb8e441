/** The per-IP token bucket: the limiter object, and what one key sees of it. Times are in
    seconds and arbitrary: now is read before the lock, so calls may arrive out of order. */
module RateLimit {

  datatype Bucket = Bucket(tokens: real, last: real)

  datatype Config = Config(rps: real, burst: real, idleTTL: real)

  /** What the limiter holds for one key. */
  datatype Slot = Absent | Present(bucket: Bucket)

  function Refill(rps: real, elapsed: real): real { elapsed * rps }

  /** Tokens on hand at a call, before the test; a key without a bucket counts as full. */
  function Level(cfg: Config, slot: Slot, now: real): real {
    match slot
    case Absent => cfg.burst
    case Present(b) =>
      var refilled := b.tokens + Refill(cfg.rps, now - b.last);
      if refilled > cfg.burst then cfg.burst else refilled
  }

  /** A new key is admitted whatever the burst; a known one needs a whole token. */
  predicate Admits(cfg: Config, slot: Slot, now: real) {
    slot.Absent? || Level(cfg, slot, now) >= 1.0
  }

  function Charge(cfg: Config, slot: Slot, now: real): Bucket {
    var level := Level(cfg, slot, now);
    Bucket(if Admits(cfg, slot, now) then level - 1.0 else level, now)
  }

  function SlotOf(buckets: map<string, Bucket>, key: string): Slot {
    if key in buckets then Present(buckets[key]) else Absent
  }

  predicate Idle(cfg: Config, b: Bucket, now: real) { b.last < now - cfg.idleTTL }

  function Evicted(cfg: Config, buckets: map<string, Bucket>, now: real): map<string, Bucket> {
    map k | k in buckets && !Idle(cfg, buckets[k], now) :: buckets[k]
  }

  class IpLimiter {
    const rps: real
    const burst: real
    const idleTTL: real
    var buckets: map<string, Bucket>

    constructor (rps: real, burst: real)
      ensures buckets == map[] && Settings() == Config(rps, burst, 600.0)
    {
      this.rps := rps;
      this.burst := burst;
      idleTTL := 600.0;
      buckets := map[];
    }

    function Settings(): Config { Config(rps, burst, idleTTL) }

    method Allow(key: string, now: real) returns (ok: bool)
      modifies this
      ensures ok == Admits(Settings(), SlotOf(old(buckets), key), now)
      ensures buckets == old(buckets)[key := Charge(Settings(), SlotOf(old(buckets), key), now)]
    {
      if key !in buckets {
        buckets := buckets[key := Bucket(burst - 1.0, now)];
        return true;
      }
      var b := buckets[key];
      var elapsed := now - b.last;
      var tokens := b.tokens + elapsed * rps;
      if tokens > burst { tokens := burst; }
      if tokens < 1.0 {
        buckets := buckets[key := Bucket(tokens, now)];
        return false;
      }
      buckets := buckets[key := Bucket(tokens - 1.0, now)];
      return true;
    }

    /** One tick of gcLoop. */
    method Gc(now: real)
      modifies this
      ensures buckets == Evicted(Settings(), old(buckets), now)
      ensures forall k :: k in buckets <==> k in old(buckets) && old(buckets)[k].last >= now - idleTTL
    {
      var cutoff := now - idleTTL;
      var todo := buckets.Keys;
      while todo != {}
        invariant todo <= buckets.Keys <= old(buckets).Keys
        invariant forall k <- buckets :: buckets[k] == old(buckets)[k]
        invariant forall k <- old(buckets).Keys - todo :: k in buckets <==> !Idle(Settings(), old(buckets)[k], now)
        decreases |todo|
      {
        var k :| k in todo;
        todo := todo - {k};
        if buckets[k].last < cutoff { buckets := buckets - {k}; }
      }
    }
  }

  // ----- runs of the shared limiter, and what one key sees of them -----

  datatype Step = Call(key: string, now: real) | Tick(now: real)

  /** The map after some steps; evict says whether the ticks really evict. */
  function MapAfter(cfg: Config, steps: seq<Step>, evict: bool): map<string, Bucket> {
    if steps == [] then map[]
    else
      var n := |steps| - 1;
      var m := MapAfter(cfg, steps[..n], evict);
      match steps[n]
      case Call(key, now) => m[key := Charge(cfg, SlotOf(m, key), now)]
      case Tick(now) => if evict then Evicted(cfg, m, now) else m
  }

  /** The answer to the n-th step, which is a call. */
  predicate Answer(cfg: Config, steps: seq<Step>, evict: bool, n: nat)
    requires n < |steps| && steps[n].Call?
  {
    Admits(cfg, SlotOf(MapAfter(cfg, steps[..n], evict), steps[n].key), steps[n].now)
  }

  datatype SlotStep = Use(now: real) | Sweep(now: real)

  function SlotNext(cfg: Config, slot: Slot, step: SlotStep, evict: bool): Slot {
    match step
    case Use(now) => Present(Charge(cfg, slot, now))
    case Sweep(now) => if evict && slot.Present? && Idle(cfg, slot.bucket, now) then Absent else slot
  }

  function SlotAfter(cfg: Config, steps: seq<SlotStep>, evict: bool): Slot {
    if steps == [] then Absent else SlotNext(cfg, SlotAfter(cfg, steps[..|steps| - 1], evict), steps[|steps| - 1], evict)
  }

  /** The steps one key sees: its own calls and every tick. */
  function Seen(steps: seq<Step>, key: string): seq<SlotStep> {
    if steps == [] then []
    else
      var n := |steps| - 1;
      var before := Seen(steps[..n], key);
      match steps[n]
      case Call(k, now) => if k == key then before + [Use(now)] else before
      case Tick(now) => before + [Sweep(now)]
  }

  /** Keys do not interfere: a key's bucket is a function of the steps it sees. */
  lemma {:induction false} KeysAreIndependent(cfg: Config, steps: seq<Step>, evict: bool, key: string)
    ensures SlotOf(MapAfter(cfg, steps, evict), key) == SlotAfter(cfg, Seen(steps, key), evict)
  {
    if steps != [] {
      var n := |steps| - 1;
      hide Charge, Level, Admits, Idle;
      KeysAreIndependent(cfg, steps[..n], evict, key);
      var before, seen := Seen(steps[..n], key), Seen(steps, key);
      if |seen| > |before| { assert seen[..|seen| - 1] == before; }
    }
  }
}
