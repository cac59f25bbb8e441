/** The per-org cap: INCR, EXPIRE and the comparison as separate steps of many concurrent requests
    on one shared counter store that expires keys. */
module OrgRateLimit {
  import opened Decimal
  import opened Wrappers

  const FreeMonthlyLimit: nat := 10000
  const Days35: nat := 35 * 24 * 3600

  /** 0 means no hard cap: pro, enterprise, and any unknown tier. */
  function LimitForTier(tier: string): nat { if tier == "free" then FreeMonthlyLimit else 0 }

  // ----- the counter's key -----

  function RateKey(org: string, periodStart: int): string { "veto:rate:" + org + ":" + FormatInt(periodStart) }

  /** What follows the last colon. */
  function AfterLastColon(s: string): string {
    if s == "" || s[|s| - 1] == ':' then "" else AfterLastColon(s[..|s| - 1]) + [s[|s| - 1]]
  }

  lemma {:induction false} LastColon(a: string, x: string)
    requires ':' !in x
    ensures AfterLastColon(a + ":" + x) == x
    decreases |x|
  {
    var s := a + ":" + x;
    if x != "" {
      var n := |x| - 1;
      assert s[..|s| - 1] == a + ":" + x[..n];
      LastColon(a, x[..n]);
    }
  }

  /** Two (org, period) pairs never share a counter, whatever the org strings contain. */
  lemma RateKeyIsInjective(org1: string, p1: int, org2: string, p2: int)
    requires RateKey(org1, p1) == RateKey(org2, p2)
    ensures org1 == org2 && p1 == p2
  {
    var prefix := "veto:rate:";
    FormatIntReads(p1);
    FormatIntReads(p2);
    LastColon(prefix + org1, FormatInt(p1));
    LastColon(prefix + org2, FormatInt(p2));
    var s := RateKey(org1, p1);
    assert s[..|prefix + org1|] == prefix + org1 && s[..|prefix + org2|] == prefix + org2;
    assert (prefix + org1)[|prefix|..] == org1 && (prefix + org2)[|prefix|..] == org2;
  }

  // ----- the steps -----

  datatype Counter = Counter(count: nat, expiry: Option<int>)

  /** Expiring: about to send EXPIRE (only the request that saw 1). Comparing: about to compare. */
  datatype Phase = Expiring | Comparing | Admitted | Refused

  /** count is what INCR returned, 0 if it failed and the request was let through. */
  datatype Request = Request(key: string, limit: nat, count: nat, phase: Phase)

  datatype State = State(now: int, counters: map<string, Counter>, requests: seq<Request>, lost: multiset<string>)

  const Init := State(0, map[], [], multiset{})

  /** A failed INCR may still have been applied by the store (lost). */
  datatype Step =
    | Advance(to: int)
    | Incr(key: string, limit: nat)
    | IncrFails(key: string, limit: nat, applied: bool)
    | Expire(id: nat, ok: bool)
    | Compare(id: nat)

  predicate Enabled(s: State, step: Step) {
    match step
    case Advance(t) => t >= s.now
    case Incr(_, _) => true
    case IncrFails(_, _, _) => true
    case Expire(i, _) => i < |s.requests| && s.requests[i].phase.Expiring?
    case Compare(i) => i < |s.requests| && s.requests[i].phase.Comparing?
  }

  predicate Expired(c: Counter, now: int) { c.expiry.Some? && now >= c.expiry.value }

  /** The counter as the store sees it: an expired key is gone. */
  function Live(s: State, key: string): Counter {
    if key in s.counters && !Expired(s.counters[key], s.now) then s.counters[key] else Counter(0, None)
  }

  function Bumped(s: State, key: string): Counter {
    var c := Live(s, key);
    c.(count := c.count + 1)
  }

  function Verdict(limit: nat, count: nat): Phase { if limit > 0 && count > limit then Refused else Admitted }

  function Apply(s: State, step: Step): State
    requires Enabled(s, step)
  {
    match step
    case Advance(t) => s.(now := t)
    case Incr(key, limit) =>
      var c := Bumped(s, key);
      s.(counters := s.counters[key := c],
         requests := s.requests + [Request(key, limit, c.count, if c.count == 1 then Expiring else Comparing)])
    case IncrFails(key, limit, applied) =>
      var t := s.(requests := s.requests + [Request(key, limit, 0, Admitted)]);
      if applied then t.(counters := s.counters[key := Bumped(s, key)], lost := s.lost + multiset{key}) else t
    case Expire(i, ok) =>
      var r := s.requests[i];
      var t := s.(requests := s.requests[i := r.(phase := Comparing)]);
      if ok && r.key in s.counters && !Expired(s.counters[r.key], s.now)
      then t.(counters := s.counters[r.key := s.counters[r.key].(expiry := Some(s.now + Days35))])
      else t
    case Compare(i) =>
      var r := s.requests[i];
      s.(requests := s.requests[i := r.(phase := Verdict(r.limit, r.count))])
  }

  /** The state after a list of steps, if each was possible in its turn. */
  function Exec(steps: seq<Step>): Option<State> {
    if steps == [] then Some(Init)
    else
      match Exec(steps[..|steps| - 1])
      case None => None
      case Some(s) => if Enabled(s, steps[|steps| - 1]) then Some(Apply(s, steps[|steps| - 1])) else None
  }

  predicate Touches(step: Step, key: string) {
    (step.Incr? && step.key == key) || (step.IncrFails? && step.key == key)
  }

  /** Every request on the key is counted within len seconds of the period start. */
  ghost predicate InWindow(steps: seq<Step>, key: string, period: int, len: nat) {
    forall i | 0 <= i < |steps| && Touches(steps[i], key) && Exec(steps[..i]).Some? ::
      period <= Exec(steps[..i]).value.now < period + len
  }

  ghost predicate Within35Days(steps: seq<Step>, key: string, period: int) { InWindow(steps, key, period, Days35) }

  // ----- what holds of one key in every state -----

  /** Let through on a successful INCR of this key. */
  predicate Backed(r: Request, key: string) { r.key == key && r.count > 0 }

  function CountBacked(rs: seq<Request>, key: string): nat {
    if rs == [] then 0 else CountBacked(rs[..|rs| - 1], key) + if Backed(rs[|rs| - 1], key) then 1 else 0
  }

  /** Later requests on the key saw larger numbers. */
  ghost predicate Increasing(rs: seq<Request>, key: string) {
    forall i, j | 0 <= i < j < |rs| && Backed(rs[i], key) && Backed(rs[j], key) :: rs[i].count < rs[j].count
  }

  ghost predicate Sound(r: Request) {
    && (r.phase == Admitted && r.count > 0 ==> Verdict(r.limit, r.count) == Admitted)
    && (r.phase == Refused ==> r.count > 0 && Verdict(r.limit, r.count) == Refused)
    && (r.phase == Expiring || r.phase == Comparing ==> r.count > 0)
  }

  /** Applied increments of the key so far. */
  function Applied(s: State, key: string): nat { if key in s.counters then s.counters[key].count else 0 }

  /** The key cannot expire before the period's 35 days are over. */
  ghost predicate Lasts(s: State, key: string, period: int) {
    && (key in s.counters ==> s.now >= period)
    && (key in s.counters && s.counters[key].expiry.Some? ==> s.counters[key].expiry.value >= period + Days35)
  }

  ghost predicate Tallied(s: State, key: string) {
    && Increasing(s.requests, key)
    && (forall r <- s.requests :: Sound(r) && (Backed(r, key) ==> r.count <= Applied(s, key)))
    && CountBacked(s.requests, key) + s.lost[key] == Applied(s, key)
  }

  lemma CountSnoc(rs: seq<Request>, r: Request, key: string)
    ensures CountBacked(rs + [r], key) == CountBacked(rs, key) + if Backed(r, key) then 1 else 0
  {
    assert (rs + [r])[..|rs|] == rs;
  }

  /** Rewriting a request's phase changes nothing it is counted by. */
  lemma {:induction false} CountUpdate(rs: seq<Request>, i: nat, r: Request, key: string)
    requires i < |rs| && r.key == rs[i].key && r.count == rs[i].count
    ensures CountBacked(rs[i := r], key) == CountBacked(rs, key)
    decreases |rs|
  {
    var n := |rs| - 1;
    if i < n {
      assert rs[i := r][..n] == rs[..n][i := r];
      CountUpdate(rs[..n], i, r, key);
    } else {
      assert rs[i := r][..n] == rs[..n];
    }
  }

  lemma StepKeepsLasting(s: State, step: Step, key: string, period: int)
    requires Lasts(s, key, period) && Enabled(s, step)
    requires Touches(step, key) ==> period <= s.now < period + Days35
    ensures Lasts(Apply(s, step), key, period)
  {}

  lemma AppendKeepsTally(s: State, t: State, r: Request, key: string)
    requires Tallied(s, key) && t.requests == s.requests + [r] && Sound(r)
    requires Backed(r, key) ==> Applied(s, key) < r.count <= Applied(t, key)
    requires Applied(s, key) <= Applied(t, key)
    requires Applied(t, key) + s.lost[key] == Applied(s, key) + t.lost[key] + if Backed(r, key) then 1 else 0
    ensures Tallied(t, key)
  {
    hide CountBacked, Applied, Sound;
    CountSnoc(s.requests, r, key);
  }

  lemma RewriteKeepsTally(s: State, t: State, i: nat, r: Request, key: string)
    requires Tallied(s, key) && i < |s.requests| && t.requests == s.requests[i := r] && Sound(r)
    requires r.key == s.requests[i].key && r.count == s.requests[i].count
    requires Applied(t, key) == Applied(s, key) && t.lost == s.lost
    ensures Tallied(t, key)
  {
    hide CountBacked, Applied, Sound;
    CountUpdate(s.requests, i, r, key);
    forall q <- t.requests ensures Sound(q) && (Backed(q, key) ==> q.count <= Applied(t, key)) {
      assert q == r || q in s.requests;
    }
  }

  lemma LiveIsApplied(s: State, key: string, period: int)
    requires Lasts(s, key, period) && s.now < period + Days35
    ensures Live(s, key).count == Applied(s, key)
  {}

  lemma StepKeepsTally(s: State, step: Step, key: string, period: int)
    requires Lasts(s, key, period) && Tallied(s, key) && Enabled(s, step)
    requires Touches(step, key) ==> period <= s.now < period + Days35
    ensures Tallied(Apply(s, step), key)
  {
    hide Tallied, Lasts, Live, Expired;
    var rs, t := s.requests, Apply(s, step);
    if Touches(step, key) { LiveIsApplied(s, key, period); }
    match step
    case Advance(_) => NothingToTally(s, t, key);
    case Incr(k, limit) =>
      var c := Bumped(s, k).count;
      AppendKeepsTally(s, t, Request(k, limit, c, if c == 1 then Expiring else Comparing), key);
    case IncrFails(k, limit, _) => AppendKeepsTally(s, t, Request(k, limit, 0, Admitted), key);
    case Expire(i, _) =>
      ComparedHasNumber(s, i, key);
      RewriteKeepsTally(s, t, i, rs[i].(phase := Comparing), key);
    case Compare(i) =>
      ComparedHasNumber(s, i, key);
      RewriteKeepsTally(s, t, i, rs[i].(phase := Verdict(rs[i].limit, rs[i].count)), key);
  }

  lemma NothingToTally(s: State, t: State, key: string)
    requires Tallied(s, key) && t == s.(now := t.now)
    ensures Tallied(t, key)
  {}

  /** Only requests with a number from INCR wait for EXPIRE or the comparison. */
  lemma ComparedHasNumber(s: State, i: nat, key: string)
    requires Tallied(s, key) && i < |s.requests| && (s.requests[i].phase == Comparing || s.requests[i].phase == Expiring)
    ensures s.requests[i].count > 0
  {
    assert s.requests[i] in s.requests;
  }

  lemma {:induction false} RunsAreTallied(steps: seq<Step>, key: string, period: int)
    requires Exec(steps).Some? && Within35Days(steps, key, period)
    ensures Lasts(Exec(steps).value, key, period) && Tallied(Exec(steps).value, key)
    decreases |steps|
  {
    if steps != [] {
      hide Apply, Enabled, Lasts, Tallied;
      var n := |steps| - 1;
      assert forall i | 0 <= i < n :: steps[..n][..i] == steps[..i];
      RunsAreTallied(steps[..n], key, period);
      var s := Exec(steps[..n]).value;
      assert Touches(steps[n], key) ==> period <= s.now < period + Days35;
      StepKeepsLasting(s, steps[n], key, period);
      StepKeepsTally(s, steps[n], key, period);
    }
  }

  // ----- the cap -----

  /** Requests on the key admitted under a cap, on a number INCR gave them. */
  function CountAdmitted(rs: seq<Request>, key: string, cap: nat): nat {
    if rs == [] then 0
    else
      var r := rs[|rs| - 1];
      CountAdmitted(rs[..|rs| - 1], key, cap) + if Backed(r, key) && r.limit == cap && r.phase == Admitted then 1 else 0
  }

  /** The largest number given out on the key. */
  function Highest(rs: seq<Request>, key: string): nat {
    if rs == [] then 0 else if Backed(rs[|rs| - 1], key) then rs[|rs| - 1].count else Highest(rs[..|rs| - 1], key)
  }

  lemma {:induction false} HighestIsHighest(rs: seq<Request>, key: string)
    requires Increasing(rs, key)
    ensures forall r <- rs | Backed(r, key) :: r.count <= Highest(rs, key)
    ensures Highest(rs, key) > 0 ==> exists r <- rs :: Backed(r, key) && r.count == Highest(rs, key)
  {
    if rs != [] { HighestIsHighest(rs[..|rs| - 1], key); }
  }

  lemma {:induction false} AdmittedUnderCap(rs: seq<Request>, key: string, cap: nat)
    requires cap > 0 && Increasing(rs, key) && forall r <- rs :: Sound(r)
    ensures CountAdmitted(rs, key, cap) <= cap && CountAdmitted(rs, key, cap) <= Highest(rs, key)
  {
    if rs != [] {
      var before, r := rs[..|rs| - 1], rs[|rs| - 1];
      AdmittedUnderCap(before, key, cap);
      HighestIsHighest(before, key);
      assert r in rs;
    }
  }

  /** Whatever the interleaving, lost EXPIREs and lost replies included: never more than the cap
      are admitted on the key under a cap. */
  lemma CapIsNeverExceeded(steps: seq<Step>, key: string, period: int, cap: nat)
    requires Exec(steps).Some? && Within35Days(steps, key, period) && cap > 0
    ensures CountAdmitted(Exec(steps).value.requests, key, cap) <= cap
  {
    RunsAreTallied(steps, key, period);
    AdmittedUnderCap(Exec(steps).value.requests, key, cap);
  }

  // ----- exactness -----

  /** Increasing numbers, as many as the highest of them, are 1, 2, 3, ... */
  lemma {:induction false} HighestBoundsCount(rs: seq<Request>, key: string)
    requires Increasing(rs, key)
    ensures CountBacked(rs, key) <= Highest(rs, key)
  {
    if rs != [] {
      HighestBoundsCount(rs[..|rs| - 1], key);
      HighestIsHighest(rs[..|rs| - 1], key);
    }
  }

  lemma {:induction false} NumbersAreConsecutive(rs: seq<Request>, key: string, n: nat)
    requires n <= |rs| && Increasing(rs, key) && CountBacked(rs, key) == Highest(rs, key)
    ensures CountBacked(rs[..n], key) == Highest(rs[..n], key)
    decreases |rs|
  {
    var m := |rs| - 1;
    if n < |rs| {
      HighestBoundsCount(rs[..m], key);
      HighestIsHighest(rs[..m], key);
      assert rs[..m][..n] == rs[..n];
      NumbersAreConsecutive(rs[..m], key, n);
    } else {
      assert rs[..n] == rs;
    }
  }

  /** With no applied INCR lost, the k-th successful INCR on the key returns k. */
  lemma IncrCountsUp(steps: seq<Step>, key: string, period: int, i: nat)
    requires Exec(steps).Some? && Within35Days(steps, key, period) && Exec(steps).value.lost[key] == 0
    requires i < |Exec(steps).value.requests| && Backed(Exec(steps).value.requests[i], key)
    ensures var rs := Exec(steps).value.requests; rs[i].count == CountBacked(rs[..i + 1], key)
  {
    hide Exec, Within35Days, Lasts;
    RunsAreTallied(steps, key, period);
    var s := Exec(steps).value;
    var rs := s.requests;
    AllApplied(s, key);
    NumbersAreConsecutive(rs, key, i + 1);
    assert rs[..i + 1][..i] == rs[..i];
  }

  lemma AllApplied(s: State, key: string)
    requires Tallied(s, key) && s.lost[key] == 0
    ensures CountBacked(s.requests, key) == Highest(s.requests, key)
  {
    HighestIsHighest(s.requests, key);
    HighestBoundsCount(s.requests, key);
  }

  function Min(a: nat, b: nat): nat { if a <= b then a else b }

  lemma {:induction false} ExactlyTheFirst(rs: seq<Request>, key: string, cap: nat)
    requires cap > 0 && Increasing(rs, key) && CountBacked(rs, key) == Highest(rs, key) && forall r <- rs :: Sound(r)
    requires forall r <- rs | Backed(r, key) :: r.limit == cap && (r.phase == Admitted || r.phase == Refused)
    ensures CountAdmitted(rs, key, cap) == Min(CountBacked(rs, key), cap)
  {
    if rs != [] {
      var before, r := rs[..|rs| - 1], rs[|rs| - 1];
      NumbersAreConsecutive(rs, key, |rs| - 1);
      ExactlyTheFirst(before, key, cap);
      assert r in rs;
    }
  }

  /** An all-capped run in which every request has been decided and no applied INCR was lost admits
      exactly the first cap of its successful INCRs, in whatever order the other steps came. */
  lemma ExactlyCapAdmitted(steps: seq<Step>, key: string, period: int, cap: nat)
    requires Exec(steps).Some? && Within35Days(steps, key, period) && cap > 0 && Exec(steps).value.lost[key] == 0
    requires forall r <- Exec(steps).value.requests | Backed(r, key) :: r.limit == cap && (r.phase == Admitted || r.phase == Refused)
    ensures var rs := Exec(steps).value.requests; CountAdmitted(rs, key, cap) == Min(CountBacked(rs, key), cap)
  {
    hide Exec, Within35Days, Lasts;
    RunsAreTallied(steps, key, period);
    AllApplied(Exec(steps).value, key);
    ExactlyTheFirst(Exec(steps).value.requests, key, cap);
  }

  // ----- who is refused -----

  /** Refused means a limit, and a number above it; admitted, no limit, or a number up to it, or no number at all. */
  ghost predicate Rightly(r: Request) {
    && (r.phase == Refused ==> 0 < r.limit < r.count)
    && (r.phase == Admitted ==> r.limit == 0 || r.count <= r.limit)
  }

  lemma StepKeepsRight(s: State, step: Step)
    requires Enabled(s, step) && forall r <- s.requests :: Rightly(r)
    ensures forall r <- Apply(s, step).requests :: Rightly(r)
  {
    hide Bumped, Live;
    forall r <- Apply(s, step).requests ensures Rightly(r) {
      if r !in s.requests {
        match step
        case Expire(i, _) => assert r == Apply(s, step).requests[i];
        case Compare(i) => assert r == Apply(s, step).requests[i];
        case _ =>
      }
    }
  }

  /** In every run, whatever the times: a decided request is refused iff it was made under a limit and INCR answered
      more than that. So one without a limit never is. */
  lemma {:induction false} RefusedIffOverLimit(steps: seq<Step>, i: nat)
    requires Exec(steps).Some? && i < |Exec(steps).value.requests|
    ensures var r := Exec(steps).value.requests[i];
            && (r.phase == Admitted || r.phase == Refused ==> (r.phase == Refused <==> 0 < r.limit < r.count))
            && (r.limit == 0 ==> r.phase != Refused)
  {
    RequestsAreRight(steps);
    assert Exec(steps).value.requests[i] in Exec(steps).value.requests;
  }

  lemma {:induction false} RequestsAreRight(steps: seq<Step>)
    requires Exec(steps).Some?
    ensures forall r <- Exec(steps).value.requests :: Rightly(r)
  {
    if steps != [] {
      hide Apply, Enabled, Rightly;
      RequestsAreRight(steps[..|steps| - 1]);
      StepKeepsRight(Exec(steps[..|steps| - 1]).value, steps[|steps| - 1]);
    }
  }

  // ----- one request on its own -----

  /** INCR answers with the new count, or fails; a failed one may have been applied all the same. */
  datatype IncrReply = Replied | Failed(applied: bool)

  /** The steps of one CheckAndIncrement, uninterrupted. */
  function Uninterrupted(s: State, key: string, limit: nat, reply: IncrReply, expireOk: bool): State {
    match reply
    case Failed(applied) => Apply(s, IncrFails(key, limit, applied))
    case Replied =>
      var i := |s.requests|;
      var counted := Apply(s, Incr(key, limit));
      var expired := if counted.requests[i].phase == Expiring then Apply(counted, Expire(i, expireOk)) else counted;
      Apply(expired, Compare(i))
  }

  class OrgRateLimiter {
    /** The store's counters. */
    var counters: map<string, Counter>

    constructor ()
      ensures counters == map[]
    {
      counters := map[];
    }

    /** The store's INCR. */
    method Bump(key: string, now: int) returns (c: Counter)
      modifies this
      ensures c == Bumped(State(now, old(counters), [], multiset{}), key) && counters == old(counters)[key := c]
    {
      var live := key in counters && !(counters[key].expiry.Some? && now >= counters[key].expiry.value);
      c := if live then counters[key].(count := counters[key].count + 1) else Counter(1, None);
      counters := counters[key := c];
    }

    /** The counter goes 35 days from now. */
    ghost predicate OutlastsPeriod(key: string, now: int)
      reads this
    {
      key in counters && counters[key].expiry == Some(now + 35 * 86400)
    }

    /** What the store does at time now: reply is INCR's, and expireOk says whether EXPIRE takes effect.
        A failed INCR fails open, whether or not the store had applied it. */
    method CheckAndIncrement(org: string, tier: string, periodStart: int, now: int, reply: IncrReply, expireOk: bool)
        returns (allowed: bool, current: nat)
      modifies this
      ensures tier != "free" || reply.Failed? ==> allowed
      ensures tier == "free" && reply.Replied? ==> (allowed <==> current <= 10_000)
      ensures reply.Replied? ==> current > 0 && (current == 1 && expireOk ==> OutlastsPeriod(RateKey(org, periodStart), now))
      ensures reply == Failed(false) ==> counters == old(counters)
      ensures var s := State(now, old(counters), [], multiset{});
              var t := Uninterrupted(s, RateKey(org, periodStart), LimitForTier(tier), reply, expireOk);
              && counters == t.counters
              && t.requests == [Request(RateKey(org, periodStart), LimitForTier(tier), current, if allowed then Admitted else Refused)]
    {
      hide RateKey;
      var limit := LimitForTier(tier);
      var key := RateKey(org, periodStart);
      if reply.Failed? {
        if reply.applied { var _ := Bump(key, now); }
        return true, 0;
      }
      var c := Bump(key, now);
      current := c.count;
      assert !Expired(c, now);
      if current == 1 && expireOk {
        counters := counters[key := c.(expiry := Some(now + Days35))];
      }
      allowed := !(limit > 0 && current > limit);
    }
  }
}
