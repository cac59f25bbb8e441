/** The cap without the 35-day window: it holds for each lifetime of the counter, and n times 35 days hold n lifetimes. */
module OrgCapLifetimes {
  import opened Wrappers
  import opened OrgRateLimit

  // ----- at most the cap in each lifetime -----

  /** The store applied an INCR on the key. */
  predicate Counts(step: Step, key: string) {
    (step.Incr? && step.key == key) || (step.IncrFails? && step.key == key && step.applied)
  }

  /** How often the counter was created: an INCR found no live key. */
  ghost function Lifetimes(steps: seq<Step>, key: string): nat
    requires Exec(steps).Some?
  {
    if steps == [] then 0
    else
      var n := |steps| - 1;
      var s := Exec(steps[..n]).value;
      Lifetimes(steps[..n], key) + if Counts(steps[n], key) && Live(s, key).count == 0 then 1 else 0
  }

  /** A request whose number lets it through, decided or not. */
  predicate Passing(r: Request, key: string, cap: nat) { Backed(r, key) && r.limit == cap && r.count <= cap }

  function CountPassing(rs: seq<Request>, key: string, cap: nat): nat {
    if rs == [] then 0 else CountPassing(rs[..|rs| - 1], key, cap) + if Passing(rs[|rs| - 1], key, cap) then 1 else 0
  }

  lemma PassingSnoc(rs: seq<Request>, r: Request, key: string, cap: nat)
    ensures CountPassing(rs + [r], key, cap) == CountPassing(rs, key, cap) + if Passing(r, key, cap) then 1 else 0
  {
    assert (rs + [r])[..|rs|] == rs;
  }

  lemma {:induction false} PassingUpdate(rs: seq<Request>, i: nat, r: Request, key: string, cap: nat)
    requires i < |rs| && r.key == rs[i].key && r.count == rs[i].count && r.limit == rs[i].limit
    ensures CountPassing(rs[i := r], key, cap) == CountPassing(rs, key, cap)
    decreases |rs|
  {
    var n := |rs| - 1;
    if i < n {
      assert rs[i := r][..n] == rs[..n][i := r];
      PassingUpdate(rs[..n], i, r, key, cap);
    } else {
      assert rs[i := r][..n] == rs[..n];
    }
  }

  ghost predicate AllSound(rs: seq<Request>) { forall r <- rs :: Sound(r) }

  lemma {:induction false} AdmittedPass(rs: seq<Request>, key: string, cap: nat)
    requires AllSound(rs) && cap > 0
    ensures CountAdmitted(rs, key, cap) <= CountPassing(rs, key, cap)
  {
    if rs != [] {
      AdmittedPass(rs[..|rs| - 1], key, cap);
      assert rs[|rs| - 1] in rs;
    }
  }

  /** All lifetimes but the running one have let through at most the cap each; the running one no more
      than it has counted. */
  ghost predicate Shared(s: State, key: string, cap: nat, lives: nat) {
    && AllSound(s.requests)
    && (key in s.counters <==> lives > 0)
    && (key in s.counters ==> s.counters[key].count > 0)
    && CountPassing(s.requests, key, cap) <= if lives == 0 then 0 else cap * (lives - 1) + Min(cap, s.counters[key].count)
  }

  lemma CountedShare(s: State, key: string, cap: nat, lives: nat, r: Request)
    requires Shared(s, key, cap, lives)
    requires Backed(r, key) ==> r.count == Bumped(s, key).count
    ensures var n := Bumped(s, key).count; var after := if n == 1 then lives + 1 else lives;
            && after > 0
            && CountPassing(s.requests + [r], key, cap) <= cap * (after - 1) + Min(cap, n)
  {
    hide CountPassing, AllSound;
    PassingSnoc(s.requests, r, key, cap);
    if Live(s, key).count == 0 && lives > 0 { assert cap * lives == cap * (lives - 1) + cap; }
  }

  lemma StepKeepsShares(s: State, step: Step, key: string, cap: nat, lives: nat)
    requires Shared(s, key, cap, lives) && Enabled(s, step)
    ensures Shared(Apply(s, step), key, cap, lives + if Counts(step, key) && Live(s, key).count == 0 then 1 else 0)
  {
    hide CountPassing;
    var t := Apply(s, step);
    match step
    case Advance(_) =>
    case Incr(k, limit) =>
      var r := t.requests[|s.requests|];
      assert t.requests == s.requests + [r];
      PassingSnoc(s.requests, r, key, cap);
      if k == key { CountedShare(s, key, cap, lives, r); }
    case IncrFails(k, limit, applied) =>
      var r := Request(k, limit, 0, Admitted);
      PassingSnoc(s.requests, r, key, cap);
      if k == key && applied { CountedShare(s, key, cap, lives, r); }
    case Expire(i, _) =>
      assert s.requests[i] in s.requests;
      PassingUpdate(s.requests, i, s.requests[i].(phase := Comparing), key, cap);
    case Compare(i) =>
      assert s.requests[i] in s.requests;
      PassingUpdate(s.requests, i, t.requests[i], key, cap);
  }

  lemma {:induction false} RunsShare(steps: seq<Step>, key: string, cap: nat)
    requires Exec(steps).Some?
    ensures Shared(Exec(steps).value, key, cap, Lifetimes(steps, key))
    decreases |steps|
  {
    if steps != [] {
      hide Apply, Enabled, Shared;
      var n := |steps| - 1;
      RunsShare(steps[..n], key, cap);
      StepKeepsShares(Exec(steps[..n]).value, steps[n], key, cap, Lifetimes(steps[..n], key));
    }
  }

  /** With no assumption about time: at most the cap are admitted for each lifetime of the counter. */
  lemma CapPerLifetime(steps: seq<Step>, key: string, cap: nat)
    requires Exec(steps).Some? && cap > 0
    ensures CountAdmitted(Exec(steps).value.requests, key, cap) <= cap * Lifetimes(steps, key)
  {
    hide Exec, Lifetimes;
    RunsShare(steps, key, cap);
    AdmittedPass(Exec(steps).value.requests, key, cap);
    var lives := Lifetimes(steps, key);
    if lives > 0 { assert cap * lives == cap * (lives - 1) + cap; }
  }

  // ----- how many lifetimes a window has room for -----

  /** The lives-th lifetime began no earlier than lives - 1 times 35 days into the window, and lasts 35 days. */
  ghost predicate Spaced(s: State, key: string, period: int, lives: nat) {
    && (key in s.counters <==> lives > 0)
    && (key in s.counters ==> s.counters[key].count > 0)
    && (lives > 0 ==> s.now >= period + (lives - 1) * Days35)
    && (lives > 0 && s.counters[key].expiry.Some? ==> s.counters[key].expiry.value >= period + lives * Days35)
  }

  lemma StepKeepsSpacing(s: State, step: Step, key: string, period: int, lives: nat)
    requires Spaced(s, key, period, lives) && Enabled(s, step)
    requires Touches(step, key) ==> period <= s.now
    ensures Spaced(Apply(s, step), key, period, lives + if Counts(step, key) && Live(s, key).count == 0 then 1 else 0)
  {}

  lemma {:induction false} RunsAreSpaced(steps: seq<Step>, key: string, period: int, len: nat)
    requires Exec(steps).Some? && InWindow(steps, key, period, len)
    ensures Spaced(Exec(steps).value, key, period, Lifetimes(steps, key))
    ensures Lifetimes(steps, key) > 0 ==> (Lifetimes(steps, key) - 1) * Days35 < len
    decreases |steps|
  {
    if steps != [] {
      hide Apply, Enabled, Spaced, Live;
      var n := |steps| - 1;
      assert forall i | 0 <= i < n :: steps[..n][..i] == steps[..i];
      RunsAreSpaced(steps[..n], key, period, len);
      var s := Exec(steps[..n]).value;
      assert Touches(steps[n], key) ==> period <= s.now < period + len;
      StepKeepsSpacing(s, steps[n], key, period, Lifetimes(steps[..n], key));
      if Touches(steps[n], key) {
        TouchTakesNoTime(s, steps[n], key);
        LifetimesFit(Exec(steps).value, key, period, len, Lifetimes(steps, key));
      }
    }
  }

  lemma TouchTakesNoTime(s: State, step: Step, key: string)
    requires Enabled(s, step) && Touches(step, key)
    ensures Apply(s, step).now == s.now
  {}

  lemma LifetimesFit(s: State, key: string, period: int, len: nat, lives: nat)
    requires Spaced(s, key, period, lives) && s.now < period + len
    ensures lives > 0 ==> (lives - 1) * Days35 < len
  {}

  /** Within n times 35 days of the period start, at most n times the cap are admitted. */
  lemma CapOverWindow(steps: seq<Step>, key: string, period: int, n: nat, cap: nat)
    requires Exec(steps).Some? && InWindow(steps, key, period, n * Days35) && cap > 0
    ensures CountAdmitted(Exec(steps).value.requests, key, cap) <= n * cap
  {
    hide Exec, InWindow, Lifetimes;
    CapPerLifetime(steps, key, cap);
    RunsAreSpaced(steps, key, period, n * Days35);
    WholeLifetimes(Lifetimes(steps, key), n, cap);
  }

  lemma WholeLifetimes(lives: nat, n: nat, cap: nat)
    requires lives > 0 ==> (lives - 1) * Days35 < n * Days35
    ensures cap * lives <= n * cap
  {
    assert lives <= n;
    assert n * cap == lives * cap + (n - lives) * cap;
  }

  // ----- and that many really fit -----

  lemma ExecSnoc(steps: seq<Step>, step: Step, key: string, period: int, len: nat)
    requires Exec(steps).Some? && Enabled(Exec(steps).value, step) && InWindow(steps, key, period, len)
    requires Touches(step, key) ==> period <= Exec(steps).value.now < period + len
    ensures Exec(steps + [step]) == Some(Apply(Exec(steps).value, step))
    ensures InWindow(steps + [step], key, period, len)
  {
    var more := steps + [step];
    assert more[..|steps|] == steps;
    assert forall i | 0 <= i < |steps| :: more[..i] == steps[..i];
  }

  lemma AdmittedSnoc(rs: seq<Request>, r: Request, key: string, cap: nat)
    ensures CountAdmitted(rs + [r], key, cap)
            == CountAdmitted(rs, key, cap) + if Backed(r, key) && r.limit == cap && r.phase == Admitted then 1 else 0
  {
    assert (rs + [r])[..|rs|] == rs;
  }

  /** One uninterrupted request after these steps. */
  ghost function Round(steps: seq<Step>, key: string, cap: nat): seq<Step> {
    match Exec(steps)
    case None => steps
    case Some(s) =>
      var i := |s.requests|;
      var counted := steps + [Incr(key, cap)];
      (if Live(s, key).count == 0 then counted + [Expire(i, true)] else counted) + [Compare(i)]
  }

  /** What a round leads to while the running lifetime still has room. */
  ghost predicate OneMore(s: State, t: State, key: string, cap: nat) {
    && t.now == s.now
    && key in t.counters && t.counters[key].count == Live(s, key).count + 1
    && t.counters[key].expiry == (if Live(s, key).count == 0 then Some(s.now + Days35) else Live(s, key).expiry)
    && CountAdmitted(t.requests, key, cap) == CountAdmitted(s.requests, key, cap) + 1
  }

  lemma RoundAdmits(steps: seq<Step>, key: string, cap: nat, period: int, len: nat)
    requires Exec(steps).Some? && InWindow(steps, key, period, len)
    requires var s := Exec(steps).value; period <= s.now < period + len && Live(s, key).count < cap
    ensures Exec(Round(steps, key, cap)).Some? && InWindow(Round(steps, key, cap), key, period, len)
    ensures OneMore(Exec(steps).value, Exec(Round(steps, key, cap)).value, key, cap)
  {
    hide Exec, InWindow, CountAdmitted;
    var s := Exec(steps).value;
    var i := |s.requests|;
    ExecSnoc(steps, Incr(key, cap), key, period, len);
    var counted := steps + [Incr(key, cap)];
    if Live(s, key).count == 0 {
      ExecSnoc(counted, Expire(i, true), key, period, len);
      counted := counted + [Expire(i, true)];
    }
    ExecSnoc(counted, Compare(i), key, period, len);
    var r := Request(key, cap, Live(s, key).count + 1, Admitted);
    assert Exec(counted + [Compare(i)]).value.requests == s.requests + [r];
    AdmittedSnoc(s.requests, r, key, cap);
  }

  ghost function Rounds(steps: seq<Step>, key: string, cap: nat, m: nat): seq<Step> {
    if m == 0 then steps else Round(Rounds(steps, key, cap, m - 1), key, cap)
  }

  /** A lifetime used up to m requests. */
  ghost predicate UsedUp(s: State, t: State, key: string, cap: nat, m: nat) {
    && t.now == s.now
    && CountAdmitted(t.requests, key, cap) == CountAdmitted(s.requests, key, cap) + m
    && (if m == 0 then Live(t, key).count == 0
        else key in t.counters && t.counters[key] == Counter(m, Some(s.now + Days35)))
  }

  lemma {:induction false} RoundsAdmit(steps: seq<Step>, key: string, cap: nat, m: nat, period: int, len: nat)
    requires Exec(steps).Some? && InWindow(steps, key, period, len) && m <= cap
    requires var s := Exec(steps).value; period <= s.now < period + len && Live(s, key).count == 0
    ensures Exec(Rounds(steps, key, cap, m)).Some? && InWindow(Rounds(steps, key, cap, m), key, period, len)
    ensures UsedUp(Exec(steps).value, Exec(Rounds(steps, key, cap, m)).value, key, cap, m)
    decreases m
  {
    hide Exec, InWindow, CountAdmitted, Round;
    if m > 0 {
      RoundsAdmit(steps, key, cap, m - 1, period, len);
      RoundAdmits(Rounds(steps, key, cap, m - 1), key, cap, period, len);
    }
  }

  /** g lifetimes in a row, each used up and outlived by 35 days to the second. */
  ghost function Renewed(key: string, cap: nat, g: nat): seq<Step> {
    if g == 0 then [] else Rounds(Renewed(key, cap, g - 1) + [Advance((g - 1) * Days35)], key, cap, cap)
  }

  ghost predicate Outlived(s: State, key: string, cap: nat, g: nat) {
    && CountAdmitted(s.requests, key, cap) == g * cap
    && s.now == (if g == 0 then 0 else (g - 1) * Days35)
    && (if g == 0 then key !in s.counters else key in s.counters && s.counters[key].expiry == Some(g * Days35))
  }

  lemma OnceMore(before: State, start: State, t: State, key: string, cap: nat, g: nat)
    requires cap > 0 && g > 0 && Outlived(before, key, cap, g - 1)
    requires start == before.(now := (g - 1) * Days35) && UsedUp(start, t, key, cap, cap)
    ensures Outlived(t, key, cap, g)
  {
    hide CountAdmitted;
    assert (g - 1) * cap + cap == g * cap;
  }

  lemma ExpiredByThen(before: State, key: string, cap: nat, g: nat)
    requires g > 0 && Outlived(before, key, cap, g - 1)
    ensures before.now <= (g - 1) * Days35 && Live(before.(now := (g - 1) * Days35), key).count == 0
  {}

  lemma AdvanceTo(steps: seq<Step>, now: int, key: string, len: nat)
    requires Exec(steps).Some? && InWindow(steps, key, 0, len) && Exec(steps).value.now <= now
    ensures Exec(steps + [Advance(now)]) == Some(Exec(steps).value.(now := now))
    ensures InWindow(steps + [Advance(now)], key, 0, len)
  {
    hide Exec, InWindow;
    ExecSnoc(steps, Advance(now), key, 0, len);
  }

  lemma NextLife(steps: seq<Step>, key: string, cap: nat, g: nat, len: nat)
    requires cap > 0 && g > 0 && (g - 1) * Days35 < len
    requires Exec(steps).Some? && InWindow(steps, key, 0, len) && Outlived(Exec(steps).value, key, cap, g - 1)
    ensures var more := Rounds(steps + [Advance((g - 1) * Days35)], key, cap, cap);
            Exec(more).Some? && InWindow(more, key, 0, len) && Outlived(Exec(more).value, key, cap, g)
  {
    hide Exec, InWindow, Rounds, Outlived, UsedUp, Live;
    var s, now := Exec(steps).value, (g - 1) * Days35;
    ExpiredByThen(s, key, cap, g);
    AdvanceTo(steps, now, key, len);
    var start := steps + [Advance(now)];
    RoundsAdmit(start, key, cap, cap, 0, len);
    OnceMore(s, Exec(start).value, Exec(Rounds(start, key, cap, cap)).value, key, cap, g);
  }

  lemma {:induction false} RenewedAdmits(key: string, cap: nat, g: nat, len: nat)
    requires cap > 0 && (g > 0 ==> (g - 1) * Days35 < len)
    ensures Exec(Renewed(key, cap, g)).Some? && InWindow(Renewed(key, cap, g), key, 0, len)
    ensures Outlived(Exec(Renewed(key, cap, g)).value, key, cap, g)
    decreases g
  {
    hide Exec, InWindow, Rounds, Outlived;
    if g > 0 {
      RenewedAdmits(key, cap, g - 1, len);
      NextLife(Renewed(key, cap, g - 1), key, cap, g, len);
    } else {
      NothingRun(key, cap, len);
    }
  }

  lemma NothingRun(key: string, cap: nat, len: nat)
    ensures Exec([]).Some? && Outlived(Exec([]).value, key, cap, 0) && InWindow([], key, 0, len)
  {}

  /** n times the cap is what every run within the window keeps to iff the window is at most n times 35
      days long; past it, the counter has expired and the cap starts over under the same key. */
  lemma CapHoldsIffWindow(n: nat, len: nat, cap: nat)
    requires cap > 0
    ensures (forall steps, key, period | Exec(steps).Some? && InWindow(steps, key, period, len) ::
               CountAdmitted(Exec(steps).value.requests, key, cap) <= n * cap)
            <==> len <= n * Days35
  {
    hide Exec, InWindow, CountAdmitted, Renewed;
    if len <= n * Days35 {
      forall steps, key, period | Exec(steps).Some? && InWindow(steps, key, period, len)
        ensures CountAdmitted(Exec(steps).value.requests, key, cap) <= n * cap
      {
        Wider(steps, key, period, len, n * Days35);
        CapOverWindow(steps, key, period, n, cap);
      }
    } else {
      RenewedAdmits("k", cap, n + 1, len);
      assert (n + 1) * cap == n * cap + cap;
    }
  }

  lemma Wider(steps: seq<Step>, key: string, period: int, len: nat, more: nat)
    requires InWindow(steps, key, period, len) && len <= more
    ensures InWindow(steps, key, period, more)
  {}
}
