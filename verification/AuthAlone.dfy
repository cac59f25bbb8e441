/** The steps of authentication against the request on its own, and that no request is ever stuck. */
module AuthAlone {
  import opened Wrappers
  import opened KeyLookup
  import opened Auth

  /** The next step of the i-th request. */
  function NextOf(s: State, i: nat): Step
    requires i < |s.requests|
  {
    match At(s, i)
    case Resolving => AskRedis(i)
    case Missed(_) => AskCloud(i)
    case Fetched(_, _) => Verify(i)
    case _ => Store(i, {})
  }

  /** Steps left at most until the request is answered. */
  function StepsLeft(s: State, i: nat): nat
    requires i < |s.requests|
  {
    match At(s, i)
    case Resolving => 4
    case Missed(_) => 3
    case Fetched(_, _) => 2
    case Passed(_, _) => 1
    case Finished(_, _) => 0
  }

  /** What every reachable state keeps of a request's key: only a key of the minted form goes to the backends. */
  predicate CanAsk(s: State, i: nat)
    requires i < |s.requests|
  {
    At(s, i).Resolving? || At(s, i).Missed? ==> ParseAPIKey(s.requests[i].key).Some?
  }

  /** A request that is not answered can always take its next step, whatever the others do; and the step brings
      its answer closer. */
  lemma NoRequestIsStuck(crypto: Crypto, b: Backend, steps: seq<Auth.Step>, keys: set<string>, i: nat)
    requires NoCollision(crypto, keys) && ArrivalsIn(steps, keys) && Exec(crypto, b, steps).Some?
    requires i < |Exec(crypto, b, steps).value.requests| && !At(Exec(crypto, b, steps).value, i).Finished?
    ensures var s := Exec(crypto, b, steps).value;
            && Enabled(s, NextOf(s, i))
            && |Apply(crypto, s, NextOf(s, i)).requests| == |s.requests|
            && StepsLeft(Apply(crypto, s, NextOf(s, i)), i) < StepsLeft(s, i)
  {
    hide Exec, Uncached, Checks, ParseAPIKey, ReadRedis, ReadCloud, Answers;
    InvAlways(crypto, b, steps, keys);
    var s := Exec(crypto, b, steps).value;
    assert s.requests[i] in s.requests && RequestOK(crypto, s.proofs, s.requests[i]);
  }

  /** The request's own steps, one after another, from some phase on. */
  function Alone(crypto: Crypto, s: State, i: nat): State
    requires i < |s.requests| && CanAsk(s, i)
    decreases StepsLeft(s, i)
  {
    if At(s, i).Finished? then s
    else
      Advances(crypto, s, i);
      Alone(crypto, Apply(crypto, s, NextOf(s, i)), i)
  }

  lemma Advances(crypto: Crypto, s: State, i: nat)
    requires i < |s.requests| && CanAsk(s, i) && !At(s, i).Finished?
    ensures Enabled(s, NextOf(s, i))
    ensures var t := Apply(crypto, s, NextOf(s, i)); i < |t.requests| && CanAsk(t, i) && StepsLeft(t, i) < StepsLeft(s, i)
  {
    hide Checks, ParseAPIKey, ReadRedis, ReadCloud, Answers;
  }

  /** In t the i-th request has been answered with r, which was stored if it admits; nothing else is different. */
  ghost predicate Answered(crypto: Crypto, s: State, i: nat, t: State, r: Result)
    requires i < |s.requests|
  {
    && t.requests == s.requests[i := s.requests[i].(phase := Finished(r, s.now))]
    && t.cache == if r.Allowed? then s.cache[crypto.sha(s.requests[i].key) := Cached(r.entry, s.now)] else s.cache
  }

  lemma FromPassed(crypto: Crypto, s: State, i: nat)
    requires i < |s.requests| && At(s, i).Passed?
    ensures Answered(crypto, s, i, Alone(crypto, s, i), Allowed(At(s, i).entry))
  {
    var t := Apply(crypto, s, Store(i, {}));
    Advances(crypto, s, i);
    assert Alone(crypto, s, i) == Alone(crypto, t, i) == t;
    assert s.cache - {} == s.cache;
  }

  lemma FromFetched(crypto: Crypto, s: State, i: nat)
    requires i < |s.requests| && At(s, i).Fetched?
    ensures Answered(crypto, s, i, Alone(crypto, s, i), Checks(crypto, s.requests[i].key, At(s, i).entry))
  {
    hide Checks;
    var t := Apply(crypto, s, Verify(i));
    Advances(crypto, s, i);
    ChecksKeepEntry(crypto, s.requests[i].key, At(s, i).entry);
    assert Alone(crypto, s, i) == Alone(crypto, t, i);
    if At(t, i).Passed? { FromPassed(crypto, t, i); }
  }

  lemma FromMissed(crypto: Crypto, s: State, i: nat)
    requires i < |s.requests| && At(s, i).Missed? && CanAsk(s, i)
    ensures var p := ParseAPIKey(s.requests[i].key).value;
            Answered(crypto, s, i, Alone(crypto, s, i), Answers(crypto, s.requests[i].key, ReadCloud(s.backend.cloud, p.prefix, p.last4)))
  {
    hide Checks, ReadCloud, ParseAPIKey;
    var t := Apply(crypto, s, AskCloud(i));
    Advances(crypto, s, i);
    assert Alone(crypto, s, i) == Alone(crypto, t, i);
    if At(t, i).Fetched? { FromFetched(crypto, t, i); }
  }

  lemma FromResolving(crypto: Crypto, s: State, i: nat)
    requires i < |s.requests| && At(s, i).Resolving? && CanAsk(s, i)
    ensures Answered(crypto, s, i, Alone(crypto, s, i), Uncached(crypto, s.backend, s.requests[i].key))
  {
    hide Checks, ReadRedis, ReadCloud, ParseAPIKey;
    var t := Apply(crypto, s, AskRedis(i));
    Advances(crypto, s, i);
    assert Alone(crypto, s, i) == Alone(crypto, t, i);
    if At(t, i).Fetched? { FromFetched(crypto, t, i); } else { FromMissed(crypto, t, i); }
  }

  /** A request that comes in and takes its steps undisturbed gets what is cached for its key, else what the uncached
      path decides; an uncached admission is stored with its time, and nothing else changes the cache. */
  lemma UndisturbedRequest(crypto: Crypto, s: State, key: string)
    ensures var i := |s.requests|; var arrived := Apply(crypto, s, Arrive(key));
            && i < |arrived.requests| && CanAsk(arrived, i)
            && var t := Alone(crypto, arrived, i);
               match Hit(s.cache, crypto.sha(key), s.now)
               case Some(e) => t == arrived && At(t, i) == Finished(Allowed(e), s.now) && t.cache == s.cache
               case None => Answered(crypto, arrived, i, t, Uncached(crypto, s.backend, key))
  {
    hide Checks, ParseAPIKey, Resolve, Answers, Hit;
    var i, arrived := |s.requests|, Apply(crypto, s, Arrive(key));
    if At(arrived, i).Resolving? { FromResolving(crypto, arrived, i); }
  }
}
