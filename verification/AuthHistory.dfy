/** What an admission rests on in the run behind it: which reads, when, and how long after a key is revoked. */
module AuthHistory {
  import opened Wrappers
  import opened KeyLookup
  import opened Auth

  ghost function BackendAt(crypto: Crypto, b: Backend, steps: seq<Step>, i: nat): Option<Backend>
    requires i <= |steps|
  {
    match Exec(crypto, b, steps[..i])
    case None => None
    case Some(s) => Some(s.backend)
  }

  /** Redis was like this after some number of steps greater than from. */
  ghost predicate RedisStood(crypto: Crypto, b: Backend, steps: seq<Step>, redis: Redis, from: nat) {
    exists i: nat | from < i <= |steps| :: BackendAt(crypto, b, steps, i).Some? && BackendAt(crypto, b, steps, i).value.redis == redis
  }

  /** Redis was like this at some moment after step from, and the cloud was like that then or later, before step to. */
  ghost predicate Stood(crypto: Crypto, b: Backend, steps: seq<Step>, backend: Backend, from: nat, to: nat) {
    exists i: nat, j: nat | from < i <= j <= to && j <= |steps| ::
      && BackendAt(crypto, b, steps, i).Some? && BackendAt(crypto, b, steps, i).value.redis == backend.redis
      && BackendAt(crypto, b, steps, j).Some? && BackendAt(crypto, b, steps, j).value.cloud == backend.cloud
  }

  ghost predicate RequestStood(crypto: Crypto, b: Backend, steps: seq<Step>, r: Request) {
    && r.arrived < |steps| && steps[r.arrived] == Arrive(r.key)
    && match r.phase
       case Missed(redis) => RedisStood(crypto, b, steps, redis, r.arrived)
       case Fetched(_, be) => Stood(crypto, b, steps, be, r.arrived, |steps|)
       case Passed(_, be) => Stood(crypto, b, steps, be, r.arrived, |steps|)
       case _ => true
  }

  /** The proof's request came in, then read Redis and the cloud, then stored. */
  ghost predicate ProofStood(crypto: Crypto, b: Backend, steps: seq<Step>, p: Proof) {
    && p.arrived < p.stored < |steps| && steps[p.arrived] == Arrive(p.key) && steps[p.stored].Store?
    && Stood(crypto, b, steps, p.backend, p.arrived, p.stored)
  }

  ghost predicate Historic(crypto: Crypto, b: Backend, steps: seq<Step>, s: State) {
    && (forall p <- s.proofs :: ProofStood(crypto, b, steps, p))
    && (forall r <- s.requests :: RequestStood(crypto, b, steps, r))
  }

  lemma StandsLater(crypto: Crypto, b: Backend, steps: seq<Step>, n: nat, backend: Backend, from: nat, to: nat, later: nat)
    requires n <= |steps| && to <= later && Stood(crypto, b, steps[..n], backend, from, to)
    ensures Stood(crypto, b, steps, backend, from, later)
  {
    var i: nat, j: nat :| from < i <= j <= to && j <= n
      && BackendAt(crypto, b, steps[..n], i).Some? && BackendAt(crypto, b, steps[..n], i).value.redis == backend.redis
      && BackendAt(crypto, b, steps[..n], j).Some? && BackendAt(crypto, b, steps[..n], j).value.cloud == backend.cloud;
    assert steps[..n][..i] == steps[..i] && steps[..n][..j] == steps[..j];
    assert BackendAt(crypto, b, steps, i).Some? && BackendAt(crypto, b, steps, j).Some?;
  }

  lemma RedisStandsLater(crypto: Crypto, b: Backend, steps: seq<Step>, n: nat, redis: Redis, from: nat)
    requires n <= |steps| && RedisStood(crypto, b, steps[..n], redis, from)
    ensures RedisStood(crypto, b, steps, redis, from)
  {
    var i: nat :| from < i <= n && BackendAt(crypto, b, steps[..n], i).Some? && BackendAt(crypto, b, steps[..n], i).value.redis == redis;
    assert steps[..n][..i] == steps[..i];
    assert BackendAt(crypto, b, steps, i).Some?;
  }

  lemma RequestStandsLater(crypto: Crypto, b: Backend, steps: seq<Step>, n: nat, r: Request)
    requires n <= |steps| && RequestStood(crypto, b, steps[..n], r)
    ensures RequestStood(crypto, b, steps, r)
  {
    hide Stood, RedisStood;
    match r.phase
    case Missed(redis) => RedisStandsLater(crypto, b, steps, n, redis, r.arrived);
    case Fetched(_, be) => StandsLater(crypto, b, steps, n, be, r.arrived, n, |steps|);
    case Passed(_, be) => StandsLater(crypto, b, steps, n, be, r.arrived, n, |steps|);
    case _ =>
  }

  lemma ProofStandsLater(crypto: Crypto, b: Backend, steps: seq<Step>, n: nat, p: Proof)
    requires n <= |steps| && ProofStood(crypto, b, steps[..n], p)
    ensures ProofStood(crypto, b, steps, p)
  {
    hide Stood;
    StandsLater(crypto, b, steps, n, p.backend, p.arrived, p.stored, p.stored);
  }

  /** What is read now, as the next step, stood; and so does a Redis read earlier together with the cloud of now. */
  lemma StandsNow(crypto: Crypto, b: Backend, steps: seq<Step>, s: State, from: nat)
    requires from < |steps| && Exec(crypto, b, steps) == Some(s)
    ensures RedisStood(crypto, b, steps, s.backend.redis, from) && Stood(crypto, b, steps, s.backend, from, |steps|)
    ensures forall redis | RedisStood(crypto, b, steps, redis, from) :: Stood(crypto, b, steps, Backend(redis, s.backend.cloud), from, |steps|)
  {
    hide Exec;
    assert steps[..|steps|] == steps;
    assert BackendAt(crypto, b, steps, |steps|) == Some(s.backend);
  }

  lemma {:induction false} CountCounts(crypto: Crypto, b: Backend, steps: seq<Step>)
    requires Exec(crypto, b, steps).Some?
    ensures Exec(crypto, b, steps).value.count == |steps|
  {}

  /** The request a step moves on, as it is after the step, seen from before it. */
  lemma MovedStood(crypto: Crypto, b: Backend, steps: seq<Step>, s: State, i: nat, step: Step)
    requires Exec(crypto, b, steps) == Some(s) && Enabled(s, step) && i < |s.requests|
    requires step == AskRedis(i) || step == AskCloud(i) || step == Verify(i) || exists ds :: step == Store(i, ds)
    requires RequestStood(crypto, b, steps, s.requests[i])
    ensures RequestStood(crypto, b, steps, Apply(crypto, s, step).requests[i])
    ensures |Apply(crypto, s, step).requests| == |s.requests|
  {
    hide Exec, Stood, RedisStood, ParseAPIKey, ReadRedis, ReadCloud, Checks, Answers, Hit;
    StandsNow(crypto, b, steps, s, s.requests[i].arrived);
  }

  lemma StepIsHistoric(crypto: Crypto, b: Backend, steps: seq<Step>, n: nat, s: State, step: Step)
    requires |steps| == n + 1 && steps[n] == step && Exec(crypto, b, steps[..n]) == Some(s) && Enabled(s, step) && s.count == n
    requires Historic(crypto, b, steps[..n], s)
    ensures Historic(crypto, b, steps, Apply(crypto, s, step))
  {
    hide Exec, Stood, RedisStood, RequestStood, FirstPhase, AfterRedis, AfterCloud, Checks, Hit, ParseAPIKey;
    var t := Apply(crypto, s, step);
    forall r <- t.requests ensures RequestStood(crypto, b, steps, r) {
      if r in s.requests {
        RequestStandsLater(crypto, b, steps, n, r);
      } else if step.Arrive? {
        ArrivedStood(crypto, b, steps, s, step.key);
      } else {
        assert r == t.requests[step.id] && s.requests[step.id] in s.requests;
        MovedStood(crypto, b, steps[..n], s, step.id, step);
        RequestStandsLater(crypto, b, steps, n, r);
      }
    }
    forall p <- t.proofs ensures ProofStood(crypto, b, steps, p) {
      if p in s.proofs {
        ProofStandsLater(crypto, b, steps, n, p);
      } else {
        assert s.requests[step.id] in s.requests;
        StoredStood(crypto, b, steps, n, s, step.id, p);
      }
    }
  }

  lemma ArrivedStood(crypto: Crypto, b: Backend, steps: seq<Step>, s: State, key: string)
    requires s.count < |steps| && steps[s.count] == Arrive(key)
    ensures RequestStood(crypto, b, steps, Request(key, FirstPhase(crypto, s, key), s.count))
  {
    hide ParseAPIKey, Hit;
  }

  lemma StoredStood(crypto: Crypto, b: Backend, steps: seq<Step>, n: nat, s: State, i: nat, p: Proof)
    requires |steps| == n + 1 && steps[n].Store? && s.count == n && i < |s.requests| && At(s, i).Passed?
    requires RequestStood(crypto, b, steps[..n], s.requests[i])
    requires var r := s.requests[i]; p == Proof(r.key, r.phase.entry, r.phase.backend, s.now, r.arrived, n)
    ensures ProofStood(crypto, b, steps, p)
  {
    hide Stood;
    StandsLater(crypto, b, steps, n, p.backend, p.arrived, n, n);
  }

  lemma {:induction false} RunsAreHistoric(crypto: Crypto, b: Backend, steps: seq<Step>)
    requires Exec(crypto, b, steps).Some?
    ensures Historic(crypto, b, steps, Exec(crypto, b, steps).value)
    decreases |steps|
  {
    if steps != [] {
      hide Apply, Enabled, ProofStood, RequestStood;
      var n := |steps| - 1;
      RunsAreHistoric(crypto, b, steps[..n]);
      CountCounts(crypto, b, steps[..n]);
      StepIsHistoric(crypto, b, steps, n, Exec(crypto, b, steps[..n]).value, steps[n]);
    }
  }

  /** Every admission, cached or not, rests on an uncached admission of the same key with the same entry whose
      Put is at most a minute old, on Redis and then the cloud as they stood between the arrival of the request
      that put it and its Put. */
  lemma AdmissionsAreJustified(crypto: Crypto, b: Backend, steps: seq<Step>, keys: set<string>, i: nat)
    requires NoCollision(crypto, keys) && ArrivalsIn(steps, keys) && Exec(crypto, b, steps).Some?
    requires var s := Exec(crypto, b, steps).value;
             i < |s.requests| && At(s, i).Finished? && At(s, i).result.Allowed?
    ensures var s := Exec(crypto, b, steps).value; var r := s.requests[i];
            exists p <- s.proofs :: Supports(crypto, p, r.key, r.phase.result.entry, r.phase.at) && ProofStood(crypto, b, steps, p)
  {
    hide Exec, Supports, Holds, Backs, ProofStood, RequestStood;
    InvAlways(crypto, b, steps, keys);
    RunsAreHistoric(crypto, b, steps);
    var s := Exec(crypto, b, steps).value;
    assert s.requests[i] in s.requests;
  }

  // ----- revocation -----

  predicate CloudMisses(cloud: Cloud, key: string) {
    ParseAPIKey(key).Some? ==> !ReadCloud(cloud, ParseAPIKey(key).value.prefix, ParseAPIKey(key).value.last4).Found?
  }

  /** From the m-th step on, neither Redis nor the cloud has an answer for the key. */
  ghost predicate GoneSince(crypto: Crypto, b: Backend, steps: seq<Step>, key: string, m: nat) {
    forall i: nat | m <= i <= |steps| && BackendAt(crypto, b, steps, i).Some? ::
      var be := BackendAt(crypto, b, steps, i).value; Misses(be.redis, key) && CloudMisses(be.cloud, key)
  }

  lemma SomethingAnswered(crypto: Crypto, p: Proof)
    requires Holds(crypto, p)
    ensures !(Misses(p.backend.redis, p.key) && CloudMisses(p.backend.cloud, p.key))
  {
    hide Checks, ReadRedis, ReadCloud, ParseAPIKey;
  }

  lemma ReadBefore(crypto: Crypto, b: Backend, steps: seq<Step>, p: Proof, m: nat)
    requires Holds(crypto, p) && ProofStood(crypto, b, steps, p) && GoneSince(crypto, b, steps, p.key, m)
    ensures p.arrived < m
  {
    hide Exec, Holds, Misses, CloudMisses, BackendAt;
    SomethingAnswered(crypto, p);
  }

  /** Once a key is gone from both backends it is admitted only from a Put at most a minute old, by a request
      that had come in before. */
  lemma RevokedKeyRunsOut(crypto: Crypto, b: Backend, steps: seq<Step>, keys: set<string>, i: nat, m: nat)
    requires NoCollision(crypto, keys) && ArrivalsIn(steps, keys) && Exec(crypto, b, steps).Some?
    requires var s := Exec(crypto, b, steps).value;
             i < |s.requests| && At(s, i).Finished? && At(s, i).result.Allowed? && GoneSince(crypto, b, steps, s.requests[i].key, m)
    ensures var s := Exec(crypto, b, steps).value; var r := s.requests[i];
            exists p <- s.proofs :: Supports(crypto, p, r.key, r.phase.result.entry, r.phase.at) && r.phase.at - p.putAt <= 60 && p.arrived < m
  {
    hide Exec, Holds, ProofStood, GoneSince;
    AdmissionsAreJustified(crypto, b, steps, keys, i);
    var s := Exec(crypto, b, steps).value;
    var r := s.requests[i];
    var p :| p in s.proofs && Supports(crypto, p, r.key, r.phase.result.entry, r.phase.at) && ProofStood(crypto, b, steps, p);
    ReadBefore(crypto, b, steps, p, m);
  }

  /** No cached entry and no change of the backend lets a weak hash or a malformed key in: every admission is of a
      well-formed key that argon2id verified, with parameters at the floor or above, against the entry's hash. */
  lemma AdmittedHashesMeetFloor(crypto: Crypto, b: Backend, steps: seq<Step>, keys: set<string>, i: nat)
    requires NoCollision(crypto, keys) && ArrivalsIn(steps, keys) && Exec(crypto, b, steps).Some?
    requires var s := Exec(crypto, b, steps).value;
             i < |s.requests| && At(s, i).Finished? && At(s, i).result.Allowed?
    ensures var r := Exec(crypto, b, steps).value.requests[i];
            && ParseAPIKey(r.key).Some?
            && ArgonVerify(crypto.argon, r.key, r.phase.result.entry.hashArgon2id) == Checked(true)
            && UsableHash(r.phase.result.entry.hashArgon2id)
  {
    hide Exec, ArgonVerify, UsableHash, ParseAPIKey, Resolve;
    AdmissionsAreJustified(crypto, b, steps, keys, i);
    var s := Exec(crypto, b, steps).value;
    var p :| p in s.proofs && Supports(crypto, p, s.requests[i].key, At(s, i).result.entry, At(s, i).at);
    CheckedMeans(crypto.argon, p.key, p.entry.hashArgon2id);
  }
}
