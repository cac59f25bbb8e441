/** auth: the verified-key cache in front of lookup and argon2id, under concurrent requests, a
    changing backend and arbitrary eviction. */
module Auth {
  import opened Wrappers
  import opened KeyLookup

  // ----- the slow path: parse, resolve, verify -----

  /** A payload in the Redis key cache, possibly undecodable. */
  datatype Payload = Decodable(entry: Entry) | Garbage

  datatype Redis = Redis(up: bool, keys: map<string, Payload>)

  datatype Cloud = Cloud(up: bool, keys: map<string, Entry>)

  datatype Backend = Backend(redis: Redis, cloud: Cloud)

  datatype Resolution = Found(entry: Entry) | NotFound | Unavailable

  /** The first read. A transport error, a miss and a bad payload are all no answer. */
  function ReadRedis(r: Redis, prefix: string, last4: string): Option<Entry> {
    var key := "veto:key:" + prefix + last4;
    if r.up && key in r.keys && r.keys[key].Decodable? then Some(r.keys[key].entry) else None
  }

  /** The second read, when the first gave no answer. */
  function ReadCloud(c: Cloud, prefix: string, last4: string): Resolution {
    if !c.up then Unavailable
    else if prefix + last4 in c.keys then Found(c.keys[prefix + last4])
    else NotFound
  }

  function Resolve(b: Backend, prefix: string, last4: string): Resolution {
    match ReadRedis(b.redis, prefix, last4)
    case Some(e) => Found(e)
    case None => ReadCloud(b.cloud, prefix, last4)
  }

  type Digest = string

  /** SHA-256 and argon2id, about which nothing is assumed here. */
  datatype Crypto = Crypto(argon: Argon, sha: string -> Digest)

  datatype Result = Allowed(entry: Entry) | Unauthorized | BackendUnavailable | CheckFailed

  function Checks(crypto: Crypto, key: string, e: Entry): Result {
    match ArgonVerify(crypto.argon, key, e.hashArgon2id)
    case Refused(_) => CheckFailed
    case Checked(ok) => if ok then Allowed(e) else Unauthorized
  }

  function Answers(crypto: Crypto, key: string, r: Resolution): Result {
    match r
    case NotFound => Unauthorized
    case Unavailable => BackendUnavailable
    case Found(e) => Checks(crypto, key, e)
  }

  /** What auth decides without any cache. */
  function Uncached(crypto: Crypto, b: Backend, key: string): Result {
    match ParseAPIKey(key)
    case None => Unauthorized
    case Some(p) => Answers(crypto, key, Resolve(b, p.prefix, p.last4))
  }

  /** The uncached path, one answer after another. */
  lemma UncachedSteps(crypto: Crypto, b: Backend, key: string)
    ensures ParseAPIKey(key).None? ==> Uncached(crypto, b, key) == Unauthorized
    ensures ParseAPIKey(key).Some? ==>
              var p := ParseAPIKey(key).value; Uncached(crypto, b, key) == Answers(crypto, key, Resolve(b, p.prefix, p.last4))
  {}

  // ----- and what it comes to -----

  /** What both backends file a key under: the live prefix and its last four characters. */
  function Slot(key: string): string
    requires |key| == 60
  {
    "vt_live_" + key[56..]
  }

  /** Redis answers for the key with this entry. */
  ghost predicate RedisAnswers(r: Redis, key: string, e: Entry)
    requires |key| == 60
  {
    var slot := "veto:key:" + Slot(key); r.up && slot in r.keys && r.keys[slot] == Decodable(e)
  }

  /** Redis's entry if it has a readable one, else the cloud's. */
  ghost predicate FiledUnder(b: Backend, key: string, e: Entry)
    requires |key| == 60
  {
    || RedisAnswers(b.redis, key, e)
    || ((forall x :: !RedisAnswers(b.redis, key, x)) && b.cloud.up && Slot(key) in b.cloud.keys && b.cloud.keys[Slot(key)] == e)
  }

  /** A key of another form than the minted one is refused without a look at any backend; one that is filed is
      allowed iff it verifies against the entry's hash, and the answer says if the hash could not be read; a key that is
      not filed is refused, unless the cloud had to be asked and could not. */
  lemma UncachedMeans(crypto: Crypto, b: Backend, key: string)
    ensures |key| != 60 || !("vt_live_" <= key) ==> Uncached(crypto, b, key) == Unauthorized
    ensures |key| == 60 && "vt_live_" <= key ==>
              && (forall e | FiledUnder(b, key, e) ::
                    Uncached(crypto, b, key) == match ArgonVerify(crypto.argon, key, e.hashArgon2id)
                                                case Refused(_) => CheckFailed
                                                case Checked(ok) => if ok then Allowed(e) else Unauthorized)
              && ((forall e :: !FiledUnder(b, key, e)) ==>
                    Uncached(crypto, b, key) == if b.cloud.up then Unauthorized else BackendUnavailable)
  {
    hide ArgonVerify;
    if |key| == 60 && "vt_live_" <= key {
      var slot := "veto:key:" + Slot(key);
      assert "veto:key:" + "vt_live_" + key[56..] == slot;
      RedisAnswersIff(b.redis, key);
      match ReadRedis(b.redis, "vt_live_", key[56..]) {
        case Some(e) => assert FiledUnder(b, key, e);
        case None => if b.cloud.up && Slot(key) in b.cloud.keys { assert FiledUnder(b, key, b.cloud.keys[Slot(key)]); }
      }
    }
  }

  lemma RedisAnswersIff(r: Redis, key: string)
    requires |key| == 60
    ensures forall e :: RedisAnswers(r, key, e) <==> ReadRedis(r, "vt_live_", key[56..]) == Some(e)
  {
    assert "veto:key:" + "vt_live_" + key[56..] == "veto:key:" + Slot(key);
  }

  // ----- the cache object, and one request on its own -----

  const CacheSize: nat := 1024
  const CacheTTL: int := 60

  datatype Cached = Cached(entry: Entry, putAt: int)

  predicate Fresh(c: Cached, now: int) { now <= c.putAt + CacheTTL }

  function Hit(cache: map<Digest, Cached>, d: Digest, now: int): Option<Entry> {
    if d in cache && Fresh(cache[d], now) then Some(cache[d].entry) else None
  }

  /** after is before with d stored, and possibly some other keys dropped. */
  ghost predicate Stored(before: map<Digest, Cached>, after: map<Digest, Cached>, d: Digest, c: Cached) {
    && d in after && after[d] == c
    && (forall k <- after | k != d :: k in before && after[k] == before[k])
    && (|before| <= CacheSize ==> |after| <= CacheSize)
  }

  class VerifiedCache {
    var entries: map<Digest, Cached>

    constructor ()
      ensures entries == map[]
    {
      entries := map[];
    }

    method Get(sha: string -> Digest, plaintext: string, now: int) returns (r: Option<Entry>)
      ensures r == Hit(entries, sha(plaintext), now)
      ensures r.Some? <==> sha(plaintext) in entries && now - entries[sha(plaintext)].putAt <= 60
    {
      var d := sha(plaintext);
      if d in entries && now <= entries[d].putAt + CacheTTL { return Some(entries[d].entry); }
      return None;
    }

    /** On overflow some other entry goes; which one is the LRU's business. */
    method Put(sha: string -> Digest, plaintext: string, e: Entry, now: int)
      modifies this
      ensures Stored(old(entries), entries, sha(plaintext), Cached(e, now))
      ensures old(|entries|) <= 1024 ==> |entries| <= 1024
    {
      var d := sha(plaintext);
      var rest := entries - {d};
      if |rest| >= CacheSize {
        var k :| k in rest;
        DropOne(rest, k);
        rest := rest - {k};
      }
      KeysDropped(entries, d);
      OneMore(rest, d, Cached(e, now));
      entries := rest[d := Cached(e, now)];
    }
  }

  lemma DropOne<K, V>(m: map<K, V>, k: K)
    requires k in m
    ensures |m - {k}| == |m| - 1
  {
    assert (m - {k}).Keys == m.Keys - {k};
  }

  lemma KeysDropped<K, V>(m: map<K, V>, k: K)
    ensures |m - {k}| <= |m|
  {
    if k in m { DropOne(m, k); } else { assert m - {k} == m; }
  }

  lemma OneMore<K, V>(m: map<K, V>, k: K, v: V)
    requires k !in m
    ensures |m[k := v]| == |m| + 1
  {
    assert m[k := v].Keys == m.Keys + {k};
  }

  function TrimPrefix(s: string, prefix: string): string { if prefix <= s then s[|prefix|..] else s }

  /** The key a request presents: the dedicated header if it has one; else the bearer token, or an authorization
      without that prefix as it stands. */
  ghost predicate Presents(xVetoKey: string, authorization: string, key: string) {
    if xVetoKey != "" then key == xVetoKey
    else authorization == "Bearer " + key || (!("Bearer " <= authorization) && key == authorization)
  }

  lemma OneKeyIsPresented(xVetoKey: string, authorization: string)
    ensures exists key :: Presents(xVetoKey, authorization, key)
    ensures forall k, l | Presents(xVetoKey, authorization, k) && Presents(xVetoKey, authorization, l) :: k == l
  {
    var bearer := "Bearer ";
    if xVetoKey != "" {
      assert Presents(xVetoKey, authorization, xVetoKey);
    } else if bearer <= authorization {
      assert authorization == bearer + authorization[|bearer|..];
      assert Presents(xVetoKey, authorization, authorization[|bearer|..]);
      forall k | Presents(xVetoKey, authorization, k) ensures k == authorization[|bearer|..] { assert (bearer + k)[|bearer|..] == k; }
    } else {
      assert Presents(xVetoKey, authorization, authorization);
      forall k ensures bearer <= bearer + k {}
    }
  }

  /** The answer to a key, and the cache before and after. A table of static keys, when there is one, is all that counts. */
  ghost predicate Decides(crypto: Crypto, backend: Backend, staticKeys: map<string, Entry>, key: string, now: int,
                          before: map<Digest, Cached>, after: map<Digest, Cached>, r: Result) {
    if |staticKeys| > 0 then
      r == (if key in staticKeys then Allowed(staticKeys[key]) else Unauthorized) && after == before
    else
      match Hit(before, crypto.sha(key), now)
      case Some(e) => r == Allowed(e) && after == before
      case None =>
        && r == Uncached(crypto, backend, key)
        && if r.Allowed? then Stored(before, after, crypto.sha(key), Cached(r.entry, now)) else after == before
  }

  lemma TrimmedIsPresented(authorization: string, key: string)
    requires Presents("", authorization, key)
    ensures TrimPrefix(authorization, "Bearer ") == key
  {
    assert ("Bearer " + key)[|"Bearer "|..] == key;
  }

  /** One request, uninterrupted, is answered as the key it presents is. */
  method Authenticate(verified: VerifiedCache, crypto: Crypto, backend: Backend, staticKeys: map<string, Entry>,
                      xVetoKey: string, authorization: string, now: int)
      returns (r: Result)
    modifies verified
    ensures forall key | Presents(xVetoKey, authorization, key) ::
              Decides(crypto, backend, staticKeys, key, now, old(verified.entries), verified.entries, r)
  {
    hide Uncached, Stored;
    var key := xVetoKey;
    if key == "" { key := TrimPrefix(authorization, "Bearer "); }
    forall k | Presents(xVetoKey, authorization, k) ensures k == key {
      if xVetoKey == "" { TrimmedIsPresented(authorization, k); }
    }
    UncachedSteps(crypto, backend, key);
    if |staticKeys| > 0 {
      return if key in staticKeys then Allowed(staticKeys[key]) else Unauthorized;
    }
    var hit := verified.Get(crypto.sha, key, now);
    if hit.Some? { return Allowed(hit.value); }
    var parsed := ParseAPIKey(key);
    if parsed.None? { return Unauthorized; }
    var found := Resolve(backend, parsed.value.prefix, parsed.value.last4);
    if found.NotFound? { return Unauthorized; }
    if found.Unavailable? { return BackendUnavailable; }
    match ArgonVerify(crypto.argon, key, found.entry.hashArgon2id)
    case Refused(_) => return CheckFailed;
    case Checked(ok) =>
      if !ok { return Unauthorized; }
      verified.Put(crypto.sha, key, found.entry, now);
      return Allowed(found.entry);
  }

  // ----- many requests at once -----

  /** What a Put rests on. The backend is Redis as its request read it and the cloud as it stood when the
      request was done reading: two moments, between which either may have changed. The request came in with
      step arrived and stored its entry with step stored, at time putAt. */
  datatype Proof = Proof(key: string, entry: Entry, backend: Backend, putAt: int, arrived: nat, stored: nat)

  datatype Phase =
    | Resolving
    | Missed(redis: Redis)
    | Fetched(entry: Entry, backend: Backend)
    | Passed(entry: Entry, backend: Backend)
    | Finished(result: Result, at: int)

  /** arrived is the number of the step it came in with. */
  datatype Request = Request(key: string, phase: Phase, arrived: nat)

  /** count is the number of steps so far. */
  datatype State = State(now: int, backend: Backend, cache: map<Digest, Cached>, requests: seq<Request>, proofs: seq<Proof>, count: nat)

  function Start(b: Backend): State { State(0, b, map[], [], [], 0) }

  datatype Step =
    | Advance(to: int)
    | ChangeRedis(redis: Redis)
    | ChangeCloud(cloud: Cloud)
    | Evict(digests: set<Digest>)
    | Arrive(key: string)
    | AskRedis(id: nat)
    | AskCloud(id: nat)
    | Verify(id: nat)
    | Store(id: nat, dropped: set<Digest>)

  function At(s: State, i: nat): Phase
    requires i < |s.requests|
  {
    s.requests[i].phase
  }

  predicate Enabled(s: State, step: Step) {
    match step
    case Advance(t) => t >= s.now
    case AskRedis(i) => i < |s.requests| && At(s, i).Resolving? && ParseAPIKey(s.requests[i].key).Some?
    case AskCloud(i) => i < |s.requests| && At(s, i).Missed? && ParseAPIKey(s.requests[i].key).Some?
    case Verify(i) => i < |s.requests| && At(s, i).Fetched?
    case Store(i, _) => i < |s.requests| && At(s, i).Passed?
    case _ => true
  }

  function Moved(s: State, i: nat, phase: Phase): State
    requires i < |s.requests|
  {
    s.(requests := s.requests[i := s.requests[i].(phase := phase)])
  }

  /** Where a request goes right after the cache: a hit ends it, so does a malformed key. */
  function FirstPhase(crypto: Crypto, s: State, key: string): Phase {
    match Hit(s.cache, crypto.sha(key), s.now)
    case Some(e) => Finished(Allowed(e), s.now)
    case None => if ParseAPIKey(key).None? then Finished(Unauthorized, s.now) else Resolving
  }

  function AfterRedis(s: State, key: string): Phase
    requires ParseAPIKey(key).Some?
  {
    var p := ParseAPIKey(key).value;
    match ReadRedis(s.backend.redis, p.prefix, p.last4)
    case Some(e) => Fetched(e, s.backend)
    case None => Missed(s.backend.redis)
  }

  function AfterCloud(crypto: Crypto, s: State, key: string, redis: Redis): Phase
    requires ParseAPIKey(key).Some?
  {
    var p := ParseAPIKey(key).value;
    var r := ReadCloud(s.backend.cloud, p.prefix, p.last4);
    if r.Found? then Fetched(r.entry, Backend(redis, s.backend.cloud)) else Finished(Answers(crypto, key, r), s.now)
  }

  function Apply(crypto: Crypto, s: State, step: Step): State
    requires Enabled(s, step)
  {
    match step
    case Advance(t) => s.(now := t)
    case ChangeRedis(r) => s.(backend := Backend(r, s.backend.cloud))
    case ChangeCloud(c) => s.(backend := Backend(s.backend.redis, c))
    case Evict(ds) => s.(cache := s.cache - ds)
    case Arrive(key) => s.(requests := s.requests + [Request(key, FirstPhase(crypto, s, key), s.count)])
    case AskRedis(i) => Moved(s, i, AfterRedis(s, s.requests[i].key))
    case AskCloud(i) => Moved(s, i, AfterCloud(crypto, s, s.requests[i].key, At(s, i).redis))
    case Verify(i) =>
      var phase := At(s, i);
      var r := Checks(crypto, s.requests[i].key, phase.entry);
      Moved(s, i, if r.Allowed? then Passed(phase.entry, phase.backend) else Finished(r, s.now))
    case Store(i, dropped) =>
      var key, phase := s.requests[i].key, At(s, i);
      Moved(s, i, Finished(Allowed(phase.entry), s.now))
        .(cache := (s.cache - dropped)[crypto.sha(key) := Cached(phase.entry, s.now)],
          proofs := s.proofs + [Proof(key, phase.entry, phase.backend, s.now, s.requests[i].arrived, s.count)])
  }

  function Exec(crypto: Crypto, b: Backend, steps: seq<Step>): Option<State> {
    if steps == [] then Some(Start(b))
    else
      match Exec(crypto, b, steps[..|steps| - 1])
      case None => None
      case Some(s) => if Enabled(s, steps[|steps| - 1]) then Some(Apply(crypto, s, steps[|steps| - 1]).(count := |steps|)) else None
  }

  // ----- what every reachable state keeps -----

  /** The presented keys do not collide under SHA-256. */
  ghost predicate NoCollision(crypto: Crypto, keys: set<string>) {
    forall x <- keys, y <- keys | crypto.sha(x) == crypto.sha(y) :: x == y
  }

  ghost predicate ArrivalsIn(steps: seq<Step>, keys: set<string>) {
    forall i | 0 <= i < |steps| && steps[i].Arrive? :: steps[i].key in keys
  }

  /** The uncached path admitted this key with this entry on the proof's backend. */
  ghost predicate Holds(crypto: Crypto, p: Proof) { Uncached(crypto, p.backend, p.key) == Allowed(p.entry) }

  /** A proof for this key and entry whose Put is at most the TTL older than the admission. */
  ghost predicate Supports(crypto: Crypto, p: Proof, key: string, e: Entry, at: int) {
    Holds(crypto, p) && p.key == key && p.entry == e && p.putAt <= at <= p.putAt + CacheTTL
  }

  /** Redis, as it was read, had no answer for the key. */
  predicate Misses(redis: Redis, key: string) {
    ParseAPIKey(key).Some? ==> ReadRedis(redis, ParseAPIKey(key).value.prefix, ParseAPIKey(key).value.last4).None?
  }

  ghost predicate RequestOK(crypto: Crypto, proofs: seq<Proof>, r: Request) {
    match r.phase
    case Resolving => ParseAPIKey(r.key).Some?
    case Missed(redis) => ParseAPIKey(r.key).Some? && Misses(redis, r.key)
    case Fetched(e, b) => ParseAPIKey(r.key).Some? && Uncached(crypto, b, r.key) == Checks(crypto, r.key, e)
    case Passed(e, b) => Uncached(crypto, b, r.key) == Allowed(e)
    case Finished(Allowed(e), at) => exists p <- proofs :: Supports(crypto, p, r.key, e, at)
    case Finished(_, _) => true
  }

  ghost predicate CacheOK(crypto: Crypto, s: State) {
    forall d <- s.cache :: exists p <- s.proofs :: Backs(crypto, p, d, s.cache[d])
  }

  ghost predicate Backs(crypto: Crypto, p: Proof, d: Digest, c: Cached) {
    crypto.sha(p.key) == d && p.entry == c.entry && p.putAt == c.putAt
  }

  ghost predicate Inv(crypto: Crypto, s: State, keys: set<string>) {
    && (forall p <- s.proofs :: Holds(crypto, p) && p.key in keys && p.putAt <= s.now)
    && (forall r <- s.requests :: r.key in keys && RequestOK(crypto, s.proofs, r))
    && CacheOK(crypto, s)
  }

  lemma MoreProofs(crypto: Crypto, proofs: seq<Proof>, q: Proof, r: Request)
    requires RequestOK(crypto, proofs, r)
    ensures RequestOK(crypto, proofs + [q], r)
  {
    hide Uncached, Checks, Supports;
    if r.phase.Finished? && r.phase.result.Allowed? {
      var p :| p in proofs && Supports(crypto, p, r.key, r.phase.result.entry, r.phase.at);
      assert p in proofs + [q];
    }
  }

  lemma ArrivalIsOK(crypto: Crypto, s: State, keys: set<string>, key: string)
    requires Inv(crypto, s, keys) && NoCollision(crypto, keys) && key in keys
    ensures RequestOK(crypto, s.proofs, Request(key, FirstPhase(crypto, s, key), s.count))
  {
    hide Uncached, Holds, ParseAPIKey;
    var d := crypto.sha(key);
    if Hit(s.cache, d, s.now).Some? {
      var p :| p in s.proofs && Backs(crypto, p, d, s.cache[d]);
      assert Supports(crypto, p, key, s.cache[d].entry, s.now);
    }
  }

  /** One request moves on; the others and the cache stay. */
  lemma MoveKeepsInv(crypto: Crypto, s: State, keys: set<string>, i: nat, phase: Phase)
    requires Inv(crypto, s, keys) && i < |s.requests|
    requires RequestOK(crypto, s.proofs, s.requests[i].(phase := phase))
    ensures Inv(crypto, Moved(s, i, phase), keys)
  {
    hide RequestOK, Holds, Backs;
    var t := Moved(s, i, phase);
    forall r <- t.requests ensures r.key in keys && RequestOK(crypto, t.proofs, r) {
      assert r == s.requests[i].(phase := phase) || r in s.requests;
    }
  }

  lemma RedisIsOK(crypto: Crypto, s: State, proofs: seq<Proof>, r: Request)
    requires ParseAPIKey(r.key).Some?
    ensures RequestOK(crypto, proofs, r.(phase := AfterRedis(s, r.key)))
  {
    hide Checks, ReadRedis;
  }

  lemma CloudIsOK(crypto: Crypto, s: State, proofs: seq<Proof>, r: Request, redis: Redis)
    requires ParseAPIKey(r.key).Some? && Misses(redis, r.key)
    ensures RequestOK(crypto, proofs, r.(phase := AfterCloud(crypto, s, r.key, redis)))
  {
    hide Checks, ReadRedis, ReadCloud;
  }

  lemma ChecksKeepEntry(crypto: Crypto, key: string, e: Entry)
    ensures Checks(crypto, key, e).Allowed? ==> Checks(crypto, key, e) == Allowed(e)
  {}

  lemma StoreKeepsInv(crypto: Crypto, s: State, keys: set<string>, i: nat, dropped: set<Digest>)
    requires Inv(crypto, s, keys) && Enabled(s, Store(i, dropped))
    ensures Inv(crypto, Apply(crypto, s, Store(i, dropped)), keys)
  {
    hide Uncached, ParseAPIKey;
    var key, phase := s.requests[i].key, At(s, i);
    var q := Proof(key, phase.entry, phase.backend, s.now, s.requests[i].arrived, s.count);
    var t := Apply(crypto, s, Store(i, dropped));
    assert s.requests[i] in s.requests;
    assert RequestOK(crypto, s.proofs, s.requests[i]);
    assert q in t.proofs && Holds(crypto, q) && Supports(crypto, q, key, phase.entry, s.now);
    forall r <- t.requests ensures r.key in keys && RequestOK(crypto, t.proofs, r) {
      if r in s.requests { MoreProofs(crypto, s.proofs, q, r); } else { assert r == t.requests[i]; }
    }
    StoreKeepsCache(crypto, s, t, dropped, q);
  }

  lemma StoreKeepsCache(crypto: Crypto, s: State, t: State, dropped: set<Digest>, q: Proof)
    requires CacheOK(crypto, s) && t.proofs == s.proofs + [q]
    requires t.cache == (s.cache - dropped)[crypto.sha(q.key) := Cached(q.entry, q.putAt)]
    ensures CacheOK(crypto, t)
  {
    forall d <- t.cache ensures exists p <- t.proofs :: Backs(crypto, p, d, t.cache[d]) {
      if d == crypto.sha(q.key) {
        assert q in t.proofs && Backs(crypto, q, d, t.cache[d]);
      } else {
        var p :| p in s.proofs && Backs(crypto, p, d, s.cache[d]);
        assert p in t.proofs;
      }
    }
  }

  lemma StepKeepsInv(crypto: Crypto, s: State, step: Step, keys: set<string>)
    requires Inv(crypto, s, keys) && NoCollision(crypto, keys) && Enabled(s, step)
    requires step.Arrive? ==> step.key in keys
    ensures Inv(crypto, Apply(crypto, s, step), keys)
  {
    hide Uncached, ParseAPIKey, Checks, Resolve, Answers, Holds, Backs, Supports, NoCollision, FirstPhase, AfterRedis, AfterCloud, Misses;
    match step
    case Arrive(key) => ArrivalIsOK(crypto, s, keys, key);
    case AskRedis(i) =>
      var key := s.requests[i].key;
      RedisIsOK(crypto, s, s.proofs, s.requests[i]);
      MoveKeepsInv(crypto, s, keys, i, AfterRedis(s, key));
    case AskCloud(i) =>
      var key := s.requests[i].key;
      assert s.requests[i] in s.requests;
      CloudIsOK(crypto, s, s.proofs, s.requests[i], At(s, i).redis);
      MoveKeepsInv(crypto, s, keys, i, AfterCloud(crypto, s, key, At(s, i).redis));
    case Verify(i) =>
      var phase, key := At(s, i), s.requests[i].key;
      var r := Checks(crypto, key, phase.entry);
      ChecksKeepEntry(crypto, key, phase.entry);
      assert s.requests[i] in s.requests;
      MoveKeepsInv(crypto, s, keys, i, if r.Allowed? then Passed(phase.entry, phase.backend) else Finished(r, s.now));
    case Store(i, dropped) => StoreKeepsInv(crypto, s, keys, i, dropped);
    case _ =>
  }

  lemma CountIsNoMatter(crypto: Crypto, s: State, keys: set<string>, count: nat)
    requires Inv(crypto, s, keys)
    ensures Inv(crypto, s.(count := count), keys)
  {
    hide RequestOK, Holds, Backs;
  }

  lemma {:induction false} InvAlways(crypto: Crypto, b: Backend, steps: seq<Step>, keys: set<string>)
    requires NoCollision(crypto, keys) && ArrivalsIn(steps, keys) && Exec(crypto, b, steps).Some?
    ensures Inv(crypto, Exec(crypto, b, steps).value, keys)
    decreases |steps|
  {
    if steps != [] {
      hide Apply, Enabled, NoCollision;
      var n := |steps| - 1;
      InvAlways(crypto, b, steps[..n], keys);
      var s := Exec(crypto, b, steps[..n]).value;
      StepKeepsInv(crypto, s, steps[n], keys);
      CountIsNoMatter(crypto, Apply(crypto, s, steps[n]), keys, |steps|);
    }
  }

  /** If the backend is still what it was when the cached entry was resolved, the uncached path admits the key with that very entry:
      a last4 collision never swaps entries. */
  lemma CacheAgreesWithSlowPath(crypto: Crypto, b: Backend, steps: seq<Step>, keys: set<string>, key: string)
    requires NoCollision(crypto, keys) && ArrivalsIn(steps, keys) && Exec(crypto, b, steps).Some? && key in keys
    requires var s := Exec(crypto, b, steps).value;
             var d := crypto.sha(key);
             && Hit(s.cache, d, s.now).Some?
             && forall p <- s.proofs | p.key == key && p.putAt == s.cache[d].putAt :: p.backend == s.backend
    ensures var s := Exec(crypto, b, steps).value;
            Uncached(crypto, s.backend, key) == Allowed(Hit(s.cache, crypto.sha(key), s.now).value)
  {
    hide Exec, Uncached;
    InvAlways(crypto, b, steps, keys);
    var s := Exec(crypto, b, steps).value;
    var d := crypto.sha(key);
    var p :| p in s.proofs && Backs(crypto, p, d, s.cache[d]);
    assert Holds(crypto, p) && p.key == key;
  }
}
