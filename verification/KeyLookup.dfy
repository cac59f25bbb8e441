/** Presented keys and the stored hashes they are verified against. */
module KeyLookup {
  import opened Wrappers
  import opened Strings
  import opened Decimal
  import Base64

  const KeyPrefixLive := "vt_live_"
  const KeyTotalLen: nat := 60
  const Last4Len: nat := 4

  /** The cached key entry shared with the control plane. */
  datatype Entry = Entry(keyID: string, projectID: string, orgID: string, tier: string, hashArgon2id: string, currentPeriodStart: int)

  datatype ParsedKey = ParsedKey(prefix: string, last4: string)

  function ParseAPIKey(k: string): (r: Option<ParsedKey>)
    ensures r.Some? <==> |k| == KeyTotalLen && KeyPrefixLive <= k
  {
    if |k| != KeyTotalLen || !(KeyPrefixLive <= k) then None
    else Some(ParsedKey(KeyPrefixLive, k[|k| - Last4Len..]))
  }

  /** A key as it is minted: the live prefix and a body of 52 characters. */
  ghost predicate IsMinted(k: string, body: string) { |body| == 52 && k == KeyPrefixLive + body }

  /** Parsing inverts minting: the minted forms are accepted, with the prefix and the body's last four
      characters, and nothing else is; so two keys share a lookup slot iff their bodies end alike. */
  lemma ParseInvertsMint(k: string)
    ensures ParseAPIKey(k).Some? <==> exists body :: IsMinted(k, body)
    ensures forall body | IsMinted(k, body) :: ParseAPIKey(k) == Some(ParsedKey(KeyPrefixLive, body[48..]))
    ensures forall l, body, other | IsMinted(k, body) && IsMinted(l, other) ::
              ParseAPIKey(k) == ParseAPIKey(l) <==> body[48..] == other[48..]
  {
    if ParseAPIKey(k).Some? {
      assert k == KeyPrefixLive + k[8..];
      assert IsMinted(k, k[8..]);
    }
    forall l, body | IsMinted(l, body) ensures ParseAPIKey(l) == Some(ParsedKey(KeyPrefixLive, body[48..])) {
      assert l[56..] == body[48..];
    }
  }

  // ----- argon2id hashes in PHC form -----

  const MinMemoryKiB: nat := 64 * 1024
  const MinTime: nat := 1
  const MinThreads: nat := 2

  /** The hash function itself: plaintext, salt, time, memory, threads, key length. */
  datatype Argon = Argon(idKey: (string, seq<Base64.Byte>, nat, nat, nat, nat) -> seq<Base64.Byte>)

  datatype Refusal = InvalidFormat | UnsupportedVersion | BadParams | BelowFloor | BadSalt | BadKey

  datatype Verification = Checked(match_: bool) | Refused(why: Refusal)

  datatype Params = Params(m: nat, t: nat, p: nat)

  /** Blanks that a numeric scan skips; a line break is not one of them. */
  function SkipBlanks(s: string): string {
    if s != "" && IsSpace(s[0]) && s[0] != '\n' then SkipBlanks(s[1..]) else s
  }

  function DigitRun(s: string): (n: nat)
    ensures n <= |s| && AllDigits(s[..n])
  {
    if s != "" && IsDigit(s[0]) then
      var rest := DigitRun(s[1..]);
      assert s[..rest + 1] == [s[0]] + s[1..][..rest];
      rest + 1
    else 0
  }

  datatype Scanned = Scanned(value: nat, rest: string)

  /** One unsigned %d of the given largest value. */
  function ScanUint(s: string, max: nat): Option<Scanned> {
    var t := SkipBlanks(s);
    var n := DigitRun(t);
    if n == 0 || ParseNat(t[..n]) > max then None else Some(Scanned(ParseNat(t[..n]), t[n..]))
  }

  function ScanLiteral(s: string, literal: string): Option<string> {
    if literal <= s then Some(s[|literal|..]) else None
  }

  const MaxUint32: nat := 0xFFFF_FFFF
  const MaxUint8: nat := 0xFF

  /** A literal, then a number. */
  function ScanField(s: string, literal: string, max: nat): Option<Scanned> {
    match ScanLiteral(s, literal)
    case None => None
    case Some(t) => ScanUint(t, max)
  }

  /** "m=%d,t=%d,p=%d" with 32, 32 and 8 bits; what follows the last number is not looked at. */
  function ScanParams(s: string): Option<Params> {
    match ScanField(s, "m=", MaxUint32)
    case None => None
    case Some(m) =>
      match ScanField(m.rest, ",t=", MaxUint32)
      case None => None
      case Some(t) =>
        match ScanField(t.rest, ",p=", MaxUint8)
        case None => None
        case Some(p) => Some(Params(m.value, t.value, p.value))
  }

  predicate MeetsFloor(q: Params) { q.m >= MinMemoryKiB && q.t >= MinTime && q.p >= MinThreads }

  function ArgonVerify(argon: Argon, plaintext: string, phc: string): Verification {
    var parts := Split(phc, '$');
    if |parts| != 6 || parts[1] != "argon2id" then Refused(InvalidFormat)
    else if parts[2] != "v=19" then Refused(UnsupportedVersion)
    else
      match ScanParams(parts[3])
      case None => Refused(BadParams)
      case Some(q) =>
        if !MeetsFloor(q) then Refused(BelowFloor)
        else
          match Base64.Decode(parts[4])
          case None => Refused(BadSalt)
          case Some(salt) =>
            match Base64.Decode(parts[5])
            case None => Refused(BadKey)
            case Some(want) => Checked(argon.idKey(plaintext, salt, q.t, q.m, q.p, |want|) == want)
  }

  // ----- the printed form, and its round trip -----

  function Field(literal: string, n: nat, rest: string): string { literal + FormatNat(n) + rest }

  function PrintParams(q: Params): string {
    Field("m=", q.m, Field(",t=", q.t, Field(",p=", q.p, "")))
  }

  function PrintHash(q: Params, salt: seq<Base64.Byte>, key: seq<Base64.Byte>): string {
    Join(["", "argon2id", "v=19", PrintParams(q), Base64.Encode(salt), Base64.Encode(key)], '$')
  }

  predicate InRange(q: Params) { q.m <= MaxUint32 && q.t <= MaxUint32 && q.p <= MaxUint8 }

  lemma {:induction false} DigitRunStops(digits: string, rest: string)
    requires AllDigits(digits) && (rest == "" || !IsDigit(rest[0]))
    ensures DigitRun(digits + rest) == |digits|
    decreases |digits|
  {
    if digits == "" {
      assert digits + rest == rest;
    } else {
      assert (digits + rest)[1..] == digits[1..] + rest;
      DigitRunStops(digits[1..], rest);
    }
  }

  lemma FieldScans(literal: string, n: nat, rest: string, max: nat)
    requires rest == "" || !IsDigit(rest[0])
    ensures ScanField(Field(literal, n, rest), literal, max) == if n <= max then Some(Scanned(n, rest)) else None
  {
    var digits := FormatNat(n);
    var s := literal + digits + rest;
    assert s[|literal|..] == digits + rest && literal <= s;
    assert IsDigit(digits[0]);
    DigitRunStops(digits, rest);
    assert (digits + rest)[..|digits|] == digits && (digits + rest)[|digits|..] == rest;
    ParseUndoesFormat(n);
  }

  lemma FieldStarts(literal: string, n: nat, rest: string)
    requires literal != ""
    ensures Field(literal, n, rest) != "" && Field(literal, n, rest)[0] == literal[0]
  {}

  /** Printed parameters scan to themselves, unless one is too wide for its field: 32, 32 and 8 bits. */
  lemma ParamsRoundTrip(q: Params)
    ensures ScanParams(PrintParams(q))
            == if q.m <= 4_294_967_295 && q.t <= 4_294_967_295 && q.p <= 255 then Some(q) else None
  {
    hide ScanField, Field, FormatNat;
    var p := Field(",p=", q.p, "");
    var t := Field(",t=", q.t, p);
    FieldStarts(",p=", q.p, "");
    FieldStarts(",t=", q.t, p);
    FieldScans(",p=", q.p, "", MaxUint8);
    FieldScans(",t=", q.t, p, MaxUint32);
    FieldScans("m=", q.m, t, MaxUint32);
  }

  lemma NoDollar(q: Params, bs: seq<Base64.Byte>)
    ensures '$' !in PrintParams(q) && '$' !in Base64.Encode(bs)
  {
    assert forall k | 0 <= k < |FormatNat(q.m)| :: IsDigit(FormatNat(q.m)[k]);
    var s := Base64.Encode(bs);
    assert forall k | 0 <= k < |s| :: Base64.InAlphabet(s[k]);
  }

  /** A hash printed in the mint's form is refused exactly when its parameters are below the floor;
      otherwise it verifies iff the hash function gives the printed key. */
  lemma HashRoundTrip(argon: Argon, plaintext: string, q: Params, salt: seq<Base64.Byte>, key: seq<Base64.Byte>)
    requires InRange(q)
    ensures ArgonVerify(argon, plaintext, PrintHash(q, salt, key))
            == if MeetsFloor(q) then Checked(argon.idKey(plaintext, salt, q.t, q.m, q.p, |key|) == key) else Refused(BelowFloor)
  {
    var parts := ["", "argon2id", "v=19", PrintParams(q), Base64.Encode(salt), Base64.Encode(key)];
    NoDollar(q, salt);
    NoDollar(q, key);
    SplitUndoesJoin(parts, '$');
    ParamsRoundTrip(q);
    Base64.DecodeUndoesEncode(salt);
    Base64.DecodeUndoesEncode(key);
  }

  /** A stored string: something, the algorithm and its version, the parameters, the salt and the hashed key. */
  ghost predicate PhcForm(phc: string, first: string, params: string, salt: string, key: string) {
    && phc == first + "$argon2id$v=19$" + params + "$" + salt + "$" + key
    && forall part <- [first, params, salt, key] :: '$' !in part
  }

  lemma PhcParts(first: string, params: string, salt: string, key: string)
    ensures Join([first, "argon2id", "v=19", params, salt, key], '$') == first + "$argon2id$v=19$" + params + "$" + salt + "$" + key
  {
    hide Join;
    LastParts(params, salt, key);
    var last := [params, salt, key];
    JoinStep("v=19", last, '$');
    JoinStep("argon2id", ["v=19"] + last, '$');
    JoinStep(first, ["argon2id"] + (["v=19"] + last), '$');
    assert [first] + (["argon2id"] + (["v=19"] + last)) == [first, "argon2id", "v=19", params, salt, key];
    Regrouped(first, params + "$" + salt + "$" + key);
    assert first + "$argon2id$v=19$" + (params + "$" + salt + "$" + key) == first + "$argon2id$v=19$" + params + "$" + salt + "$" + key;
  }

  lemma Regrouped(first: string, last: string)
    ensures first + "$" + ("argon2id" + "$" + ("v=19" + "$" + last)) == first + "$argon2id$v=19$" + last
  {
    assert "$" + ("argon2id" + "$" + ("v=19" + "$")) == "$argon2id$v=19$";
    assert first + "$" + ("argon2id" + "$" + ("v=19" + "$" + last)) == first + ("$" + ("argon2id" + "$" + ("v=19" + "$"))) + last;
  }

  lemma LastParts(params: string, salt: string, key: string)
    ensures Join([params, salt, key], '$') == params + "$" + salt + "$" + key
  {
    JoinStep(params, [salt, key], '$');
    JoinStep(salt, [key], '$');
    assert [params, salt, key] == [params] + [salt, key] && [salt, key] == [salt] + [key];
    assert params + "$" + (salt + "$" + key) == params + "$" + salt + "$" + key;
  }

  /** The parameters can be read and are at the floor, 64 MiB, one pass and two lanes, or above; salt and key can be decoded. */
  predicate Usable(params: string, salt: string, key: string) {
    && ScanParams(params).Some? && Base64.Decode(salt).Some? && Base64.Decode(key).Some?
    && var q := ScanParams(params).value; q.m >= 65536 && q.t >= 1 && q.p >= 2
  }

  /** The string names argon2id and its version 19, with usable fields. */
  ghost predicate UsableHash(phc: string) {
    exists first, params, salt, key :: PhcForm(phc, first, params, salt, key) && Usable(params, salt, key)
  }

  /** Checked means exactly that the string names argon2id and its version 19, with usable fields; and then it matches iff
      the hash function, given the decoded salt and those parameters, gives the decoded key. */
  lemma CheckedMeans(argon: Argon, plaintext: string, phc: string)
    ensures ArgonVerify(argon, plaintext, phc).Checked? <==> UsableHash(phc)
    ensures forall first, params, salt, key | PhcForm(phc, first, params, salt, key) && Usable(params, salt, key) ::
              var q, s, k := ScanParams(params).value, Base64.Decode(salt).value, Base64.Decode(key).value;
              ArgonVerify(argon, plaintext, phc) == Checked(argon.idKey(plaintext, s, q.t, q.m, q.p, |k|) == k)
  {
    hide Split, Join, ScanParams, Base64.Decode;
    if ArgonVerify(argon, plaintext, phc).Checked? {
      var parts := Split(phc, '$');
      JoinUndoesSplit(phc, '$');
      PhcParts(parts[0], parts[3], parts[4], parts[5]);
      assert parts == [parts[0], "argon2id", "v=19", parts[3], parts[4], parts[5]];
      assert PhcForm(phc, parts[0], parts[3], parts[4], parts[5]) && Usable(parts[3], parts[4], parts[5]);
    }
    forall first, params, salt, key | PhcForm(phc, first, params, salt, key)
      ensures Split(phc, '$') == [first, "argon2id", "v=19", params, salt, key]
    {
      PhcParts(first, params, salt, key);
      SplitUndoesJoin([first, "argon2id", "v=19", params, salt, key], '$');
    }
  }
}
