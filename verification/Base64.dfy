/** Standard base64 without padding (section 4 of RFC 4648), as the decoder in use reads it:
    line breaks are skipped and unused trailing bits are not checked. */
module Base64 {
  import opened Wrappers

  type Byte = b: int | 0 <= b < 256

  type Sextet = v: int | 0 <= v < 64

  function CharOf(v: Sextet): (c: char)
    ensures InAlphabet(c)
  {
    if v < 26 then 'A' + v as char
    else if v < 52 then 'a' + (v - 26) as char
    else if v < 62 then '0' + (v - 52) as char
    else if v == 62 then '+' else '/'
  }

  predicate InAlphabet(c: char) {
    || ('A' <= c <= 'Z') || ('a' <= c <= 'z') || ('0' <= c <= '9') || c == '+' || c == '/'
  }

  function ValueOf(c: char): Sextet
    requires InAlphabet(c)
  {
    if 'A' <= c <= 'Z' then (c - 'A') as int
    else if 'a' <= c <= 'z' then (c - 'a') as int + 26
    else if '0' <= c <= '9' then (c - '0') as int + 52
    else if c == '+' then 62 else 63
  }

  /** Table 1 of section 4 of RFC 4648. */
  const Alphabet := "ABCDEFGHIJKLMNOPQRSTUVWXYZ" + "abcdefghijklmnopqrstuvwxyz" + "0123456789" + "+/"

  lemma AlphabetIsStandard(v: Sextet)
    ensures |Alphabet| == 64 && CharOf(v) == Alphabet[v]
  {
    if v < 26 {
      assert Alphabet[v] == "ABCDEFGHIJKLMNOPQRSTUVWXYZ"[v];
    } else if v < 52 {
      assert Alphabet[v] == "abcdefghijklmnopqrstuvwxyz"[v - 26];
    } else if v < 62 {
      assert Alphabet[v] == "0123456789"[v - 52];
    }
  }

  lemma ValueOfCharOf(v: Sextet)
    ensures ValueOf(CharOf(v)) == v
  {}

  function S0(a: Byte): Sextet { a / 4 }

  function S1(a: Byte, b: Byte): Sextet { a % 4 * 16 + b / 16 }

  function S2(b: Byte, c: Byte): Sextet { b % 16 * 4 + c / 64 }

  function S3(c: Byte): Sextet { c % 64 }

  function B0(v: Sextet, w: Sextet): Byte { v * 4 + w / 16 }

  function B1(v: Sextet, w: Sextet): Byte { v % 16 * 16 + w / 4 }

  function B2(v: Sextet, w: Sextet): Byte { v % 4 * 64 + w }

  lemma Quantum(a: Byte, b: Byte, c: Byte)
    ensures B0(S0(a), S1(a, b)) == a && B1(S1(a, b), S2(b, c)) == b && B2(S2(b, c), S3(c)) == c
  {}

  /** Four sextets for every three bytes, two or three for a shorter rest. */
  function Sextets(bs: seq<Byte>): seq<Sextet> {
    if |bs| == 0 then []
    else if |bs| == 1 then [S0(bs[0]), S1(bs[0], 0)]
    else if |bs| == 2 then [S0(bs[0]), S1(bs[0], bs[1]), S2(bs[1], 0)]
    else [S0(bs[0]), S1(bs[0], bs[1]), S2(bs[1], bs[2]), S3(bs[2])] + Sextets(bs[3..])
  }

  function Encode(bs: seq<Byte>): (s: string)
    ensures forall k | 0 <= k < |s| :: InAlphabet(s[k])
  {
    var vs := Sextets(bs);
    seq(|vs|, k requires 0 <= k < |vs| => CharOf(vs[k]))
  }

  function SkipBreaks(s: string): string {
    if s == "" then "" else (if s[0] == '\r' || s[0] == '\n' then "" else [s[0]]) + SkipBreaks(s[1..])
  }

  /** Back to bytes; a single leftover sextet is an error. */
  function Bytes(vs: seq<Sextet>): Option<seq<Byte>> {
    if |vs| == 0 then Some([])
    else if |vs| == 1 then None
    else if |vs| == 2 then Some([B0(vs[0], vs[1])])
    else if |vs| == 3 then Some([B0(vs[0], vs[1]), B1(vs[1], vs[2])])
    else
      match Bytes(vs[4..])
      case None => None
      case Some(rest) => Some([B0(vs[0], vs[1]), B1(vs[1], vs[2]), B2(vs[2], vs[3])] + rest)
  }

  function Decode(s: string): Option<seq<Byte>> {
    var t := SkipBreaks(s);
    if forall k | 0 <= k < |t| :: InAlphabet(t[k])
    then Bytes(seq(|t|, k requires 0 <= k < |t| => ValueOf(t[k])))
    else None
  }

  lemma {:induction false} BytesOfSextets(bs: seq<Byte>)
    ensures Bytes(Sextets(bs)) == Some(bs)
  {
    hide B0, B1, B2, S0, S1, S2, S3;
    if |bs| == 1 {
      Quantum(bs[0], 0, 0);
      assert bs == [bs[0]];
    } else if |bs| == 2 {
      Quantum(bs[0], bs[1], 0);
      assert bs == [bs[0], bs[1]];
    } else if |bs| > 2 {
      Quantum(bs[0], bs[1], bs[2]);
      BytesOfSextets(bs[3..]);
      assert Sextets(bs)[4..] == Sextets(bs[3..]);
      assert bs == [bs[0], bs[1], bs[2]] + bs[3..];
    }
  }

  lemma {:induction false} NoBreaksToSkip(s: string)
    requires forall k | 0 <= k < |s| :: InAlphabet(s[k])
    ensures SkipBreaks(s) == s
  {
    if s != "" { NoBreaksToSkip(s[1..]); }
  }

  lemma DecodeUndoesEncode(bs: seq<Byte>)
    ensures Decode(Encode(bs)) == Some(bs)
  {
    var s, vs := Encode(bs), Sextets(bs);
    NoBreaksToSkip(s);
    forall k | 0 <= k < |vs| ensures ValueOf(s[k]) == vs[k] { ValueOfCharOf(vs[k]); }
    assert seq(|s|, k requires 0 <= k < |s| => ValueOf(s[k])) == vs;
    BytesOfSextets(bs);
  }

  /** Three bytes are four characters, the same number in base 64. */
  lemma QuantumIsEncoded(a: Byte, b: Byte, c: Byte)
    ensures var s := Encode([a, b, c]);
            && |s| == 4
            && ((ValueOf(s[0]) * 64 + ValueOf(s[1])) * 64 + ValueOf(s[2])) * 64 + ValueOf(s[3]) == (a * 256 + b) * 256 + c
  {
    hide CharOf, ValueOf;
    assert Sextets([a, b, c]) == [S0(a), S1(a, b), S2(b, c), S3(c)];
    ValueOfCharOf(S0(a));
    ValueOfCharOf(S1(a, b));
    ValueOfCharOf(S2(b, c));
    ValueOfCharOf(S3(c));
  }

  lemma {:induction false} BytesIff(vs: seq<Sextet>)
    ensures Bytes(vs).None? <==> |vs| % 4 == 1
    ensures Bytes(vs).Some? ==> |Bytes(vs).value| == |vs| * 3 / 4
  {
    hide B0, B1, B2;
    if |vs| >= 4 {
      BytesIff(vs[4..]);
      FourLess(|vs|);
    }
  }

  lemma FourLess(n: nat)
    requires n >= 4
    ensures (n - 4) % 4 == n % 4 && n * 3 / 4 == (n - 4) * 3 / 4 + 3
  {}

  /** A text is decoded iff, line breaks apart, it is in the alphabet and not one character too long; four
      characters give three bytes. */
  lemma DecodesIff(s: string)
    ensures var t := SkipBreaks(s);
            && (Decode(s).Some? <==> (forall k | 0 <= k < |t| :: InAlphabet(t[k])) && |t| % 4 != 1)
            && (Decode(s).Some? ==> |Decode(s).value| == |t| * 3 / 4)
  {
    hide Bytes;
    var t := SkipBreaks(s);
    if forall k | 0 <= k < |t| :: InAlphabet(t[k]) {
      BytesIff(seq(|t|, k requires 0 <= k < |t| => ValueOf(t[k])));
    }
  }
}
