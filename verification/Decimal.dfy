/** Printing integers in base ten, and reading them back. */
module Decimal {

  predicate IsDigit(c: char) { '0' <= c <= '9' }

  function DigitOf(d: nat): (c: char)
    requires d < 10
    ensures IsDigit(c)
  {
    '0' + d as char
  }

  function ValueOf(c: char): nat
    requires IsDigit(c)
  {
    (c - '0') as nat
  }

  predicate AllDigits(s: string) { forall k | 0 <= k < |s| :: IsDigit(s[k]) }

  function FormatNat(n: nat): (s: string)
    ensures s != "" && AllDigits(s)
  {
    if n < 10 then [DigitOf(n)] else FormatNat(n / 10) + [DigitOf(n % 10)]
  }

  function FormatInt(i: int): string {
    if i < 0 then "-" + FormatNat(-i) else FormatNat(i)
  }

  function ParseNat(s: string): nat
    requires AllDigits(s)
  {
    if s == "" then 0 else ParseNat(s[..|s| - 1]) * 10 + ValueOf(s[|s| - 1])
  }

  function ParseInt(s: string): int
    requires s != "" && AllDigits(if s[0] == '-' then s[1..] else s)
  {
    var n: int := ParseNat(if s[0] == '-' then s[1..] else s);
    if s[0] == '-' then -n else n
  }

  lemma {:induction false} ParseUndoesFormat(n: nat)
    ensures ParseNat(FormatNat(n)) == n
  {
    if n >= 10 {
      ParseUndoesFormat(n / 10);
      var s := FormatNat(n);
      assert s[..|s| - 1] == FormatNat(n / 10);
    }
  }

  lemma FormatIntReads(i: int)
    ensures var s := FormatInt(i);
            s != "" && AllDigits(if s[0] == '-' then s[1..] else s) && ParseInt(s) == i && ':' !in s
  {
    ParseUndoesFormat(if i < 0 then -i else i);
    var digits := FormatNat(if i < 0 then -i else i);
    assert IsDigit(digits[0]);
    if i < 0 { assert FormatInt(i)[1..] == digits; }
  }

  /** The most significant digit comes first, and the digits are the ten in their order. */
  lemma ReadsBaseTen(s: string, d: nat)
    requires AllDigits(s) && d < 10
    ensures ParseNat("") == 0 && ParseNat(s + ["0123456789"[d]]) == 10 * ParseNat(s) + d
  {
    assert (s + ["0123456789"[d]])[..|s|] == s;
  }
}
