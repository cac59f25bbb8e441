/** The words in which it is said what the patterns match: characters, runs of them and word edges. */
module PatternMeanings {
  import opened Wrappers
  import opened Regex
  import opened RuleTable

  ghost predicate AllIn(cl: Class, s: string, i: nat, j: nat) {
    i <= j <= |s| && forall d | i <= d < j :: Has(cl, s[d])
  }

  const Digits := Class(true, false, false, "")
  const Capitals := Class(false, true, false, "")
  const CapitalsAndDigits := Class(true, true, false, "")

  /** A bounded repetition of one class is a run of it of a permitted length. */
  lemma {:induction false} BoundedRun(cl: Class, lo: nat, hi: nat, s: string, i: nat, j: nat)
    requires i <= j <= |s| && lo <= hi
    ensures MatchesRepeat(Char(cl), lo, Some(hi), s, i, j) <==> lo <= j - i <= hi && AllIn(cl, s, i, j)
    decreases j - i
  {
    if i < j && hi > 0 {
      BoundedRun(cl, Pred(lo), hi - 1, s, i + 1, j);
      assert Less(Some(hi)) == Some(hi - 1);
      assert Matches(Char(cl), s, i, i + 1) <==> Has(cl, s[i]);
    }
  }

  lemma Exactly(cl: Class, n: nat, s: string, i: nat, j: nat)
    requires i <= j <= |s|
    ensures Matches(Times(Char(cl), n), s, i, j) <==> j - i == n && AllIn(cl, s, i, j)
  {
    BoundedRun(cl, n, n, s, i, j);
  }

  lemma Apart(a: Regex, b: Regex, s: string, i: nat, j: nat) returns (k: nat)
    requires i <= j <= |s| && Matches(Cat(a, b), s, i, j)
    ensures i <= k <= j && Matches(a, s, i, k) && Matches(b, s, k, j)
  {
    k :| i <= k <= j && Matches(a, s, i, k) && Matches(b, s, k, j);
  }

  lemma Join(a: Regex, b: Regex, s: string, i: nat, k: nat, j: nat)
    requires i <= k <= j <= |s| && Matches(a, s, i, k) && Matches(b, s, k, j)
    ensures Matches(Cat(a, b), s, i, j)
  {}

  lemma FromTo(cl: Class, lo: nat, hi: nat, s: string, i: nat, j: nat)
    requires i <= j <= |s| && lo <= hi
    ensures Matches(Between(Char(cl), lo, hi), s, i, j) <==> lo <= j - i <= hi && AllIn(cl, s, i, j)
  {
    BoundedRun(cl, lo, hi, s, i, j);
  }

  // ----- in characters -----

  predicate IsDigit(c: char) { '0' <= c <= '9' }

  predicate IsUpper(c: char) { 'A' <= c <= 'Z' }

  predicate IsUpperOrDigit(c: char) { IsUpper(c) || IsDigit(c) }

  predicate IsAlnum(c: char) { IsDigit(c) || IsUpper(c) || 'a' <= c <= 'z' }

  predicate IsWord(c: char) { IsAlnum(c) || c == '_' }

  /** Every character of s[i..j] is one of those. */
  ghost predicate All(p: char -> bool, s: string, i: nat, j: nat) {
    i <= j <= |s| && forall d | i <= d < j :: p(s[d])
  }

  /** A word begins or ends at i. */
  predicate Edge(s: string, i: nat)
    requires i <= |s|
  {
    (0 < i && IsWord(s[i - 1])) != (i < |s| && IsWord(s[i]))
  }

  ghost predicate Same(cl: Class, p: char -> bool) { forall c :: Has(cl, c) <==> p(c) }

  lemma BoundaryMeans(s: string, i: nat, j: nat)
    requires i <= j <= |s|
    ensures Matches(Boundary, s, i, j) <==> i == j && Edge(s, i)
  {}

  lemma TextMeans(t: string, s: string, i: nat, j: nat)
    requires i <= j <= |s|
    ensures Matches(Text(t), s, i, j) <==> s[i..j] == t
  {}

  lemma CharMeans(c: char, s: string, i: nat, j: nat)
    requires i <= j <= |s|
    ensures Matches(Text([c]), s, i, j) <==> j == i + 1 && s[i] == c
  {
    if j == i + 1 { assert s[i..j] == [s[i]]; }
  }

  lemma ExactRun(cl: Class, p: char -> bool, n: nat, s: string, i: nat, j: nat)
    requires i <= j <= |s| && Same(cl, p)
    ensures Matches(Times(Char(cl), n), s, i, j) <==> j - i == n && All(p, s, i, j)
  {
    Exactly(cl, n, s, i, j);
  }

  lemma RangeRun(cl: Class, p: char -> bool, lo: nat, hi: nat, s: string, i: nat, j: nat)
    requires i <= j <= |s| && lo <= hi && Same(cl, p)
    ensures Matches(Between(Char(cl), lo, hi), s, i, j) <==> lo <= j - i <= hi && All(p, s, i, j)
  {
    FromTo(cl, lo, hi, s, i, j);
  }

  lemma LongRun(cl: Class, p: char -> bool, lo: nat, s: string, i: nat, j: nat)
    requires i <= j <= |s| && Same(cl, p)
    ensures Matches(AtLeast(Char(cl), lo), s, i, j) <==> j - i >= lo && All(p, s, i, j)
  {
    RunOfClass(cl, lo, s, i, j);
  }

  // ----- one piece after another -----

  lemma EdgeFirst(b: Regex, s: string, i: nat, j: nat)
    requires i <= j <= |s|
    ensures Matches(Cat(Boundary, b), s, i, j) <==> Edge(s, i) && Matches(b, s, i, j)
  {
    if Matches(Cat(Boundary, b), s, i, j) { var _ := Apart(Boundary, b, s, i, j); }
    if Edge(s, i) && Matches(b, s, i, j) { Join(Boundary, b, s, i, i, j); }
  }

  lemma EdgeLast(a: Regex, s: string, i: nat, j: nat)
    requires i <= j <= |s|
    ensures Matches(Cat(a, Boundary), s, i, j) <==> Matches(a, s, i, j) && Edge(s, j)
  {
    if Matches(Cat(a, Boundary), s, i, j) { var _ := Apart(a, Boundary, s, i, j); }
    if Matches(a, s, i, j) && Edge(s, j) { Join(a, Boundary, s, i, j, j); }
  }

  lemma TextFirst(t: string, b: Regex, s: string, i: nat, j: nat)
    requires i <= j <= |s|
    ensures Matches(Cat(Text(t), b), s, i, j) <==> i + |t| <= j && s[i..i + |t|] == t && Matches(b, s, i + |t|, j)
  {
    hide Matches;
    if Matches(Cat(Text(t), b), s, i, j) {
      var k := Apart(Text(t), b, s, i, j);
      TextMeans(t, s, i, k);
    }
    if i + |t| <= j && s[i..i + |t|] == t && Matches(b, s, i + |t|, j) {
      TextMeans(t, s, i, i + |t|);
      Join(Text(t), b, s, i, i + |t|, j);
    }
  }

  lemma RunFirst(cl: Class, p: char -> bool, n: nat, b: Regex, s: string, i: nat, j: nat)
    requires i <= j <= |s| && Same(cl, p)
    ensures Matches(Cat(Times(Char(cl), n), b), s, i, j) <==> i + n <= j && All(p, s, i, i + n) && Matches(b, s, i + n, j)
  {
    hide Matches;
    var run := Times(Char(cl), n);
    if Matches(Cat(run, b), s, i, j) {
      var k := Apart(run, b, s, i, j);
      ExactRun(cl, p, n, s, i, k);
    }
    if i + n <= j && All(p, s, i, i + n) && Matches(b, s, i + n, j) {
      ExactRun(cl, p, n, s, i, i + n);
      Join(run, b, s, i, i + n, j);
    }
  }

  lemma Either(a: Regex, b: Regex, s: string, i: nat, j: nat)
    requires i <= j <= |s|
    ensures Matches(Alt(a, b), s, i, j) <==> Matches(a, s, i, j) || Matches(b, s, i, j)
  {}

  lemma ThreePieces(s: string, i: nat, a: nat, b: nat, j: nat)
    requires i <= a <= b <= j <= |s|
    ensures s[i..j] == s[i..a] + s[a..b] + s[b..j]
  {}

  lemma SamePieces(a: string, b: string, c: string, x: string, y: string, z: string)
    requires a + b + c == x + y + z && |a| == |x| && |b| == |y|
    ensures a == x && b == y && c == z
  {
    assert a == (a + b + c)[..|a|] && x == (x + y + z)[..|x|];
    assert b == (a + b + c)[|a|..|a| + |b|] && y == (x + y + z)[|x|..|x| + |y|];
    assert c == (a + b + c)[|a| + |b|..] && z == (x + y + z)[|x| + |y|..];
  }

  lemma Halves(s: string, i: nat, b: nat, k: nat, x: string, y: string)
    requires i <= k <= |s| && s[i..k] == x + y && b == i + |x|
    ensures b <= k && s[i..b] == x && s[b..k] == y
  {
    assert s[i..k][..|x|] == s[i..b] && s[i..k][|x|..] == s[b..k];
  }

  lemma OnceApart(body: Regex, lo: nat, hi: nat, s: string, i: nat, j: nat) returns (k: nat)
    requires i <= j <= |s| && lo > 0 && MatchesRepeat(body, lo, Some(hi), s, i, j)
    ensures hi > 0 && i < k <= j && Matches(body, s, i, k) && MatchesRepeat(body, lo - 1, Some(hi - 1), s, k, j)
  {
    k :| i < k <= j && Matches(body, s, i, k) && MatchesRepeat(body, Pred(lo), Less(Some(hi)), s, k, j);
  }
}
