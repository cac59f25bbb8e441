/** Which rules cut no word: all but phone_intl. A second scan for secrets therefore finds nothing. */
module Idempotence {
  import opened Regex
  import opened RuleTable
  import opened Redaction
  import opened Simultaneous
  import opened PatternMeanings
  import opened PreferredEnds
  import opened UncutWords

  lemma OtherPatterns(i: nat)
    requires i < |Rules| && i != 0 && i != 6 && i != 12
    ensures var re := Rules[i].pattern; (re.Cat? && re.first == Boundary) || re == CreditCard
  {}

  lemma SeesBoundaries(re: Regex)
    requires (re.Cat? && re.first == Boundary) || re == CreditCard
    ensures !BoundaryFree(re)
  {
    if re == CreditCard { assert re.first.first == Boundary; }
  }

  /** All rules but private_key, email and phone_intl match from word boundary to word boundary. */
  lemma EdgeBounded(i: nat)
    requires i < |Rules| && i != 0 && i != 6 && i != 12
    ensures LeftBounded(Rules[i].pattern) && RightBounded(Rules[i].pattern)
  {
    hide Inert, IsPlaceholder, LeftBounded, RightBounded, BoundaryFree, Consumes, Avoids;
    TableIsSafe();
    assert Safe(Rules[i], Rules);
    OtherPatterns(i);
    SeesBoundaries(Rules[i].pattern);
  }

  lemma BoundedCutsNoWord(re: Regex, text: string)
    requires Consumes(re) && LeftBounded(re) && RightBounded(re)
    ensures CutsNoWord(text, FindAll(re, text, 0))
  {
    hide Matches, FindAll, Consumes, LeftBounded, RightBounded;
    FindAllIsLeftmost(re, text, 0);
    forall m <- FindAll(re, text, 0) ensures !InWord(text, m.start) && !InWord(text, m.end) {
      BoundedSound(re, text, m.start, m.end);
    }
  }

  lemma HeaderAndFooter(s: string, i: nat, j: nat)
    requires i <= j <= |s| && Matches(PrivateKey, s, i, j)
    ensures i < j && s[i] == '-' && s[j - 1] == '-'
  {
    hide Matches;
    var r1 := PrivateKey.second;
    var a := Apart(KeyHeader, r1, s, i, j);
    var b := Apart(KeyKind, KeyFooter, s, a, j);
    assert s[i..a][0] == s[i] && s[b..j][15] == s[j - 1];
  }

  lemma PrivateKeyCutsNoWord(text: string)
    requires Consumes(PrivateKey)
    ensures CutsNoWord(text, FindAll(PrivateKey, text, 0))
  {
    hide Matches, FindAll, Consumes, FirstEnd, Ascending;
    FindAllIsLeftmost(PrivateKey, text, 0);
    forall m <- FindAll(PrivateKey, text, 0) ensures !InWord(text, m.start) && !InWord(text, m.end) {
      HeaderAndFooter(text, m.start, m.end);
    }
  }

  const LocalPart := Class(true, true, true, "_.+-")
  const DomainEnd := Class(true, true, true, "_.-")

  lemma WordIsInBoth(c: char)
    requires IsWordChar(c)
    ensures Has(LocalPart, c) && Has(DomainEnd, c)
  {}

  lemma LongRun(cl: Class, lo: nat, s: string, i: nat, j: nat)
    requires i <= j <= |s|
    ensures Matches(AtLeast(Char(cl), lo), s, i, j) <==> j - i >= lo && AllIn(cl, s, i, j)
  {
    RunOfClass(cl, lo, s, i, j);
  }

  /** An address with a word character right before or after it is part of a longer one. */
  lemma EmailGrows(s: string, i: nat, j: nat)
    requires i <= j <= |s| && Matches(Email, s, i, j)
    ensures i > 0 && IsWordChar(s[i - 1]) ==> Matches(Email, s, i - 1, j)
    ensures j < |s| && IsWordChar(s[j]) ==> Matches(Email, s, i, j + 1)
  {
    hide Matches, AllIn, Has, IsWordChar;
    var r1 := Email.second;
    var r2 := r1.second;
    var r3 := r2.second;
    var a := Apart(Email.first, r1, s, i, j);
    var b := Apart(Text("@"), r2, s, a, j);
    var c := Apart(r2.first, r3, s, b, j);
    var d := Apart(Text("."), r3.second, s, c, j);
    LongRun(LocalPart, 1, s, i, a);
    LongRun(DomainEnd, 2, s, d, j);
    if i > 0 && IsWordChar(s[i - 1]) {
      WordIsInBoth(s[i - 1]);
      assert AllIn(LocalPart, s, i - 1, a) by { RunGrowsLeft(LocalPart, s, i, a); }
      LongRun(LocalPart, 1, s, i - 1, a);
      Join(Email.first, r1, s, i - 1, a, j);
    }
    if j < |s| && IsWordChar(s[j]) {
      WordIsInBoth(s[j]);
      assert AllIn(DomainEnd, s, d, j + 1) by { RunGrowsRight(DomainEnd, s, d, j); }
      LongRun(DomainEnd, 2, s, d, j + 1);
      Join(Text("."), r3.second, s, c, d, j + 1);
      Join(r2.first, r3, s, b, c, j + 1);
      Join(Text("@"), r2, s, a, b, j + 1);
      Join(Email.first, r1, s, i, a, j + 1);
    }
  }

  lemma RunGrowsLeft(cl: Class, s: string, i: nat, j: nat)
    requires 0 < i <= j && AllIn(cl, s, i, j) && Has(cl, s[i - 1])
    ensures AllIn(cl, s, i - 1, j)
  {}

  lemma RunGrowsRight(cl: Class, s: string, i: nat, j: nat)
    requires j < |s| && AllIn(cl, s, i, j) && Has(cl, s[j])
    ensures AllIn(cl, s, i, j + 1)
  {}

  /** A found address takes all the word characters after it. */
  lemma EmailEndsWord(text: string, m: Span)
    requires Consumes(Email) && m in FindAll(Email, text, 0)
    ensures m.start < m.end <= |text| && (m.end < |text| ==> !IsWordChar(text[m.end]))
  {
    hide Matches, FindAll, IsWordChar, Greedy, FirstEnd;
    FindAllIsLeftmost(Email, text, 0);
    ConsumesSound(Email, text, m.start, m.end);
    EmailGrows(text, m.start, m.end);
    if m.end < |text| && IsWordChar(text[m.end]) {
      EmailIsGreedy();
      PreferredIsLongest(Email, text, m.start, m.end + 1);
    }
  }

  lemma {:induction false} SpansApart(spans: seq<Span>, from: nat, to: nat)
    requires Ascending(spans, from, to)
    ensures forall x <- spans, y <- spans | x.start < y.start :: x.end <= y.start
    ensures forall x <- spans :: from <= x.start < x.end <= to
    decreases |spans|
  {
    if spans != [] { SpansApart(spans[1..], spans[0].end, to); }
  }

  lemma Neighbours(spans: seq<Span>, to: nat, x: Span, m: Span)
    requires Ascending(spans, 0, to) && x in spans && m in spans && x.start < m.start <= x.end
    ensures x.end == m.start
  {
    SpansApart(spans, 0, to);
  }

  /** If the text matched from one place earlier, the span before would reach up to this one. */
  lemma SpanBefore(re: Regex, text: string, m: Span) returns (x: Span)
    requires Consumes(re) && m in FindAll(re, text, 0) && 0 < m.start <= m.end <= |text| && Matches(re, text, m.start - 1, m.end)
    ensures x in FindAll(re, text, 0) && x.end == m.start
  {
    hide Matches, FindAll, FirstEnd, Consumes, Ascending;
    FindAllIsLeftmost(re, text, 0);
    x :| x in FindAll(re, text, 0) && x.start <= m.start - 1 < x.end;
    Neighbours(FindAll(re, text, 0), |text|, x, m);
  }

  /** The word characters before a found address would be part of it, or of the one before, which takes
      all the word characters after it. */
  lemma EmailStartsWord(text: string, m: Span)
    requires Consumes(Email) && m in FindAll(Email, text, 0)
    ensures !InWord(text, m.start)
  {
    hide Matches, FindAll, IsWordChar, FirstEnd, Consumes;
    EmailEndsWord(text, m);
    FoundMatches(Email, text, m);
    EmailGrows(text, m.start, m.end);
    if InWord(text, m.start) {
      var x := SpanBefore(Email, text, m);
      EmailEndsWord(text, x);
    }
  }

  lemma FoundMatches(re: Regex, text: string, m: Span)
    requires Consumes(re) && m in FindAll(re, text, 0)
    ensures m.start <= m.end <= |text| && Matches(re, text, m.start, m.end)
  {
    hide Matches, FindAll, FirstEnd, Consumes, Ascending;
    FindAllIsLeftmost(re, text, 0);
  }

  lemma EmailCutsNoWord(text: string)
    requires Consumes(Email)
    ensures CutsNoWord(text, FindAll(Email, text, 0))
  {
    hide FindAll, IsWordChar, Consumes;
    forall m <- FindAll(Email, text, 0) ensures !InWord(text, m.start) && !InWord(text, m.end) {
      EmailStartsWord(text, m);
      EmailEndsWord(text, m);
    }
  }

  /** Of the thirteen rules, only phone_intl can cut a word. */
  lemma OnlyIntlCuts(i: nat)
    requires i < |Rules| && i != 12
    ensures Uncut(Rules[i])
  {
    hide CutsNoWord, FindAll, LeftBounded, RightBounded, Consumes, NamesDistinct, Safe;
    CatalogueIsSafe();
    var r := Rules[i];
    assert r in Rules;
    forall text ensures CutsNoWord(text, FindAll(r.pattern, text, 0)) {
      if i == 0 {
        PrivateKeyCutsNoWord(text);
      } else if i == 6 {
        EmailCutsNoWord(text);
      } else {
        EdgeBounded(i);
        BoundedCutsNoWord(r.pattern, text);
      }
    }
  }

  /** A second scan for secrets finds nothing, whatever the text. */
  lemma SecretsAreIdempotent(text: string)
    ensures AllConsume(Rules)
    ensures var once := ScanWith(Rules, "secrets", text).redacted;
            ScanWith(Rules, "secrets", once) == Scan([], once)
  {
    hide ScanWith, Uncut, Consumes, NamesDistinct, Safe;
    CatalogueIsSafe();
    forall r <- Rules | r.category == "secrets" ensures Uncut(r) {
      var i :| 0 <= i < |Rules| && Rules[i] == r;
      OnlyIntlCuts(i);
    }
    UncutIsIdempotent(Rules, "secrets", text);
  }
}
