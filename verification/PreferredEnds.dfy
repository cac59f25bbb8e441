/** For most of the patterns, the match that is preferred is the longest one there is. */
module PreferredEnds {
  import opened Wrappers
  import opened Regex
  import opened RuleTable
  import Redaction
  import opened PassProperties
  import opened PatternMeanings

  /** How long every match is, if that can be read off. */
  function FixedWidth(re: Regex): Option<nat> {
    match re
    case Empty => Some(0)
    case Text(t) => Some(|t|)
    case Char(_) => Some(1)
    case Boundary => Some(0)
    case Cat(a, b) =>
      if FixedWidth(a).Some? && FixedWidth(b).Some? then Some(FixedWidth(a).value + FixedWidth(b).value) else None
    case Alt(a, b) => if FixedWidth(a) == FixedWidth(b) then FixedWidth(a) else None
    case Repeat(b, lo, hi) => if b.Char? && hi == Some(lo) then Some(lo) else None
  }

  predicate IsRun(re: Regex) { re.Repeat? && re.body.Char? }

  /** Every match begins with a character outside the class. */
  predicate StartsOutside(re: Regex, cl: Class) {
    re.Cat? && re.first.Text? && re.first.text != "" && !Has(cl, re.first.text[0])
  }

  /** Where greed decides: of fixed width, or a run that is last but for a boundary, or a run that what follows cuts off. */
  predicate Greedy(re: Regex) {
    || FixedWidth(re).Some?
    || IsRun(re)
    || (re.Cat? && FixedWidth(re.first).Some? && Greedy(re.second))
    || (re.Cat? && IsRun(re.first) && re.second == Boundary)
    || (re.Cat? && IsRun(re.first) && StartsOutside(re.second, re.first.body.cls) && Greedy(re.second))
  }

  lemma {:induction false} WidthSound(re: Regex, s: string, i: nat, j: nat)
    requires i <= j <= |s| && FixedWidth(re).Some? && Matches(re, s, i, j)
    ensures j == i + FixedWidth(re).value
    decreases re
  {
    match re
    case Cat(a, b) =>
      var k := Apart(a, b, s, i, j);
      WidthSound(a, s, i, k);
      WidthSound(b, s, k, j);
    case Alt(a, b) => if Matches(a, s, i, j) { WidthSound(a, s, i, j); } else { WidthSound(b, s, i, j); }
    case Repeat(b, lo, _) => Exactly(b.cls, lo, s, i, j);
    case _ =>
  }

  // ----- runs of one class -----

  predicate Descending(xs: seq<nat>) { forall a, b | 0 <= a < b < |xs| :: xs[a] > xs[b] }

  predicate FirstIsMost(xs: seq<nat>) { forall x <- xs :: x <= xs[0] }

  lemma EndsUnfold(cl: Class, lo: nat, hi: Option<nat>, s: string, i: nat)
    requires i <= |s|
    ensures var stop := if lo == 0 then [i] else [];
            EndsRepeat(Char(cl), lo, hi, s, i)
            == if hi != Some(0) && i < |s| && Has(cl, s[i]) then EndsRepeat(Char(cl), Pred(lo), Less(hi), s, i + 1) + stop else stop
  {
    if hi != Some(0) {
      var starts := Ends(Char(cl), s, i);
      if starts != [] {
        assert starts == [i + 1] && starts[1..] == [];
        OneStart(cl, Pred(lo), Less(hi), s, i, starts);
      }
    }
  }

  lemma OneStart(cl: Class, lo: nat, hi: Option<nat>, s: string, i: nat, starts: seq<nat>)
    requires i < |s| && starts == [i + 1]
    ensures EndsMore(Char(cl), lo, hi, s, i, starts) == EndsRepeat(Char(cl), lo, hi, s, i + 1)
  {
    hide EndsRepeat;
    assert starts[1..] == [];
    assert EndsRepeat(Char(cl), lo, hi, s, i + 1) + [] == EndsRepeat(Char(cl), lo, hi, s, i + 1);
  }

  lemma {:induction false} RunDescends(cl: Class, lo: nat, hi: Option<nat>, s: string, i: nat)
    requires i <= |s|
    ensures Descending(EndsRepeat(Char(cl), lo, hi, s, i))
    decreases |s| - i
  {
    EndsUnfold(cl, lo, hi, s, i);
    hide EndsRepeat;
    if hi != Some(0) && i < |s| && Has(cl, s[i]) {
      RunDescends(cl, Pred(lo), Less(hi), s, i + 1);
      assert Within(EndsRepeat(Char(cl), Pred(lo), Less(hi), s, i + 1), i + 1, |s|);
    }
  }

  lemma {:induction false} RunChars(cl: Class, lo: nat, hi: Option<nat>, s: string, i: nat, j: nat)
    requires i <= j <= |s| && MatchesRepeat(Char(cl), lo, hi, s, i, j)
    ensures AllIn(cl, s, i, j)
    decreases j - i
  {
    if i < j { RunChars(cl, Pred(lo), Less(hi), s, i + 1, j); }
  }

  // ----- what follows a part -----

  /** All starts the same: the ends are those from there. */
  lemma {:induction false} AfterOne(re: Regex, s: string, i: nat, starts: seq<nat>, x: nat)
    requires i <= x <= |s| && Within(starts, i, |s|) && forall y <- starts :: y == x
    requires FirstIsMost(Ends(re, s, x))
    ensures FirstIsMost(EndsAfter(re, s, i, starts)) && forall e <- EndsAfter(re, s, i, starts) :: e in Ends(re, s, x)
    decreases |starts|
  {
    if starts != [] {
      hide Ends;
      assert starts[0] in starts && forall y <- starts[1..] :: y in starts;
      AfterOne(re, s, i, starts[1..], x);
    }
  }

  lemma {:induction false} AfterBoundary(s: string, i: nat, starts: seq<nat>)
    requires i <= |s| && Within(starts, i, |s|) && Descending(starts)
    ensures FirstIsMost(EndsAfter(Boundary, s, i, starts)) && forall e <- EndsAfter(Boundary, s, i, starts) :: e in starts
    decreases |starts|
  {
    if starts != [] {
      AfterBoundary(s, i, starts[1..]);
      forall e <- starts[1..] ensures e in starts && e < starts[0] {}
      hide Descending, AtBoundary, Within;
    }
  }

  lemma OutsideFails(re: Regex, cl: Class, s: string, x: nat)
    requires x < |s| && StartsOutside(re, cl) && Has(cl, s[x])
    ensures Ends(re, s, x) == []
  {
    var t := re.first.text;
    if x + |t| <= |s| { assert s[x..x + |t|][0] == s[x]; }
    assert Ends(re.first, s, x) == [];
  }

  /** Only the longest run can be followed by something that starts outside its class. */
  lemma {:induction false} AfterCut(re: Regex, cl: Class, s: string, i: nat, starts: seq<nat>)
    requires i <= |s| && Within(starts, i, |s|) && StartsOutside(re, cl)
    requires forall x <- starts :: x < |s| && Has(cl, s[x])
    ensures EndsAfter(re, s, i, starts) == []
    decreases |starts|
  {
    if starts != [] {
      hide StartsOutside;
      assert starts[0] in starts && forall x <- starts[1..] :: x in starts;
      OutsideFails(re, cl, s, starts[0]);
      AfterCut(re, cl, s, i, starts[1..]);
    }
  }

  lemma RunThenCut(run: Regex, re: Regex, s: string, i: nat)
    requires i <= |s| && IsRun(run) && StartsOutside(re, run.body.cls)
    ensures var starts := Ends(run, s, i);
            EndsAfter(re, s, i, starts) == if starts == [] then [] else Ends(re, s, starts[0])
  {
    var cl, starts := run.body.cls, Ends(run, s, i);
    RunDescends(cl, run.lo, run.hi, s, i);
    if starts != [] {
      hide Ends, StartsOutside, Has;
      assert starts[0] in starts;
      EndsAreMatches(run, s, i, starts[0]);
      RunChars(cl, run.lo, run.hi, s, i, starts[0]);
      forall x <- starts[1..] ensures x < |s| && Has(cl, s[x]) {
        assert i <= x < starts[0];
      }
      AfterCut(re, cl, s, i, starts[1..]);
      assert Ends(re, s, starts[0]) + [] == Ends(re, s, starts[0]);
    }
  }

  /** Of two alternatives the first is preferred wherever it matches; the second has only the rest. */
  lemma FirstAlternative(a: Regex, b: Regex, s: string, i: nat)
    requires i <= |s|
    ensures FirstEnd(Alt(a, b), s, i) == if FirstEnd(a, s, i).Some? then FirstEnd(a, s, i) else FirstEnd(b, s, i)
  {
    assert Ends(Alt(a, b), s, i) == Ends(a, s, i) + Ends(b, s, i);
  }

  lemma {:induction false} GreedyEnds(re: Regex, s: string, i: nat)
    requires i <= |s| && Greedy(re)
    ensures FirstIsMost(Ends(re, s, i))
    decreases re, 0
  {
    if FixedWidth(re).Some? {
      hide FixedWidth, Ends;
      var ends := Ends(re, s, i);
      forall e <- ends ensures e == i + FixedWidth(re).value { FixedEnd(re, s, i, e); }
      if ends != [] { assert ends[0] in ends; }
    } else if IsRun(re) {
      RunDescends(re.body.cls, re.lo, re.hi, s, i);
    } else if FixedWidth(re.first).Some? && Greedy(re.second) {
      FixedThenGreedy(re.first, re.second, s, i);
    } else if re.second == Boundary {
      RunDescends(re.first.body.cls, re.first.lo, re.first.hi, s, i);
      AfterBoundary(s, i, Ends(re.first, s, i));
    } else {
      RunThenCut(re.first, re.second, s, i);
      var starts := Ends(re.first, s, i);
      if starts != [] { GreedyEnds(re.second, s, starts[0]); }
    }
  }

  lemma FixedEnd(re: Regex, s: string, i: nat, e: nat)
    requires i <= |s| && FixedWidth(re).Some? && e in Ends(re, s, i)
    ensures e == i + FixedWidth(re).value
  {
    hide Ends, FixedWidth;
    EndsAreMatches(re, s, i, e);
    WidthSound(re, s, i, e);
  }

  lemma {:induction false} FixedThenGreedy(a: Regex, b: Regex, s: string, i: nat)
    requires i <= |s| && FixedWidth(a).Some? && Greedy(b)
    ensures FirstIsMost(EndsAfter(b, s, i, Ends(a, s, i)))
    decreases b, 1
  {
    hide FixedWidth, Ends;
    var starts, x := Ends(a, s, i), i + FixedWidth(a).value;
    forall y <- starts ensures y == x { FixedEnd(a, s, i, y); }
    if starts != [] {
      assert starts[0] in starts && starts[0] == x;
      GreedyEnds(b, s, x);
      AfterOne(b, s, i, starts, x);
    }
  }

  /** No match is longer than the preferred one from the same place. */
  lemma PreferredIsLongest(re: Regex, s: string, i: nat, j: nat)
    requires i <= j <= |s| && Greedy(re) && Matches(re, s, i, j)
    ensures FirstEnd(re, s, i).Some? && j <= FirstEnd(re, s, i).value
  {
    hide Matches, Greedy, Ends;
    EndsAreMatches(re, s, i, j);
    GreedyEnds(re, s, i);
  }

  // ----- preferred ends, part by part -----

  lemma FirstOfCat(a: Regex, b: Regex, s: string, i: nat, k: nat, j: nat)
    requires i <= k <= j <= |s| && FirstEnd(a, s, i) == Some(k) && FirstEnd(b, s, k) == Some(j)
    ensures FirstEnd(Cat(a, b), s, i) == Some(j)
  {
    hide Ends;
    var starts := Ends(a, s, i);
    CatEnds(a, b, s, i);
    assert EndsAfter(b, s, i, starts) == Ends(b, s, k) + EndsAfter(b, s, i, starts[1..]);
  }

  lemma CatEnds(a: Regex, b: Regex, s: string, i: nat)
    requires i <= |s|
    ensures Ends(Cat(a, b), s, i) == EndsAfter(b, s, i, Ends(a, s, i))
  {}

  /** A run takes all it can. */
  lemma FirstOfRun(cl: Class, lo: nat, hi: nat, s: string, i: nat, j: nat)
    requires i <= j <= |s| && lo <= j - i <= hi && AllIn(cl, s, i, j)
    requires j - i == hi || j == |s| || !Has(cl, s[j])
    ensures FirstEnd(Between(Char(cl), lo, hi), s, i) == Some(j)
  {
    hide Ends, Matches, MatchesRepeat, Has;
    var re := Between(Char(cl), lo, hi);
    FromTo(cl, lo, hi, s, i, j);
    PreferredIsLongest(re, s, i, j);
    var e := FirstEnd(re, s, i).value;
    FirstEndMatches(re, s, i, e);
    FromTo(cl, lo, hi, s, i, e);
  }

  lemma FirstEndMatches(re: Regex, s: string, i: nat, e: nat)
    requires i <= |s| && FirstEnd(re, s, i) == Some(e)
    ensures e <= |s| && Matches(re, s, i, e)
  {
    hide Ends, Matches;
    EndsAreMatches(re, s, i, e);
  }

  lemma FirstOfText(t: string, s: string, i: nat)
    requires i + |t| <= |s| && s[i..i + |t|] == t
    ensures FirstEnd(Text(t), s, i) == Some(i + |t|)
  {}

  /** An optional part is taken when it can be. */
  lemma FirstOfOptional(body: Regex, s: string, i: nat, j: nat)
    requires i < j <= |s| && FirstEnd(body, s, i) == Some(j)
    ensures FirstEnd(Between(body, 0, 1), s, i) == Some(j)
  {
    hide Ends;
    var starts := Ends(body, s, i);
    OptionalEnds(body, s, i, starts);
  }

  lemma OptionalEnds(body: Regex, s: string, i: nat, starts: seq<nat>)
    requires i <= |s| && starts == Ends(body, s, i) && starts != [] && starts[0] > i
    ensures Ends(Between(body, 0, 1), s, i) != [] && Ends(Between(body, 0, 1), s, i)[0] == starts[0]
  {
    assert Less(Some(1)) == Some(0);
    assert EndsRepeat(body, 0, Some(0), s, starts[0]) == [starts[0]];
    var more := EndsMore(body, 0, Some(0), s, i, starts);
    assert more == [starts[0]] + EndsMore(body, 0, Some(0), s, i, starts[1..]);
    assert Ends(Between(body, 0, 1), s, i) == EndsRepeat(body, 0, Some(1), s, i) == more + [i];
  }

  const GreedyTable := [JwtRule, AwsAccessKeyRule, OpenaiKeyRule, AnthropicKeyRule, GithubPatRule, EmailRule, IbanRule, SsnUsRule]

  lemma GreedyRules()
    ensures forall r <- GreedyTable :: Greedy(r.pattern)
  {
    hide Greedy;
    JwtIsGreedy();
    GithubIsGreedy();
    EmailIsGreedy();
    OthersAreGreedy();
  }

  /** So it is for eight rules: where one of them has a finding, nothing longer matches from the same place. */
  lemma FindingsAreLongest(rule: Rule, text: string, k: nat, j: nat)
    requires rule in GreedyTable && Consumes(rule.pattern) && k < |Redaction.Pass(rule, text).findings|
    requires var f := Redaction.Pass(rule, text).findings[k]; f.start <= j <= |text| && Matches(rule.pattern, text, f.start, j)
    ensures j <= Redaction.Pass(rule, text).findings[k].end
  {
    hide Matches, Greedy, FirstEnd, Redaction.Pass, Consumes;
    FindingsAreMatches(rule, text, k);
    GreedyRules();
    PreferredIsLongest(rule.pattern, text, Redaction.Pass(rule, text).findings[k].start, j);
  }

  lemma JwtIsGreedy() ensures Greedy(Jwt) {}

  lemma GithubIsGreedy() ensures Greedy(GithubPat) {}

  lemma EmailIsGreedy() ensures Greedy(Email) {}

  lemma OthersAreGreedy()
    ensures Greedy(AwsAccessKey) && Greedy(OpenaiKey) && Greedy(AnthropicKey) && Greedy(Iban) && Greedy(SsnUs)
  {}
}
