/** What a rule that can cut a word bares; and tables in which only the last rule can. */
module Bared {
  import opened Regex
  import opened RuleTable
  import opened Redaction
  import opened Simultaneous
  import opened PassProperties
  import opened UncutWords

  /** The text before, between and after the matches that a pass of the rule takes. */
  ghost function PiecesLeft(rule: Rule, text: string): seq<string>
    requires Consumes(rule.pattern)
  {
    FindAllIsLeftmost(rule.pattern, text, 0);
    Pieces(text, FindAll(rule.pattern, text, 0), 0)
  }

  ghost predicate BeginsWith(re: Regex, s: string) { exists q | 0 <= q <= |s| :: Matches(re, s, 0, q) }

  /** Right after some match the rule takes, the text up to the next one begins, on its own, with a match of r. */
  ghost predicate BaresRule(rule: Rule, r: Rule, text: string)
    requires Consumes(rule.pattern)
  {
    exists k | 0 < k < |PiecesLeft(rule, text)| :: BeginsWith(r.pattern, PiecesLeft(rule, text)[k])
  }

  /** In a text the rule does not match, cut before characters that are no word characters, a piece can
      be matched at its very start only, and not the first piece. */
  lemma {:induction false} OnlyStartsMatch(re: Regex, text: string, spans: seq<Span>, from: nat, k: nat)
    requires Ascending(spans, from, |text|) && Consumes(re) && NoMatch(re, text)
    requires forall m <- spans :: m.start < |text| && !IsWordChar(text[m.start])
    requires k < |Pieces(text, spans, from)| && !NoMatch(re, Pieces(text, spans, from)[k])
    ensures BeginsWith(re, Pieces(text, spans, from)[k]) && (k > 0 || from > 0)
    decreases |spans|
  {
    hide Matches, Consumes;
    if spans == [] {
      assert text[from..] == text[from..|text|];
      OnlyStartMatches(re, text, from, |text|);
    } else if k == 0 {
      assert spans[0] in spans;
      OnlyStartMatches(re, text, from, spans[0].start);
    } else {
      OnlyStartsMatch(re, text, spans[1..], spans[0].end, k - 1);
    }
  }

  lemma OnlyStartMatches(re: Regex, text: string, from: nat, to: nat)
    requires from <= to <= |text| && Consumes(re) && NoMatch(re, text) && !NoMatch(re, text[from..to])
    requires to < |text| ==> !IsWordChar(text[to])
    ensures BeginsWith(re, text[from..to]) && from > 0
  {
    hide Matches, Consumes;
    var piece := text[from..to];
    var p, q :| 0 <= p <= q <= |piece| && Matches(re, piece, p, q);
    if p > 0 || from == 0 {
      MatchCarries(re, piece, p, q, text, from, false);
    }
  }

  lemma BaredRuleIsFound(rule: Rule, r: Rule, table: seq<Rule>, text: string)
    requires SafeTable(table) && rule in table && r in table && Consumes(rule.pattern) && BaresRule(rule, r, text)
    ensures !NoMatch(r.pattern, Pass(rule, text).redacted)
  {
    hide Matches, Pieces, FindAll, Pass, Safe, Consumes;
    var pieces := PiecesLeft(rule, text);
    var k :| 0 < k < |pieces| && BeginsWith(r.pattern, pieces[k]);
    var q :| 0 <= q <= |pieces[k]| && Matches(r.pattern, pieces[k], 0, q);
    assert !NoMatch(r.pattern, pieces[k]) && pieces[k] in pieces;
    SafeIn(table, r);
    SafeIn(table, rule);
    PassSplits(rule, r, table, text);
  }

  lemma FoundRuleIsBared(rule: Rule, r: Rule, table: seq<Rule>, text: string)
    requires SafeTable(table) && rule in table && r in table && Consumes(rule.pattern) && NoMatch(r.pattern, text)
    requires forall m <- FindAll(rule.pattern, text, 0) :: m.start < |text| && !IsWordChar(text[m.start])
    requires !NoMatch(r.pattern, Pass(rule, text).redacted)
    ensures BaresRule(rule, r, text)
  {
    hide Matches, Pieces, FindAll, Pass, Safe, Consumes, NoMatch, BeginsWith;
    var pieces := PiecesLeft(rule, text);
    SafeIn(table, r);
    SafeIn(table, rule);
    PassSplits(rule, r, table, text);
    var g :| g in pieces && !NoMatch(r.pattern, g);
    var k :| 0 <= k < |pieces| && pieces[k] == g;
    FindAllIsLeftmost(rule.pattern, text, 0);
    OnlyStartsMatch(r.pattern, text, FindAll(rule.pattern, text, 0), 0, k);
  }

  lemma OneRule(rule: Rule, text: string)
    requires Consumes(rule.pattern) && AllConsume([rule])
    ensures ScanWith([rule], rule.category, text) == Pass(rule, text)
  {
    hide Pass;
    assert [rule][1..] == [];
    var pass := Pass(rule, text);
    assert pass.findings + [] == pass.findings;
  }

  // ----- tables in which only the last rule can cut a word -----

  ghost predicate StartsOutsideWords(rule: Rule, text: string)
    requires Consumes(rule.pattern)
  {
    forall m <- FindAll(rule.pattern, text, 0) :: m.start < |text| && !IsWordChar(text[m.start])
  }

  /** The last rule may cut a word, but only at the end of a match; the others cut none. */
  ghost predicate LastCuts(before: seq<Rule>, last: Rule, table: seq<Rule>) {
    && table == before + [last] && SafeTable(table) && SafeTable(before)
    && (forall r <- before :: Uncut(r))
    && Consumes(last.pattern) && forall text :: StartsOutsideWords(last, text)
  }

  /** What the last rule is given, in a scan of its category. */
  ghost function Given(before: seq<Rule>, last: Rule, text: string): string
    requires AllConsume(before)
  {
    ScanWith(before, last.category, text).redacted
  }

  /** The last rule bares a rule of one of these categories. */
  ghost predicate BaresIn(last: Rule, table: seq<Rule>, categories: set<string>, text: string)
    requires Consumes(last.pattern)
  {
    exists r <- table | r.category in categories :: BaresRule(last, r, text)
  }

  lemma Parts(before: seq<Rule>, last: Rule, table: seq<Rule>)
    requires LastCuts(before, last, table)
    ensures last in table && AllConsume(table) && AllConsume(before) && AllConsume([last]) && Safe(last, table)
    ensures forall r <- before :: r in table
    ensures forall r <- table :: r in before || r == last
  {
    hide Safe, Uncut, Consumes, StartsOutsideWords;
    ConsumesAll(table);
    ConsumesAll(before);
    SafeIn(table, last);
  }

  /** The scan of the last rule's category. */
  lemma LastScan(before: seq<Rule>, last: Rule, table: seq<Rule>, text: string)
    requires LastCuts(before, last, table)
    ensures AllConsume(table) && AllConsume(before)
    ensures ScanWith(table, last.category, text).redacted == Pass(last, Given(before, last, text)).redacted
    ensures Clean(before, last.category, Given(before, last, text))
  {
    hide Pass, Uncut, SafeTable, ScanWith, Consumes, AllConsume, StartsOutsideWords;
    Parts(before, last, table);
    ScanAppend(before, [last], last.category, text);
    UncutScanIsClean(before, table, last.category, text);
    OneRule(last, Given(before, last, text));
  }

  /** A rule quiet in what the last rule is given is quiet after it iff the last rule does not bare it. */
  lemma QuietUnlessBared(before: seq<Rule>, last: Rule, table: seq<Rule>, text: string, r: Rule)
    requires LastCuts(before, last, table) && r in table && (r == last || NoMatch(r.pattern, text))
    ensures NoMatch(r.pattern, Pass(last, text).redacted) <==> !BaresRule(last, r, text)
  {
    hide NoMatch, Pass, BaresRule, Uncut, SafeTable, Consumes, AllConsume, FindAll, Safe;
    Parts(before, last, table);
    assert StartsOutsideWords(last, text);
    if BaresRule(last, r, text) { BaredRuleIsFound(last, r, table, text); }
    if r == last {
      PassLeavesNoMatch(last, table, text);
    } else if !NoMatch(r.pattern, Pass(last, text).redacted) {
      FoundRuleIsBared(last, r, table, text);
    }
  }

  /** After a scan of the last rule's category, a category is clean iff it is clean but for what is bared. */
  lemma CleanUnlessBared(before: seq<Rule>, last: Rule, table: seq<Rule>, categories: set<string>, text: string)
    requires LastCuts(before, last, table) && AllConsume(before)
    requires forall r <- before | r.category in categories :: NoMatch(r.pattern, Given(before, last, text))
    ensures AllConsume(table)
    ensures (forall c <- categories :: Clean(table, c, ScanWith(table, last.category, text).redacted))
            <==> !BaresIn(last, table, categories, Given(before, last, text))
  {
    hide NoMatch, Pass, BaresRule, Uncut, SafeTable, Consumes, AllConsume, ScanWith, Safe, StartsOutsideWords;
    Parts(before, last, table);
    LastScan(before, last, table, text);
    var mid := Given(before, last, text);
    forall r <- table | r.category in categories
      ensures NoMatch(r.pattern, Pass(last, mid).redacted) <==> !BaresRule(last, r, mid)
    {
      QuietUnlessBared(before, last, table, mid, r);
    }
  }

  /** A second scan of the last rule's category finds nothing iff the last rule bares nothing of it. */
  lemma LastIsIdempotentIff(before: seq<Rule>, last: Rule, table: seq<Rule>, text: string)
    requires LastCuts(before, last, table)
    ensures AllConsume(table) && AllConsume(before)
    ensures var once := ScanWith(table, last.category, text).redacted;
            ScanWith(table, last.category, once) == Scan([], once) <==> !BaresIn(last, table, {last.category}, Given(before, last, text))
  {
    hide Uncut, SafeTable, Consumes, AllConsume, ScanWith, StartsOutsideWords, BaresIn, NoMatch;
    Parts(before, last, table);
    LastScan(before, last, table, text);
    CleanUnlessBared(before, last, table, {last.category}, text);
    QuietIffClean(table, last.category, ScanWith(table, last.category, text).redacted);
  }
}
