/** Passes that never cut a word in two expose nothing at all. */
module UncutWords {
  import opened Regex
  import opened RuleTable
  import opened Redaction
  import opened Simultaneous
  import opened PassProperties

  /** Between two word characters. */
  predicate InWord(s: string, i: nat) { 0 < i < |s| && IsWordChar(s[i - 1]) && IsWordChar(s[i]) }

  ghost predicate CutsNoWord(text: string, spans: seq<Span>) {
    forall m <- spans :: !InWord(text, m.start) && !InWord(text, m.end)
  }

  lemma UncutCarries(text: string, from: nat, to: nat, p: nat, q: nat)
    requires from <= to <= |text| && p <= q <= to - from && !InWord(text, from) && !InWord(text, to)
    ensures Carries(text[from..to], p, q, text, from, false)
  {}

  lemma UncutPieceIsQuiet(re: Regex, text: string, from: nat, to: nat)
    requires from <= to <= |text| && !InWord(text, from) && !InWord(text, to) && NoMatch(re, text)
    ensures NoMatch(re, text[from..to])
  {
    hide Matches, InWord;
    forall p, q | 0 <= p <= q <= to - from && Matches(re, text[from..to], p, q) ensures false {
      UncutCarries(text, from, to, p, q);
      MatchCarries(re, text[from..to], p, q, text, from, false);
    }
  }

  lemma {:induction false} UncutPiecesAreQuiet(re: Regex, text: string, spans: seq<Span>, from: nat)
    requires Ascending(spans, from, |text|) && CutsNoWord(text, spans) && !InWord(text, from) && NoMatch(re, text)
    ensures AllQuiet(re, Pieces(text, spans, from))
    decreases |spans|
  {
    hide NoMatch, InWord;
    if spans == [] {
      assert text[from..] == text[from..|text|] && !InWord(text, |text|) by { AtEnd(text); }
      UncutPieceIsQuiet(re, text, from, |text|);
    } else {
      assert spans[0] in spans;
      UncutPieceIsQuiet(re, text, from, spans[0].start);
      UncutPiecesAreQuiet(re, text, spans[1..], spans[0].end);
    }
  }

  lemma AtEnd(text: string)
    ensures !InWord(text, 0) && !InWord(text, |text|)
  {}

  lemma SafeIn(table: seq<Rule>, r: Rule)
    requires SafeTable(table) && r in table
    ensures Safe(r, table) && Consumes(r.pattern)
  {
    hide Safe, Consumes;
  }

  /** A pass that cuts no word exposes no match of any rule. */
  lemma UncutKeepsQuiet(rule: Rule, other: Rule, table: seq<Rule>, text: string)
    requires SafeTable(table) && rule in table && Safe(other, table) && Consumes(rule.pattern)
    requires CutsNoWord(text, FindAll(rule.pattern, text, 0)) && NoMatch(other.pattern, text)
    ensures NoMatch(other.pattern, Pass(rule, text).redacted)
  {
    hide NoMatch, CutsNoWord, InWord, Safe, FindAll, Pass, Consumes;
    SafeIn(table, rule);
    PassSplits(rule, other, table, text);
    AtEnd(text);
    UncutPiecesAreQuiet(other.pattern, text, FindAll(rule.pattern, text, 0), 0);
  }

  /** The rule takes matches that neither begin nor end inside a word, in any text. */
  ghost predicate Uncut(r: Rule) {
    Consumes(r.pattern) && forall text :: CutsNoWord(text, FindAll(r.pattern, text, 0))
  }

  /** A scan with uncut rules exposes no match of any rule. */
  lemma {:induction false} ScanExposesNothing(rules: seq<Rule>, table: seq<Rule>, category: string, text: string, other: Rule)
    requires AllConsume(rules) && SafeTable(table) && Safe(other, table) && NoMatch(other.pattern, text)
    requires forall r <- rules | r.category == category :: r in table && Uncut(r)
    ensures NoMatch(other.pattern, ScanWith(rules, category, text).redacted)
    decreases |rules|
  {
    hide NoMatch, Pass, SafeTable, Safe, CutsNoWord, Consumes, FindAll;
    if rules != [] {
      assert rules[0] in rules && forall r <- rules[1..] :: r in rules;
      if rules[0].category == category {
        UncutKeepsQuiet(rules[0], other, table, text);
        ScanExposesNothing(rules[1..], table, category, Pass(rules[0], text).redacted, other);
      } else {
        ScanExposesNothing(rules[1..], table, category, text, other);
      }
    }
  }

  /** After a scan with uncut rules, none of them matches anywhere. */
  lemma {:induction false} UncutScanIsClean(rules: seq<Rule>, table: seq<Rule>, category: string, text: string)
    requires AllConsume(rules) && SafeTable(table)
    requires forall r <- rules | r.category == category :: r in table && Uncut(r)
    ensures Clean(rules, category, ScanWith(rules, category, text).redacted)
    decreases |rules|
  {
    hide NoMatch, Pass, SafeTable, Safe, Uncut, Consumes;
    if rules != [] {
      assert rules == [rules[0]] + rules[1..] && rules[0] in rules;
      if rules[0].category == category {
        PassLeavesNoMatch(rules[0], table, text);
        SafeIn(table, rules[0]);
        ScanExposesNothing(rules[1..], table, category, Pass(rules[0], text).redacted, rules[0]);
        UncutScanIsClean(rules[1..], table, category, Pass(rules[0], text).redacted);
      } else {
        UncutScanIsClean(rules[1..], table, category, text);
      }
    }
  }

  /** Scanning twice for a category of uncut rules is scanning once. */
  lemma UncutIsIdempotent(table: seq<Rule>, category: string, text: string)
    requires AllConsume(table) && SafeTable(table) && forall r <- table | r.category == category :: Uncut(r)
    ensures var once := ScanWith(table, category, text).redacted;
            ScanWith(table, category, once) == Scan([], once)
  {
    hide NoMatch, SafeTable, Uncut, ScanWith, AllConsume, Clean;
    UncutScanIsClean(table, table, category, text);
    QuietIffClean(table, category, ScanWith(table, category, text).redacted);
  }
}
