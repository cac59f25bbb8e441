/** scanCategory: find, record, splice, and hand the rewritten text to the next rule. */
module Redaction {
  import opened Regex
  import opened RuleTable

  /** match_, start and end index the text as it stood at that rule's pass. */
  datatype Finding = Finding(category: string, rule: string, severity: Severity, match_: string, start: nat, end: nat)

  // ----- simultaneous replacement -----

  /** Replace text[start..end] by the placeholder. */
  datatype Edit = Edit(start: nat, end: nat, placeholder: string)

  /** Edits that are nonempty, in order and disjoint within [from, to). */
  predicate InOrder(edits: seq<Edit>, from: nat, to: nat) {
    if edits == [] then from <= to
    else from <= edits[0].start < edits[0].end <= to && InOrder(edits[1..], edits[0].end, to)
  }

  /** text[from..] with all the edits made at once. */
  function Substitute(text: string, edits: seq<Edit>, from: nat): string
    requires InOrder(edits, from, |text|)
  {
    if edits == [] then text[from..]
    else text[from..edits[0].start] + edits[0].placeholder + Substitute(text, edits[1..], edits[0].end)
  }

  // ----- one pass, and a chain of passes -----

  function EditsOf(spans: seq<Span>, placeholder: string): seq<Edit> {
    seq(|spans|, k requires 0 <= k < |spans| => Edit(spans[k].start, spans[k].end, placeholder))
  }

  predicate Within(spans: seq<Span>, n: nat) {
    forall m <- spans :: m.start <= m.end <= n
  }

  function FindingsOf(rule: Rule, text: string, spans: seq<Span>): seq<Finding>
    requires Within(spans, |text|)
  {
    seq(|spans|, k requires 0 <= k < |spans| =>
      assert spans[k] in spans;
      Finding(rule.category, rule.name, rule.severity, text[spans[k].start..spans[k].end], spans[k].start, spans[k].end))
  }

  lemma {:induction false} AscendingInOrder(spans: seq<Span>, placeholder: string, from: nat, to: nat)
    requires Ascending(spans, from, to)
    ensures InOrder(EditsOf(spans, placeholder), from, to)
    decreases |spans|
  {
    if spans != [] {
      AscendingInOrder(spans[1..], placeholder, spans[0].end, to);
      assert EditsOf(spans, placeholder)[1..] == EditsOf(spans[1..], placeholder);
    }
  }

  datatype Scan = Scan(findings: seq<Finding>, redacted: string)

  function Pass(rule: Rule, text: string): (r: Scan)
    requires Consumes(rule.pattern)
  {
    var spans := FindAll(rule.pattern, text, 0);
    FindAllIsLeftmost(rule.pattern, text, 0);
    AscendingInOrder(spans, rule.placeholder, 0, |text|);
    Scan(FindingsOf(rule, text, spans), Substitute(text, EditsOf(spans, rule.placeholder), 0))
  }

  predicate AllConsume(rules: seq<Rule>) {
    forall r <- rules :: Consumes(r.pattern)
  }

  /** What scanCategory computes, with the table as a parameter. */
  function ScanWith(rules: seq<Rule>, category: string, text: string): (r: Scan)
    requires AllConsume(rules)
  {
    if rules == [] then Scan([], text)
    else if rules[0].category != category then ScanWith(rules[1..], category, text)
    else
      var pass := Pass(rules[0], text);
      var rest := ScanWith(rules[1..], category, pass.redacted);
      Scan(pass.findings + rest.findings, rest.redacted)
  }

  /** One scan after another, each on the text the last one left. */
  function ScanChain(rules: seq<Rule>, categories: seq<string>, text: string): Scan
    requires AllConsume(rules)
  {
    if categories == [] then Scan([], text)
    else
      var first := ScanWith(rules, categories[0], text);
      var rest := ScanChain(rules, categories[1..], first.redacted);
      Scan(first.findings + rest.findings, rest.redacted)
  }

  // ----- the loops of scanCategory -----

  method Record(rule: Rule, text: string, spans: seq<Span>, before: seq<Finding>) returns (findings: seq<Finding>)
    requires Within(spans, |text|)
    ensures findings == before + FindingsOf(rule, text, spans)
  {
    findings := before;
    for i := 0 to |spans|
      invariant findings == before + FindingsOf(rule, text, spans)[..i]
    {
      var m := spans[i];
      assert m in spans;
      findings := findings + [Finding(rule.category, rule.name, rule.severity, text[m.start..m.end], m.start, m.end)];
    }
  }

  lemma SpliceStep(text: string, spans: seq<Span>, placeholder: string, i: nat, prev: nat)
    requires i < |spans| && InOrder(EditsOf(spans, placeholder)[i..], prev, |text|)
    ensures var edits := EditsOf(spans, placeholder); var m := spans[i];
            && prev <= m.start < m.end <= |text|
            && InOrder(edits[i + 1..], m.end, |text|)
            && Substitute(text, edits[i..], prev) == text[prev..m.start] + placeholder + Substitute(text, edits[i + 1..], m.end)
  {
    var edits := EditsOf(spans, placeholder);
    assert edits[i..][0] == edits[i] && edits[i..][1..] == edits[i + 1..];
  }

  lemma NoEditsLeft(text: string, prev: nat)
    requires InOrder([], prev, |text|)
    ensures prev <= |text| && Substitute(text, [], prev) == text[prev..]
  {}

  method Splice(text: string, spans: seq<Span>, placeholder: string) returns (out: string)
    requires InOrder(EditsOf(spans, placeholder), 0, |text|)
    ensures out == Substitute(text, EditsOf(spans, placeholder), 0)
  {
    hide Substitute, InOrder;
    ghost var edits := EditsOf(spans, placeholder);
    out := "";
    var prev: nat := 0;
    assert edits[0..] == edits;
    for i := 0 to |spans|
      invariant InOrder(edits[i..], prev, |text|)
      invariant Substitute(text, edits, 0) == out + Substitute(text, edits[i..], prev)
    {
      SpliceStep(text, spans, placeholder, i, prev);
      out := out + text[prev..spans[i].start];
      out := out + placeholder;
      prev := spans[i].end;
    }
    assert edits[|spans|..] == [];
    NoEditsLeft(text, prev);
    out := out + text[prev..];
  }

  lemma ScanStep(rules: seq<Rule>, i: nat, category: string, text: string)
    requires i < |rules| && AllConsume(rules[i..])
    ensures AllConsume(rules[i + 1..]) && Consumes(rules[i].pattern)
    ensures rules[i].category != category ==> ScanWith(rules[i..], category, text) == ScanWith(rules[i + 1..], category, text)
    ensures rules[i].category == category ==>
              var pass := Pass(rules[i], text); var rest := ScanWith(rules[i + 1..], category, pass.redacted);
              ScanWith(rules[i..], category, text) == Scan(pass.findings + rest.findings, rest.redacted)
  {
    assert rules[i..][0] == rules[i] && rules[i..][1..] == rules[i + 1..];
  }

  /** Find, record and splice for one rule. */
  method RunRule(rule: Rule, text: string, before: seq<Finding>) returns (findings: seq<Finding>, redacted: string)
    requires Consumes(rule.pattern)
    ensures findings == before + Pass(rule, text).findings && redacted == Pass(rule, text).redacted
  {
    var spans := FindAll(rule.pattern, text, 0);
    FindAllIsLeftmost(rule.pattern, text, 0);
    AscendingInOrder(spans, rule.placeholder, 0, |text|);
    if |spans| == 0 { return before, text; }
    findings := Record(rule, text, spans, before);
    redacted := Splice(text, spans, rule.placeholder);
  }

  /** The table is the package variable that boot fills from the catalogue. */
  method ScanCategory(rules: seq<Rule>, text: string, category: string) returns (findings: seq<Finding>, redacted: string)
    requires AllConsume(rules)
    ensures Scan(findings, redacted) == ScanWith(rules, category, text)
  {
    hide Pass;
    ghost var goal := ScanWith(rules, category, text);
    findings, redacted := [], text;
    assert rules[0..] == rules;
    for i := 0 to |rules|
      invariant AllConsume(rules[i..])
      invariant goal.redacted == ScanWith(rules[i..], category, redacted).redacted
      invariant goal.findings == findings + ScanWith(rules[i..], category, redacted).findings
    {
      ScanStep(rules, i, category, redacted);
      if rules[i].category != category { continue; }
      findings, redacted := RunRule(rules[i], redacted, findings);
    }
  }
}
