/** A scan, and a whole chain of scans, is undone from its findings and its redacted text alone. */
module Undo {
  import opened RuleTable
  import opened Regex
  import opened Redaction
  import opened Simultaneous
  import opened PassProperties

  /** Put the matches of one pass back, first to last: each start is an offset into the
      text of that pass, which is already restored up to there. */
  function Restore(findings: seq<Finding>, out: string, placeholder: string): string {
    if findings == [] then out
    else
      var f := findings[0];
      var next := if f.start + |placeholder| <= |out| then out[..f.start] + f.match_ + out[f.start + |placeholder|..] else out;
      Restore(findings[1..], next, placeholder)
  }

  /** Where the last run of findings of one rule begins. */
  function LastRun(findings: seq<Finding>): (g: nat)
    requires findings != []
    ensures g < |findings|
    ensures forall k | g <= k < |findings| :: findings[k].rule == findings[g].rule
    ensures g > 0 ==> findings[g - 1].rule != findings[g].rule
  {
    var n := |findings|;
    if n == 1 || findings[n - 2].rule != findings[n - 1].rule then n - 1 else LastRun(findings[..n - 1])
  }

  /** Undo the passes last to first, telling them apart by the rule names in the findings. */
  function Undone(table: seq<Rule>, findings: seq<Finding>, out: string): string {
    if findings == [] then out
    else
      var g := LastRun(findings);
      Undone(table, findings[..g], Restore(findings[g..], out, PlaceholderOf(table, findings[g].rule)))
  }

  lemma {:induction false} RestoreUndoesSubstitute(rule: Rule, text: string, spans: seq<Span>, from: nat)
    requires Ascending(spans, from, |text|) && Redaction.Within(spans, |text|)
    requires InOrder(EditsOf(spans, rule.placeholder), from, |text|)
    ensures var out := text[..from] + Substitute(text, EditsOf(spans, rule.placeholder), from);
            Restore(FindingsOf(rule, text, spans), out, rule.placeholder) == text
    decreases |spans|
  {
    hide Substitute, InOrder;
    var ph := rule.placeholder;
    var out := text[..from] + Substitute(text, EditsOf(spans, ph), from);
    if spans == [] {
      assert EditsOf(spans, ph) == [];
      NoEdits(text, from);
      assert out == text;
    } else {
      var m := spans[0];
      PassUnfolds(text, spans, ph, from);
      var rest := Substitute(text, EditsOf(spans[1..], ph), m.end);
      var findings := FindingsOf(rule, text, spans);
      assert findings[1..] == FindingsOf(rule, text, spans[1..]);
      PutBack(text, from, m, ph, rest, out);
      RestoreUndoesSubstitute(rule, text, spans[1..], m.end);
    }
  }

  lemma PutBack(text: string, from: nat, m: Span, ph: string, rest: string, out: string)
    requires from <= m.start <= m.end <= |text| && out == text[..from] + (text[from..m.start] + ph + rest)
    ensures m.start + |ph| <= |out|
    ensures out[..m.start] + text[m.start..m.end] + out[m.start + |ph|..] == text[..m.end] + rest
  {
    assert out[..m.start] == text[..m.start] && out[m.start + |ph|..] == rest;
    assert text[..m.start] + text[m.start..m.end] == text[..m.end];
  }

  lemma PassIsUndone(table: seq<Rule>, k: nat, text: string)
    requires k < |table| && SafeTable(table)
    ensures Undone(table, Pass(table[k], text).findings, Pass(table[k], text).redacted) == text
    ensures forall f <- Pass(table[k], text).findings :: f.rule == table[k].name
  {
    var rule := table[k];
    var spans := FindAll(rule.pattern, text, 0);
    FindAllIsLeftmost(rule.pattern, text, 0);
    AscendingInOrder(spans, rule.placeholder, 0, |text|);
    LookupFinds(table, k);
    RestoreUndoesSubstitute(rule, text, spans, 0);
    var pass := Pass(rule, text);
    assert pass.redacted == text[..0] + pass.redacted;
    if pass.findings != [] {
      var g := LastRun(pass.findings);
      assert g == 0 && pass.findings[0..] == pass.findings;
    } else {
      assert spans == [];
    }
  }

  lemma LastRunIsUndoneFirst(table: seq<Rule>, findings: seq<Finding>, out: string)
    requires findings != []
    ensures var g := LastRun(findings);
            Undone(table, findings, out)
            == Undone(table, findings[..g], Restore(findings[g..], out, PlaceholderOf(table, findings[g].rule)))
  {}

  lemma {:induction false} UndoneAppend(table: seq<Rule>, a: seq<Finding>, b: seq<Finding>, out: string)
    requires a != [] && b != [] ==> a[|a| - 1].rule != b[0].rule
    ensures Undone(table, a + b, out) == Undone(table, a, Undone(table, b, out))
    decreases |b|
  {
    hide Undone, Restore, LastRun, PlaceholderOf;
    if b == [] {
      assert a + b == a;
      NothingToUndo(table, out);
    } else {
      var g := LastRun(b);
      RunOfAppend(a, b);
      LastRunIsUndoneFirst(table, a + b, out);
      LastRunIsUndoneFirst(table, b, out);
      SlicesOfAppend(a, b, g);
      UndoneAppend(table, a, b[..g], Restore(b[g..], out, PlaceholderOf(table, b[g].rule)));
    }
  }

  lemma NothingToUndo(table: seq<Rule>, out: string)
    ensures Undone(table, [], out) == out
  {}

  lemma SlicesOfAppend(a: seq<Finding>, b: seq<Finding>, g: nat)
    requires g < |b|
    ensures (a + b)[|a| + g..] == b[g..] && (a + b)[..|a| + g] == a + b[..g] && (a + b)[|a| + g] == b[g]
  {}

  lemma {:induction false} RunOfAppend(a: seq<Finding>, b: seq<Finding>)
    requires b != [] && (a != [] ==> a[|a| - 1].rule != b[0].rule)
    ensures LastRun(a + b) == |a| + LastRun(b)
    decreases |b|
  {
    var c, n := a + b, |a| + |b|;
    assert c[n - 1] == b[|b| - 1];
    if |b| > 1 {
      assert c[n - 2] == b[|b| - 2];
      assert c[..n - 1] == a + b[..|b| - 1];
      RunOfAppend(a, b[..|b| - 1]);
    }
  }

  lemma {:induction false} NamesOf(table: seq<Rule>, k: nat, category: string, text: string)
    requires k <= |table| && SafeTable(table) && AllConsume(table[k..])
    ensures forall f <- ScanWith(table[k..], category, text).findings ::
              exists i | k <= i < |table| :: table[i].category == category && table[i].name == f.rule
    decreases |table| - k
  {
    if k < |table| {
      assert table[k..][0] == table[k] && table[k..][1..] == table[k + 1..];
      if table[k].category != category {
        NamesOf(table, k + 1, category, text);
      } else {
        PassIsUndone(table, k, text);
        NamesOf(table, k + 1, category, Pass(table[k], text).redacted);
      }
    }
  }

  /** The original text is a function of the redacted text and the findings. */
  lemma {:induction false} ScanIsUndone(table: seq<Rule>, k: nat, category: string, text: string)
    requires k <= |table| && SafeTable(table) && AllConsume(table[k..])
    ensures var scan := ScanWith(table[k..], category, text);
            Undone(table, scan.findings, scan.redacted) == text
    decreases |table| - k
  {
    if k < |table| {
      assert table[k..][0] == table[k] && table[k..][1..] == table[k + 1..];
      if table[k].category != category {
        ScanIsUndone(table, k + 1, category, text);
      } else {
        var pass := Pass(table[k], text);
        var rest := ScanWith(table[k + 1..], category, pass.redacted);
        PassIsUndone(table, k, text);
        ScanIsUndone(table, k + 1, category, pass.redacted);
        NamesOf(table, k + 1, category, pass.redacted);
        if pass.findings != [] && rest.findings != [] {
          assert rest.findings[0] in rest.findings;
        }
        UndoneAppend(table, pass.findings, rest.findings, rest.redacted);
      }
    }
  }

  /** Redaction loses nothing: findings and redacted text give the scanned text back. */
  lemma RedactionIsReversible(table: seq<Rule>, category: string, text: string)
    requires SafeTable(table)
    ensures var scan := ScanWith(table, category, text);
            Undone(table, scan.findings, scan.redacted) == text
  {
    assert table[0..] == table;
    ScanIsUndone(table, 0, category, text);
  }

  // ----- a whole chain of scans -----

  ghost predicate RuleQuiet(table: seq<Rule>, name: string, text: string) {
    exists i | 0 <= i < |table| :: table[i].name == name && NoMatch(table[i].pattern, text)
  }

  ghost predicate RuleFires(table: seq<Rule>, name: string, text: string) {
    exists i | 0 <= i < |table| :: table[i].name == name && !NoMatch(table[i].pattern, text)
  }

  lemma QuietOrFires(table: seq<Rule>, name: string, text: string)
    requires NamesDistinct(table)
    ensures !(RuleQuiet(table, name, text) && RuleFires(table, name, text))
  {
    hide NoMatch;
  }

  lemma PassIsQuietAfter(table: seq<Rule>, k: nat, text: string)
    requires k < |table| && SafeTable(table)
    ensures NoMatch(table[k].pattern, Pass(table[k], text).redacted)
  {
    PassLeavesNoMatch(table[k], table, text);
  }

  /** The rule that found last has nothing left to find in the text the scan leaves. */
  lemma {:induction false} LastIsQuiet(table: seq<Rule>, k: nat, category: string, text: string)
    requires k <= |table| && SafeTable(table) && AllConsume(table[k..])
    ensures var scan := ScanWith(table[k..], category, text);
            scan.findings != [] ==> RuleQuiet(table, scan.findings[|scan.findings| - 1].rule, scan.redacted)
    decreases |table| - k
  {
    hide NoMatch, Pass, SafeTable;
    if k < |table| {
      assert table[k..][0] == table[k] && table[k..][1..] == table[k + 1..];
      if table[k].category != category {
        LastIsQuiet(table, k + 1, category, text);
      } else {
        var pass := Pass(table[k], text);
        LastIsQuiet(table, k + 1, category, pass.redacted);
        PassIsUndone(table, k, text);
        PassIsQuietAfter(table, k, text);
        QuietIffClean(table[k + 1..], category, pass.redacted);
        if pass.findings != [] { assert pass.findings[|pass.findings| - 1] in pass.findings; }
      }
    }
  }

  /** The rule that finds first has something to find in the text the scan was given. */
  lemma {:induction false} FirstFires(table: seq<Rule>, k: nat, category: string, text: string)
    requires k <= |table| && SafeTable(table) && AllConsume(table[k..])
    ensures var scan := ScanWith(table[k..], category, text);
            scan.findings != [] ==> RuleFires(table, scan.findings[0].rule, text)
    decreases |table| - k
  {
    hide NoMatch, Pass, SafeTable;
    if k < |table| {
      assert table[k..][0] == table[k] && table[k..][1..] == table[k + 1..];
      if table[k].category != category {
        FirstFires(table, k + 1, category, text);
      } else {
        var pass := Pass(table[k], text);
        FirstFires(table, k + 1, category, pass.redacted);
        PassIsUndone(table, k, text);
        QuietPass(table[k], text);
        if pass.findings != [] { assert pass.findings[0] in pass.findings; }
      }
    }
  }

  lemma {:induction false} ChainFirstFires(table: seq<Rule>, categories: seq<string>, text: string)
    requires SafeTable(table)
    ensures var chain := ScanChain(table, categories, text);
            chain.findings != [] ==> RuleFires(table, chain.findings[0].rule, text)
    decreases |categories|
  {
    if categories != [] {
      hide SafeTable, ScanWith, RuleFires;
      assert table[0..] == table;
      FirstFires(table, 0, categories[0], text);
      QuietIffClean(table, categories[0], text);
      ChainFirstFires(table, categories[1..], ScanWith(table, categories[0], text).redacted);
    }
  }

  /** A whole chain of scans, categories repeated or not, is undone from the findings and the redacted
      text: the rule that found last in one scan is never the first to find after it, so the runs of
      findings are the passes. */
  lemma {:induction false} ChainIsReversible(table: seq<Rule>, categories: seq<string>, text: string)
    requires SafeTable(table)
    ensures var chain := ScanChain(table, categories, text);
            Undone(table, chain.findings, chain.redacted) == text
    decreases |categories|
  {
    if categories != [] {
      hide SafeTable, ScanWith, RuleFires, RuleQuiet, Undone;
      var first := ScanWith(table, categories[0], text);
      var rest := ScanChain(table, categories[1..], first.redacted);
      RedactionIsReversible(table, categories[0], text);
      ChainIsReversible(table, categories[1..], first.redacted);
      if first.findings != [] && rest.findings != [] {
        assert table[0..] == table;
        LastIsQuiet(table, 0, categories[0], text);
        ChainFirstFires(table, categories[1..], first.redacted);
        NamesAreApart(table, first.findings[|first.findings| - 1].rule, rest.findings[0].rule, first.redacted);
      }
      UndoneAppend(table, first.findings, rest.findings, rest.redacted);
    }
  }

  lemma NamesAreApart(table: seq<Rule>, last: string, next: string, text: string)
    requires SafeTable(table) && RuleQuiet(table, last, text) && RuleFires(table, next, text)
    ensures last != next
  {
    QuietOrFires(table, last, text);
  }
}
