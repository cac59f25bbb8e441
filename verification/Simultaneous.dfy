/** The chain of "replace as you go" passes is one simultaneous substitution on the
    original text: no pattern ever touches a placeholder. */
module Simultaneous {
  import opened Regex
  import opened RuleTable
  import opened Redaction

  /** A partly redacted text, remembering what each placeholder stands for. */
  datatype Cell = Keep(c: char) | Hole(match_: string, placeholder: string)

  function OutOf(c: Cell): string { if c.Keep? then [c.c] else c.placeholder }

  function OrigOf(c: Cell): string { if c.Keep? then [c.c] else c.match_ }

  function HolesOf(c: Cell): multiset<(string, string)> {
    if c.Keep? then multiset{} else multiset{(c.match_, c.placeholder)}
  }

  function Out(cells: seq<Cell>): string {
    if cells == [] then "" else OutOf(cells[0]) + Out(cells[1..])
  }

  function Orig(cells: seq<Cell>): string {
    if cells == [] then "" else OrigOf(cells[0]) + Orig(cells[1..])
  }

  function Holes(cells: seq<Cell>): multiset<(string, string)> {
    if cells == [] then multiset{} else HolesOf(cells[0]) + Holes(cells[1..])
  }

  lemma Head(a: seq<Cell>, b: seq<Cell>)
    requires a != []
    ensures (a + b)[0] == a[0] && (a + b)[1..] == a[1..] + b
  {}

  lemma {:induction false} OutAppend(a: seq<Cell>, b: seq<Cell>)
    ensures Out(a + b) == Out(a) + Out(b)
  {
    hide OutOf;
    if a == [] {
      assert a + b == b;
    } else {
      Head(a, b);
      OutAppend(a[1..], b);
    }
  }

  lemma {:induction false} OrigAppend(a: seq<Cell>, b: seq<Cell>)
    ensures Orig(a + b) == Orig(a) + Orig(b)
  {
    hide OrigOf;
    if a == [] {
      assert a + b == b;
    } else {
      Head(a, b);
      OrigAppend(a[1..], b);
    }
  }

  lemma {:induction false} HolesAppend(a: seq<Cell>, b: seq<Cell>)
    ensures Holes(a + b) == Holes(a) + Holes(b)
  {
    hide HolesOf;
    if a == [] {
      assert a + b == b;
    } else {
      Head(a, b);
      HolesAppend(a[1..], b);
    }
  }

  lemma Append(a: seq<Cell>, b: seq<Cell>)
    ensures Out(a + b) == Out(a) + Out(b)
    ensures Orig(a + b) == Orig(a) + Orig(b)
    ensures Holes(a + b) == Holes(a) + Holes(b)
  {
    OutAppend(a, b);
    OrigAppend(a, b);
    HolesAppend(a, b);
  }

  /** Placeholders come from the table; what they stand for is nonempty and bracket-free. */
  ghost predicate Good(cells: seq<Cell>, table: seq<Rule>) {
    forall k | 0 <= k < |cells| && cells[k].Hole? ::
      && cells[k].match_ != "" && '[' !in cells[k].match_
      && exists q <- table :: q.placeholder == cells[k].placeholder
  }

  lemma NotInside(ph: string, rule: Rule, table: seq<Rule>, text: string, i: nat, j: nat, from: nat)
    requires Safe(rule, table) && exists q <- table :: q.placeholder == ph
    requires from <= i < j <= |text| && from + |ph| <= |text| && text[from..from + |ph|] == ph
    requires Matches(rule.pattern, text, i, j) && '[' !in text[i..j] && ']' !in text[i..j]
    ensures from + |ph| <= i
  {
    hide Matches, Sound;
    var last := from + |ph| - 1;
    assert text[from] == text[from..last + 1][0] == '[' && text[last] == text[from..last + 1][|ph| - 1] == ']';
    if i <= last < j { InStretch(text, i, j, last); }
    assert text[i..j][0] == text[i];
    if from < i && j <= last {
      assert text[i..j] == text[from..last + 1][i - from..j - from];
      StretchOfBody(ph, i - from, j - from);
    }
  }

  lemma InStretch(text: string, i: nat, j: nat, k: nat)
    requires i <= k < j <= |text|
    ensures text[k] in text[i..j]
  {
    assert text[i..j][k - i] == text[k];
  }

  lemma StretchOfBody(ph: string, x: nat, y: nat)
    requires 1 <= x <= y < |ph|
    ensures ph[x..y] == Body(ph)[x - 1..y - 1]
  {
    BodyStretch(ph, x - 1, y - 1);
  }

  /** A bracket-free match starts on a cell edge: it cannot start inside a placeholder. */
  lemma {:induction false} StartsOnEdge(cells: seq<Cell>, rule: Rule, table: seq<Rule>, text: string, i: nat, j: nat, from: nat)
      returns (a: nat)
    requires Good(cells, table) && Safe(rule, table)
    requires from <= i < j <= |text| && text[from..] == Out(cells)
    requires Matches(rule.pattern, text, i, j) && '[' !in text[i..j] && ']' !in text[i..j]
    ensures a <= |cells| && Out(cells[a..]) == text[i..] && Out(cells[..a]) == text[from..i]
    decreases |cells|
  {
    hide Safe, Matches, Out, Orig, Holes;
    if i == from {
      a := 0;
      NoCells(cells);
    } else {
      CellUnfolds(cells);
      var first, tail := OutOf(cells[0]), cells[1..];
      var next := from + |first|;
      Cut(text, from, first, Out(tail));
      if cells[0].Hole? {
        NotInside(first, rule, table, text, i, j, from);
      }
      var b := StartsOnEdge(tail, rule, table, text, i, j, next);
      a := b + 1;
      assert cells[a..] == tail[b..];
      CellUnfolds(cells[..a]);
      assert cells[..a][1..] == tail[..b];
      assert text[from..i] == text[from..next] + text[next..i];
    }
  }

  lemma NoCells(cells: seq<Cell>)
    ensures cells[0..] == cells && cells[..0] == [] && Out([]) == ""
  {}

  lemma CellUnfolds(cells: seq<Cell>)
    ensures Out([]) == Orig([]) == "" && Holes([]) == multiset{}
    ensures cells != [] ==> Out(cells) == OutOf(cells[0]) + Out(cells[1..])
    ensures cells != [] ==> Orig(cells) == OrigOf(cells[0]) + Orig(cells[1..])
    ensures cells != [] ==> Holes(cells) == HolesOf(cells[0]) + Holes(cells[1..])
  {}

  lemma Cut(text: string, from: nat, first: string, rest: string)
    requires from <= |text| && text[from..] == first + rest
    ensures from + |first| <= |text| && text[from..from + |first|] == first && text[from + |first|..] == rest
  {
    assert text[from..][..|first|] == first && text[from..][|first|..] == rest;
  }

  lemma FirstOut(cells: seq<Cell>, table: seq<Rule>)
    requires cells != [] && Good(cells, table) && forall q <- table :: IsPlaceholder(q.placeholder)
    ensures |Out(cells)| > 0 && Out(cells)[0] == if cells[0].Keep? then cells[0].c else '['
  {}

  /** A bracket-free prefix is made of kept characters only. */
  lemma {:induction false} PrefixIsKept(cells: seq<Cell>, n: nat, table: seq<Rule>)
    requires n <= |Out(cells)| && '[' !in Out(cells)[..n]
    requires Good(cells, table) && forall q <- table :: IsPlaceholder(q.placeholder)
    ensures n <= |cells| && Orig(cells[..n]) == Out(cells)[..n]
    ensures Out(cells[n..]) == Out(cells)[n..] && Holes(cells[..n]) == multiset{}
    decreases |cells|
  {
    hide IsPlaceholder;
    if n == 0 {
      assert cells[n..] == cells;
    } else {
      FirstOut(cells, table);
      assert Out(cells)[..n][0] == Out(cells)[0];
      assert Out(cells)[1..] == Out(cells[1..]);
      assert Out(cells[1..])[..n - 1] == Out(cells)[..n][1..];
      PrefixIsKept(cells[1..], n - 1, table);
      assert cells[n..] == cells[1..][n - 1..];
      assert cells[..n][1..] == cells[1..][..n - 1];
    }
  }

  lemma SplitCells(cells: seq<Cell>, a: nat, n: nat)
    requires a + n <= |cells|
    ensures Orig(cells) == Orig(cells[..a]) + (Orig(cells[a..][..n]) + Orig(cells[a..][n..]))
    ensures Holes(cells) == Holes(cells[..a]) + (Holes(cells[a..][..n]) + Holes(cells[a..][n..]))
  {
    hide Out, Orig, Holes;
    var mid, rest := cells[a..][..n], cells[a..][n..];
    Append(mid, rest);
    assert mid + rest == cells[a..];
    Append(cells[..a], cells[a..]);
    assert cells[..a] + cells[a..] == cells;
  }

  /** The match sits on kept characters: those between cells[..a] and cells[a + n..]. */
  lemma MatchIsKept(cells: seq<Cell>, rule: Rule, table: seq<Rule>, text: string, m: Span, from: nat) returns (a: nat)
    requires Good(cells, table) && Safe(rule, table)
    requires from <= m.start < m.end <= |text| && text[from..] == Out(cells)
    requires Matches(rule.pattern, text, m.start, m.end)
    ensures '[' !in text[m.start..m.end]
    ensures a + (m.end - m.start) <= |cells|
    ensures var before, rest := cells[..a], cells[a + (m.end - m.start)..];
            && Out(before) == text[from..m.start] && Out(rest) == text[m.end..]
            && Orig(cells) == Orig(before) + (text[m.start..m.end] + Orig(rest))
            && Holes(cells) == Holes(before) + Holes(rest)
  {
    hide Matches, Inert, Avoids, Out, Orig, Holes;
    AvoidsSound(rule.pattern, '[', text, m.start, m.end);
    AvoidsSound(rule.pattern, ']', text, m.start, m.end);
    a := StartsOnEdge(cells, rule, table, text, m.start, m.end, from);
    var n := m.end - m.start;
    assert text[m.start..][..n] == text[m.start..m.end] && text[m.start..][n..] == text[m.end..];
    PrefixIsKept(cells[a..], n, table);
    SplitCells(cells, a, n);
    assert cells[a..][n..] == cells[a + n..];
  }

  /** What a pass replaced, and by what. */
  function Replaced(text: string, spans: seq<Span>, placeholder: string): seq<(string, string)>
    requires Redaction.Within(spans, |text|)
  {
    seq(|spans|, k requires 0 <= k < |spans| => assert spans[k] in spans; (text[spans[k].start..spans[k].end], placeholder))
  }

  ghost predicate AreMatches(re: Regex, text: string, spans: seq<Span>) {
    forall m <- spans :: m.start <= m.end <= |text| && Matches(re, text, m.start, m.end)
  }

  lemma Assemble(before: seq<Cell>, hole: Cell, tail: seq<Cell>, table: seq<Rule>) returns (cells: seq<Cell>)
    requires hole.Hole? && Good(before, table) && Good([hole], table) && Good(tail, table)
    ensures Good(cells, table)
    ensures Out(cells) == Out(before) + hole.placeholder + Out(tail)
    ensures Orig(cells) == Orig(before) + (hole.match_ + Orig(tail))
    ensures Holes(cells) == Holes(before) + multiset{(hole.match_, hole.placeholder)} + Holes(tail)
  {
    hide Out, Orig, Holes;
    cells := before + ([hole] + tail);
    Append(before, [hole] + tail);
    assert ([hole] + tail)[1..] == tail;
    CellUnfolds([hole] + tail);
  }

  lemma PassUnfolds(text: string, spans: seq<Span>, ph: string, from: nat)
    requires spans != [] && Redaction.Within(spans, |text|)
    requires InOrder(EditsOf(spans, ph), from, |text|)
    ensures var m := spans[0]; 
              && m in spans
              && Redaction.Within(spans[1..], |text|)
              && InOrder(EditsOf(spans[1..], ph), m.end, |text|)
              && Substitute(text, EditsOf(spans, ph), from)
                 == text[from..m.start] + ph + Substitute(text, EditsOf(spans[1..], ph), m.end)
              && multiset(Replaced(text, spans, ph))
                 == multiset{(text[m.start..m.end], ph)} + multiset(Replaced(text, spans[1..], ph))
  {
    var m := spans[0];
    assert m in spans;
    assert EditsOf(spans, ph)[1..] == EditsOf(spans[1..], ph);
    assert Replaced(text, spans, ph) == [(text[m.start..m.end], ph)] + Replaced(text, spans[1..], ph);
  }

  /** A pass over a partly redacted text only turns kept characters into new holes. */
  lemma {:induction false} PassOnCells(cells: seq<Cell>, rule: Rule, table: seq<Rule>, text: string, spans: seq<Span>, from: nat)
      returns (after: seq<Cell>)
    requires Good(cells, table) && Safe(rule, table) && rule in table
    requires Ascending(spans, from, |text|) && AreMatches(rule.pattern, text, spans)
    requires text[from..] == Out(cells)
    requires InOrder(EditsOf(spans, rule.placeholder), from, |text|)
    ensures Good(after, table)
    ensures Out(after) == Substitute(text, EditsOf(spans, rule.placeholder), from)
    ensures Orig(after) == Orig(cells)
    ensures Holes(after) == Holes(cells) + multiset(Replaced(text, spans, rule.placeholder))
    decreases |spans|
  {
    hide Matches, Inert, Out, Orig, Holes;
    var ph := rule.placeholder;
    if spans == [] {
      after := cells;
    } else {
      var m := spans[0];
      assert m in spans;
      var a := MatchIsKept(cells, rule, table, text, m, from);
      var before, rest := cells[..a], cells[a + (m.end - m.start)..];
      var hole := Hole(text[m.start..m.end], ph);
      PassUnfolds(text, spans, ph, from);
      var tail := PassOnCells(rest, rule, table, text, spans[1..], m.end);
      after := Assemble(before, hole, tail, table);
    }
  }

  // ----- findings as (what was matched, what it was replaced by) -----

  function PlaceholderOf(table: seq<Rule>, name: string): string {
    if table == [] then "" else if table[0].name == name then table[0].placeholder else PlaceholderOf(table[1..], name)
  }

  function Pairs(table: seq<Rule>, findings: seq<Finding>): seq<(string, string)> {
    seq(|findings|, k requires 0 <= k < |findings| => (findings[k].match_, PlaceholderOf(table, findings[k].rule)))
  }

  lemma PairsAppend(table: seq<Rule>, a: seq<Finding>, b: seq<Finding>)
    ensures multiset(Pairs(table, a + b)) == multiset(Pairs(table, a)) + multiset(Pairs(table, b))
  {
    assert Pairs(table, a + b) == Pairs(table, a) + Pairs(table, b);
  }

  ghost predicate NamesDistinct(table: seq<Rule>) {
    forall i, j | 0 <= i < j < |table| :: table[i].name != table[j].name
  }

  lemma {:induction false} LookupFinds(table: seq<Rule>, k: nat)
    requires k < |table| && NamesDistinct(table)
    ensures PlaceholderOf(table, table[k].name) == table[k].placeholder
  {
    if k > 0 {
      LookupFinds(table[1..], k - 1);
    }
  }

  /** The facts about a whole table. */
  ghost predicate SafeTable(table: seq<Rule>) {
    NamesDistinct(table) && AllConsume(table) && forall r <- table :: Safe(r, table)
  }

  lemma ConsumesAll(table: seq<Rule>)
    requires SafeTable(table)
    ensures AllConsume(table)
  {
    hide Safe, NamesDistinct;
  }

  lemma CatalogueIsSafe()
    ensures SafeTable(Rules)
  {
    TableIsSafe();
    NamesAreDistinct();
  }

  // ----- chains of passes -----

  lemma PassKeepsCells(cells: seq<Cell>, k: nat, table: seq<Rule>) returns (after: seq<Cell>)
    requires SafeTable(table) && k < |table| && Good(cells, table)
    ensures Good(after, table) && Out(after) == Pass(table[k], Out(cells)).redacted && Orig(after) == Orig(cells)
    ensures Holes(after) == Holes(cells) + multiset(Pairs(table, Pass(table[k], Out(cells)).findings))
  {
    hide Matches, Inert, Out, Orig, Holes, FindAll, Sound;
    var rule, text := table[k], Out(cells);
    var spans := FindAll(rule.pattern, text, 0);
    FindAllIsLeftmost(rule.pattern, text, 0);
    AscendingInOrder(spans, rule.placeholder, 0, |text|);
    assert text[0..] == text;
    after := PassOnCells(cells, rule, table, text, spans, 0);
    LookupFinds(table, k);
    assert Pairs(table, Pass(rule, text).findings) == Replaced(text, spans, rule.placeholder);
  }

  lemma {:induction false} ScanKeepsCells(cells: seq<Cell>, k: nat, category: string, table: seq<Rule>) returns (after: seq<Cell>)
    requires k <= |table| && SafeTable(table) && AllConsume(table[k..]) && Good(cells, table)
    ensures var scan := ScanWith(table[k..], category, Out(cells));
            && Good(after, table) && Out(after) == scan.redacted && Orig(after) == Orig(cells)
            && Holes(after) == Holes(cells) + multiset(Pairs(table, scan.findings))
    decreases |table| - k
  {
    if k == |table| {
      after := cells;
    } else {
      var text := Out(cells);
      assert table[k..][0] == table[k] && table[k..][1..] == table[k + 1..];
      if table[k].category != category {
        after := ScanKeepsCells(cells, k + 1, category, table);
      } else {
        var pass := Pass(table[k], text);
        var mid := PassKeepsCells(cells, k, table);
        after := ScanKeepsCells(mid, k + 1, category, table);
        PairsAppend(table, pass.findings, ScanWith(table[k + 1..], category, pass.redacted).findings);
      }
    }
  }

  lemma {:induction false} ChainKeepsCells(cells: seq<Cell>, categories: seq<string>, table: seq<Rule>) returns (after: seq<Cell>)
    requires SafeTable(table) && Good(cells, table)
    ensures var scan := ScanChain(table, categories, Out(cells));
            && Good(after, table) && Out(after) == scan.redacted && Orig(after) == Orig(cells)
            && Holes(after) == Holes(cells) + multiset(Pairs(table, scan.findings))
    decreases |categories|
  {
    if categories == [] {
      after := cells;
    } else {
      assert table[0..] == table;
      var mid := ScanKeepsCells(cells, 0, categories[0], table);
      after := ChainKeepsCells(mid, categories[1..], table);
      var first := ScanWith(table, categories[0], Out(cells));
      PairsAppend(table, first.findings, ScanChain(table, categories[1..], first.redacted).findings);
    }
  }

  // ----- cells as edits of the original text -----

  function Unredacted(text: string): (cells: seq<Cell>)
    ensures Out(cells) == text && Orig(cells) == text && Holes(cells) == multiset{}
    ensures forall k | 0 <= k < |cells| :: cells[k].Keep?
  {
    if text == "" then [] else [Keep(text[0])] + Unredacted(text[1..])
  }

  function EditsFrom(cells: seq<Cell>, from: nat): seq<Edit> {
    if cells == [] then []
    else if cells[0].Keep? then EditsFrom(cells[1..], from + 1)
    else [Edit(from, from + |cells[0].match_|, cells[0].placeholder)] + EditsFrom(cells[1..], from + |cells[0].match_|)
  }

  /** What a list of edits replaces, and by what. */
  function Made(text: string, edits: seq<Edit>, from: nat): (r: seq<(string, string)>)
    requires InOrder(edits, from, |text|)
  {
    if edits == [] then []
    else
      [(text[edits[0].start..edits[0].end], edits[0].placeholder)] + Made(text, edits[1..], edits[0].end)
  }

  lemma Widen(text: string, edits: seq<Edit>, from: nat)
    requires from < |text| && InOrder(edits, from + 1, |text|)
    ensures InOrder(edits, from, |text|)
    ensures Substitute(text, edits, from) == [text[from]] + Substitute(text, edits, from + 1)
    ensures Made(text, edits, from) == Made(text, edits, from + 1)
  {
    if edits == [] {
      assert text[from..] == [text[from]] + text[from + 1..];
    } else {
      var kept := text[from + 1..edits[0].start];
      assert text[from..edits[0].start] == [text[from]] + kept;
      AddAssoc([text[from]], kept, edits[0].placeholder);
      AddAssoc([text[from]], kept + edits[0].placeholder, Substitute(text, edits[1..], edits[0].end));
    }
  }

  lemma AddAssoc(a: string, b: string, c: string)
    ensures (a + b) + c == a + (b + c)
  {}

  lemma {:induction false} CellsAreEdits(cells: seq<Cell>, table: seq<Rule>, text: string, from: nat)
    requires Good(cells, table) && from <= |text| && text[from..] == Orig(cells)
    ensures var edits := EditsFrom(cells, from);
            && InOrder(edits, from, |text|)
            && Substitute(text, edits, from) == Out(cells)
            && multiset(Made(text, edits, from)) == Holes(cells)
    decreases |cells|
  {
    hide Substitute, Made, InOrder, Out, Orig, Holes, EditsFrom, Good;
    CellUnfolds(cells);
    EditsUnfold(cells, table, from);
    if cells == [] {
      NoEdits(text, from);
    } else {
      var head := OrigOf(cells[0]);
      var next := from + |head|;
      Cut(text, from, head, Orig(cells[1..]));
      CellsAreEdits(cells[1..], table, text, next);
      var rest := EditsFrom(cells[1..], next);
      if cells[0].Keep? {
        assert text[from] == text[from..next][0] == cells[0].c;
        Widen(text, rest, from);
      } else {
        Prepend(text, Edit(from, next, cells[0].placeholder), rest);
      }
    }
  }

  lemma EditsUnfold(cells: seq<Cell>, table: seq<Rule>, from: nat)
    requires Good(cells, table)
    ensures cells == [] ==> EditsFrom(cells, from) == []
    ensures cells != [] ==> Good(cells[1..], table) && |OrigOf(cells[0])| > 0
    ensures cells != [] && cells[0].Keep? ==> EditsFrom(cells, from) == EditsFrom(cells[1..], from + 1)
    ensures cells != [] && cells[0].Hole? ==>
              var next := from + |cells[0].match_|;
              EditsFrom(cells, from) == [Edit(from, next, cells[0].placeholder)] + EditsFrom(cells[1..], next)
  {}

  lemma NoEdits(text: string, from: nat)
    requires from <= |text|
    ensures InOrder([], from, |text|) && Substitute(text, [], from) == text[from..] && Made(text, [], from) == []
  {}

  lemma Prepend(text: string, e: Edit, rest: seq<Edit>)
    requires e.start < e.end <= |text| && InOrder(rest, e.end, |text|)
    ensures InOrder([e] + rest, e.start, |text|)
    ensures Substitute(text, [e] + rest, e.start) == e.placeholder + Substitute(text, rest, e.end)
    ensures multiset(Made(text, [e] + rest, e.start))
            == multiset{(text[e.start..e.end], e.placeholder)} + multiset(Made(text, rest, e.end))
  {
    assert ([e] + rest)[1..] == rest;
    assert Made(text, [e] + rest, e.start) == [(text[e.start..e.end], e.placeholder)] + Made(text, rest, e.end);
  }

  /** redacted is text with pairwise disjoint spans of it replaced all at once; pairs are
      the contents of those spans with their placeholders. */
  ghost predicate OneSubstitution(text: string, redacted: string, pairs: multiset<(string, string)>) {
    exists edits: seq<Edit> ::
      && InOrder(edits, 0, |text|)
      && Substitute(text, edits, 0) == redacted
      && multiset(Made(text, edits, 0)) == pairs
  }

  /** Any chain of category scans is one simultaneous substitution on the original text,
      whose replaced spans are exactly the findings. */
  lemma ChainIsOneSubstitution(table: seq<Rule>, categories: seq<string>, text: string)
    requires SafeTable(table)
    ensures var scan := ScanChain(table, categories, text);
            OneSubstitution(text, scan.redacted, multiset(Pairs(table, scan.findings)))
  {
    var cells := Unredacted(text);
    var after := ChainKeepsCells(cells, categories, table);
    CellsAreEdits(after, table, text, 0);
    var edits := EditsFrom(after, 0);
    assert InOrder(edits, 0, |text|);
  }

  // ----- counting brackets -----

  function Opens(s: string): nat { multiset(s)['['] }

  lemma {:induction false} HolesOpen(cells: seq<Cell>, table: seq<Rule>)
    requires Good(cells, table) && forall q <- table :: IsPlaceholder(q.placeholder)
    ensures Opens(Out(cells)) == Opens(Orig(cells)) + |Holes(cells)|
    decreases |cells|
  {
    if cells != [] {
      HolesOpen(cells[1..], table);
      if cells[0].Keep? {
      } else {
        OneOpen(cells[0].placeholder);
        assert '[' !in cells[0].match_;
      }
    }
  }

  lemma OneOpen(ph: string)
    requires IsPlaceholder(ph)
    ensures Opens(ph) == 1
  {
    var body := Body(ph);
    assert ph == ['['] + body + [']'];
    assert multiset(ph) == multiset(['[']) + multiset(body) + multiset([']']);
    forall k | 0 <= k < |body| ensures body[k] != '[' { assert body[k] == ph[k + 1]; }
    assert '[' !in body;
  }

  /** Every finding puts exactly one opening bracket into the text. */
  lemma FindingsAreBrackets(table: seq<Rule>, categories: seq<string>, text: string)
    requires SafeTable(table)
    ensures var scan := ScanChain(table, categories, text);
            Opens(scan.redacted) == Opens(text) + |scan.findings|
  {
    var cells := Unredacted(text);
    var after := ChainKeepsCells(cells, categories, table);
    HolesOpen(after, table);
    assert |Pairs(table, ScanChain(table, categories, text).findings)| == |ScanChain(table, categories, text).findings|;
  }
}
