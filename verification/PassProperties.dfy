/** What one pass leaves behind, when a scan is quiet, and what a finding quotes. */
module PassProperties {
  import opened Wrappers
  import opened Regex
  import opened RuleTable
  import opened Redaction
  import opened Simultaneous

  // ----- a pass cuts the text into pieces that stand alone -----

  lemma StopsBefore(s: string, p: nat, q: nat, k: nat)
    requires p <= q <= |s| && p <= k < |s| && s[k] == '[' && '[' !in s[p..q]
    ensures q <= k
  {
    if k < q { InStretch(s, p, q, k); }
  }

  lemma {:induction false} StartsAscend(spans: seq<Span>, from: nat, to: nat)
    requires Ascending(spans, from, to)
    ensures forall m <- spans :: from <= m.start
    decreases |spans|
  {
    if spans != [] {
      StartsAscend(spans[1..], spans[0].end, to);
    }
  }

  /** What lies before, between and after the spans. */
  ghost function Pieces(text: string, spans: seq<Span>, from: nat): seq<string>
    requires Ascending(spans, from, |text|)
    decreases |spans|
  {
    if spans == [] then [text[from..]]
    else [text[from..spans[0].start]] + Pieces(text, spans[1..], spans[0].end)
  }

  ghost predicate NoMatch(re: Regex, s: string) {
    forall p, q | 0 <= p <= q <= |s| :: !Matches(re, s, p, q)
  }

  ghost predicate AllQuiet(re: Regex, pieces: seq<string>) { forall g <- pieces :: NoMatch(re, g) }

  /** Nothing beside the piece, or something that is no word character. */
  predicate Fenced(before: string, after: string) {
    (before == "" || !IsWordChar(before[|before| - 1])) && (after == "" || !IsWordChar(after[0]))
  }

  /** Fenced off, a piece has the word boundaries it has standing alone. */
  lemma PieceCarries(before: string, piece: string, after: string, out: string, p: nat, q: nat)
    requires out == before + piece + after && Fenced(before, after) && p <= q <= |piece|
    ensures Carries(piece, p, q, out, |before|, false)
    ensures Carries(out, |before| + p, |before| + q, piece, -|before|, false)
  {
    forall x: nat | x < |piece| ensures out[|before| + x] == piece[x] {}
    if before != "" { assert out[|before| - 1] == before[|before| - 1]; }
    if after != "" { assert out[|before| + |piece|] == after[0]; }
    forall x: nat | x <= |piece| ensures AtBoundary(piece, x) == AtBoundary(out, |before| + x) {
      if x > 0 { assert out[|before| + x - 1] == piece[x - 1]; }
    }
  }

  lemma PieceMatches(re: Regex, before: string, piece: string, after: string, out: string, p: nat, q: nat)
    requires out == before + piece + after && Fenced(before, after) && p <= q <= |piece|
    ensures Matches(re, piece, p, q) <==> Matches(re, out, |before| + p, |before| + q)
  {
    hide Matches, Fenced, Carries;
    PieceCarries(before, piece, after, out, p, q);
    if Matches(re, piece, p, q) { MatchCarries(re, piece, p, q, out, |before|, false); }
    if Matches(re, out, |before| + p, |before| + q) { MatchCarries(re, out, |before| + p, |before| + q, piece, -|before|, false); }
  }

  lemma SafeHasNoBrackets(other: Rule, table: seq<Rule>, s: string, p: nat, q: nat)
    requires Safe(other, table) && p <= q <= |s| && Matches(other.pattern, s, p, q)
    ensures p < q && '[' !in s[p..q] && ']' !in s[p..q]
  {
    hide Matches, Inert, IsPlaceholder, Avoids, Consumes;
    ConsumesSound(other.pattern, s, p, q);
    AvoidsSound(other.pattern, '[', s, p, q);
    AvoidsSound(other.pattern, ']', s, p, q);
  }

  lemma NotInPlaceholder(ph: string, other: Rule, table: seq<Rule>, out: string, p: nat, q: nat, stop: nat)
    requires Safe(other, table) && exists r <- table :: r.placeholder == ph
    requires stop <= p <= q <= |out| && stop + |ph| <= |out| && out[stop..stop + |ph|] == ph
    requires Matches(other.pattern, out, p, q)
    ensures stop + |ph| <= p
  {
    SafeHasNoBrackets(other, table, out, p, q);
    NotInside(ph, other, table, out, p, q, stop);
  }

  lemma FirstEdit(text: string, spans: seq<Span>, ph: string, from: nat)
    requires spans != [] && InOrder(EditsOf(spans, ph), from, |text|)
    ensures from <= spans[0].start && InOrder(EditsOf(spans[1..], ph), spans[0].end, |text|)
    ensures Substitute(text, EditsOf(spans, ph), from)
            == text[from..spans[0].start] + ph + Substitute(text, EditsOf(spans[1..], ph), spans[0].end)
  {
    assert EditsOf(spans, ph)[1..] == EditsOf(spans[1..], ph);
  }

  /** out is what is done, then the piece before the next replacement, then its placeholder, then the rest. */
  lemma NextPiece(text: string, spans: seq<Span>, ph: string, from: nat, done: string, out: string)
    requires spans != [] && InOrder(EditsOf(spans, ph), from, |text|)
    requires out == done + Substitute(text, EditsOf(spans, ph), from)
    ensures InOrder(EditsOf(spans[1..], ph), spans[0].end, |text|)
    ensures var m := spans[0]; var piece := text[from..m.start]; var rest := Substitute(text, EditsOf(spans[1..], ph), m.end);
            && out == (done + piece + ph) + rest
            && out == done + piece + (ph + rest)
            && out[|done| + |piece|..|done| + |piece| + |ph|] == ph
  {
    hide Substitute;
    FirstEdit(text, spans, ph, from);
  }

  lemma PlaceholderFences(done: string, piece: string, ph: string, rest: string)
    requires IsPlaceholder(ph) && Fenced(done, "")
    ensures Fenced(done, ph + rest) && Fenced(done + piece + ph, "")
    ensures (ph + rest)[0] == '['
  {
    var all := done + piece + ph;
    assert all[|all| - 1] == ph[|ph| - 1];
  }

  /** A match in the output of a pass is a match in a piece. */
  lemma {:induction false} MatchComesFromPiece(ph: string, other: Rule, table: seq<Rule>, text: string, spans: seq<Span>, from: nat,
                                               done: string, out: string, p: nat, q: nat)
    requires Safe(other, table) && (exists r <- table :: r.placeholder == ph) && Fenced(done, "")
    requires Ascending(spans, from, |text|) && InOrder(EditsOf(spans, ph), from, |text|)
    requires out == done + Substitute(text, EditsOf(spans, ph), from)
    requires |done| <= p <= q <= |out| && Matches(other.pattern, out, p, q)
    ensures !AllQuiet(other.pattern, Pieces(text, spans, from))
    decreases |spans|
  {
    hide Matches, Sound, Inert, Substitute, InOrder;
    var re, pieces := other.pattern, Pieces(text, spans, from);
    if spans == [] {
      LastPiece(text, ph, from);
      assert out == done + text[from..] + "";
      PieceMatches(re, done, text[from..], "", out, p - |done|, q - |done|);
      assert pieces[0] in pieces;
    } else {
      NextPiece(text, spans, ph, from, done, out);
      var m := spans[0];
      var piece, rest := text[from..m.start], Substitute(text, EditsOf(spans[1..], ph), m.end);
      var stop := |done| + |piece|;
      PlaceholderFences(done, piece, ph, rest);
      if p < stop {
        assert out[stop] == (ph + rest)[0];
        SafeHasNoBrackets(other, table, out, p, q);
        StopsBefore(out, p, q, stop);
        PieceMatches(re, done, piece, ph + rest, out, p - |done|, q - |done|);
        assert pieces[0] in pieces;
      } else {
        NotInPlaceholder(ph, other, table, out, p, q, stop);
        MatchComesFromPiece(ph, other, table, text, spans[1..], m.end, done + piece + ph, out, p, q);
        assert forall g <- pieces[1..] :: g in pieces;
      }
    }
  }

  lemma LastPiece(text: string, ph: string, from: nat)
    requires from <= |text|
    ensures EditsOf([], ph) == [] && InOrder([], from, |text|) && Substitute(text, [], from) == text[from..]
  {}

  /** A match in a piece is a match in the output of the pass. */
  lemma {:induction false} PieceMatchSurvives(ph: string, re: Regex, text: string, spans: seq<Span>, from: nat, done: string, out: string)
    requires IsPlaceholder(ph) && Fenced(done, "")
    requires Ascending(spans, from, |text|) && InOrder(EditsOf(spans, ph), from, |text|)
    requires out == done + Substitute(text, EditsOf(spans, ph), from)
    requires !AllQuiet(re, Pieces(text, spans, from))
    ensures !NoMatch(re, out)
    decreases |spans|
  {
    hide Matches, Substitute, InOrder;
    if spans == [] {
      LastPiece(text, ph, from);
      assert out == done + text[from..] + "";
      SurvivesHere(re, done, text[from..], "", out);
    } else {
      NextPiece(text, spans, ph, from, done, out);
      var m := spans[0];
      var piece, rest := text[from..m.start], Substitute(text, EditsOf(spans[1..], ph), m.end);
      PlaceholderFences(done, piece, ph, rest);
      if NoMatch(re, piece) {
        PieceMatchSurvives(ph, re, text, spans[1..], m.end, done + piece + ph, out);
      } else {
        SurvivesHere(re, done, piece, ph + rest, out);
      }
    }
  }

  lemma SurvivesHere(re: Regex, before: string, piece: string, after: string, out: string)
    requires out == before + piece + after && Fenced(before, after) && !NoMatch(re, piece)
    ensures !NoMatch(re, out)
  {
    hide Matches;
    var p, q :| 0 <= p <= q <= |piece| && Matches(re, piece, p, q);
    PieceMatches(re, before, piece, after, out, p, q);
  }

  /** What a rule can match in the text a pass leaves is what it can match in one of the pieces the
      pass cuts the text into, standing alone. */
  lemma PassSplits(rule: Rule, other: Rule, table: seq<Rule>, text: string)
    requires rule in table && Safe(rule, table) && Safe(other, table) && Consumes(rule.pattern)
    ensures var spans := FindAll(rule.pattern, text, 0);
            && Ascending(spans, 0, |text|)
            && (NoMatch(other.pattern, Pass(rule, text).redacted) <==> AllQuiet(other.pattern, Pieces(text, spans, 0)))
  {
    hide Matches, Sound, Inert, Substitute, InOrder, Ascending, FindAll, AllQuiet;
    var out, re, ph := Pass(rule, text).redacted, other.pattern, rule.placeholder;
    var spans := FindAll(rule.pattern, text, 0);
    FindAllIsLeftmost(rule.pattern, text, 0);
    AscendingInOrder(spans, ph, 0, |text|);
    assert out == "" + Substitute(text, EditsOf(spans, ph), 0);
    if !NoMatch(re, out) {
      var p, q :| 0 <= p <= q <= |out| && Matches(re, out, p, q);
      MatchComesFromPiece(ph, other, table, text, spans, 0, "", out, p, q);
    }
    if !AllQuiet(re, Pieces(text, spans, 0)) { PieceMatchSurvives(ph, re, text, spans, 0, "", out); }
  }

  // ----- a pass leaves no match of its own rule, and exposes none of another it is calm towards -----

  /** A pass of the one shows the other no word boundary it did not have: it replaces from boundary to
      boundary, or the other looks at none. */
  predicate Calm(passing: Regex, other: Regex) {
    BoundaryFree(other) || (LeftBounded(passing) && RightBounded(passing))
  }

  ghost predicate StartInside(re: Regex, text: string, spans: seq<Span>, from: nat) {
    forall p, q | from <= p <= q <= |text| && Matches(re, text, p, q) :: exists m <- spans :: m.start <= p < m.end
  }

  lemma {:induction false} PiecesAreQuiet(rule: Rule, other: Regex, text: string, spans: seq<Span>, from: nat)
    requires Calm(rule.pattern, other) && Consumes(other)
    requires Ascending(spans, from, |text|) && AreMatches(rule.pattern, text, spans) && StartInside(other, text, spans, from)
    requires BoundaryFree(other) || from == 0 || AtBoundary(text, from)
    ensures AllQuiet(other, Pieces(text, spans, from))
    decreases |spans|
  {
    hide Matches, Consumes, BoundaryFree, LeftBounded, RightBounded, AtBoundary;
    if spans == [] {
      FirstPieceIsQuiet(other, text, spans, from, |text|);
      assert text[from..] == text[from..|text|];
    } else {
      var m := spans[0];
      assert m in spans;
      BoundedSound(rule.pattern, text, m.start, m.end);
      StartsAscend(spans, m.start, |text|);
      FirstPieceIsQuiet(other, text, spans, from, m.start);
      forall p, q | m.end <= p <= q <= |text| && Matches(other, text, p, q) ensures exists x <- spans[1..] :: x.start <= p < x.end {
        var x :| x in spans && x.start <= p < x.end;
        assert x == m || x in spans[1..];
      }
      PiecesAreQuiet(rule, other, text, spans[1..], m.end);
    }
  }

  lemma FirstPieceIsQuiet(re: Regex, text: string, spans: seq<Span>, from: nat, to: nat)
    requires from <= to <= |text| && Consumes(re) && StartInside(re, text, spans, from)
    requires forall m <- spans :: to <= m.start
    requires BoundaryFree(re) || from == 0 || AtBoundary(text, from)
    requires BoundaryFree(re) || to == |text| || AtBoundary(text, to)
    ensures NoMatch(re, text[from..to])
  {
    hide Matches, Consumes, BoundaryFree;
    var piece := text[from..to];
    forall p, q | 0 <= p <= q <= |piece| && Matches(re, piece, p, q) ensures false {
      ConsumesSound(re, piece, p, q);
      MatchCarries(re, piece, p, q, text, from, BoundaryFree(re));
    }
  }

  /** A pass exposes no match of a rule it is calm towards, if there was none before. */
  lemma PassKeepsQuiet(rule: Rule, other: Rule, table: seq<Rule>, text: string)
    requires rule in table && Safe(rule, table) && Safe(other, table) && Consumes(rule.pattern)
    requires Calm(rule.pattern, other.pattern) && (NoMatch(other.pattern, text) || rule == other)
    ensures NoMatch(other.pattern, Pass(rule, text).redacted)
  {
    hide Matches, Inert, Ascending, FindAll, Calm;
    var spans := FindAll(rule.pattern, text, 0);
    FindAllIsLeftmost(rule.pattern, text, 0);
    PassSplits(rule, other, table, text);
    PiecesAreQuiet(rule, other.pattern, text, spans, 0);
  }

  /** After its pass, a rule matches nowhere in the text it leaves: a second pass finds nothing. */
  lemma PassLeavesNoMatch(rule: Rule, table: seq<Rule>, text: string)
    requires SafeTable(table) && rule in table
    ensures NoMatch(rule.pattern, Pass(rule, text).redacted)
    ensures Pass(rule, Pass(rule, text).redacted) == Scan([], Pass(rule, text).redacted)
  {
    hide NoMatch, FindAll, Inert;
    PassKeepsQuiet(rule, rule, table, text);
    QuietPass(rule, Pass(rule, text).redacted);
  }

  lemma NothingToFind(re: Regex, s: string)
    requires Consumes(re) && NoMatch(re, s)
    ensures FindAll(re, s, 0) == []
  {
    match FindNext(re, s, 0)
    case None =>
    case Some(m) => EndsAreMatches(re, s, m.start, m.end);
  }

  // ----- a scan is quiet exactly on texts no rule matches -----

  lemma FindsNothingIff(re: Regex, s: string)
    requires Consumes(re)
    ensures FindAll(re, s, 0) == [] <==> NoMatch(re, s)
  {
    hide Matches, Consumes;
    if NoMatch(re, s) { NothingToFind(re, s); }
    FindAllIsLeftmost(re, s, 0);
  }

  ghost predicate Clean(rules: seq<Rule>, category: string, text: string) {
    forall r <- rules | r.category == category :: NoMatch(r.pattern, text)
  }

  lemma QuietPass(rule: Rule, text: string)
    requires Consumes(rule.pattern)
    ensures Pass(rule, text).findings == [] <==> NoMatch(rule.pattern, text)
    ensures Pass(rule, text).findings == [] ==> Pass(rule, text).redacted == text
  {
    hide NoMatch, FindAll;
    FindsNothingIff(rule.pattern, text);
    var spans := FindAll(rule.pattern, text, 0);
    FindAllIsLeftmost(rule.pattern, text, 0);
    AscendingInOrder(spans, rule.placeholder, 0, |text|);
    assert |Pass(rule, text).findings| == |spans|;
    if spans == [] { assert EditsOf(spans, rule.placeholder) == []; }
  }

  /** No finding of a category iff none of its rules matches anywhere; the text is then untouched. */
  lemma {:induction false} QuietIffClean(rules: seq<Rule>, category: string, text: string)
    requires AllConsume(rules)
    ensures ScanWith(rules, category, text).findings == [] <==> Clean(rules, category, text)
    ensures ScanWith(rules, category, text).findings == [] ==> ScanWith(rules, category, text).redacted == text
    decreases |rules|
  {
    hide NoMatch, Pass;
    if rules != [] {
      var rule, rest := rules[0], rules[1..];
      assert rules == [rule] + rest;
      if rule.category == category { QuietPass(rule, text); }
      QuietIffClean(rest, category, if rule.category == category then Pass(rule, text).redacted else text);
    }
  }

  /** A scan with a table in two parts is a scan with the one, then with the other. */
  lemma {:induction false} ScanAppend(a: seq<Rule>, b: seq<Rule>, category: string, text: string)
    requires AllConsume(a) && AllConsume(b) && AllConsume(a + b)
    ensures var first := ScanWith(a, category, text); var rest := ScanWith(b, category, first.redacted);
            ScanWith(a + b, category, text) == Scan(first.findings + rest.findings, rest.redacted)
    decreases |a|
  {
    hide Pass, AllConsume;
    if a == [] {
      assert a + b == b;
    } else {
      assert (a + b)[0] == a[0] && (a + b)[1..] == a[1..] + b;
      Smaller(a, b);
      if a[0].category == category {
        var pass := Pass(a[0], text);
        ScanAppend(a[1..], b, category, pass.redacted);
        var first := ScanWith(a[1..], category, pass.redacted);
      } else {
        ScanAppend(a[1..], b, category, text);
      }
    }
  }

  lemma Smaller(a: seq<Rule>, b: seq<Rule>)
    requires a != [] && AllConsume(a + b)
    ensures Consumes(a[0].pattern) && AllConsume(a[1..]) && AllConsume(a[1..] + b)
  {
    hide Consumes;
    assert a + b == [a[0]] + (a[1..] + b);
    assert a == [a[0]] + a[1..];
    assert forall r <- a :: r in a + b;
  }

  /** Each finding of a pass quotes the text it indexes, and is a match with the preferred end. */
  lemma FindingsAreMatches(rule: Rule, text: string, k: nat)
    requires Consumes(rule.pattern) && k < |Pass(rule, text).findings|
    ensures var f := Pass(rule, text).findings[k];
            && f.start < f.end <= |text| && f.match_ == text[f.start..f.end]
            && Matches(rule.pattern, text, f.start, f.end) && FirstEnd(rule.pattern, text, f.start) == Some(f.end)
            && f.rule == rule.name && f.category == rule.category && f.severity == rule.severity
  {
    hide Matches, Ends, FirstEnd, FindAll, Substitute, InOrder;
    var spans := FindAll(rule.pattern, text, 0);
    FindAllIsLeftmost(rule.pattern, text, 0);
    AscendingInOrder(spans, rule.placeholder, 0, |text|);
    assert spans[k] in spans;
    ConsumesSound(rule.pattern, text, spans[k].start, spans[k].end);
  }
}
