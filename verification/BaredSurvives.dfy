/** What phone_intl bares, right behind its placeholder, no scan for secrets takes away: a pass whose
    matches begin nowhere inside a match behind a bracket leaves that match, and the bracket, in its
    output. */
module BaredSurvives {
  import opened Wrappers
  import opened Regex
  import opened RuleTable
  import opened Redaction
  import opened Simultaneous
  import opened PassProperties
  import opened UncutWords
  import opened Bared

  // ----- matches that end in a word character -----

  predicate LastWord(re: Regex) {
    match re
    case Char(cl) => forall k | 0 <= k < |cl.extra| :: IsWordChar(cl.extra[k])
    case Cat(a, b) => LastWord(b) || (b == Boundary && LastWord(a))
    case Alt(a, b) => LastWord(a) && LastWord(b)
    case Repeat(b, lo, _) => lo > 0 && LastWord(b)
    case _ => false
  }

  lemma {:induction false} LastWordSound(re: Regex, s: string, i: nat, j: nat)
    requires i <= j <= |s| && LastWord(re) && Matches(re, s, i, j)
    ensures i < j && IsWordChar(s[j - 1])
    decreases re, 0, 0
  {
    match re
    case Cat(a, b) =>
      var k :| i <= k <= j && Matches(a, s, i, k) && Matches(b, s, k, j);
      if LastWord(b) { LastWordSound(b, s, k, j); } else { LastWordSound(a, s, i, k); }
    case Alt(a, b) => if Matches(a, s, i, j) { LastWordSound(a, s, i, j); } else { LastWordSound(b, s, i, j); }
    case Repeat(b, lo, hi) =>
      assert MatchesRepeat(b, lo, hi, s, i, j);
      LastWordRepeats(b, lo, hi, s, i, j);
    case _ =>
  }

  lemma {:induction false} LastWordRepeats(body: Regex, lo: nat, hi: Option<nat>, s: string, i: nat, j: nat)
    requires i <= j <= |s| && LastWord(body) && MatchesRepeat(body, lo, hi, s, i, j) && (lo > 0 || i < j)
    ensures i < j && IsWordChar(s[j - 1])
    decreases body, 1, j - i
  {
    var k :| i < k <= j && Matches(body, s, i, k) && MatchesRepeat(body, Pred(lo), Less(hi), s, k, j);
    if k < j { LastWordRepeats(body, Pred(lo), Less(hi), s, k, j); } else { LastWordSound(body, s, i, k); }
  }

  // ----- a match behind a bracket, and a pass that stays clear of it -----

  /** A match right behind a closing bracket. */
  ghost predicate Behind(re: Regex, s: string) {
    exists p, q | 0 < p <= q <= |s| && s[p - 1] == ']' :: Matches(re, s, p, q)
  }

  /** No match of the one begins inside such a match of the other. */
  ghost predicate Shuns(re: Regex, other: Regex) {
    forall s, p, q, x, y | 0 < p <= q <= |s| && s[p - 1] == ']' && Matches(re, s, p, q) && 0 <= x <= y <= |s| && Matches(other, s, x, y) ::
      !(p <= x < q)
  }

  lemma BehindInPiece(re: Regex, text: string, from: nat, to: nat, p: nat, q: nat)
    requires from < p <= q <= to <= |text| && LastWord(re) && Matches(re, text, p, q)
    ensures Matches(re, text[from..to], p - from, q - from)
  {
    LastWordSound(re, text, p, q);
    MatchCarries(re, text, p, q, text[from..to], -(from as int), false);
  }

  lemma BehindInOutput(re: Regex, text: string, from: nat, to: nat, p: nat, q: nat, done: string, after: string, out: string)
    requires from < p <= q <= to <= |text| && text[p - 1] == ']' && LastWord(re) && Matches(re, text, p, q)
    requires out == done + text[from..to] + after && Fenced(done, after)
    ensures Behind(re, out)
  {
    hide Matches, Fenced, LastWord;
    BehindInPiece(re, text, from, to, p, q);
    PieceMatches(re, done, text[from..to], after, out, p - from, q - from);
    var shift := |done| + (p - from);
    assert out[shift - 1] == text[from..to][p - from - 1] == text[p - 1];
    assert Matches(re, out, shift, |done| + (q - from));
  }

  lemma {:induction false} BehindSurvives(re: Regex, other: Rule, table: seq<Rule>, text: string, spans: seq<Span>, from: nat,
                                          done: string, out: string, p: nat, q: nat)
    requires Safe(other, table) && AreMatches(other.pattern, text, spans) && Shuns(re, other.pattern) && LastWord(re)
    requires Ascending(spans, from, |text|) && InOrder(EditsOf(spans, other.placeholder), from, |text|)
    requires out == done + Substitute(text, EditsOf(spans, other.placeholder), from) && Fenced(done, "")
    requires from < p <= q <= |text| && text[p - 1] == ']' && Matches(re, text, p, q)
    ensures Behind(re, out)
    decreases |spans|
  {
    hide Matches, Inert, Sound, Substitute, InOrder, LastWord, Behind, Fenced, IsPlaceholder;
    var ph := other.placeholder;
    if spans == [] {
      LastPiece(text, ph, from);
      assert out == done + text[from..|text|] + "";
      BehindInOutput(re, text, from, |text|, p, q, done, "", out);
    } else {
      var m := spans[0];
      assert m in spans;
      NextPiece(text, spans, ph, from, done, out);
      var piece, rest := text[from..m.start], Substitute(text, EditsOf(spans[1..], ph), m.end);
      PlaceholderFences(done, piece, ph, rest);
      if q <= m.start {
        BehindInOutput(re, text, from, m.start, p, q, done, ph + rest, out);
      } else {
        ClearOf(re, other, table, text, m, p, q);
        BehindSurvives(re, other, table, text, spans[1..], m.end, done + piece + ph, out, p, q);
      }
    }
  }

  lemma ClearOf(re: Regex, other: Rule, table: seq<Rule>, text: string, m: Span, p: nat, q: nat)
    requires Safe(other, table) && m.start < m.end <= |text| && Matches(other.pattern, text, m.start, m.end) && Shuns(re, other.pattern)
    requires 0 < p <= q <= |text| && text[p - 1] == ']' && Matches(re, text, p, q) && m.start < q
    ensures m.end < p
  {
    hide Matches;
    SafeHasNoBrackets(other, table, text, m.start, m.end);
    if m.start <= p - 1 < m.end { InStretch(text, m.start, m.end, p - 1); }
  }

  lemma PassLeavesBehind(re: Regex, other: Rule, table: seq<Rule>, text: string)
    requires Safe(other, table) && Consumes(other.pattern) && Shuns(re, other.pattern) && LastWord(re) && Behind(re, text)
    ensures Behind(re, Pass(other, text).redacted)
  {
    hide Matches, Safe, Shuns, LastWord, FindAll, Substitute, InOrder, Consumes;
    var p, q :| 0 < p <= q <= |text| && text[p - 1] == ']' && Matches(re, text, p, q);
    var spans := FindAll(other.pattern, text, 0);
    FindAllIsLeftmost(other.pattern, text, 0);
    AscendingInOrder(spans, other.placeholder, 0, |text|);
    var out := Pass(other, text).redacted;
    assert out == "" + Substitute(text, EditsOf(spans, other.placeholder), 0);
    BehindSurvives(re, other, table, text, spans, 0, "", out, p, q);
  }

  lemma {:induction false} ScanLeavesBehind(re: Regex, table: seq<Rule>, k: nat, category: string, text: string)
    requires k <= |table| && SafeTable(table) && AllConsume(table[k..]) && LastWord(re) && Behind(re, text)
    requires forall r <- table | r.category == category :: Shuns(re, r.pattern)
    ensures Behind(re, ScanWith(table[k..], category, text).redacted)
    decreases |table| - k
  {
    hide Pass, Safe, Shuns, LastWord, Behind, NamesDistinct, Consumes;
    if k < |table| {
      assert table[k..][0] == table[k] && table[k..][1..] == table[k + 1..];
      if table[k].category == category {
        SafeIn(table, table[k]);
        PassLeavesBehind(re, table[k], table, text);
        ScanLeavesBehind(re, table, k + 1, category, Pass(table[k], text).redacted);
      } else {
        ScanLeavesBehind(re, table, k + 1, category, text);
      }
    }
  }

  // ----- where the bared match stands -----

  lemma {:induction false} PieceIsBehind(ph: string, re: Regex, text: string, spans: seq<Span>, from: nat, done: string, out: string, k: nat)
    requires IsPlaceholder(ph) && Fenced(done, "")
    requires Ascending(spans, from, |text|) && InOrder(EditsOf(spans, ph), from, |text|)
    requires out == done + Substitute(text, EditsOf(spans, ph), from)
    requires k < |Pieces(text, spans, from)| && BeginsWith(re, Pieces(text, spans, from)[k])
    requires k > 0 || (done != "" && done[|done| - 1] == ']')
    ensures Behind(re, out)
    decreases |spans|
  {
    hide Matches, Substitute, InOrder;
    if spans == [] {
      LastPiece(text, ph, from);
      assert out == done + text[from..] + "";
      BeginsBehind(re, done, text[from..], "", out);
    } else {
      NextPiece(text, spans, ph, from, done, out);
      var m := spans[0];
      var piece, rest := text[from..m.start], Substitute(text, EditsOf(spans[1..], ph), m.end);
      PlaceholderFences(done, piece, ph, rest);
      if k == 0 {
        BeginsBehind(re, done, piece, ph + rest, out);
      } else {
        var all := done + piece + ph;
        assert all[|all| - 1] == ph[|ph| - 1];
        PieceIsBehind(ph, re, text, spans[1..], m.end, all, out, k - 1);
      }
    }
  }

  lemma BeginsBehind(re: Regex, done: string, piece: string, after: string, out: string)
    requires out == done + piece + after && Fenced(done, after) && done != "" && done[|done| - 1] == ']' && BeginsWith(re, piece)
    ensures Behind(re, out)
  {
    hide Matches, Fenced;
    var q :| 0 <= q <= |piece| && Matches(re, piece, 0, q);
    PieceMatches(re, done, piece, after, out, 0, q);
    assert out[|done| - 1] == ']';
  }

  lemma BaredIsBehind(rule: Rule, r: Rule, table: seq<Rule>, text: string)
    requires Safe(rule, table) && Consumes(rule.pattern) && BaresRule(rule, r, text)
    ensures Behind(r.pattern, Pass(rule, text).redacted)
  {
    hide Matches, Sound, Inert, FindAll, Substitute, InOrder, Pieces, BeginsWith, Behind, Consumes;
    var k :| 0 < k < |PiecesLeft(rule, text)| && BeginsWith(r.pattern, PiecesLeft(rule, text)[k]);
    var spans := FindAll(rule.pattern, text, 0);
    FindAllIsLeftmost(rule.pattern, text, 0);
    AscendingInOrder(spans, rule.placeholder, 0, |text|);
    var out := Pass(rule, text).redacted;
    assert out == "" + Substitute(text, EditsOf(spans, rule.placeholder), 0);
    PieceIsBehind(rule.placeholder, r.pattern, text, spans, 0, "", out, k);
  }
}
