/** The fragment of regular expressions the gateway's rule table is written in, with
    the leftmost-first semantics of the matcher it is compiled for. */
module Regex {
  import opened Wrappers

  /** A character class: any union of the ASCII digits, the upper-case letters, the
      lower-case letters and a few listed characters. */
  datatype Class = Class(digits: bool, upper: bool, lower: bool, extra: string)

  predicate Has(cl: Class, c: char) {
    || (cl.digits && '0' <= c <= '9')
    || (cl.upper && 'A' <= c <= 'Z')
    || (cl.lower && 'a' <= c <= 'z')
    || c in cl.extra
  }

  datatype Regex =
    | Empty
    | Text(text: string)                              // the literal text
    | Char(cls: Class)                                // one character of the class
    | Boundary                                        // \b, ASCII
    | Cat(first: Regex, second: Regex)
    | Alt(first: Regex, second: Regex)                // the first alternative is preferred
    | Repeat(body: Regex, lo: nat, hi: Option<nat>)   // greedy; None means unbounded

  datatype Span = Span(start: nat, end: nat)

  predicate IsWordChar(c: char) {
    || ('0' <= c <= '9') || ('A' <= c <= 'Z') || ('a' <= c <= 'z') || c == '_'
  }

  predicate AtBoundary(s: string, i: nat)
    requires i <= |s|
  {
    (i > 0 && IsWordChar(s[i - 1])) != (i < |s| && IsWordChar(s[i]))
  }

  function Less(hi: Option<nat>): Option<nat> {
    if hi.Some? && hi.value > 0 then Some(hi.value - 1) else hi
  }

  function Pred(lo: nat): nat { if lo > 0 then lo - 1 else 0 }

  predicate Within(xs: seq<nat>, lo: nat, hi: nat) {
    forall k | 0 <= k < |xs| :: lo <= xs[k] <= hi
  }

  // ----- the matcher: every possible end of a match at i, most preferred first -----

  function Ends(re: Regex, s: string, i: nat): (ends: seq<nat>)
    requires i <= |s|
    ensures Within(ends, i, |s|)
    decreases re, 0, 0, 0, 0
  {
    match re
    case Empty => [i]
    case Text(t) => if i + |t| <= |s| && s[i..i + |t|] == t then [i + |t|] else []
    case Char(cl) => if i < |s| && Has(cl, s[i]) then [i + 1] else []
    case Boundary => if AtBoundary(s, i) then [i] else []
    case Cat(a, b) => EndsAfter(b, s, i, Ends(a, s, i))
    case Alt(a, b) => Ends(a, s, i) + Ends(b, s, i)
    case Repeat(b, lo, hi) => EndsRepeat(b, lo, hi, s, i)
  }

  function EndsAfter(re: Regex, s: string, i: nat, starts: seq<nat>): (ends: seq<nat>)
    requires Within(starts, i, |s|)
    ensures Within(ends, i, |s|)
    decreases re, 1, 0, 0, |starts|
  {
    if starts == [] then [] else Ends(re, s, starts[0]) + EndsAfter(re, s, i, starts[1..])
  }

  /** Greedy repetition: one more iteration is preferred to stopping. An iteration
      must consume a character, which every repeated body of the table does. */
  function EndsRepeat(body: Regex, lo: nat, hi: Option<nat>, s: string, i: nat): (ends: seq<nat>)
    requires i <= |s|
    ensures Within(ends, i, |s|)
    decreases body, 2, |s| - i, 1, 0
  {
    (if hi == Some(0) then [] else EndsMore(body, Pred(lo), Less(hi), s, i, Ends(body, s, i)))
    + (if lo == 0 then [i] else [])
  }

  function EndsMore(body: Regex, lo: nat, hi: Option<nat>, s: string, i: nat, starts: seq<nat>): (ends: seq<nat>)
    requires i <= |s|
    requires Within(starts, i, |s|)
    ensures Within(ends, i, |s|)
    decreases body, 2, |s| - i, 0, |starts|
  {
    if starts == [] then []
    else
      (if starts[0] > i then EndsRepeat(body, lo, hi, s, starts[0]) else [])
      + EndsMore(body, lo, hi, s, i, starts[1..])
  }

  function FirstEnd(re: Regex, s: string, i: nat): (r: Option<nat>)
    requires i <= |s|
    ensures r.Some? ==> i <= r.value <= |s|
  {
    var ends := Ends(re, s, i);
    if ends == [] then None else Some(ends[0])
  }

  function FindNext(re: Regex, s: string, from: nat): (r: Option<Span>)
    requires from <= |s|
    ensures r.Some? ==> from <= r.value.start <= r.value.end <= |s|
    ensures r.Some? ==> FirstEnd(re, s, r.value.start) == Some(r.value.end)
    ensures forall p :: from <= p < (if r.Some? then r.value.start else |s| + 1) ==> FirstEnd(re, s, p) == None
    decreases |s| - from
  {
    match FirstEnd(re, s, from)
    case Some(e) => Some(Span(from, e))
    case None => if from == |s| then None else FindNext(re, s, from + 1)
  }

  /** All matches, leftmost first, each search starting where the last match ended. */
  function FindAll(re: Regex, s: string, from: nat): (spans: seq<Span>)
    requires from <= |s|
    requires Consumes(re)
    decreases |s| - from
  {
    match FindNext(re, s, from)
    case None => []
    case Some(m) =>
      EndsAreMatches(re, s, m.start, m.end);
      ConsumesSound(re, s, m.start, m.end);
      [m] + FindAll(re, s, m.end)
  }

  // ----- the declarative meaning: s[i..j] is in the language, in its context -----

  ghost predicate Matches(re: Regex, s: string, i: nat, j: nat)
    requires i <= j <= |s|
    decreases re, 0, 0
  {
    match re
    case Empty => i == j
    case Text(t) => s[i..j] == t
    case Char(cl) => j == i + 1 && Has(cl, s[i])
    case Boundary => i == j && AtBoundary(s, i)
    case Cat(a, b) => exists k | i <= k <= j :: Matches(a, s, i, k) && Matches(b, s, k, j)
    case Alt(a, b) => Matches(a, s, i, j) || Matches(b, s, i, j)
    case Repeat(b, lo, hi) => MatchesRepeat(b, lo, hi, s, i, j)
  }

  ghost predicate MatchesRepeat(body: Regex, lo: nat, hi: Option<nat>, s: string, i: nat, j: nat)
    requires i <= j <= |s|
    decreases body, 1, j - i
  {
    || (lo == 0 && i == j)
    || (hi != Some(0) && exists k | i < k <= j :: Matches(body, s, i, k) && MatchesRepeat(body, Pred(lo), Less(hi), s, k, j))
  }

  lemma {:induction false} EndsAreMatches(re: Regex, s: string, i: nat, j: nat)
    requires i <= j <= |s|
    ensures j in Ends(re, s, i) <==> Matches(re, s, i, j)
    decreases re, 0, 0, 0, 0
  {
    match re
    case Cat(a, b) =>
      EndsAfterIn(b, s, i, Ends(a, s, i), j);
      forall k | i <= k <= j
        ensures k in Ends(a, s, i) <==> Matches(a, s, i, k)
        ensures j in Ends(b, s, k) <==> Matches(b, s, k, j)
      {
        EndsAreMatches(a, s, i, k);
        EndsAreMatches(b, s, k, j);
      }
    case Alt(a, b) =>
      EndsAreMatches(a, s, i, j);
      EndsAreMatches(b, s, i, j);
    case Repeat(b, lo, hi) => EndsRepeatAreMatches(b, lo, hi, s, i, j);
    case _ =>
  }

  lemma {:induction false} EndsAfterIn(re: Regex, s: string, i: nat, starts: seq<nat>, j: nat)
    requires i <= j <= |s|
    requires Within(starts, i, |s|)
    ensures j in EndsAfter(re, s, i, starts) <==> exists k | i <= k <= j :: k in starts && j in Ends(re, s, k)
    decreases |starts|
  {
    if starts != [] {
      var k, rest := starts[0], starts[1..];
      EndsAfterIn(re, s, i, rest, j);
      assert forall x :: x in starts <==> x == k || x in rest;
      if j in Ends(re, s, k) {
        assert i <= k <= j && k in starts;
      }
    }
  }

  lemma {:induction false} EndsRepeatAreMatches(body: Regex, lo: nat, hi: Option<nat>, s: string, i: nat, j: nat)
    requires i <= j <= |s|
    ensures j in EndsRepeat(body, lo, hi, s, i) <==> MatchesRepeat(body, lo, hi, s, i, j)
    decreases body, 2, |s| - i, 1, 0
  {
    if hi != Some(0) {
      EndsMoreIn(body, Pred(lo), Less(hi), s, i, Ends(body, s, i), j);
      forall k | i < k <= j
        ensures k in Ends(body, s, i) <==> Matches(body, s, i, k)
        ensures j in EndsRepeat(body, Pred(lo), Less(hi), s, k) <==> MatchesRepeat(body, Pred(lo), Less(hi), s, k, j)
      {
        EndsAreMatches(body, s, i, k);
        EndsRepeatAreMatches(body, Pred(lo), Less(hi), s, k, j);
      }
    }
  }

  lemma {:induction false} EndsMoreIn(body: Regex, lo: nat, hi: Option<nat>, s: string, i: nat, starts: seq<nat>, j: nat)
    requires i <= j <= |s|
    requires Within(starts, i, |s|)
    ensures j in EndsMore(body, lo, hi, s, i, starts) <==>
            exists k | i < k <= j :: k in starts && j in EndsRepeat(body, lo, hi, s, k)
    decreases |starts|
  {
    if starts != [] {
      var k, rest := starts[0], starts[1..];
      EndsMoreIn(body, lo, hi, s, i, rest, j);
      assert forall x :: x in starts <==> x == k || x in rest;
      if k > i && j in EndsRepeat(body, lo, hi, s, k) {
        assert i < k <= j && k in starts;
      }
    }
  }

  // ----- what can be read off an expression about all its matches -----

  /** No match is empty. */
  predicate Consumes(re: Regex) {
    match re
    case Empty => false
    case Text(t) => t != ""
    case Char(_) => true
    case Boundary => false
    case Cat(a, b) => Consumes(a) || Consumes(b)
    case Alt(a, b) => Consumes(a) && Consumes(b)
    case Repeat(b, lo, _) => lo > 0 && Consumes(b)
  }

  lemma {:induction false} ConsumesSound(re: Regex, s: string, i: nat, j: nat)
    requires i <= j <= |s|
    requires Consumes(re) && Matches(re, s, i, j)
    ensures i < j
    decreases re
  {
    match re
    case Cat(a, b) =>
      var k :| i <= k <= j && Matches(a, s, i, k) && Matches(b, s, k, j);
      if Consumes(a) { ConsumesSound(a, s, i, k); } else { ConsumesSound(b, s, k, j); }
    case Alt(a, b) => if Matches(a, s, i, j) { ConsumesSound(a, s, i, j); } else { ConsumesSound(b, s, i, j); }
    case _ =>
  }

  /** No match contains the character c. */
  predicate Avoids(re: Regex, c: char) {
    match re
    case Text(t) => c !in t
    case Char(cl) => !Has(cl, c)
    case Cat(a, b) => Avoids(a, c) && Avoids(b, c)
    case Alt(a, b) => Avoids(a, c) && Avoids(b, c)
    case Repeat(b, _, _) => Avoids(b, c)
    case _ => true
  }

  lemma {:induction false} AvoidsSound(re: Regex, c: char, s: string, i: nat, j: nat)
    requires i <= j <= |s|
    requires Avoids(re, c) && Matches(re, s, i, j)
    ensures c !in s[i..j]
    decreases re, 0, 0
  {
    match re
    case Cat(a, b) =>
      var k :| i <= k <= j && Matches(a, s, i, k) && Matches(b, s, k, j);
      AvoidsSound(a, c, s, i, k);
      AvoidsSound(b, c, s, k, j);
      assert s[i..j] == s[i..k] + s[k..j];
    case Alt(a, b) => if Matches(a, s, i, j) { AvoidsSound(a, c, s, i, j); } else { AvoidsSound(b, c, s, i, j); }
    case Repeat(b, lo, hi) => AvoidsRepeat(b, lo, hi, c, s, i, j);
    case _ =>
  }

  lemma {:induction false} AvoidsRepeat(body: Regex, lo: nat, hi: Option<nat>, c: char, s: string, i: nat, j: nat)
    requires i <= j <= |s|
    requires Avoids(body, c) && MatchesRepeat(body, lo, hi, s, i, j)
    ensures c !in s[i..j]
    decreases body, 1, j - i
  {
    if i < j {
      var k :| i < k <= j && Matches(body, s, i, k) && MatchesRepeat(body, Pred(lo), Less(hi), s, k, j);
      AvoidsSound(body, c, s, i, k);
      AvoidsRepeat(body, Pred(lo), Less(hi), c, s, k, j);
      assert s[i..j] == s[i..k] + s[k..j];
    }
  }

  /** The alphabet of placeholder bodies. */
  predicate IsCapital(c: char) { 'A' <= c <= 'Z' || c == '_' }

  /** Every match has a character outside that alphabet, by a sufficient reading of the expression. */
  predicate HasForeign(re: Regex) {
    match re
    case Text(t) => t != "" && !IsCapital(t[0])
    case Char(cl) => !cl.upper && forall k | 0 <= k < |cl.extra| :: !IsCapital(cl.extra[k])
    case Cat(a, b) => HasForeign(a) || HasForeign(b)
    case Alt(a, b) => HasForeign(a) && HasForeign(b)
    case Repeat(b, lo, _) => lo > 0 && HasForeign(b)
    case _ => false
  }

  lemma {:induction false} HasForeignSound(re: Regex, s: string, i: nat, j: nat) returns (p: nat)
    requires i <= j <= |s|
    requires HasForeign(re) && Matches(re, s, i, j)
    ensures i <= p < j && !IsCapital(s[p])
    decreases re
  {
    match re
    case Text(t) =>
      p := i;
      assert s[i..j][0] == s[i];
    case Char(cl) => p := i;
    case Cat(a, b) =>
      var k :| i <= k <= j && Matches(a, s, i, k) && Matches(b, s, k, j);
      if HasForeign(a) { p := HasForeignSound(a, s, i, k); } else { p := HasForeignSound(b, s, k, j); }
    case Alt(a, b) =>
      if Matches(a, s, i, j) { p := HasForeignSound(a, s, i, j); } else { p := HasForeignSound(b, s, i, j); }
    case Repeat(b, lo, hi) =>
      assert MatchesRepeat(b, lo, hi, s, i, j);
      var k :| i < k <= j && Matches(b, s, i, k) && MatchesRepeat(b, Pred(lo), Less(hi), s, k, j);
      p := HasForeignSound(b, s, i, k);
  }

  predicate BoundaryFree(re: Regex) {
    match re
    case Boundary => false
    case Cat(a, b) => BoundaryFree(a) && BoundaryFree(b)
    case Alt(a, b) => BoundaryFree(a) && BoundaryFree(b)
    case Repeat(b, _, _) => BoundaryFree(b)
    case _ => true
  }

  /** Every match starts (ends) at a word boundary. */
  predicate LeftBounded(re: Regex) {
    match re
    case Boundary => true
    case Cat(a, _) => LeftBounded(a)
    case Alt(a, b) => LeftBounded(a) && LeftBounded(b)
    case _ => false
  }

  predicate RightBounded(re: Regex) {
    match re
    case Boundary => true
    case Cat(_, b) => RightBounded(b)
    case Alt(a, b) => RightBounded(a) && RightBounded(b)
    case _ => false
  }

  lemma {:induction false} BoundedSound(re: Regex, s: string, i: nat, j: nat)
    requires i <= j <= |s|
    requires Matches(re, s, i, j)
    ensures LeftBounded(re) ==> AtBoundary(s, i)
    ensures RightBounded(re) ==> AtBoundary(s, j)
    decreases re
  {
    match re
    case Cat(a, b) =>
      var k :| i <= k <= j && Matches(a, s, i, k) && Matches(b, s, k, j);
      BoundedSound(a, s, i, k);
      BoundedSound(b, s, k, j);
    case Alt(a, b) => if Matches(a, s, i, j) { BoundedSound(a, s, i, j); } else { BoundedSound(b, s, i, j); }
    case _ =>
  }

  /** t repeats s[i..j] at distance sh, with a word boundary wherever s has one
      (unless boundaries do not matter). */
  ghost predicate Carries(s: string, i: nat, j: nat, t: string, sh: int, free: bool) {
    && i <= j <= |s| && 0 <= i + sh && j + sh <= |t|
    && (forall x | i <= x < j :: s[x] == t[x + sh])
    && (free || forall x | i <= x <= j :: AtBoundary(s, x) ==> AtBoundary(t, x + sh))
  }

  /** A match carries over to any text that repeats it in a context with at least its boundaries. */
  lemma {:induction false} MatchCarries(re: Regex, s: string, i: nat, j: nat, t: string, sh: int, free: bool)
    requires Carries(s, i, j, t, sh, free) && (free ==> BoundaryFree(re))
    requires Matches(re, s, i, j)
    ensures Matches(re, t, i + sh, j + sh)
    decreases re, 0, 0
  {
    match re
    case Text(x) => assert s[i..j] == t[i + sh..j + sh];
    case Cat(a, b) =>
      var k :| i <= k <= j && Matches(a, s, i, k) && Matches(b, s, k, j);
      MatchCarries(a, s, i, k, t, sh, free);
      MatchCarries(b, s, k, j, t, sh, free);
    case Alt(a, b) =>
      if Matches(a, s, i, j) { MatchCarries(a, s, i, j, t, sh, free); } else { MatchCarries(b, s, i, j, t, sh, free); }
    case Repeat(b, lo, hi) => RepeatCarries(b, lo, hi, s, i, j, t, sh, free);
    case _ =>
  }

  lemma {:induction false} RepeatCarries(body: Regex, lo: nat, hi: Option<nat>, s: string, i: nat, j: nat, t: string, sh: int, free: bool)
    requires Carries(s, i, j, t, sh, free) && (free ==> BoundaryFree(body))
    requires MatchesRepeat(body, lo, hi, s, i, j)
    ensures MatchesRepeat(body, lo, hi, t, i + sh, j + sh)
    decreases body, 1, j - i
  {
    if !(lo == 0 && i == j) {
      var k :| i < k <= j && Matches(body, s, i, k) && MatchesRepeat(body, Pred(lo), Less(hi), s, k, j);
      MatchCarries(body, s, i, k, t, sh, free);
      RepeatCarries(body, Pred(lo), Less(hi), s, k, j, t, sh, free);
    }
  }

  /** An unbounded repetition of one class is a long enough run of it. */
  lemma {:induction false} RunOfClass(cl: Class, lo: nat, s: string, i: nat, j: nat)
    requires i <= j <= |s|
    ensures MatchesRepeat(Char(cl), lo, None, s, i, j) <==> j - i >= lo && forall d | i <= d < j :: Has(cl, s[d])
    decreases j - i
  {
    if i < j {
      RunOfClass(cl, Pred(lo), s, i + 1, j);
      assert Matches(Char(cl), s, i, i + 1) <==> Has(cl, s[i]);
    }
  }

  // ----- what FindAll finds -----

  ghost predicate Ascending(spans: seq<Span>, from: nat, to: nat) {
    if spans == [] then from <= to
    else from <= spans[0].start < spans[0].end <= to && Ascending(spans[1..], spans[0].end, to)
  }

  lemma NoEndNoMatch(re: Regex, s: string, p: nat, q: nat)
    requires p <= q <= |s| && FirstEnd(re, s, p) == None
    ensures !Matches(re, s, p, q)
  {
    EndsAreMatches(re, s, p, q);
  }

  /** The found spans are matches, in order and disjoint, each with the preferred end,
      and every match whatsoever starts inside one of them. */
  lemma {:induction false} FindAllIsLeftmost(re: Regex, s: string, from: nat)
    requires from <= |s| && Consumes(re)
    ensures Ascending(FindAll(re, s, from), from, |s|)
    ensures forall m <- FindAll(re, s, from) ::
              m.start <= m.end <= |s| && Matches(re, s, m.start, m.end) && FirstEnd(re, s, m.start) == Some(m.end)
    ensures forall p, q | from <= p <= q <= |s| && Matches(re, s, p, q) ::
              exists m <- FindAll(re, s, from) :: m.start <= p < m.end
    decreases |s| - from
  {
    hide Matches, Ends, Consumes;
    var spans := FindAll(re, s, from);
    match FindNext(re, s, from)
    case None =>
      forall p, q | from <= p <= q <= |s| && Matches(re, s, p, q) ensures false {
        NoEndNoMatch(re, s, p, q);
      }
    case Some(m) =>
      EndsAreMatches(re, s, m.start, m.end);
      ConsumesSound(re, s, m.start, m.end);
      FindAllIsLeftmost(re, s, m.end);
      var rest := FindAll(re, s, m.end);
      assert spans == [m] + rest && spans[0] == m && spans[1..] == rest;
      forall p, q | from <= p <= q <= |s| && Matches(re, s, p, q)
        ensures exists x <- spans :: x.start <= p < x.end
      {
        if p < m.start {
          NoEndNoMatch(re, s, p, q);
        } else if p < m.end {
          assert m in spans;
        } else {
          var x :| x in rest && x.start <= p < x.end;
          assert x in spans;
        }
      }
  }
}
