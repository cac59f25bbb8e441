/** Numbers written in groups: what a pattern of groups with separators matches, as text. */
module Groups {
  import opened Wrappers
  import opened Regex
  import opened PatternMeanings

  /** The groups of a number and what stands between them. */
  datatype Parts = Parts(groups: seq<string>, gaps: seq<string>)

  /** Each group behind its gap. */
  function Trail(gaps: seq<string>, groups: seq<string>): string
    requires |gaps| == |groups|
  {
    if gaps == [] then "" else gaps[0] + groups[0] + Trail(gaps[1..], groups[1..])
  }

  /** The groups with the gaps between them. */
  function Spelled(p: Parts): string
    requires |p.groups| == |p.gaps| + 1
  {
    p.groups[0] + Trail(p.gaps, p.groups[1..])
  }

  /** re matches the whole of t; for an expression without word boundaries the context is no matter. */
  ghost predicate Stands(re: Regex, t: string) { Matches(re, t, 0, |t|) }

  lemma StandsAlone(re: Regex, s: string, i: nat, j: nat)
    requires i <= j <= |s| && BoundaryFree(re)
    ensures Matches(re, s, i, j) <==> Stands(re, s[i..j])
  {
    hide Matches, BoundaryFree;
    var t := s[i..j];
    if Matches(re, s, i, j) { MatchCarries(re, s, i, j, t, 0 - i, true); }
    if Stands(re, t) { MatchCarries(re, t, 0, |t|, s, i, true); }
  }

  /** The expressions one after another, each behind a separator, and then tail. */
  function Following(gs: seq<Regex>, sep: Regex, tail: Regex): Regex {
    if gs == [] then tail else Cat(sep, Cat(gs[0], Following(gs[1..], sep, tail)))
  }

  ghost predicate Reads(gs: seq<Regex>, sep: Regex, p: Parts) {
    && |p.groups| == |p.gaps| == |gs|
    && forall k | 0 <= k < |gs| :: Stands(sep, p.gaps[k]) && Stands(gs[k], p.groups[k])
  }

  predicate NoBoundaries(gs: seq<Regex>, sep: Regex) { BoundaryFree(sep) && forall g <- gs :: BoundaryFree(g) }

  function Behind(gap: string, group: string, p: Parts): Parts { Parts([group] + p.groups, [gap] + p.gaps) }

  lemma TrailBehind(gap: string, group: string, p: Parts)
    requires |p.groups| == |p.gaps|
    ensures Trail([gap] + p.gaps, [group] + p.groups) == gap + group + Trail(p.gaps, p.groups)
  {
    assert ([gap] + p.gaps)[1..] == p.gaps && ([group] + p.groups)[1..] == p.groups;
  }

  lemma {:induction false} FollowingApart(gs: seq<Regex>, sep: Regex, tail: Regex, s: string, i: nat, j: nat) returns (k: nat, p: Parts)
    requires i <= j <= |s| && NoBoundaries(gs, sep) && Matches(Following(gs, sep, tail), s, i, j)
    ensures i <= k <= j && Matches(tail, s, k, j)
    ensures Reads(gs, sep, p) && s[i..k] == Trail(p.gaps, p.groups)
    decreases |gs|
  {
    hide Matches, BoundaryFree, Stands;
    if gs == [] {
      k, p := i, Parts([], []);
    } else {
      var rest := Following(gs[1..], sep, tail);
      var a := Apart(sep, Cat(gs[0], rest), s, i, j);
      var b := Apart(gs[0], rest, s, a, j);
      StandsAlone(sep, s, i, a);
      StandsAlone(gs[0], s, a, b);
      var q: Parts;
      k, q := FollowingApart(gs[1..], sep, tail, s, b, j);
      p := Behind(s[i..a], s[a..b], q);
      TrailBehind(s[i..a], s[a..b], q);
      ThreePieces(s, i, a, b, k);
    }
  }

  lemma {:induction false} FollowingJoin(gs: seq<Regex>, sep: Regex, tail: Regex, p: Parts, s: string, i: nat, k: nat, j: nat)
    requires i <= k <= j <= |s| && NoBoundaries(gs, sep) && Matches(tail, s, k, j)
    requires Reads(gs, sep, p) && s[i..k] == Trail(p.gaps, p.groups)
    ensures Matches(Following(gs, sep, tail), s, i, j)
    decreases |gs|
  {
    hide Matches, BoundaryFree, Stands;
    if gs != [] {
      var rest := Following(gs[1..], sep, tail);
      var q := Parts(p.groups[1..], p.gaps[1..]);
      var a := i + |p.gaps[0]|;
      var b := a + |p.groups[0]|;
      FirstTwo(s, i, a, b, k, p.gaps[0], p.groups[0], Trail(q.gaps, q.groups));
      StandsAlone(sep, s, i, a);
      StandsAlone(gs[0], s, a, b);
      FollowingJoin(gs[1..], sep, tail, q, s, b, k, j);
      Join(gs[0], rest, s, a, b, j);
      Join(sep, Cat(gs[0], rest), s, i, a, j);
    }
  }

  lemma FirstTwo(s: string, i: nat, a: nat, b: nat, k: nat, x: string, y: string, z: string)
    requires i <= k <= |s| && s[i..k] == x + y + z && a == i + |x| && b == a + |y|
    ensures a <= b <= k && s[i..a] == x && s[a..b] == y && s[b..k] == z
  {
    ThreePieces(s, i, a, b, k);
    SamePieces(s[i..a], s[a..b], s[b..k], x, y, z);
  }

  // ----- the same group several times -----

  /** Between lo and hi times a separator and the group. */
  ghost predicate ReadsTimes(g: Regex, sep: Regex, lo: nat, hi: nat, p: Parts) {
    && |p.groups| == |p.gaps| && lo <= |p.gaps| <= hi
    && forall k | 0 <= k < |p.gaps| :: Stands(sep, p.gaps[k]) && Stands(g, p.groups[k])
  }

  lemma {:induction false} TimesApart(g: Regex, sep: Regex, lo: nat, hi: nat, s: string, i: nat, j: nat) returns (p: Parts)
    requires i <= j <= |s| && lo <= hi && BoundaryFree(g) && BoundaryFree(sep)
    requires MatchesRepeat(Cat(sep, g), lo, Some(hi), s, i, j)
    ensures ReadsTimes(g, sep, lo, hi, p) && s[i..j] == Trail(p.gaps, p.groups)
    decreases j - i
  {
    hide BoundaryFree, Stands;
    p := Parts([], []);
    if !(lo == 0 && i == j) {
      var k :| i < k <= j && Matches(Cat(sep, g), s, i, k) && MatchesRepeat(Cat(sep, g), Pred(lo), Less(Some(hi)), s, k, j);
      var a := Apart(sep, g, s, i, k);
      StandsAlone(sep, s, i, a);
      StandsAlone(g, s, a, k);
      var q := TimesApart(g, sep, Pred(lo), hi - 1, s, k, j);
      p := Behind(s[i..a], s[a..k], q);
      TrailBehind(s[i..a], s[a..k], q);
      ThreePieces(s, i, a, k, j);
    }
  }

  lemma {:induction false} TimesJoin(g: Regex, sep: Regex, lo: nat, hi: nat, p: Parts, s: string, i: nat, j: nat)
    requires i <= j <= |s| && lo <= hi && BoundaryFree(g) && BoundaryFree(sep) && Consumes(g)
    requires ReadsTimes(g, sep, lo, hi, p) && s[i..j] == Trail(p.gaps, p.groups)
    ensures MatchesRepeat(Cat(sep, g), lo, Some(hi), s, i, j)
    decreases |p.gaps|
  {
    hide BoundaryFree, Stands, Matches;
    if p.gaps != [] {
      var q := Parts(p.groups[1..], p.gaps[1..]);
      var a := i + |p.gaps[0]|;
      var b := a + |p.groups[0]|;
      FirstTwo(s, i, a, b, j, p.gaps[0], p.groups[0], Trail(q.gaps, q.groups));
      StandsAlone(sep, s, i, a);
      StandsAlone(g, s, a, b);
      ConsumesSound(g, s, a, b);
      Join(sep, g, s, i, a, b);
      TimesJoin(g, sep, Pred(lo), hi - 1, q, s, b, j);
    }
  }

  lemma {:induction false} TrailAppend(p: Parts, q: Parts)
    requires |p.groups| == |p.gaps| && |q.groups| == |q.gaps|
    ensures Trail(p.gaps + q.gaps, p.groups + q.groups) == Trail(p.gaps, p.groups) + Trail(q.gaps, q.groups)
    decreases |p.gaps|
  {
    if p.gaps == [] {
      assert p.gaps + q.gaps == q.gaps && p.groups + q.groups == q.groups;
    } else {
      var r := Parts(p.groups[1..], p.gaps[1..]);
      assert (p.gaps + q.gaps)[1..] == r.gaps + q.gaps && (p.groups + q.groups)[1..] == r.groups + q.groups;
      TrailAppend(r, q);
      Four(p.gaps[0] + p.groups[0], Trail(r.gaps, r.groups), Trail(q.gaps, q.groups));
    }
  }

  lemma Four(a: string, b: string, c: string)
    ensures a + (b + c) == (a + b) + c
  {}

  // ----- the groups themselves -----

  /** A run of digits of a permitted length. */
  predicate InDigits(t: string, lo: nat, hi: nat) { lo <= |t| <= hi && forall k | 0 <= k < |t| :: IsDigit(t[k]) }

  lemma DigitsStand(cl: Class, lo: nat, hi: nat, t: string)
    requires lo <= hi && Same(cl, IsDigit)
    ensures Stands(Repeat(Char(cl), lo, Some(hi)), t) <==> InDigits(t, lo, hi)
  {
    FromTo(cl, lo, hi, t, 0, |t|);
  }

  /** At most one of the characters. */
  lemma OptionalStands(cl: Class, t: string)
    ensures Stands(Repeat(Char(cl), 0, Some(1)), t) <==> t == "" || (|t| == 1 && Has(cl, t[0]))
  {
    FromTo(cl, 0, 1, t, 0, |t|);
  }

  lemma OneStands(cl: Class, t: string)
    ensures Stands(Char(cl), t) <==> |t| == 1 && Has(cl, t[0])
  {}
}
