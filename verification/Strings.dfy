/** The string operations the text formats are built from. */
module Strings {

  /** Cut at every separator; always at least one piece. */
  function Split(s: string, sep: char): (parts: seq<string>)
    ensures |parts| > 0
    ensures forall p <- parts :: sep !in p
  {
    if s == "" then [""]
    else
      var rest := Split(s[1..], sep);
      if s[0] == sep then [""] + rest else [[s[0]] + rest[0]] + rest[1..]
  }

  function Join(parts: seq<string>, sep: char): string {
    if |parts| == 0 then "" else if |parts| == 1 then parts[0] else parts[0] + [sep] + Join(parts[1..], sep)
  }

  lemma JoinStep(part: string, rest: seq<string>, sep: char)
    ensures Join([part], sep) == part
    ensures rest != [] ==> Join([part] + rest, sep) == part + [sep] + Join(rest, sep)
  {
    assert ([part] + rest)[1..] == rest;
  }

  lemma {:induction false} JoinUndoesSplit(s: string, sep: char)
    ensures Join(Split(s, sep), sep) == s
  {
    if s != "" {
      JoinUndoesSplit(s[1..], sep);
      var rest := Split(s[1..], sep);
      if s[0] == sep {
        assert ([""] + rest)[1..] == rest;
      } else {
        var parts := [[s[0]] + rest[0]] + rest[1..];
        assert parts[1..] == rest[1..];
      }
    }
  }

  lemma {:induction false} SplitPrefix(p: string, s: string, sep: char)
    requires sep !in p
    ensures Split(p + s, sep) == [p + Split(s, sep)[0]] + Split(s, sep)[1..]
  {
    if p == "" {
      var rest := Split(s, sep);
      assert p + s == s && p + rest[0] == rest[0] && [rest[0]] + rest[1..] == rest;
    } else {
      SplitPrefix(p[1..], s, sep);
      var q, rest := p[1..], Split(s, sep);
      assert (p + s)[1..] == q + s && (p + s)[0] == p[0];
      assert Split(q + s, sep)[0] == q + rest[0] && Split(q + s, sep)[1..] == rest[1..];
      assert [p[0]] + (q + rest[0]) == p + rest[0];
    }
  }

  lemma {:induction false} SplitAtSeparator(p: string, s: string, sep: char)
    requires sep !in p
    ensures Split(p + [sep] + s, sep) == [p] + Split(s, sep)
    ensures Split(p, sep) == [p]
  {
    SplitPrefix(p, [sep] + s, sep);
    assert p + [sep] + s == p + ([sep] + s);
    assert ([sep] + s)[1..] == s;
    SplitPrefix(p, "", sep);
    assert p + "" == p;
  }

  lemma {:induction false} SplitUndoesJoin(parts: seq<string>, sep: char)
    requires parts != [] && forall p <- parts :: sep !in p
    ensures Split(Join(parts, sep), sep) == parts
  {
    if |parts| == 1 {
      SplitAtSeparator(parts[0], "", sep);
    } else {
      SplitUndoesJoin(parts[1..], sep);
      SplitAtSeparator(parts[0], Join(parts[1..], sep), sep);
    }
  }

  // ----- trimming -----

  predicate IsSpace(c: char) { c == ' ' || '\t' <= c <= '\r' }

  function TrimLeft(s: string): string {
    if s != "" && IsSpace(s[0]) then TrimLeft(s[1..]) else s
  }

  function TrimRight(s: string): string {
    if s != "" && IsSpace(s[|s| - 1]) then TrimRight(s[..|s| - 1]) else s
  }

  function TrimSpace(s: string): string { TrimRight(TrimLeft(s)) }

  predicate Trimmed(s: string) {
    s != "" ==> !IsSpace(s[0]) && !IsSpace(s[|s| - 1])
  }

  lemma TrimSpaceTrims(s: string)
    ensures Trimmed(TrimSpace(s))
    ensures Trimmed(s) ==> TrimSpace(s) == s
  {
    TrimLeftEdge(s);
    TrimRightEdges(TrimLeft(s));
  }

  lemma {:induction false} TrimLeftEdge(s: string)
    ensures TrimLeft(s) != "" ==> !IsSpace(TrimLeft(s)[0])
  {
    if s != "" && IsSpace(s[0]) { TrimLeftEdge(s[1..]); }
  }

  lemma {:induction false} TrimRightEdges(s: string)
    ensures TrimRight(s) != "" ==> !IsSpace(TrimRight(s)[|TrimRight(s)| - 1]) && TrimRight(s)[0] == s[0]
  {
    if s != "" && IsSpace(s[|s| - 1]) { TrimRightEdges(s[..|s| - 1]); }
  }

  predicate IsBlank(c: char) { c in " \t\n\U{000B}\U{000C}\r" }

  /** t is s[i..j], what is outside is blank, and t neither begins nor ends with a blank. */
  ghost predicate TrimmedTo(s: string, i: nat, j: nat, t: string) {
    && i <= j <= |s| && t == s[i..j]
    && (forall k | 0 <= k < i :: IsBlank(s[k])) && (forall k | j <= k < |s| :: IsBlank(s[k]))
    && (i < j ==> !IsBlank(s[i]) && !IsBlank(s[j - 1]))
  }

  lemma BlankIsSpace(c: char) ensures IsBlank(c) <==> IsSpace(c) {}

  lemma CutTwice(s: string, i: nat, n: nat)
    requires i + n <= |s|
    ensures s[i..][..n] == s[i..i + n] && forall k | n <= k < |s| - i :: s[i..][k] == s[i + k]
  {}

  lemma BlankBehind(s: string, i: nat, n: nat)
    requires i + n <= |s| && forall k | n <= k < |s| - i :: IsBlank(s[i..][k])
    ensures forall k | i + n <= k < |s| :: IsBlank(s[k])
  {
    hide IsBlank;
    forall k | i + n <= k < |s| ensures IsBlank(s[k]) { assert s[i..][k - i] == s[k]; }
  }

  lemma TrimEnds(s: string) returns (i: nat, j: nat)
    ensures TrimmedTo(s, i, j, TrimSpace(s))
  {
    hide TrimLeft, TrimRight, IsBlank, IsSpace;
    i := LeftEnd(s);
    var n := RightEnd(TrimLeft(s));
    j := i + n;
    CutTwice(s, i, n);
    BlankBehind(s, i, n);
    TrimSpaceTrims(s);
    if n > 0 {
      BlankIsSpace(s[i]);
      BlankIsSpace(s[j - 1]);
    }
  }

  /** Trimming takes off the blanks at either end and nothing else. */
  lemma TrimSpaceMeans(s: string)
    ensures exists i, j :: TrimmedTo(s, i, j, TrimSpace(s))
    ensures TrimSpace(s) == "" <==> forall k | 0 <= k < |s| :: IsBlank(s[k])
  {
    hide TrimSpace, IsBlank;
    var i, j := TrimEnds(s);
    if i == j {
      forall k | 0 <= k < |s| ensures IsBlank(s[k]) { if k < i { assert IsBlank(s[k]); } }
    }
  }

  lemma {:induction false} LeftEnd(s: string) returns (i: nat)
    ensures i <= |s| && TrimLeft(s) == s[i..] && forall k | 0 <= k < i :: IsBlank(s[k])
  {
    hide IsBlank, IsSpace;
    i := 0;
    if s != "" && IsSpace(s[0]) {
      var rest := s[1..];
      var n := LeftEnd(rest);
      i := n + 1;
      BlankIsSpace(s[0]);
      forall k | 0 <= k < i ensures IsBlank(s[k]) { if k > 0 { assert rest[k - 1] == s[k]; } }
    }
  }

  lemma {:induction false} RightEnd(s: string) returns (n: nat)
    ensures n <= |s| && TrimRight(s) == s[..n] && forall k | n <= k < |s| :: IsBlank(s[k])
  {
    hide IsBlank, IsSpace;
    n := |s|;
    if s != "" && IsSpace(s[|s| - 1]) {
      BlankIsSpace(s[|s| - 1]);
      n := RightEnd(s[..|s| - 1]);
    }
  }

  /** The text has one piece more than separators. */
  lemma {:induction false} SplitCounts(s: string, sep: char)
    ensures |Split(s, sep)| == multiset(s)[sep] + 1
  {
    if s != "" {
      SplitCounts(s[1..], sep);
      assert s == [s[0]] + s[1..];
    }
  }
}
