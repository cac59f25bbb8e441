/** How short and how long the matches of an expression can be. */
module MatchLengths {
  import opened Wrappers
  import opened Regex

  function Product(n: nat, m: nat): nat { n * m }

  function Shortest(re: Regex): nat {
    match re
    case Empty => 0
    case Text(t) => |t|
    case Char(_) => 1
    case Boundary => 0
    case Cat(a, b) => Shortest(a) + Shortest(b)
    case Alt(a, b) => if Shortest(a) <= Shortest(b) then Shortest(a) else Shortest(b)
    case Repeat(b, lo, _) => Product(lo, Shortest(b))
  }

  /** None means unbounded. */
  function Longest(re: Regex): Option<nat> {
    match re
    case Empty => Some(0)
    case Text(t) => Some(|t|)
    case Char(_) => Some(1)
    case Boundary => Some(0)
    case Cat(a, b) => if Longest(a).Some? && Longest(b).Some? then Some(Longest(a).value + Longest(b).value) else None
    case Alt(a, b) =>
      if Longest(a).Some? && Longest(b).Some? then
        Some(if Longest(a).value <= Longest(b).value then Longest(b).value else Longest(a).value)
      else None
    case Repeat(b, _, hi) => if hi.Some? && Longest(b).Some? then Some(Product(hi.value, Longest(b).value)) else None
  }

  lemma {:induction false} LengthSound(re: Regex, s: string, i: nat, j: nat)
    requires i <= j <= |s| && Matches(re, s, i, j)
    ensures Shortest(re) <= j - i
    ensures Longest(re).Some? ==> j - i <= Longest(re).value
    decreases re, 0, 0
  {
    match re
    case Cat(a, b) =>
      var k :| i <= k <= j && Matches(a, s, i, k) && Matches(b, s, k, j);
      LengthSound(a, s, i, k);
      LengthSound(b, s, k, j);
    case Alt(a, b) => if Matches(a, s, i, j) { LengthSound(a, s, i, j); } else { LengthSound(b, s, i, j); }
    case Repeat(b, lo, hi) => RepeatLength(b, lo, hi, s, i, j);
    case _ =>
  }

  lemma {:induction false} RepeatLength(body: Regex, lo: nat, hi: Option<nat>, s: string, i: nat, j: nat)
    requires i <= j <= |s| && MatchesRepeat(body, lo, hi, s, i, j)
    ensures Product(lo, Shortest(body)) <= j - i
    ensures hi.Some? && Longest(body).Some? ==> j - i <= Product(hi.value, Longest(body).value)
    decreases body, 1, j - i
  {
    hide Product;
    if lo == 0 { OneMoreTime(lo, Shortest(body)); }
    if !(lo == 0 && i == j) {
      var k :| i < k <= j && Matches(body, s, i, k) && MatchesRepeat(body, Pred(lo), Less(hi), s, k, j);
      LengthSound(body, s, i, k);
      RepeatLength(body, Pred(lo), Less(hi), s, k, j);
      OneMoreTime(lo, Shortest(body));
      if hi.Some? && Longest(body).Some? { OneMoreTime(hi.value, Longest(body).value); }
    }
  }

  lemma OneMoreTime(n: nat, m: nat)
    ensures n > 0 ==> Product(n, m) == Product(Pred(n), m) + m
    ensures n == 0 ==> Product(n, m) == 0
  {}
}
