/** What the patterns for personal data match, said without regular expressions: positions and runs of
    characters for the plain ones, and for the numbers the groups they are written in and what may stand
    between the groups. */
module PiiMeanings {
  import opened Wrappers
  import opened Regex
  import opened RuleTable
  import opened PatternMeanings
  import opened Groups

  // ----- email -----

  predicate IsLocalChar(c: char) { IsWord(c) || c == '.' || c == '+' || c == '-' }

  predicate IsHostChar(c: char) { IsWord(c) || c == '-' }

  predicate IsDomainChar(c: char) { IsWord(c) || c == '.' || c == '-' }

  /** Something, an at sign at a, a host, a dot at b and two or more. */
  ghost predicate EmailCut(s: string, i: nat, a: nat, b: nat, j: nat) {
    && i < a && a + 1 < b && b + 3 <= j <= |s| && s[a] == '@' && s[b] == '.'
    && All(IsLocalChar, s, i, a) && All(IsHostChar, s, a + 1, b) && All(IsDomainChar, s, b + 1, j)
  }

  ghost predicate IsEmail(s: string, i: nat, j: nat) { exists a: nat, b: nat :: EmailCut(s, i, a, b, j) }

  const Local := Class(true, true, true, "_.+-")
  const Host := Class(true, true, true, "_-")
  const Domain := Class(true, true, true, "_.-")

  lemma EmailClasses()
    ensures Same(Local, IsLocalChar) && Same(Host, IsHostChar) && Same(Domain, IsDomainChar)
  {}

  lemma EmailReads(s: string, i: nat, j: nat)
    requires i <= j <= |s| && Matches(Email, s, i, j)
    ensures IsEmail(s, i, j)
  {
    hide Matches, All, Same;
    EmailClasses();
    var r1 := Email.second;
    var r2 := r1.second;
    var r3 := r2.second;
    var a := Apart(Email.first, r1, s, i, j);
    LongRun(Local, IsLocalChar, 1, s, i, a);
    TextFirst("@", r2, s, a, j);
    assert s[a..a + 1][0] == s[a];
    var b := Apart(r2.first, r3, s, a + 1, j);
    LongRun(Host, IsHostChar, 1, s, a + 1, b);
    TextFirst(".", r3.second, s, b, j);
    assert s[b..b + 1][0] == s[b];
    LongRun(Domain, IsDomainChar, 2, s, b + 1, j);
    assert EmailCut(s, i, a, b, j);
  }

  lemma EmailIsRead(s: string, i: nat, a: nat, b: nat, j: nat)
    requires i <= j <= |s| && EmailCut(s, i, a, b, j)
    ensures Matches(Email, s, i, j)
  {
    hide Matches, All, Same;
    EmailClasses();
    var r1 := Email.second;
    var r2 := r1.second;
    var r3 := r2.second;
    LongRun(Domain, IsDomainChar, 2, s, b + 1, j);
    assert s[b..b + 1] == "." && s[a..a + 1] == "@";
    TextFirst(".", r3.second, s, b, j);
    LongRun(Host, IsHostChar, 1, s, a + 1, b);
    Join(r2.first, r3, s, a + 1, b, j);
    TextFirst("@", r2, s, a, j);
    LongRun(Local, IsLocalChar, 1, s, i, a);
    Join(Email.first, r1, s, i, a, j);
  }

  lemma EmailMeans(s: string, i: nat, j: nat)
    requires i <= j <= |s|
    ensures Matches(Email, s, i, j) <==> IsEmail(s, i, j)
  {
    hide Matches, EmailCut;
    if Matches(Email, s, i, j) { EmailReads(s, i, j); }
    if a: nat, b: nat :| EmailCut(s, i, a, b, j) { EmailIsRead(s, i, a, b, j); }
  }

  // ----- iban: two capitals, two digits, ten to thirty more -----

  ghost predicate IsIban(s: string, i: nat, j: nat)
    requires i <= j <= |s|
  {
    && 14 <= j - i <= 34 && Edge(s, i) && Edge(s, j)
    && All(IsUpper, s, i, i + 2) && All(IsDigit, s, i + 2, i + 4) && All(IsUpperOrDigit, s, i + 4, j)
  }

  lemma IbanMeans(s: string, i: nat, j: nat)
    requires i <= j <= |s|
    ensures Matches(Iban, s, i, j) <==> IsIban(s, i, j)
  {
    hide Matches, Edge, All;
    var r1 := Iban.second;
    var r2 := r1.second;
    var r3 := r2.second;
    EdgeFirst(r1, s, i, j);
    RunFirst(Capitals, IsUpper, 2, r2, s, i, j);
    if i + 2 <= j { RunFirst(Digits, IsDigit, 2, r3, s, i + 2, j); }
    if i + 4 <= j {
      EdgeLast(r3.first, s, i + 4, j);
      RangeRun(CapitalsAndDigits, IsUpperOrDigit, 10, 30, s, i + 4, j);
    }
  }

  // ----- ssn_us: ddd-dd-dddd -----

  ghost predicate IsSsn(s: string, i: nat, j: nat)
    requires i <= j <= |s|
  {
    && j == i + 11 && Edge(s, i) && Edge(s, j)
    && All(IsDigit, s, i, i + 3) && s[i + 3] == '-' && All(IsDigit, s, i + 4, i + 6) && s[i + 6] == '-'
    && All(IsDigit, s, i + 7, i + 11)
  }

  lemma HyphenFirst(b: Regex, s: string, i: nat, j: nat)
    requires i <= j <= |s|
    ensures Matches(Cat(Text("-"), b), s, i, j) <==> i < j && s[i] == '-' && Matches(b, s, i + 1, j)
  {
    hide Matches;
    TextFirst("-", b, s, i, j);
    if i < j { assert s[i..i + 1] == [s[i]]; }
  }

  lemma SsnMeans(s: string, i: nat, j: nat)
    requires i <= j <= |s|
    ensures Matches(SsnUs, s, i, j) <==> IsSsn(s, i, j)
  {
    hide Matches, Edge, All;
    var cl := Digits;
    var r1 := SsnUs.second;
    var r2 := r1.second;
    var r3 := r2.second;
    var r4 := r3.second;
    var r5 := r4.second;
    EdgeFirst(r1, s, i, j);
    RunFirst(cl, IsDigit, 3, r2, s, i, j);
    if i + 3 <= j { HyphenFirst(r3, s, i + 3, j); }
    if i + 4 <= j { RunFirst(cl, IsDigit, 2, r4, s, i + 4, j); }
    if i + 6 <= j { HyphenFirst(r5, s, i + 6, j); }
    if i + 7 <= j {
      EdgeLast(r5.first, s, i + 7, j);
      ExactRun(cl, IsDigit, 4, s, i + 7, j);
    }
  }

  // ----- credit_card: four groups apart, or fifteen or sixteen digits -----

  /** Three times four digits and a blank or hyphen, then three or four digits. */
  ghost predicate IsSpacedCard(s: string, i: nat, j: nat) {
    && 18 <= j - i <= 19 && j <= |s|
    && forall d | i <= d < j :: if d - i == 4 || d - i == 9 || d - i == 14 then s[d] == ' ' || s[d] == '-' else IsDigit(s[d])
  }

  ghost predicate IsCard(s: string, i: nat, j: nat)
    requires i <= j <= |s|
  {
    Edge(s, i) && Edge(s, j) && (IsSpacedCard(s, i, j) || (15 <= j - i <= 16 && All(IsDigit, s, i, j)))
  }

  const CardGap := Class(false, false, false, " -")
  const CardGroup := Cat(Times(Digit, 4), Char(CardGap))

  predicate IsCardGap(c: char) { c == ' ' || c == '-' }

  lemma CardGroupMeans(s: string, i: nat, j: nat)
    requires i <= j <= |s|
    ensures Matches(CardGroup, s, i, j) <==> j == i + 5 && All(IsDigit, s, i, i + 4) && IsCardGap(s[i + 4])
  {
    hide Matches, All;
    RunFirst(Digits, IsDigit, 4, Char(CardGap), s, i, j);
    if i + 4 <= j { OneMeans(CardGap, s, i + 4, j); }
  }

  lemma OneMeans(cl: Class, s: string, i: nat, j: nat)
    requires i <= j <= |s|
    ensures Matches(Char(cl), s, i, j) <==> j == i + 1 && Has(cl, s[i])
  {}

  ghost predicate CardGroups(n: nat, s: string, i: nat, j: nat) {
    && j == i + 5 * n && j <= |s|
    && forall d | i <= d < j :: if (d - i) % 5 == 4 then IsCardGap(s[d]) else IsDigit(s[d])
  }

  lemma {:induction false} CardGroupsMean(n: nat, s: string, i: nat, j: nat)
    requires i <= j <= |s|
    ensures MatchesRepeat(CardGroup, n, Some(n), s, i, j) <==> CardGroups(n, s, i, j)
  {
    hide Matches;
    if n > 0 {
      if MatchesRepeat(CardGroup, n, Some(n), s, i, j) {
        var k := OnceApart(CardGroup, n, n, s, i, j);
        CardGroupMeans(s, i, k);
        CardGroupsMean(n - 1, s, k, j);
        OneGroupMore(n, s, i, j);
      }
      if CardGroups(n, s, i, j) {
        OneGroupMore(n, s, i, j);
        CardGroupMeans(s, i, i + 5);
        CardGroupsMean(n - 1, s, i + 5, j);
      }
    }
  }

  lemma OneGroupMore(n: nat, s: string, i: nat, j: nat)
    requires n > 0 && i <= j <= |s|
    ensures CardGroups(n, s, i, j)
            <==> i + 5 <= j && All(IsDigit, s, i, i + 4) && IsCardGap(s[i + 4]) && CardGroups(n - 1, s, i + 5, j)
  {
    if CardGroups(n, s, i, j) {
      forall d | i + 5 <= d < j ensures if (d - (i + 5)) % 5 == 4 then IsCardGap(s[d]) else IsDigit(s[d]) {
        assert (d - (i + 5)) % 5 == (d - i) % 5;
      }
    }
    if i + 5 <= j && All(IsDigit, s, i, i + 4) && IsCardGap(s[i + 4]) && CardGroups(n - 1, s, i + 5, j) {
      forall d | i <= d < j ensures if (d - i) % 5 == 4 then IsCardGap(s[d]) else IsDigit(s[d]) {
        if d >= i + 5 { assert (d - (i + 5)) % 5 == (d - i) % 5; }
      }
    }
  }

  lemma SpacedCardMeans(s: string, i: nat, j: nat)
    requires i <= j <= |s|
    ensures Matches(CreditCard.first, s, i, j) <==> Edge(s, i) && Edge(s, j) && IsSpacedCard(s, i, j)
  {
    hide Matches, Edge, MatchesRepeat;
    var three := Times(CardGroup, 3);
    var last := Between(Digit, 3, 4);
    var rest := Cat(last, Boundary);
    EdgeFirst(Cat(three, rest), s, i, j);
    if Matches(Cat(three, rest), s, i, j) {
      var k := Apart(three, rest, s, i, j);
      RepeatMeans(CardGroup, 3, s, i, k);
      CardGroupsMean(3, s, i, k);
      EdgeLast(last, s, k, j);
      RangeRun(Digits, IsDigit, 3, 4, s, k, j);
      SpacedIsGroups(s, i, j);
    }
    if Edge(s, i) && Edge(s, j) && IsSpacedCard(s, i, j) {
      var k := i + 15;
      SpacedIsGroups(s, i, j);
      CardGroupsMean(3, s, i, k);
      RepeatMeans(CardGroup, 3, s, i, k);
      RangeRun(Digits, IsDigit, 3, 4, s, k, j);
      EdgeLast(last, s, k, j);
      Join(three, rest, s, i, k, j);
    }
  }

  lemma RepeatMeans(body: Regex, n: nat, s: string, i: nat, j: nat)
    requires i <= j <= |s|
    ensures Matches(Times(body, n), s, i, j) <==> MatchesRepeat(body, n, Some(n), s, i, j)
  {
    hide MatchesRepeat;
  }

  lemma SpacedIsGroups(s: string, i: nat, j: nat)
    requires i <= j <= |s|
    ensures IsSpacedCard(s, i, j) <==> 18 <= j - i <= 19 && CardGroups(3, s, i, i + 15) && All(IsDigit, s, i + 15, j)
  {
    if IsSpacedCard(s, i, j) {
      forall d | i <= d < i + 15 ensures if (d - i) % 5 == 4 then IsCardGap(s[d]) else IsDigit(s[d]) { GapPlaces(d - i); }
    }
    if 18 <= j - i <= 19 && CardGroups(3, s, i, i + 15) && All(IsDigit, s, i + 15, j) {
      forall d | i <= d < j
        ensures if d - i == 4 || d - i == 9 || d - i == 14 then s[d] == ' ' || s[d] == '-' else IsDigit(s[d])
      {
        if d < i + 15 { GapPlaces(d - i); }
      }
    }
  }

  lemma GapPlaces(x: nat)
    requires x < 15
    ensures x % 5 == 4 <==> x == 4 || x == 9 || x == 14
  {}

  lemma CreditCardMeans(s: string, i: nat, j: nat)
    requires i <= j <= |s|
    ensures Matches(CreditCard, s, i, j) <==> IsCard(s, i, j)
  {
    hide Matches, Edge, All, IsSpacedCard;
    var run := Between(Digit, 15, 16);
    Either(CreditCard.first, CreditCard.second, s, i, j);
    SpacedCardMeans(s, i, j);
    EdgeFirst(Cat(run, Boundary), s, i, j);
    EdgeLast(run, s, i, j);
    RangeRun(Digits, IsDigit, 15, 16, s, i, j);
  }

  // ----- phone_fr: 06, 07 or the same with +33, and four pairs of digits -----

  const PhoneGaps: seq<string> := ["", " ", ".", "-"]

  predicate IsFrenchHead(t: string) {
    exists m <- ["6", "7"] :: t == "0" + m || exists gap <- PhoneGaps :: t == "+33" + gap + m
  }

  ghost predicate IsPhoneFr(s: string, i: nat, j: nat)
    requires i <= j <= |s|
  {
    Edge(s, i) && Edge(s, j) && exists p: Parts :: FrenchParts(p) && s[i..j] == Spelled(p)
  }

  predicate FrenchParts(p: Parts) {
    && |p.groups| == 5 && |p.gaps| == 4 && (forall gap <- p.gaps :: gap in PhoneGaps)
    && IsFrenchHead(p.groups[0]) && forall k | 1 <= k < 5 :: InDigits(p.groups[k], 2, 2)
  }

  const PhoneSep := Class(false, false, false, " .-")
  const Mobile := Class(false, false, false, "67")

  lemma PhoneGapStands(t: string)
    ensures Stands(Sep, t) <==> t in PhoneGaps
  {
    OptionalStands(PhoneSep, t);
    if |t| == 1 { assert t == [t[0]]; }
  }

  lemma PairStands(t: string)
    ensures Stands(Times(Digit, 2), t) <==> InDigits(t, 2, 2)
  {
    DigitsStand(Digits, 2, 2, t);
  }

  lemma PrefixMeans(s: string, i: nat, j: nat)
    requires i <= j <= |s|
    ensures Matches(PhonePrefix, s, i, j) <==> s[i..j] == "0" || exists gap <- PhoneGaps :: s[i..j] == "+33" + gap
  {
    hide Matches, Stands;
    Either(PhonePrefix.first, Text("0"), s, i, j);
    TextMeans("0", s, i, j);
    TextFirst("+33", Sep, s, i, j);
    if i + 3 <= j {
      StandsAlone(Sep, s, i + 3, j);
      PhoneGapStands(s[i + 3..j]);
      assert s[i..j] == s[i..i + 3] + s[i + 3..j];
    }
    if gap :| gap in PhoneGaps && s[i..j] == "+33" + gap {
      Halves(s, i, i + 3, j, "+33", gap);
    }
  }

  lemma FrenchReads(s: string, i: nat, j: nat)
    requires i <= j <= |s| && Matches(PhoneFr, s, i, j)
    ensures IsPhoneFr(s, i, j)
  {
    hide Matches, Edge, Stands;
    var pairs := Times(Cat(Sep, Times(Digit, 2)), 4);
    var r1 := PhoneFr.second;
    var r2 := r1.second;
    EdgeFirst(r1, s, i, j);
    var a := Apart(PhonePrefix, r2, s, i, j);
    PrefixMeans(s, i, a);
    var b := Apart(Char(Mobile), r2.second, s, a, j);
    OneMeans(Mobile, s, a, b);
    EdgeLast(pairs, s, b, j);
    RepeatMeans(Cat(Sep, Times(Digit, 2)), 4, s, b, j);
    var p := TimesApart(Times(Digit, 2), Sep, 4, 4, s, b, j);
    FrenchHeadIs(s, i, a);
    FrenchPartsRead(p, s[i..b]);
    assert s[i..j] == s[i..b] + s[b..j];
  }

  lemma FrenchHeadIs(s: string, i: nat, a: nat)
    requires i <= a < |s| && (s[a] == '6' || s[a] == '7')
    requires s[i..a] == "0" || exists gap <- PhoneGaps :: s[i..a] == "+33" + gap
    ensures IsFrenchHead(s[i..a + 1])
  {
    var m := [s[a]];
    assert m in ["6", "7"];
    assert s[i..a + 1] == s[i..a] + m;
  }

  lemma FrenchPartsRead(p: Parts, head: string)
    requires ReadsTimes(Times(Digit, 2), Sep, 4, 4, p) && IsFrenchHead(head)
    ensures var q := Parts([head] + p.groups, p.gaps); FrenchParts(q) && Spelled(q) == head + Trail(p.gaps, p.groups)
  {
    hide Stands, IsFrenchHead;
    forall k | 0 <= k < 4 ensures p.gaps[k] in PhoneGaps && InDigits(p.groups[k], 2, 2) {
      PhoneGapStands(p.gaps[k]);
      PairStands(p.groups[k]);
    }
    assert ([head] + p.groups)[1..] == p.groups;
  }

  lemma FrenchIsRead(s: string, i: nat, j: nat, p: Parts)
    requires i <= j <= |s| && Edge(s, i) && Edge(s, j) && FrenchParts(p) && s[i..j] == Spelled(p)
    ensures Matches(PhoneFr, s, i, j)
  {
    hide Matches, Edge, Stands, IsFrenchHead;
    var pairs := Times(Cat(Sep, Times(Digit, 2)), 4);
    var r1 := PhoneFr.second;
    var r2 := r1.second;
    var q := Parts(p.groups[1..], p.gaps);
    forall k | 0 <= k < 4 ensures Stands(Sep, q.gaps[k]) && Stands(Times(Digit, 2), q.groups[k]) {
      PhoneGapStands(q.gaps[k]);
      PairStands(q.groups[k]);
    }
    var b := i + |p.groups[0]|;
    Halves(s, i, b, j, p.groups[0], Trail(q.gaps, q.groups));
    TimesJoin(Times(Digit, 2), Sep, 4, 4, q, s, b, j);
    RepeatMeans(Cat(Sep, Times(Digit, 2)), 4, s, b, j);
    EdgeLast(pairs, s, b, j);
    FrenchHeadCut(s, i, b);
    OneMeans(Mobile, s, b - 1, b);
    Join(Char(Mobile), r2.second, s, b - 1, b, j);
    PrefixMeans(s, i, b - 1);
    Join(PhonePrefix, r2, s, i, b - 1, j);
    EdgeFirst(r1, s, i, j);
  }

  lemma FrenchHeadCut(s: string, i: nat, b: nat)
    requires i <= b <= |s| && IsFrenchHead(s[i..b])
    ensures i < b && (s[b - 1] == '6' || s[b - 1] == '7')
    ensures s[i..b - 1] == "0" || exists gap <- PhoneGaps :: s[i..b - 1] == "+33" + gap
  {
    var m :| m in ["6", "7"] && (s[i..b] == "0" + m || exists gap <- PhoneGaps :: s[i..b] == "+33" + gap + m);
    var head := s[i..b][..|s[i..b]| - 1];
    assert s[i..b] == head + m;
    Halves(s, i, b - 1, b, head, m);
  }

  lemma PhoneFrMeans(s: string, i: nat, j: nat)
    requires i <= j <= |s|
    ensures Matches(PhoneFr, s, i, j) <==> IsPhoneFr(s, i, j)
  {
    hide Matches, Edge, IsFrenchHead, Spelled;
    if Matches(PhoneFr, s, i, j) { FrenchReads(s, i, j); }
    if IsPhoneFr(s, i, j) {
      var p: Parts :| FrenchParts(p) && s[i..j] == Spelled(p);
      FrenchIsRead(s, i, j, p);
    }
  }

  /** A number that starts with a plus sign is taken only right behind a word character: before the sign, that is where
      the pattern's word boundary can be. */
  lemma PlusNeedsWordBefore(s: string, i: nat, j: nat)
    requires i <= j <= |s| && Matches(PhoneFr, s, i, j) && i < |s| && s[i] == '+'
    ensures i > 0 && IsWord(s[i - 1])
  {
    hide Matches;
    PhoneFrMeans(s, i, j);
  }

  // ----- phone_intl: a plus sign and four or five groups -----

  predicate IntlParts(p: Parts) {
    && 4 <= |p.groups| <= 5 && |p.gaps| + 1 == |p.groups| && (forall gap <- p.gaps :: gap in PhoneGaps)
    && InDigits(p.groups[0], 1, 3) && InDigits(p.groups[1], 1, 4)
    && forall k | 2 <= k < |p.groups| :: InDigits(p.groups[k], 2, 4)
  }

  ghost predicate IsPhoneIntl(s: string, i: nat, j: nat)
    requires i <= j <= |s|
  {
    exists p: Parts :: IntlParts(p) && s[i..j] == "+" + Spelled(p)
  }

  const Pairs := Between(Digit, 2, 4)
  const IntlGroups := [Between(Digit, 1, 4), Pairs, Pairs]
  const IntlEnd := Between(Cat(Sep, Pairs), 0, 1)

  lemma IntlIsGroups()
    ensures PhoneIntl == Cat(Text("+"), Cat(Between(Digit, 1, 3), Following(IntlGroups, Sep, IntlEnd)))
    ensures NoBoundaries(IntlGroups, Sep) && Consumes(Pairs)
  {
    var one := [Pairs];
    var two := [Pairs, Pairs];
    assert one[1..] == [] && two[1..] == one && IntlGroups[1..] == two;
    assert Following([], Sep, IntlEnd) == IntlEnd;
    assert Following(one, Sep, IntlEnd) == Cat(Sep, Cat(Pairs, IntlEnd));
    assert Following(two, Sep, IntlEnd) == Cat(Sep, Cat(Pairs, Following(one, Sep, IntlEnd)));
  }

  lemma SomeDigits(lo: nat, hi: nat, t: string)
    requires lo <= hi
    ensures Stands(Between(Digit, lo, hi), t) <==> InDigits(t, lo, hi)
  {
    DigitsStand(Digits, lo, hi, t);
  }

  lemma OptionalEnd(s: string, i: nat, j: nat)
    requires i <= j <= |s|
    ensures Matches(IntlEnd, s, i, j) <==> MatchesRepeat(Cat(Sep, Pairs), 0, Some(1), s, i, j)
  {
    hide MatchesRepeat;
  }

  /** The first group, those that must follow and the one that may. */
  function Numbered(head: string, p: Parts, q: Parts): Parts { Parts([head] + (p.groups + q.groups), p.gaps + q.gaps) }

  lemma NumberedSpells(head: string, p: Parts, q: Parts)
    requires |p.groups| == |p.gaps| && |q.groups| == |q.gaps|
    ensures Spelled(Numbered(head, p, q)) == head + Trail(p.gaps, p.groups) + Trail(q.gaps, q.groups)
  {
    var all := Numbered(head, p, q);
    assert all.groups[1..] == p.groups + q.groups;
    TrailAppend(p, q);
    Four(head, Trail(p.gaps, p.groups), Trail(q.gaps, q.groups));
  }

  predicate IntlMiddle(p: Parts) {
    && |p.groups| == |p.gaps| == 3 && (forall k | 0 <= k < 3 :: p.gaps[k] in PhoneGaps)
    && InDigits(p.groups[0], 1, 4) && InDigits(p.groups[1], 2, 4) && InDigits(p.groups[2], 2, 4)
  }

  predicate IntlLast(q: Parts) {
    && |q.groups| == |q.gaps| <= 1
    && forall k | 0 <= k < |q.gaps| :: q.gaps[k] in PhoneGaps && InDigits(q.groups[k], 2, 4)
  }

  lemma MiddleReads(p: Parts)
    ensures Reads(IntlGroups, Sep, p) <==> IntlMiddle(p)
  {
    hide Stands, InDigits;
    if |p.groups| == |p.gaps| == 3 {
      SomeDigits(1, 4, p.groups[0]);
      SomeDigits(2, 4, p.groups[1]);
      SomeDigits(2, 4, p.groups[2]);
      forall k | 0 <= k < 3 ensures Stands(Sep, p.gaps[k]) <==> p.gaps[k] in PhoneGaps { PhoneGapStands(p.gaps[k]); }
    }
  }

  lemma LastReads(q: Parts)
    ensures ReadsTimes(Pairs, Sep, 0, 1, q) <==> IntlLast(q)
  {
    hide Stands, InDigits;
    if |q.groups| == |q.gaps| == 1 {
      PhoneGapStands(q.gaps[0]);
      SomeDigits(2, 4, q.groups[0]);
    }
  }

  lemma NumberedIsIntl(head: string, p: Parts, q: Parts)
    requires |p.groups| == |p.gaps| == 3 && |q.groups| == |q.gaps| <= 1
    ensures IntlParts(Numbered(head, p, q))
            <==> InDigits(head, 1, 3) && Reads(IntlGroups, Sep, p) && ReadsTimes(Pairs, Sep, 0, 1, q)
  {
    hide Reads, ReadsTimes, InDigits;
    MiddleReads(p);
    LastReads(q);
    var all := Numbered(head, p, q);
    assert all.groups[0] == head && all.groups[1] == p.groups[0] && all.groups[2] == p.groups[1] && all.groups[3] == p.groups[2];
    if |q.groups| == 1 { assert all.groups[4] == q.groups[0] && all.gaps[3] == q.gaps[0]; }
    assert forall k | 0 <= k < 3 :: all.gaps[k] == p.gaps[k];
  }

  lemma IntlReads(s: string, i: nat, j: nat)
    requires i <= j <= |s| && Matches(PhoneIntl, s, i, j)
    ensures IsPhoneIntl(s, i, j)
  {
    hide Matches, Stands, IntlParts, Spelled, Following, Consumes, BoundaryFree;
    IntlIsGroups();
    var head := Between(Digit, 1, 3);
    var rest := Following(IntlGroups, Sep, IntlEnd);
    TextFirst("+", Cat(head, rest), s, i, j);
    var a := Apart(head, rest, s, i + 1, j);
    RangeRun(Digits, IsDigit, 1, 3, s, i + 1, a);
    var k, p := FollowingApart(IntlGroups, Sep, IntlEnd, s, a, j);
    OptionalEnd(s, k, j);
    var q := TimesApart(Pairs, Sep, 0, 1, s, k, j) by { FreePairs(); }
    NumberedIsIntl(s[i + 1..a], p, q);
    NumberedSpells(s[i + 1..a], p, q);
    assert s[i..j] == s[i..i + 1] + s[i + 1..j];
    ThreePieces(s, i + 1, a, k, j);
  }

  lemma FreePairs() ensures BoundaryFree(Pairs) && BoundaryFree(Sep) {}

  lemma IntlIsRead(s: string, i: nat, j: nat, head: string, p: Parts, q: Parts)
    requires i <= j <= |s| && |p.groups| == |p.gaps| == 3 && |q.groups| == |q.gaps| <= 1
    requires IntlParts(Numbered(head, p, q)) && s[i..j] == "+" + Spelled(Numbered(head, p, q))
    ensures Matches(PhoneIntl, s, i, j)
  {
    hide Matches, Stands, IntlParts, Spelled, Following, Consumes, BoundaryFree;
    IntlIsGroups();
    FreePairs();
    NumberedIsIntl(head, p, q);
    NumberedSpells(head, p, q);
    var first := Between(Digit, 1, 3);
    var rest := Following(IntlGroups, Sep, IntlEnd);
    Halves(s, i, i + 1, j, "+", Spelled(Numbered(head, p, q)));
    var a := i + 1 + |head|;
    var k := a + |Trail(p.gaps, p.groups)|;
    FirstTwo(s, i + 1, a, k, j, head, Trail(p.gaps, p.groups), Trail(q.gaps, q.groups));
    TimesJoin(Pairs, Sep, 0, 1, q, s, k, j);
    OptionalEnd(s, k, j);
    FollowingJoin(IntlGroups, Sep, IntlEnd, p, s, a, k, j);
    assert forall d | i + 1 <= d < a :: s[d] == head[d - i - 1];
    RangeRun(Digits, IsDigit, 1, 3, s, i + 1, a);
    Join(first, rest, s, i + 1, a, j);
    TextFirst("+", Cat(first, rest), s, i, j);
  }

  lemma PhoneIntlMeans(s: string, i: nat, j: nat)
    requires i <= j <= |s|
    ensures Matches(PhoneIntl, s, i, j) <==> IsPhoneIntl(s, i, j)
  {
    hide Matches, Spelled;
    if Matches(PhoneIntl, s, i, j) { IntlReads(s, i, j); }
    if IsPhoneIntl(s, i, j) {
      var all: Parts :| IntlParts(all) && s[i..j] == "+" + Spelled(all);
      var p := Parts(all.groups[1..4], all.gaps[..3]);
      var q := Parts(all.groups[4..], all.gaps[3..]);
      assert all == Numbered(all.groups[0], p, q);
      IntlIsRead(s, i, j, all.groups[0], p, q);
    }
  }

  // ----- nir_fr: seven groups -----

  const Blanks: seq<string> := ["", "\t", "\n", "\U{000C}", "\r", " "]

  /** The first digit, year, month, place, municipality, order and check. */
  predicate NirParts(p: Parts) {
    && |p.groups| == 7 && |p.gaps| == 6 && (forall gap <- p.gaps :: gap in Blanks)
    && (p.groups[0] == "1" || p.groups[0] == "2")
    && InDigits(p.groups[1], 2, 2) && InDigits(p.groups[2], 2, 2)
    && (p.groups[3] == "2A" || p.groups[3] == "2B" || InDigits(p.groups[3], 2, 2))
    && InDigits(p.groups[4], 3, 3) && InDigits(p.groups[5], 3, 3) && InDigits(p.groups[6], 2, 2)
  }

  ghost predicate IsNir(s: string, i: nat, j: nat)
    requires i <= j <= |s|
  {
    Edge(s, i) && Edge(s, j) && exists p: Parts :: NirParts(p) && s[i..j] == Spelled(p)
  }

  const Sex := Class(false, false, false, "12")
  const Place := Alt(Cat(Text("2"), Char(Class(false, false, false, "AB"))), Times(Digit, 2))
  const NirGroups := [Times(Digit, 2), Times(Digit, 2), Place, Times(Digit, 3), Times(Digit, 3), Times(Digit, 2)]

  lemma NirTailIsGroups()
    ensures NirTail == Following([Times(Digit, 3), Times(Digit, 3), Times(Digit, 2)], Space, Boundary)
  {
    var one := [Times(Digit, 2)];
    var two := [Times(Digit, 3), Times(Digit, 2)];
    var three := [Times(Digit, 3), Times(Digit, 3), Times(Digit, 2)];
    assert one[1..] == [] && two[1..] == one && three[1..] == two;
    assert Following([], Space, Boundary) == Boundary;
    assert Following(one, Space, Boundary) == Cat(Space, Cat(Times(Digit, 2), Boundary));
    assert Following(two, Space, Boundary) == Cat(Space, Cat(Times(Digit, 3), Following(one, Space, Boundary)));
  }

  lemma NirIsGroups()
    ensures NirFr == Cat(Boundary, Cat(Char(Sex), Following(NirGroups, Space, Boundary)))
  {
    NirTailIsGroups();
    var five := NirGroups[1..];
    var four := five[1..];
    assert four[1..] == [Times(Digit, 3), Times(Digit, 3), Times(Digit, 2)];
    assert Following(four, Space, Boundary) == NirPlace;
    assert Following(five, Space, Boundary) == NirMonth;
    assert Following(NirGroups, Space, Boundary) == NirYear;
  }

  lemma NirFree() ensures NoBoundaries(NirGroups, Space) {}

  lemma BlankStands(t: string)
    ensures Stands(Space, t) <==> t in Blanks
  {
    OptionalStands(Class(false, false, false, "\t\n\U{000C}\r "), t);
    if |t| == 1 { assert t == [t[0]]; }
  }

  lemma PlaceStands(t: string)
    ensures Stands(Place, t) <==> t == "2A" || t == "2B" || InDigits(t, 2, 2)
  {
    hide Matches;
    var corsica := Char(Class(false, false, false, "AB"));
    Either(Place.first, Place.second, t, 0, |t|);
    TextFirst("2", corsica, t, 0, |t|);
    if |t| >= 1 { OneMeans(corsica.cls, t, 1, |t|); }
    if |t| == 2 { assert t == [t[0]] + [t[1]] && t[0..1] == [t[0]]; }
    SomeDigits(2, 2, t);
  }

  /** The groups after the first. */
  lemma NirReads(head: string, p: Parts)
    requires |p.groups| == |p.gaps| == 6
    ensures NirParts(Parts([head] + p.groups, p.gaps)) <==> (head == "1" || head == "2") && Reads(NirGroups, Space, p)
  {
    hide Stands, InDigits;
    forall k | 0 <= k < 6 ensures Stands(Space, p.gaps[k]) <==> p.gaps[k] in Blanks { BlankStands(p.gaps[k]); }
    SomeDigits(2, 2, p.groups[0]);
    SomeDigits(2, 2, p.groups[1]);
    PlaceStands(p.groups[2]);
    SomeDigits(3, 3, p.groups[3]);
    SomeDigits(3, 3, p.groups[4]);
    SomeDigits(2, 2, p.groups[5]);
    var all := Parts([head] + p.groups, p.gaps);
    assert forall k | 0 <= k < 6 :: all.groups[k + 1] == p.groups[k];
  }

  lemma NirMeans(s: string, i: nat, j: nat)
    requires i <= j <= |s|
    ensures Matches(NirFr, s, i, j) <==> IsNir(s, i, j)
  {
    hide Matches, Edge, Following, Stands, Reads, NoBoundaries;
    NirIsGroups();
    NirFree();
    var rest := Following(NirGroups, Space, Boundary);
    EdgeFirst(Cat(Char(Sex), rest), s, i, j);
    if Matches(NirFr, s, i, j) {
      var a := Apart(Char(Sex), rest, s, i, j);
      OneMeans(Sex, s, i, a);
      var k, p := FollowingApart(NirGroups, Space, Boundary, s, a, j);
      NirCut(s, i, k, p);
      BoundaryMeans(s, k, j);
    }
    if IsNir(s, i, j) {
      var all: Parts :| NirParts(all) && s[i..j] == Spelled(all);
      NirIsRead(s, i, j, all);
    }
  }

  lemma NirCut(s: string, i: nat, j: nat, p: Parts)
    requires i < j <= |s| && (s[i] == '1' || s[i] == '2') && Reads(NirGroups, Space, p) && s[i + 1..j] == Trail(p.gaps, p.groups)
    ensures exists q: Parts :: NirParts(q) && s[i..j] == Spelled(q)
  {
    hide NirParts;
    var q := Parts([[s[i]]] + p.groups, p.gaps);
    NirReads([s[i]], p);
    assert q.groups[1..] == p.groups;
    assert s[i..j] == [s[i]] + s[i + 1..j];
    assert NirParts(q);
  }

  lemma NirIsRead(s: string, i: nat, j: nat, all: Parts)
    requires i <= j <= |s| && Edge(s, i) && Edge(s, j) && NirParts(all) && s[i..j] == Spelled(all)
    ensures Matches(NirFr, s, i, j)
  {
    hide Matches, Edge, Following, Stands, Reads, NoBoundaries;
    NirIsGroups();
    NirFree();
    var rest := Following(NirGroups, Space, Boundary);
    var p := Parts(all.groups[1..], all.gaps);
    assert all == Parts([all.groups[0]] + p.groups, p.gaps);
    NirReads(all.groups[0], p);
    Halves(s, i, i + 1, j, all.groups[0], Trail(p.gaps, p.groups));
    assert s[i..i + 1] == [s[i]];
    BoundaryMeans(s, j, j);
    FollowingJoin(NirGroups, Space, Boundary, p, s, i + 1, j, j);
    OneMeans(Sex, s, i, i + 1);
    Join(Char(Sex), rest, s, i, i + 1, j);
    EdgeFirst(Cat(Char(Sex), rest), s, i, j);
  }
}
