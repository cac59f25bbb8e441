/** A text that a second scan for pii does find something in: the longest number phone_intl takes, directly
    followed by a social security number. Together they are one word, so no rule before phone_intl sees the
    second number; once the first is replaced, it stands alone. */
module PiiRescanFails {
  import opened Wrappers
  import opened Regex
  import opened RuleTable
  import opened Redaction
  import opened PassProperties
  import opened PatternMeanings
  import opened PiiMeanings
  import opened PreferredEnds
  import opened MatchLengths
  import opened Idempotence
  import opened Bared
  import opened PiiRescan

  /** The longest number phone_intl takes. */
  const Number := "+1111111111111111111"
  const Ssn := "123-45-6789"
  const Sample := Number + Ssn

  /** The rules before phone_intl see one unbroken word of digits, then two short ones. */
  lemma SampleReads()
    ensures |Number| == 20 && |Sample| == 31 && Sample[0] == '+' && Sample[23] == '-' && Sample[26] == '-'
    ensures forall k | 1 <= k < 31 && k != 23 && k != 26 :: '0' <= Sample[k] <= '9'
    ensures Sample[20..] == Ssn
  {
    assert forall k | 0 <= k < 20 :: Sample[k] == Number[k];
    assert forall k | 0 <= k < 11 :: Sample[20 + k] == Ssn[k];
  }

  lemma BoundariesOfSample(i: nat)
    requires i <= |Sample| && AtBoundary(Sample, i)
    ensures i == 1 || i == 23 || i == 24 || i == 26 || i == 27 || i == 31
  {
    SampleReads();
  }

  /** No match from word boundary to word boundary is 10 to 21 characters long. */
  lemma BoundedIsQuiet(re: Regex)
    requires LeftBounded(re) && RightBounded(re) && Shortest(re) >= 10 && Longest(re).Some? && Longest(re).value <= 21
    ensures NoMatch(re, Sample)
  {
    hide Matches, AtBoundary, LeftBounded, RightBounded, Shortest, Longest;
    forall p, q | 0 <= p <= q <= |Sample| && Matches(re, Sample, p, q) ensures false {
      BoundedSound(re, Sample, p, q);
      LengthSound(re, Sample, p, q);
      BoundariesOfSample(p);
      BoundariesOfSample(q);
    }
  }

  predicate FitsBetween(re: Regex, least: nat, most: nat) {
    Shortest(re) >= least && Longest(re).Some? && Longest(re).value <= most
  }

  lemma CatFits(a: Regex, b: Regex, x: nat, y: nat, u: nat, v: nat)
    requires FitsBetween(a, x, y) && FitsBetween(b, u, v)
    ensures FitsBetween(Cat(a, b), x + u, y + v)
  {}

  lemma AltFits(a: Regex, b: Regex, x: nat, y: nat)
    requires FitsBetween(a, x, y) && FitsBetween(b, x, y)
    ensures FitsBetween(Alt(a, b), x, y)
  {}

  lemma NirTailLength() ensures FitsBetween(NirTail, 8, 11) {}

  lemma NirParts()
    ensures FitsBetween(Space, 0, 1) && FitsBetween(Times(Digit, 2), 2, 2) && FitsBetween(Boundary, 0, 0)
    ensures FitsBetween(NirPlace.second.first, 2, 2) && FitsBetween(NirFr.second.first, 1, 1)
  {}

  lemma NirLength()
    ensures FitsBetween(NirFr, 15, 21)
  {
    hide FitsBetween;
    NirTailLength();
    NirParts();
    CatFits(NirPlace.second.first, NirTail, 2, 2, 8, 11);
    CatFits(Space, NirPlace.second, 0, 1, 10, 13);
    CatFits(Times(Digit, 2), NirPlace, 2, 2, 10, 14);
    CatFits(Space, NirMonth.second, 0, 1, 12, 16);
    CatFits(Times(Digit, 2), NirMonth, 2, 2, 12, 17);
    CatFits(Space, NirYear.second, 0, 1, 14, 19);
    CatFits(NirFr.second.first, NirYear, 1, 1, 14, 20);
    CatFits(Boundary, NirFr.second, 0, 0, 15, 21);
  }

  lemma SsnLength() ensures FitsBetween(SsnUs, 11, 11) {}

  lemma SpacedCardLength() ensures FitsBetween(CreditCard.first, 15, 19) {}

  lemma PlainCardLength() ensures FitsBetween(CreditCard.second, 15, 19) {}

  lemma CreditCardLength()
    ensures FitsBetween(CreditCard, 15, 19)
  {
    hide FitsBetween;
    SpacedCardLength();
    PlainCardLength();
    AltFits(CreditCard.first, CreditCard.second, 15, 19);
  }

  lemma PhoneFrLength() ensures FitsBetween(PhoneFr, 10, 17) {}

  lemma EmailHasAt(s: string, p: nat, q: nat) returns (k: nat)
    requires p <= q <= |s| && Matches(Email, s, p, q)
    ensures p <= k < q && s[k] == '@'
  {
    hide Matches;
    var r1 := Email.second;
    k := Apart(Email.first, r1, s, p, q);
    var b := Apart(Text("@"), r1.second, s, k, q);
    assert s[k..b][0] == s[k];
  }

  lemma IbanStartsCapital(s: string, p: nat, q: nat)
    requires p <= q <= |s| && Matches(Iban, s, p, q)
    ensures p < q && 'A' <= s[p] <= 'Z'
  {
    hide Matches, AtBoundary;
    IbanMeans(s, p, q);
    assert IsUpper(s[p]);
  }

  lemma EmailAndIbanAreQuiet()
    ensures NoMatch(Email, Sample) && NoMatch(Iban, Sample)
  {
    hide Matches;
    SampleReads();
    forall p, q | 0 <= p <= q <= |Sample| && Matches(Email, Sample, p, q) ensures false {
      var k := EmailHasAt(Sample, p, q);
    }
    forall p, q | 0 <= p <= q <= |Sample| && Matches(Iban, Sample, p, q) ensures false {
      IbanStartsCapital(Sample, p, q);
    }
  }

  lemma SampleIsQuietBefore()
    ensures Clean(BeforeIntl, "pii", Sample)
  {
    hide NoMatch, LeftBounded, RightBounded, Shortest, Longest;
    EmailAndIbanAreQuiet();
    NirLength();
    SsnLength();
    CreditCardLength();
    PhoneFrLength();
    forall i | 8 <= i < 12 ensures NoMatch(Rules[i].pattern, Sample) {
      EdgeBounded(i);
      BoundedIsQuiet(Rules[i].pattern);
    }
    forall r <- BeforeIntl | r.category == "pii" ensures NoMatch(r.pattern, Sample) {
      var i :| 0 <= i < |BeforeIntl| && BeforeIntl[i] == r;
      assert r == Rules[i] && 6 <= i < 12;
    }
  }

  // ----- phone_intl takes the twenty characters of the number -----

  const FourthOn := Cat(Sep, Cat(Between(Digit, 2, 4), Between(Cat(Sep, Between(Digit, 2, 4)), 0, 1)))
  const ThirdOn := Cat(Sep, Cat(Between(Digit, 2, 4), FourthOn))
  const SecondOn := Cat(Sep, Cat(Between(Digit, 1, 4), ThirdOn))

  lemma DigitsOf(i: nat, j: nat)
    requires 1 <= i <= j <= 20
    ensures AllIn(Digits, Sample, i, j)
  {
    SampleReads();
  }

  lemma NoSeparator(i: nat)
    requires 1 <= i < 20
    ensures FirstEnd(Sep, Sample, i) == Some(i)
  {
    hide AllIn, FirstEnd;
    SampleReads();
    var cl := Class(false, false, false, " .-");
    assert AllIn(cl, Sample, i, i) by { NothingIn(cl, Sample, i); }
    FirstOfRun(cl, 0, 1, Sample, i, i);
  }

  lemma NothingIn(cl: Class, s: string, i: nat)
    requires i <= |s|
    ensures AllIn(cl, s, i, i)
  {}

  /** A separator that is not there, then as many digits as are allowed. */
  lemma Group(lo: nat, hi: nat, i: nat)
    requires 1 <= i && lo <= hi && i + hi <= 20 && i < 20
    ensures FirstEnd(Sep, Sample, i) == Some(i) && FirstEnd(Between(Digit, lo, hi), Sample, i) == Some(i + hi)
    ensures FirstEnd(Cat(Sep, Between(Digit, lo, hi)), Sample, i) == Some(i + hi)
  {
    hide AllIn, FirstEnd;
    SampleReads();
    NoSeparator(i);
    DigitsOf(i, i + hi);
    FirstOfRun(Digits, lo, hi, Sample, i, i + hi);
    FirstOfCat(Sep, Between(Digit, lo, hi), Sample, i, i, i + hi);
  }

  lemma NumberIsTaken()
    ensures FirstEnd(PhoneIntl, Sample, 0) == Some(20)
  {
    hide FirstEnd, AllIn;
    SampleReads();
    Group(1, 3, 1);
    Group(1, 4, 4);
    Group(2, 4, 8);
    Group(2, 4, 12);
    Group(2, 4, 16);
    var last := Between(Cat(Sep, Between(Digit, 2, 4)), 0, 1);
    FirstOfOptional(Cat(Sep, Between(Digit, 2, 4)), Sample, 16, 20);
    FirstOfCat(Between(Digit, 2, 4), last, Sample, 12, 16, 20);
    FirstOfCat(Sep, FourthOn.second, Sample, 12, 12, 20);
    FirstOfCat(Between(Digit, 2, 4), FourthOn, Sample, 8, 12, 20);
    FirstOfCat(Sep, ThirdOn.second, Sample, 8, 8, 20);
    FirstOfCat(Between(Digit, 1, 4), ThirdOn, Sample, 4, 8, 20);
    FirstOfCat(Sep, SecondOn.second, Sample, 4, 4, 20);
    FirstOfCat(Between(Digit, 1, 3), SecondOn, Sample, 1, 4, 20);
    assert Sample[0..1] == "+";
    FirstOfText("+", Sample, 0);
    FirstOfCat(Text("+"), PhoneIntl.second, Sample, 0, 1, 20);
  }

  lemma OneNumber()
    ensures Consumes(PhoneIntl) && FindAll(PhoneIntl, Sample, 0) == [Span(0, 20)]
  {
    hide Matches, FirstEnd;
    SampleReads();
    NumberIsTaken();
    assert Consumes(PhoneIntl) by { PhoneIntlRead(); }
    FindAllIsLeftmost(PhoneIntl, Sample, 20);
    var rest := FindAll(PhoneIntl, Sample, 20);
    if rest != [] {
      assert rest[0] in rest && Matches(PhoneIntl, Sample, rest[0].start, rest[0].end);
      StartsWithPlus(Sample, rest[0].start, rest[0].end);
    }
    assert FindNext(PhoneIntl, Sample, 0) == Some(Span(0, 20));
    assert FindAll(PhoneIntl, Sample, 0) == [Span(0, 20)] + rest;
  }

  // ----- and bares the number after it -----

  lemma SsnStandsAlone()
    ensures BeginsWith(SsnUs, Ssn)
  {
    assert |Ssn| == 11;
    assert IsSsn(Ssn, 0, 11);
    SsnMeans(Ssn, 0, 11);
  }

  lemma SsnIsBared()
    ensures Consumes(PhoneIntl) && SsnUsRule in Rules && BaresRule(PhoneIntlRule, SsnUsRule, Sample)
  {
    hide BeginsWith, FindAll;
    SampleReads();
    OneNumber();
    SsnStandsAlone();
    var pieces := PiecesLeft(PhoneIntlRule, Sample);
    TwoPieces(Sample, Span(0, 20));
    assert pieces[1] == Ssn;
    assert Rules[9] == SsnUsRule;
  }

  lemma TwoPieces(text: string, m: Span)
    requires m.start < m.end <= |text|
    ensures Ascending([m], 0, |text|) && Pieces(text, [m], 0) == [text[..m.start], text[m.end..]]
  {
    assert [m][1..] == [];
  }

  lemma SampleIsGiven()
    ensures AllConsume(BeforeIntl) && Given(BeforeIntl, PhoneIntlRule, Sample) == Sample
  {
    hide ScanWith, Clean, LastCuts, AllConsume;
    OnlyIntl();
    Parts(BeforeIntl, PhoneIntlRule, Rules);
    SampleIsQuietBefore();
    QuietIffClean(BeforeIntl, "pii", Sample);
  }

  lemma SampleBares(categories: set<string>)
    requires "pii" in categories
    ensures IntlBares(categories, Sample)
  {
    hide BaresRule, Given, AllConsume, Consumes, LastCuts;
    SsnIsBared();
    SampleIsGiven();
    assert SsnUsRule.category in categories;
  }

  /** One scan for pii turns the sample into a placeholder with a social security number right after it;
      the next scan finds that. */
  lemma PiiIsNotIdempotent()
    ensures AllConsume(Rules)
    ensures var once := ScanWith(Rules, "pii", Sample).redacted;
            && once == "[REDACTED_PHONE]" + Ssn
            && ScanWith(Rules, "pii", once) != Scan([], once)
  {
    hide ScanWith, IntlBares, Clean, Given, Pass, LastCuts, AllConsume, Consumes;
    OnlyIntl();
    SampleIsGiven();
    SampleBares({"pii"});
    PiiIsIdempotentIff(Sample);
    LastScan(BeforeIntl, PhoneIntlRule, Rules, Sample);
    NumberIsReplaced();
  }

  lemma NumberIsReplaced()
    ensures Consumes(PhoneIntl) && Pass(PhoneIntlRule, Sample).redacted == "[REDACTED_PHONE]" + Ssn
  {
    hide FindAll;
    SampleReads();
    OneNumber();
    var ph := PhoneIntlRule.placeholder;
    FirstEdit(Sample, [Span(0, 20)], ph, 0) by { assert InOrder(EditsOf([Span(0, 20)], ph), 0, |Sample|); }
    assert [Span(0, 20)][1..] == [];
    LastPiece(Sample, ph, 20);
  }
}
