/** A second scan for pii: phone_intl, the last rule, can bare what the rules before it could not see. That is
    the one way in which the second scan can find anything, and without a plus sign right before a digit there
    is no such number. */
module PiiRescan {
  import opened Regex
  import opened RuleTable
  import opened Redaction
  import opened Simultaneous
  import opened PassProperties
  import opened PatternMeanings
  import opened UncutWords
  import opened Idempotence
  import opened Bared

  const BeforeIntl: seq<Rule> := Rules[..|Rules| - 1]

  lemma PrefixIsSafe(table: seq<Rule>, n: nat)
    requires n <= |table| && SafeTable(table)
    ensures SafeTable(table[..n]) && AllConsume(table[..n])
  {
    hide Inert, Sound, IsPlaceholder, Consumes;
    assert forall r <- table[..n] :: r in table;
  }

  lemma StartsWithPlus(s: string, i: nat, j: nat)
    requires i <= j <= |s| && Matches(PhoneIntl, s, i, j)
    ensures i < j && s[i] == '+' && i + 1 < j && '0' <= s[i + 1] <= '9'
  {
    hide Matches, Between;
    var r1 := PhoneIntl.second;
    var a := Apart(Text("+"), r1, s, i, j);
    var b := Apart(Between(Digit, 1, 3), r1.second, s, a, j);
    assert s[i..a][0] == s[i];
    FromTo(Digits, 1, 3, s, a, b);
    assert Has(Digits, s[a]);
  }

  lemma NumbersStartWithPlus(text: string)
    requires Consumes(PhoneIntl)
    ensures StartsOutsideWords(PhoneIntlRule, text)
  {
    hide Matches, FindAll, Consumes;
    FindAllIsLeftmost(PhoneIntl, text, 0);
    forall m <- FindAll(PhoneIntl, text, 0) ensures m.start < |text| && !IsWordChar(text[m.start]) {
      StartsWithPlus(text, m.start, m.end);
    }
  }

  lemma RulesButIntl()
    ensures Rules == BeforeIntl + [PhoneIntlRule] && |BeforeIntl| == 12 && SafeTable(Rules) && SafeTable(BeforeIntl)
  {
    hide SafeTable;
    CatalogueIsSafe();
    PrefixIsSafe(Rules, 12);
  }

  lemma UncutBefore()
    ensures forall r <- BeforeIntl :: Uncut(r)
  {
    hide Uncut, SafeTable;
    RulesButIntl();
    forall r <- BeforeIntl ensures Uncut(r) {
      var i :| 0 <= i < |BeforeIntl| && BeforeIntl[i] == r;
      OnlyIntlCuts(i);
    }
  }

  /** In the real table, only the last rule can cut a word. */
  lemma OnlyIntl()
    ensures LastCuts(BeforeIntl, PhoneIntlRule, Rules)
  {
    hide Uncut, SafeTable, Consumes, StartsOutsideWords;
    RulesButIntl();
    UncutBefore();
    assert Consumes(PhoneIntl) by { PhoneIntlRead(); }
    forall text ensures StartsOutsideWords(PhoneIntlRule, text) { NumbersStartWithPlus(text); }
  }

  /** What phone_intl bares, of these categories, in what a scan for pii of this text gives it. */
  ghost predicate IntlBares(categories: set<string>, text: string) {
    OnlyIntl();
    Parts(BeforeIntl, PhoneIntlRule, Rules);
    BaresIn(PhoneIntlRule, Rules, categories, Given(BeforeIntl, PhoneIntlRule, text))
  }

  /** A second scan for pii finds nothing iff phone_intl bares nothing of pii. */
  lemma PiiIsIdempotentIff(text: string)
    ensures AllConsume(Rules)
    ensures var once := ScanWith(Rules, "pii", text).redacted;
            ScanWith(Rules, "pii", once) == Scan([], once) <==> !IntlBares({"pii"}, text)
  {
    hide ScanWith, BaresIn, LastCuts, AllConsume, Given;
    OnlyIntl();
    LastIsIdempotentIff(BeforeIntl, PhoneIntlRule, Rules, text);
  }

  // ----- a check on the text itself -----

  const PlusDigit := Cat(Text("+"), Digit)

  predicate HasPlusDigit(text: string) {
    exists i | 0 <= i < |text| - 1 :: text[i] == '+' && '0' <= text[i + 1] <= '9'
  }

  lemma PlusDigitMeans(s: string, i: nat, j: nat)
    requires i <= j <= |s|
    ensures Matches(PlusDigit, s, i, j) <==> j == i + 2 && s[i] == '+' && '0' <= s[i + 1] <= '9'
  {
    if Matches(PlusDigit, s, i, j) {
      var a := Apart(Text("+"), Digit, s, i, j);
      assert s[i..a][0] == s[i];
    }
    if j == i + 2 && s[i] == '+' && '0' <= s[i + 1] <= '9' {
      assert s[i..i + 1] == "+";
      Join(Text("+"), Digit, s, i, i + 1, j);
    }
  }

  lemma PlusDigitRead()
    ensures Sound(PlusDigit) && HasForeign(PlusDigit) && BoundaryFree(PlusDigit)
  {}

  lemma NoPlusDigitIff(s: string)
    ensures NoMatch(PlusDigit, s) <==> !HasPlusDigit(s)
  {
    hide Matches;
    forall i: nat, j: nat | i <= j <= |s|
      ensures Matches(PlusDigit, s, i, j) <==> j == i + 2 && s[i] == '+' && '0' <= s[i + 1] <= '9'
    {
      PlusDigitMeans(s, i, j);
    }
    if HasPlusDigit(s) {
      var i :| 0 <= i < |s| - 1 && s[i] == '+' && '0' <= s[i + 1] <= '9';
      assert Matches(PlusDigit, s, i, i + 2);
    }
  }

  lemma PlusDigitIsSafe(table: seq<Rule>, rule: Rule)
    requires SafeTable(table) && rule in table
    ensures Safe(rule.(pattern := PlusDigit), table)
  {
    hide Inert, BoundaryFree, Sound;
    assert Safe(rule, table);
    PlusDigitRead();
    forall q <- table ensures Inert(PlusDigit, q.placeholder) { ForeignIsInert(PlusDigit, q.placeholder); }
  }

  lemma ScanAddsNoPlus(table: seq<Rule>, category: string, text: string)
    requires SafeTable(table) && table != [] && AllConsume(table) && !HasPlusDigit(text)
    requires forall r <- table | r.category == category :: Uncut(r)
    ensures !HasPlusDigit(ScanWith(table, category, text).redacted)
  {
    hide HasPlusDigit, NoMatch, SafeTable, Safe, ScanWith, Uncut, AllConsume;
    PlusDigitIsSafe(table, table[0]);
    NoPlusDigitIff(text);
    ScanExposesNothing(table, table, category, text, table[0].(pattern := PlusDigit));
    NoPlusDigitIff(ScanWith(table, category, text).redacted);
  }

  /** In a text without a plus sign right before a digit, phone_intl bares nothing. */
  lemma NothingIsBared(categories: set<string>, text: string)
    requires !HasPlusDigit(text)
    ensures !IntlBares(categories, text)
  {
    hide ScanWith, HasPlusDigit, Matches, LastCuts, SafeTable, AllConsume, PiecesLeft, BeginsWith;
    OnlyIntl();
    RulesButIntl();
    Parts(BeforeIntl, PhoneIntlRule, Rules);
    UncutBefore();
    ScanAddsNoPlus(BeforeIntl, "pii", text);
    OnePiece(Given(BeforeIntl, PhoneIntlRule, text));
  }

  lemma OnePiece(text: string)
    requires Consumes(PhoneIntl) && !HasPlusDigit(text)
    ensures |PiecesLeft(PhoneIntlRule, text)| == 1
  {
    hide Matches, HasPlusDigit;
    NoPlusDigitIff(text);
    forall p, q | 0 <= p <= q <= |text| ensures !Matches(PhoneIntl, text, p, q) {
      if Matches(PhoneIntl, text, p, q) {
        StartsWithPlus(text, p, q);
        PlusDigitMeans(text, p, p + 2);
      }
    }
    NothingToFind(PhoneIntl, text);
  }

  /** In a text without a plus sign right before a digit, a second scan for pii finds nothing. */
  lemma PiiIsIdempotentWithoutPlus(text: string)
    requires !HasPlusDigit(text)
    ensures AllConsume(Rules)
    ensures var once := ScanWith(Rules, "pii", text).redacted;
            ScanWith(Rules, "pii", once) == Scan([], once)
  {
    hide ScanWith, HasPlusDigit, IntlBares, AllConsume;
    PiiIsIdempotentIff(text);
    NothingIsBared({"pii"}, text);
  }
}
