/** What can still be matched in the text a request is answered with, for either order of the scans. Only
    phone_intl can cut a word in two; so what is left is what it bares, unless the other scan comes after and
    takes that away. */
module AnsweredText {
  import opened Regex
  import opened RuleTable
  import opened Redaction
  import opened Simultaneous
  import opened PassProperties
  import opened Bared
  import opened PiiRescan
  import opened PiiRescanFails
  import opened UncutWords
  import opened BaredSurvives
  import opened OutOfReach
  import opened CheckHandler

  // ----- the other category first -----

  lemma OtherFirst(before: seq<Rule>, last: Rule, table: seq<Rule>, other: string, text: string)
    requires LastCuts(before, last, table) && other != last.category
    ensures AllConsume(table) && AllConsume(before)
    ensures var once := ScanWith(table, other, text).redacted;
            (forall c <- {other, last.category} :: Clean(table, c, ScanWith(table, last.category, once).redacted))
            <==> !BaresIn(last, table, {other, last.category}, Given(before, last, once))
  {
    hide NoMatch, Uncut, SafeTable, Consumes, AllConsume, ScanWith, Safe, StartsOutsideWords, BaresIn;
    Parts(before, last, table);
    var once := ScanWith(table, other, text).redacted;
    UncutScanIsClean(table, table, other, text);
    LastScan(before, last, table, once);
    forall r <- before | r.category in {other, last.category} ensures NoMatch(r.pattern, Given(before, last, once)) {
      if r.category == other {
        SafeIn(table, r);
        ScanExposesNothing(before, table, last.category, once, r);
      }
    }
    CleanUnlessBared(before, last, table, {other, last.category}, once);
  }

  // ----- the last rule's category first -----

  /** The rules of its category that the last one could bare are out of reach of the other category. */
  ghost predicate NoneInReach(before: seq<Rule>, last: Rule, table: seq<Rule>, other: string) {
    forall r <- before | r.category == last.category :: BoundaryFree(r.pattern) || Untouchable(r.pattern, table, other)
  }

  lemma FreeIsNotBared(before: seq<Rule>, last: Rule, table: seq<Rule>, text: string, r: Rule)
    requires LastCuts(before, last, table) && r in table
    requires r == last || (BoundaryFree(r.pattern) && NoMatch(r.pattern, text))
    ensures !BaresRule(last, r, text)
  {
    hide NoMatch, Pass, BaresRule, Uncut, SafeTable, Consumes, AllConsume, Safe, StartsOutsideWords, BoundaryFree, LeftBounded, RightBounded;
    Parts(before, last, table);
    QuietUnlessBared(before, last, table, text, r);
    SafeIn(table, r);
    if r == last { PassLeavesNoMatch(last, table, text); } else { PassKeepsQuiet(last, r, table, text); }
  }

  lemma BaredStays(before: seq<Rule>, last: Rule, table: seq<Rule>, other: string, text: string, r: Rule)
    requires LastCuts(before, last, table) && NoneInReach(before, last, table, other)
    requires r in table && r.category == last.category && BaresRule(last, r, text)
    requires Clean(before, last.category, text)
    ensures AllConsume(table) && !NoMatch(r.pattern, ScanWith(table, other, Pass(last, text).redacted).redacted)
  {
    hide Matches, NoMatch, Pass, BaresRule, Uncut, SafeTable, Consumes, AllConsume, ScanWith, Safe, StartsOutsideWords, BoundaryFree, LastWord, Shuns;
    Parts(before, last, table);
    if r == last || BoundaryFree(r.pattern) {
      FreeIsNotBared(before, last, table, text, r);
    } else {
      BaredIsBehind(last, r, table, text);
      assert table[0..] == table;
      ScanLeavesBehind(r.pattern, table, 0, other, Pass(last, text).redacted);
      BehindIsMatched(r.pattern, ScanWith(table, other, Pass(last, text).redacted).redacted);
    }
  }

  lemma BehindIsMatched(re: Regex, text: string)
    requires Behind(re, text)
    ensures !NoMatch(re, text)
  {
    hide Matches;
  }

  lemma LastFirst(before: seq<Rule>, last: Rule, table: seq<Rule>, other: string, text: string)
    requires LastCuts(before, last, table) && other != last.category && NoneInReach(before, last, table, other)
    ensures AllConsume(table) && AllConsume(before)
    ensures var answered := ScanWith(table, other, ScanWith(table, last.category, text).redacted).redacted;
            && Clean(table, other, answered)
            && (Clean(table, last.category, answered) <==> !BaresIn(last, table, {last.category}, Given(before, last, text)))
  {
    hide NoMatch, Pass, BaresRule, Uncut, SafeTable, Consumes, AllConsume, ScanWith, Safe, StartsOutsideWords, NoneInReach;
    Parts(before, last, table);
    LastScan(before, last, table, text);
    var mid, once := Given(before, last, text), ScanWith(table, last.category, text).redacted;
    UncutScanIsClean(table, table, other, once);
    CleanUnlessBared(before, last, table, {last.category}, text);
    if BaresIn(last, table, {last.category}, mid) {
      var r :| r in table && r.category in {last.category} && BaresRule(last, r, mid);
      BaredStays(before, last, table, other, mid, r);
    } else {
      forall r <- table | r.category == last.category ensures NoMatch(r.pattern, ScanWith(table, other, once).redacted) {
        SafeIn(table, r);
        ScanExposesNothing(table, table, other, once, r);
      }
    }
  }

  // ----- requests, with any such table -----

  lemma ChainStep(table: seq<Rule>, a: string, rest: seq<string>, text: string)
    requires AllConsume(table)
    ensures ScanChain(table, [a] + rest, text).redacted == ScanChain(table, rest, ScanWith(table, a, text).redacted).redacted
    ensures ScanChain(table, [], text).redacted == text
    ensures rest == [] ==> ScanChain(table, [a] + rest, text).redacted == ScanWith(table, a, text).redacted
  {
    hide ScanWith, AllConsume;
    assert ([a] + rest)[1..] == rest;
  }

  lemma TwoScans(table: seq<Rule>, a: string, b: string, text: string)
    requires AllConsume(table)
    ensures ScanChain(table, [a, b], text).redacted == ScanWith(table, b, ScanWith(table, a, text).redacted).redacted
  {
    hide ScanWith, AllConsume, ScanChain;
    ChainStep(table, a, [b], text);
    ChainStep(table, b, [], ScanWith(table, a, text).redacted);
    assert [a, b] == [a] + [b] && [b] == [b] + [];
  }

  lemma LastFirstAnswers(before: seq<Rule>, last: Rule, table: seq<Rule>, other: string,
                         categories: seq<string>, replies: seq<Inference>, text: string)
    requires LastCuts(before, last, table) && other != last.category && NoneInReach(before, last, table, other)
    requires |replies| == |categories| && ScannedOnly(categories) == [last.category, other]
    ensures AllConsume(table) && AllConsume(before)
    ensures var answered := LoopOver(table, categories, replies, text).redacted;
            && Clean(table, other, answered)
            && (Clean(table, last.category, answered) <==> !BaresIn(last, table, {last.category}, Given(before, last, text)))
  {
    hide ScanWith, Clean, BaresIn, Consumes, LoopOver, AllConsume, ScanChain, LastCuts, NoneInReach;
    LastFirst(before, last, table, other, text);
    LoopIsChain(table, categories, replies, text);
    TwoScans(table, last.category, other, text);
  }

  lemma OtherFirstAnswers(before: seq<Rule>, last: Rule, table: seq<Rule>, other: string,
                          categories: seq<string>, replies: seq<Inference>, text: string)
    requires LastCuts(before, last, table) && other != last.category
    requires |replies| == |categories| && ScannedOnly(categories) == [other, last.category]
    ensures AllConsume(table) && AllConsume(before)
    ensures var answered := LoopOver(table, categories, replies, text).redacted;
            (Clean(table, other, answered) && Clean(table, last.category, answered))
            <==> !BaresIn(last, table, {other, last.category}, Given(before, last, ScanWith(table, other, text).redacted))
  {
    hide ScanWith, Clean, BaresIn, Consumes, LoopOver, AllConsume, ScanChain, LastCuts;
    OtherFirst(before, last, table, other, text);
    LoopIsChain(table, categories, replies, text);
    TwoScans(table, other, last.category, text);
  }

  // ----- the real table -----

  lemma PiiIsOutOfReach()
    ensures NoneInReach(BeforeIntl, PhoneIntlRule, Rules, "secrets")
  {
    hide BoundaryFree, Untouchable;
    forall r <- BeforeIntl | r.category == "pii" ensures BoundaryFree(r.pattern) || Untouchable(r.pattern, Rules, "secrets") { PiiInReach(r); }
  }

  lemma PiiInReach(r: Rule)
    requires r in BeforeIntl && r.category == "pii"
    ensures BoundaryFree(r.pattern) || Untouchable(r.pattern, Rules, "secrets")
  {
    hide Untouchable, BoundaryFree;
    PiiPlaces();
    var i :| 0 <= i < |BeforeIntl| && BeforeIntl[i] == r;
    if i > 6 { BoundedPiiIsOutOfReach(i); }
  }

  lemma PiiPlaces()
    ensures |Rules| == 13 && BoundaryFree(Rules[6].pattern) && forall i | 0 <= i < 6 :: Rules[i].category == "secrets"
  {}

  /** Personal data first, as by default: no secret is left in the answered text, and no personal data iff
      phone_intl bares none. */
  lemma PiiFirstAnswerIsCleanIff(categories: seq<string>, replies: seq<Inference>, text: string)
    requires |replies| == |categories| && ScannedOnly(categories) == ["pii", "secrets"]
    ensures AllConsume(Rules)
    ensures var answered := LoopOver(Rules, categories, replies, text).redacted;
            && Clean(Rules, "secrets", answered)
            && (Clean(Rules, "pii", answered) <==> !IntlBares({"pii"}, text))
  {
    hide Clean, BaresIn, LoopOver, LastCuts, NoneInReach, AllConsume, Given;
    OnlyIntl();
    PiiIsOutOfReach();
    LastFirstAnswers(BeforeIntl, PhoneIntlRule, Rules, "secrets", categories, replies, text);
  }

  /** Secrets first: nothing of either kind is left in the answered text iff phone_intl bares nothing of either kind. */
  lemma SecretsFirstAnswerIsCleanIff(categories: seq<string>, replies: seq<Inference>, text: string)
    requires |replies| == |categories| && ScannedOnly(categories) == ["secrets", "pii"]
    ensures AllConsume(Rules)
    ensures var answered := LoopOver(Rules, categories, replies, text).redacted;
            (Clean(Rules, "secrets", answered) && Clean(Rules, "pii", answered))
            <==> !IntlBares({"secrets", "pii"}, ScanWith(Rules, "secrets", text).redacted)
  {
    hide Clean, BaresIn, LoopOver, LastCuts, AllConsume, Given, ScanWith, NoneInReach;
    OnlyIntl();
    OtherFirstAnswers(BeforeIntl, PhoneIntlRule, Rules, "secrets", categories, replies, text);
  }

  /** A check on the request's text: without a plus sign right before a digit, either order answers it clean. */
  lemma AnswerIsCleanWithoutPlus(categories: seq<string>, replies: seq<Inference>, text: string)
    requires |replies| == |categories| && ScannedOnly(categories) in [["pii", "secrets"], ["secrets", "pii"]] && !HasPlusDigit(text)
    ensures AllConsume(Rules)
    ensures var answered := LoopOver(Rules, categories, replies, text).redacted;
            Clean(Rules, "secrets", answered) && Clean(Rules, "pii", answered)
  {
    hide ScanWith, Clean, LoopOver, AllConsume, HasPlusDigit, IntlBares;
    if ScannedOnly(categories) == ["pii", "secrets"] {
      PiiFirstAnswerIsCleanIff(categories, replies, text);
      NothingIsBared({"pii"}, text);
    } else {
      SecretsFirstAnswerIsCleanIff(categories, replies, text);
      SecretsAddNoPlus(text);
      NothingIsBared({"secrets", "pii"}, ScanWith(Rules, "secrets", text).redacted);
    }
  }

  lemma SecretsAddNoPlus(text: string)
    requires !HasPlusDigit(text)
    ensures AllConsume(Rules) && !HasPlusDigit(ScanWith(Rules, "secrets", text).redacted)
  {
    hide ScanWith, SafeTable, HasPlusDigit, LastCuts, Uncut, AllConsume;
    OnlyIntl();
    Parts(BeforeIntl, PhoneIntlRule, Rules);
    UncutBefore();
    RulesButIntl();
    ScanAddsNoPlus(Rules, "secrets", text);
  }

  // ----- a text that neither order answers clean -----

  lemma SampleHasNoLetters()
    ensures forall c <- Sample :: !('A' <= c <= 'Z') && !('a' <= c <= 'z')
  {
    SampleReads();
    forall c <- Sample ensures !('A' <= c <= 'Z') && !('a' <= c <= 'z') {
      var k :| 0 <= k < |Sample| && Sample[k] == c;
    }
  }

  lemma LetterFirstIsQuiet(re: Regex, c: char)
    requires BeginsAt(re, c) && ('A' <= c <= 'Z' || 'a' <= c <= 'z')
    ensures NoMatch(re, Sample)
  {
    hide Matches;
    SampleHasNoLetters();
  }

  lemma HeaderIsQuiet()
    ensures NoMatch(PrivateKey, Sample)
  {
    hide Matches;
    SampleHasNoLetters();
    forall x, y | 0 <= x <= y <= |Sample| ensures !Matches(PrivateKey, Sample, x, y) {
      if Matches(PrivateKey, Sample, x, y) { HeaderHasB(Sample, x, y); }
    }
  }

  lemma SampleHasNoSecret()
    ensures Clean(Rules, "secrets", Sample)
  {
    hide NoMatch, BeginsAt;
    HeaderIsQuiet();
    TextBegins(Jwt, "eyJ");
    TextBegins(AwsAccessKey, "AKIA");
    TextBegins(OpenaiKey, "sk-");
    TextBegins(AnthropicKey, "sk-ant-");
    GithubBegins();
    LetterFirstIsQuiet(Jwt, 'e');
    LetterFirstIsQuiet(AwsAccessKey, 'A');
    LetterFirstIsQuiet(OpenaiKey, 's');
    LetterFirstIsQuiet(AnthropicKey, 's');
    LetterFirstIsQuiet(GithubPat, 'g');
    forall r <- Rules | r.category == "secrets" ensures NoMatch(r.pattern, Sample) { SecretShapes(r); }
  }

  /** The sample of the second scan: in either order its answered text still holds a social security number. */
  lemma SampleIsAnsweredDirty(categories: seq<string>, replies: seq<Inference>)
    requires |replies| == |categories| && ScannedOnly(categories) in [["pii", "secrets"], ["secrets", "pii"]]
    ensures AllConsume(Rules)
    ensures var answered := LoopOver(Rules, categories, replies, Sample).redacted;
            !(Clean(Rules, "secrets", answered) && Clean(Rules, "pii", answered))
  {
    hide ScanWith, Clean, LoopOver, AllConsume, IntlBares;
    SampleHasNoSecret();
    SampleBares({"pii"});
    SampleBares({"secrets", "pii"});
    if ScannedOnly(categories) == ["pii", "secrets"] {
      PiiFirstAnswerIsCleanIff(categories, replies, Sample);
    } else {
      SecretsFirstAnswerIsCleanIff(categories, replies, Sample);
      QuietIffClean(Rules, "secrets", Sample);
    }
  }
}
