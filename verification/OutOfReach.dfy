/** No secret begins inside what phone_intl can bare, pattern by pattern: the letter or hyphen it begins
    with is not in the pattern that can be bared, or a later letter of it is not, or (an iban may hold
    AKIA) it would have to begin within a word. */
module OutOfReach {
  import opened Regex
  import opened RuleTable
  import opened Simultaneous
  import opened PatternMeanings
  import opened PiiMeanings
  import opened Idempotence
  import opened BaredSurvives

  // ----- where a secret begins, and which pii rules could be there -----

  /** Every match begins with c. */
  ghost predicate BeginsAt(re: Regex, c: char) {
    forall s, x, y | 0 <= x <= y <= |s| && Matches(re, s, x, y) :: x < y && s[x] == c
  }

  lemma AvoidsShuns(re: Regex, other: Regex, c: char)
    requires Avoids(re, c) && BeginsAt(other, c)
    ensures Shuns(re, other)
  {
    hide Matches, Avoids;
    forall s, p, q, x, y | 0 < p <= q <= |s| && s[p - 1] == ']' && Matches(re, s, p, q) && 0 <= x <= y <= |s| && Matches(other, s, x, y)
      ensures !(p <= x < q)
    {
      AvoidsSound(re, c, s, p, q);
      if p <= x < q { InStretch(s, p, q, x); }
    }
  }

  lemma TextComesFirst(re: Regex, t: string, s: string, x: nat, y: nat)
    requires re.Cat? && re.first == Boundary && re.second.Cat? && re.second.first == Text(t) && t != ""
    requires x <= y <= |s| && Matches(re, s, x, y)
    ensures AtBoundary(s, x) && x + |t| <= y && s[x..x + |t|] == t && s[x] == t[0]
  {
    hide Matches, AtBoundary;
    var a := Apart(re.first, re.second, s, x, y);
    var b := Apart(re.second.first, re.second.second, s, a, y);
    assert s[a..b][0] == s[a];
  }

  lemma TextBegins(re: Regex, t: string)
    requires re.Cat? && re.first == Boundary && re.second.Cat? && re.second.first == Text(t) && t != ""
    ensures BeginsAt(re, t[0])
  {
    hide Matches;
    forall s, x, y | 0 <= x <= y <= |s| && Matches(re, s, x, y) ensures x < y && s[x] == t[0] { TextComesFirst(re, t, s, x, y); }
  }

  lemma KindBegins(s: string, x: nat, y: nat)
    requires x <= y <= |s| && Matches(GithubKind, s, x, y)
    ensures x < y && s[x] == 'g'
  {
    assert s[x..y] == "ghp" || s[x..y] == "gho" || s[x..y] == "ghu" || s[x..y] == "ghs" || s[x..y] == "ghr";
    assert s[x..y][0] == s[x];
  }

  lemma GithubBegins()
    ensures BeginsAt(GithubPat, 'g')
  {
    hide Matches, AtBoundary;
    forall s, x, y | 0 <= x <= y <= |s| && Matches(GithubPat, s, x, y) ensures x < y && s[x] == 'g' {
      var a := Apart(Boundary, GithubPat.second, s, x, y);
      var b := Apart(GithubKind, GithubPat.second.second, s, a, y);
      KindBegins(s, a, b);
    }
  }

  lemma HeaderBegins()
    ensures BeginsAt(PrivateKey, '-')
  {
    hide Matches;
    forall s, x, y | 0 <= x <= y <= |s| && Matches(PrivateKey, s, x, y) ensures x < y && s[x] == '-' { HeaderAndFooter(s, x, y); }
  }

  lemma HeaderHasB(s: string, x: nat, y: nat)
    requires x <= y <= |s| && Matches(PrivateKey, s, x, y)
    ensures x + 5 < y && s[x + 5] == 'B' && 'B' in s && forall k | x <= k < x + 5 :: s[k] == '-'
  {
    hide Matches;
    var a := Apart(KeyHeader, PrivateKey.second, s, x, y);
    forall k | x <= k < x + 6 ensures s[k] == "-----B"[k - x] { assert s[k] == s[x..a][k - x]; }
  }

  /** A header would run out of a match with no B in it over its last character, a hyphen. */
  lemma HeaderIsShunned(re: Regex)
    requires Avoids(re, 'B') && LastWord(re)
    ensures Shuns(re, PrivateKey)
  {
    hide Matches, Avoids, LastWord;
    forall s, p, q, x, y | 0 < p <= q <= |s| && s[p - 1] == ']' && Matches(re, s, p, q) && 0 <= x <= y <= |s| && Matches(PrivateKey, s, x, y)
      ensures !(p <= x < q)
    {
      if p <= x < q { HeaderInside(re, s, p, q, x, y); }
    }
  }

  lemma HeaderInside(re: Regex, s: string, p: nat, q: nat, x: nat, y: nat)
    requires Avoids(re, 'B') && LastWord(re) && p <= q <= |s| && Matches(re, s, p, q) && x <= y <= |s| && Matches(PrivateKey, s, x, y)
    ensures !(p <= x < q)
  {
    hide Matches, Avoids, LastWord;
    HeaderHasB(s, x, y);
    AvoidsSound(re, 'B', s, p, q);
    LastWordSound(re, s, p, q);
    if p <= x && x + 5 < q { InStretch(s, p, q, x + 5); }
  }

  lemma NirShunsAws()
    requires Avoids(NirFr, 'K') && RightBounded(NirFr)
    ensures Shuns(NirFr, AwsAccessKey)
  {
    hide Matches, Avoids, RightBounded;
    forall s, p, q, x, y | 0 < p <= q <= |s| && s[p - 1] == ']' && Matches(NirFr, s, p, q) && 0 <= x <= y <= |s| && Matches(AwsAccessKey, s, x, y)
      ensures !(p <= x < q)
    {
      TextComesFirst(AwsAccessKey, "AKIA", s, x, y);
      assert s[x + 1] == s[x..x + 4][1];
      AvoidsSound(NirFr, 'K', s, p, q);
      BoundedSound(NirFr, s, p, q);
      if p <= x && x + 1 < q { InStretch(s, p, q, x + 1); }
    }
  }

  lemma IbanShunsAws()
    ensures Shuns(Iban, AwsAccessKey)
  {
    hide Matches, IsIban;
    forall s, p, q, x, y | 0 < p <= q <= |s| && s[p - 1] == ']' && Matches(Iban, s, p, q) && 0 <= x <= y <= |s| && Matches(AwsAccessKey, s, x, y)
      ensures !(p <= x < q)
    {
      IbanMeans(s, p, q);
      IbanDigits(s, p, q);
      TextComesFirst(AwsAccessKey, "AKIA", s, x, y);
      assert s[x + 2] == s[x..x + 4][2] == 'I';
      if p < x < q { WordsInIban(s, p, q, x); }
    }
  }

  lemma IbanDigits(s: string, p: nat, q: nat)
    requires p <= q <= |s| && IsIban(s, p, q)
    ensures p + 2 < |s| && '0' <= s[p + 2] <= '9'
  {
    assert IsDigit(s[p + 2]);
  }

  lemma WordsInIban(s: string, p: nat, q: nat, x: nat)
    requires p < x < q <= |s| && IsIban(s, p, q)
    ensures !AtBoundary(s, x)
  {
    assert forall d | p <= d < q :: IsUpperOrDigit(s[d]);
  }

  // ----- read off the patterns -----

  /** What is needed of a pii pattern that can be bared. */
  ghost predicate Untouchable(re: Regex, table: seq<Rule>, category: string) {
    LastWord(re) && forall r <- table | r.category == category :: Shuns(re, r.pattern)
  }

  predicate AvoidsStarts(re: Regex) { Avoids(re, 'e') && Avoids(re, 's') && Avoids(re, 'g') }

  lemma SecretShapes(r: Rule)
    requires r in Rules && r.category == "secrets"
    ensures r.pattern in [PrivateKey, Jwt, AwsAccessKey, OpenaiKey, AnthropicKey, GithubPat]
  {}

  lemma ShunsAll(re: Regex)
    requires AvoidsStarts(re) && LastWord(re) && Shuns(re, PrivateKey) && Shuns(re, AwsAccessKey)
    ensures Untouchable(re, Rules, "secrets")
  {
    hide Shuns, Avoids, LastWord, BeginsAt;
    TextBegins(Jwt, "eyJ");
    TextBegins(OpenaiKey, "sk-");
    TextBegins(AnthropicKey, "sk-ant-");
    GithubBegins();
    AvoidsShuns(re, Jwt, 'e');
    AvoidsShuns(re, OpenaiKey, 's');
    AvoidsShuns(re, AnthropicKey, 's');
    AvoidsShuns(re, GithubPat, 'g');
    forall r <- Rules | r.category == "secrets" ensures Shuns(re, r.pattern) { SecretShapes(r); }
  }

  lemma IbanAvoids() ensures AvoidsStarts(Iban) && Avoids(Iban, '-') {}

  lemma IbanEnds() ensures LastWord(Iban) {}

  predicate AvoidsLetters(re: Regex) { AvoidsStarts(re) && Avoids(re, 'A') && Avoids(re, 'B') }

  lemma SsnAvoids() ensures AvoidsLetters(SsnUs) {}

  lemma SsnEnds() ensures LastWord(SsnUs) {}

  lemma CardEnds() ensures LastWord(CreditCard) {}

  lemma PhoneAvoids(c: char)
    requires c == 'e' || c == 's' || c == 'g' || c == 'A' || c == 'B'
    ensures Avoids(PhoneFr, c)
  {
  }

  lemma PhoneEnds() ensures LastWord(PhoneFr) {}

  lemma CardAvoidsLetters()
    ensures AvoidsLetters(CreditCard)
  {
    assert CreditCard == Alt(CreditCard.first, CreditCard.second);
  }

  lemma PhoneAvoidsLetters()
    ensures AvoidsLetters(PhoneFr)
  {
    hide Avoids;
    PhoneAvoids('e');
    PhoneAvoids('s');
    PhoneAvoids('g');
    PhoneAvoids('A');
    PhoneAvoids('B');
  }

  lemma NirPartAvoids(c: char)
    requires c == 'e' || c == 's' || c == 'g' || c == 'K' || c == '-'
    ensures Avoids(NirPlace, c)
  {
    assert Avoids(NirTail, c);
  }

  lemma NirMonthAvoids(c: char)
    requires c == 'e' || c == 's' || c == 'g' || c == 'K' || c == '-'
    ensures Avoids(NirMonth, c)
  {
    NirPartAvoids(c);
  }

  lemma NirAvoids(c: char)
    requires c == 'e' || c == 's' || c == 'g' || c == 'K' || c == '-'
    ensures Avoids(NirFr, c)
  {
    NirMonthAvoids(c);
    assert Avoids(NirYear, c);
  }

  lemma NirPartEnds()
    ensures LastWord(NirPlace) && RightBounded(NirPlace)
  {
    assert LastWord(NirTail) && RightBounded(NirTail);
  }

  lemma NirEnds()
    ensures LastWord(NirFr) && RightBounded(NirFr)
  {
    NirPartEnds();
    assert LastWord(NirMonth) && RightBounded(NirMonth) && LastWord(NirYear) && RightBounded(NirYear);
  }

  lemma NirIsOutOfReach()
    ensures Untouchable(NirFr, Rules, "secrets")
  {
    hide Avoids, LastWord, RightBounded, Shuns, Untouchable, BeginsAt;
    NirAvoids('e');
    NirAvoids('s');
    NirAvoids('g');
    NirAvoids('K');
    NirAvoids('-');
    NirEnds();
    HeaderBegins();
    AvoidsShuns(NirFr, PrivateKey, '-');
    NirShunsAws();
    ShunsAll(NirFr);
  }

  lemma IbanIsOutOfReach()
    ensures Untouchable(Iban, Rules, "secrets")
  {
    hide Avoids, LastWord, Shuns, Untouchable, BeginsAt;
    IbanAvoids();
    IbanEnds();
    HeaderBegins();
    AvoidsShuns(Iban, PrivateKey, '-');
    IbanShunsAws();
    ShunsAll(Iban);
  }

  lemma NumbersAreOutOfReach(re: Regex)
    requires AvoidsLetters(re) && LastWord(re)
    ensures Untouchable(re, Rules, "secrets")
  {
    hide Avoids, LastWord, Shuns, Untouchable, BeginsAt;
    HeaderIsShunned(re);
    TextBegins(AwsAccessKey, "AKIA");
    AvoidsShuns(re, AwsAccessKey, 'A');
    ShunsAll(re);
  }

  lemma BoundedPiiIsOutOfReach(i: nat)
    requires 7 <= i < 12
    ensures i < |Rules| && Untouchable(Rules[i].pattern, Rules, "secrets")
  {
    hide AvoidsLetters, LastWord, Untouchable;
    if i == 7 {
      IbanIsOutOfReach();
    } else if i == 8 {
      NirIsOutOfReach();
    } else if i == 9 {
      SsnAvoids();
      SsnEnds();
      NumbersAreOutOfReach(SsnUs);
    } else if i == 10 {
      CardAvoidsLetters();
      CardEnds();
      NumbersAreOutOfReach(CreditCard);
    } else {
      PhoneAvoidsLetters();
      PhoneEnds();
      NumbersAreOutOfReach(PhoneFr);
    }
  }

}
