/** The rule catalogue joined with its patterns and placeholders, in catalogue order, and what the redaction
    theorems need to know of it: no match is empty or holds a bracket, matches begin and end at word boundaries
    unless the pattern has none, and no match can lie within a placeholder. */
module RuleTable {
  import opened Wrappers
  import opened Regex

  datatype Severity = High | Medium

  /** A catalogue entry together with its compiled pattern and replacement. */
  datatype Rule = Rule(name: string, category: string, severity: Severity, pattern: Regex, placeholder: string)

  const Digit := Char(Class(true, false, false, ""))
  const Space := Repeat(Char(Class(false, false, false, "\t\n\U{000C}\r ")), 0, Some(1))
  const Sep := Repeat(Char(Class(false, false, false, " .-")), 0, Some(1))
  const Token := Class(true, true, true, "_-")

  function Times(re: Regex, n: nat): Regex { Repeat(re, n, Some(n)) }

  function Between(re: Regex, lo: nat, hi: nat): Regex { Repeat(re, lo, Some(hi)) }

  function AtLeast(re: Regex, lo: nat): Regex { Repeat(re, lo, None) }

  const KeyHeader := Text("-----BEGIN ")

  const KeyKind :=
    Alt(Text("RSA "), Alt(Text("EC "), Alt(Text("DSA "), Alt(Text("OPENSSH "), Alt(Text("PGP "), Empty)))))

  const KeyFooter := Text("PRIVATE KEY-----")

  const PrivateKey := Cat(KeyHeader, Cat(KeyKind, KeyFooter))

  const Jwt :=
    Cat(Boundary, Cat(Text("eyJ"), Cat(AtLeast(Char(Token), 10),
        Cat(Text(".eyJ"), Cat(AtLeast(Char(Token), 10),
            Cat(Text("."), Cat(AtLeast(Char(Token), 10), Boundary)))))))

  const AwsAccessKey :=
    Cat(Boundary, Cat(Text("AKIA"), Cat(Times(Char(Class(true, true, false, "")), 16), Boundary)))

  const OpenaiKey := Cat(Boundary, Cat(Text("sk-"), Cat(AtLeast(Char(Token), 20), Boundary)))

  const AnthropicKey := Cat(Boundary, Cat(Text("sk-ant-"), Cat(AtLeast(Char(Token), 20), Boundary)))

  const GithubKind := Alt(Text("ghp"), Alt(Text("gho"), Alt(Text("ghu"), Alt(Text("ghs"), Text("ghr")))))

  const GithubPat :=
    Cat(Boundary, Cat(GithubKind,
        Cat(Text("_"), Cat(AtLeast(Char(Class(true, true, true, "")), 30), Boundary))))

  const Email :=
    Cat(AtLeast(Char(Class(true, true, true, "_.+-")), 1),
        Cat(Text("@"), Cat(AtLeast(Char(Class(true, true, true, "_-")), 1),
            Cat(Text("."), AtLeast(Char(Class(true, true, true, "_.-")), 2)))))

  const Iban :=
    Cat(Boundary, Cat(Times(Char(Class(false, true, false, "")), 2), Cat(Times(Digit, 2),
        Cat(Between(Char(Class(true, true, false, "")), 10, 30), Boundary))))

  const NirTail :=
    Cat(Space, Cat(Times(Digit, 3), Cat(Space, Cat(Times(Digit, 3), Cat(Space, Cat(Times(Digit, 2), Boundary))))))

  const NirPlace :=
    Cat(Space, Cat(Alt(Cat(Text("2"), Char(Class(false, false, false, "AB"))), Times(Digit, 2)), NirTail))

  const NirMonth := Cat(Space, Cat(Times(Digit, 2), NirPlace))

  const NirYear := Cat(Space, Cat(Times(Digit, 2), NirMonth))

  const NirFr := Cat(Boundary, Cat(Char(Class(false, false, false, "12")), NirYear))

  const SsnUs :=
    Cat(Boundary, Cat(Times(Digit, 3), Cat(Text("-"), Cat(Times(Digit, 2),
        Cat(Text("-"), Cat(Times(Digit, 4), Boundary))))))

  const CreditCard :=
    Alt(Cat(Boundary, Cat(Times(Cat(Times(Digit, 4), Char(Class(false, false, false, " -"))), 3),
            Cat(Between(Digit, 3, 4), Boundary))),
        Cat(Boundary, Cat(Between(Digit, 15, 16), Boundary)))

  const PhonePrefix := Alt(Cat(Text("+33"), Sep), Text("0"))

  const PhoneFr :=
    Cat(Boundary, Cat(PhonePrefix,
        Cat(Char(Class(false, false, false, "67")),
            Cat(Times(Cat(Sep, Times(Digit, 2)), 4), Boundary))))

  const PhoneIntl :=
    Cat(Text("+"), Cat(Between(Digit, 1, 3), Cat(Sep, Cat(Between(Digit, 1, 4),
        Cat(Sep, Cat(Between(Digit, 2, 4), Cat(Sep, Cat(Between(Digit, 2, 4),
            Between(Cat(Sep, Between(Digit, 2, 4)), 0, 1)))))))))

  const PrivateKeyRule := Rule("private_key", "secrets", High, PrivateKey, "[REDACTED_PRIVATE_KEY]")
  const JwtRule := Rule("jwt", "secrets", Medium, Jwt, "[REDACTED_JWT]")
  const AwsAccessKeyRule := Rule("aws_access_key", "secrets", High, AwsAccessKey, "[REDACTED_AWS_KEY]")
  const OpenaiKeyRule := Rule("openai_key", "secrets", High, OpenaiKey, "[REDACTED_OPENAI_KEY]")
  const AnthropicKeyRule := Rule("anthropic_key", "secrets", High, AnthropicKey, "[REDACTED_ANTHROPIC_KEY]")
  const GithubPatRule := Rule("github_pat", "secrets", High, GithubPat, "[REDACTED_GH_TOKEN]")
  const EmailRule := Rule("email", "pii", Medium, Email, "[REDACTED_EMAIL]")
  const IbanRule := Rule("iban", "pii", High, Iban, "[REDACTED_IBAN]")
  const NirFrRule := Rule("nir_fr", "pii", High, NirFr, "[REDACTED_NIR]")
  const SsnUsRule := Rule("ssn_us", "pii", High, SsnUs, "[REDACTED_SSN]")
  const CreditCardRule := Rule("credit_card", "pii", High, CreditCard, "[REDACTED_CC]")
  const PhoneFrRule := Rule("phone_fr", "pii", Medium, PhoneFr, "[REDACTED_PHONE]")
  const PhoneIntlRule := Rule("phone_intl", "pii", Medium, PhoneIntl, "[REDACTED_PHONE]")

  const Rules: seq<Rule> := [
    PrivateKeyRule, JwtRule, AwsAccessKeyRule, OpenaiKeyRule, AnthropicKeyRule, GithubPatRule,
    EmailRule, IbanRule, NirFrRule, SsnUsRule, CreditCardRule, PhoneFrRule, PhoneIntlRule
  ]

  /** What can be read off a pattern of the table. */
  predicate Sound(re: Regex) {
    && Consumes(re)
    && Avoids(re, '[') && Avoids(re, ']')
    && (BoundaryFree(re) || (LeftBounded(re) && RightBounded(re)))
  }

  /** A placeholder is a bracketed run of capitals and underscores in which no K follows an A. */
  predicate IsPlaceholder(ph: string) {
    && |ph| >= 2 && ph[0] == '[' && ph[|ph| - 1] == ']'
    && (forall k | 0 < k < |ph| - 1 :: IsCapital(ph[k]))
    && (forall k | 0 < k < |ph| - 1 :: ph[k] == 'K' ==> ph[k - 1] != 'A')
  }

  function Body(ph: string): string
    requires |ph| >= 2
  {
    ph[1..|ph| - 1]
  }

  lemma BodyStretch(ph: string, a: nat, b: nat)
    requires |ph| >= 2 && a <= b <= |Body(ph)|
    ensures forall x | 0 <= x < b - a :: Body(ph)[a..b][x] == ph[a + x + 1]
  {}

  /** No match of the pattern, in any text, can be a stretch of the placeholder's body. */
  ghost predicate Inert(re: Regex, ph: string)
    requires |ph| >= 2
  {
    forall s, i: nat, j: nat, a: nat, b: nat | i <= j <= |s| && Matches(re, s, i, j) && a <= b <= |Body(ph)| ::
      s[i..j] != Body(ph)[a..b]
  }

  /** The facts about one rule, within a table, that the redaction theorems rest on. */
  ghost predicate Safe(rule: Rule, table: seq<Rule>) {
    && Sound(rule.pattern)
    && IsPlaceholder(rule.placeholder)
    && forall q <- table :: IsPlaceholder(q.placeholder) && Inert(rule.pattern, q.placeholder)
  }

  lemma ForeignIsInert(re: Regex, ph: string)
    requires HasForeign(re) && IsPlaceholder(ph)
    ensures Inert(re, ph)
  {
    forall s, i: nat, j: nat, a: nat, b: nat | i <= j <= |s| && Matches(re, s, i, j) && a <= b <= |Body(ph)|
      ensures s[i..j] != Body(ph)[a..b]
    {
      var p := HasForeignSound(re, s, i, j);
      assert s[i..j][p - i] == s[p];
      BodyStretch(ph, a, b);
      assert b - a == j - i ==> IsCapital(Body(ph)[a..b][p - i]);
    }
  }

  lemma AwsIsInert(ph: string)
    requires IsPlaceholder(ph)
    ensures Inert(AwsAccessKey, ph)
  {
    forall s, i: nat, j: nat, a: nat, b: nat | i <= j <= |s| && Matches(AwsAccessKey, s, i, j) && a <= b <= |Body(ph)|
      ensures s[i..j] != Body(ph)[a..b]
    {
      var k :| i <= k <= j && Matches(Boundary, s, i, k) && Matches(AwsAccessKey.second, s, k, j);
      var l :| k <= l <= j && Matches(Text("AKIA"), s, k, l) && Matches(AwsAccessKey.second.second, s, l, j);
      assert s[i..j][0] == s[k..l][0] == 'A' && s[i..j][1] == s[k..l][1] == 'K';
      BodyStretch(ph, a, b);
    }
  }

  lemma PrivateKeyAvoids(c: char)
    requires c == '[' || c == ']'
    ensures Avoids(PrivateKey, c)
  {
    KeyFooterAvoids(c);
  }

  lemma KeyFooterAvoids(c: char)
    requires c == '[' || c == ']'
    ensures Avoids(KeyFooter, c)
  {}

  lemma PrivateKeyForeign()
    ensures HasForeign(PrivateKey) && Consumes(PrivateKey)
  {
    assert HasForeign(KeyHeader) && Consumes(KeyHeader);
  }

  lemma PrivateKeyRead()
    ensures Sound(PrivateKey) && HasForeign(PrivateKey)
  {
    PrivateKeyAvoids('[');
    PrivateKeyAvoids(']');
    PrivateKeyForeign();
    assert BoundaryFree(PrivateKey);
  }

  lemma NirPlaceRead()
    ensures Avoids(NirPlace, '[') && Avoids(NirPlace, ']') && RightBounded(NirPlace)
  {
    assert Avoids(NirTail, '[') && Avoids(NirTail, ']') && RightBounded(NirTail);
  }

  lemma NirFrRead()
    ensures Sound(NirFr) && HasForeign(NirFr)
  {
    NirPlaceRead();
    assert Avoids(NirMonth, '[') && Avoids(NirMonth, ']') && RightBounded(NirMonth);
    assert Avoids(NirYear, '[') && Avoids(NirYear, ']') && RightBounded(NirYear);
  }

  lemma JwtRead() ensures Sound(Jwt) && HasForeign(Jwt) {}

  lemma OpenaiKeyRead() ensures Sound(OpenaiKey) && HasForeign(OpenaiKey) {}

  lemma AnthropicKeyRead() ensures Sound(AnthropicKey) && HasForeign(AnthropicKey) {}

  lemma GithubPatRead()
    ensures Sound(GithubPat) && HasForeign(GithubPat)
  {
    GithubKindRead();
  }

  lemma GithubKindRead()
    ensures Avoids(GithubKind, '[') && Avoids(GithubKind, ']') && Consumes(GithubKind) && HasForeign(GithubKind)
  {}

  lemma EmailRead() ensures Sound(Email) && HasForeign(Email) {}

  lemma IbanRead() ensures Sound(Iban) && HasForeign(Iban) {}

  lemma SsnUsRead() ensures Sound(SsnUs) && HasForeign(SsnUs) {}

  lemma CreditCardRead() ensures Sound(CreditCard) && HasForeign(CreditCard) {}

  lemma PhoneFrRead()
    ensures Sound(PhoneFr) && HasForeign(PhoneFr)
  {
    PhonePrefixRead();
  }

  lemma PhonePrefixRead()
    ensures Avoids(PhonePrefix, '[') && Avoids(PhonePrefix, ']') && Consumes(PhonePrefix) && HasForeign(PhonePrefix)
  {}

  lemma PhoneIntlRead() ensures Sound(PhoneIntl) && HasForeign(PhoneIntl) {}

  lemma AwsRead() ensures Sound(AwsAccessKey) {}

  lemma PlaceholdersAreBracketed()
    ensures forall r <- Rules :: IsPlaceholder(r.placeholder)
  {
    PrivatePlaceholders();
    CloudPlaceholders();
    ModelPlaceholders();
    AnthropicPlaceholders();
    CodePlaceholders();
    BankPlaceholders();
    PersonPlaceholders();
  }

  lemma PrivatePlaceholders() ensures IsPlaceholder("[REDACTED_PRIVATE_KEY]") {}

  lemma CloudPlaceholders() ensures IsPlaceholder("[REDACTED_JWT]") && IsPlaceholder("[REDACTED_AWS_KEY]") {}

  lemma ModelPlaceholders() ensures IsPlaceholder("[REDACTED_OPENAI_KEY]") {}

  lemma AnthropicPlaceholders() ensures IsPlaceholder("[REDACTED_ANTHROPIC_KEY]") {}

  lemma CodePlaceholders() ensures IsPlaceholder("[REDACTED_GH_TOKEN]") && IsPlaceholder("[REDACTED_EMAIL]") {}

  lemma BankPlaceholders() ensures IsPlaceholder("[REDACTED_IBAN]") && IsPlaceholder("[REDACTED_CC]") {}

  lemma PersonPlaceholders() ensures IsPlaceholder("[REDACTED_NIR]") && IsPlaceholder("[REDACTED_SSN]") && IsPlaceholder("[REDACTED_PHONE]") {}

  lemma NamesAreDistinct()
    ensures forall i, j | 0 <= i < j < |Rules| :: Rules[i].name != Rules[j].name
  {}

  lemma PatternIsInert(r: Rule, ph: string)
    requires r in Rules && IsPlaceholder(ph)
    ensures Sound(r.pattern) && Inert(r.pattern, ph)
  {
    hide Sound, Inert, HasForeign, IsPlaceholder;
    if r == PrivateKeyRule {
      PrivateKeyRead(); ForeignIsInert(PrivateKey, ph);
    } else if r == JwtRule {
      JwtRead(); ForeignIsInert(Jwt, ph);
    } else if r == AwsAccessKeyRule {
      AwsRead(); AwsIsInert(ph);
    } else if r == OpenaiKeyRule {
      OpenaiKeyRead(); ForeignIsInert(OpenaiKey, ph);
    } else if r == AnthropicKeyRule {
      AnthropicKeyRead(); ForeignIsInert(AnthropicKey, ph);
    } else if r == GithubPatRule {
      GithubPatRead(); ForeignIsInert(GithubPat, ph);
    } else if r == EmailRule {
      EmailRead(); ForeignIsInert(Email, ph);
    } else if r == IbanRule {
      IbanRead(); ForeignIsInert(Iban, ph);
    } else if r == NirFrRule {
      NirFrRead(); ForeignIsInert(NirFr, ph);
    } else if r == SsnUsRule {
      SsnUsRead(); ForeignIsInert(SsnUs, ph);
    } else if r == CreditCardRule {
      CreditCardRead(); ForeignIsInert(CreditCard, ph);
    } else if r == PhoneFrRule {
      PhoneFrRead(); ForeignIsInert(PhoneFr, ph);
    } else {
      PhoneIntlRead(); ForeignIsInert(PhoneIntl, ph);
    }
  }

  /** Every rule of the table is safe: this is where the thirteen concrete patterns are read. */
  lemma TableIsSafe()
    ensures forall r <- Rules :: Safe(r, Rules)
  {
    PlaceholdersAreBracketed();
    forall r <- Rules, q <- Rules ensures Sound(r.pattern) && Inert(r.pattern, q.placeholder) {
      PatternIsInert(r, q.placeholder);
    }
  }
}
