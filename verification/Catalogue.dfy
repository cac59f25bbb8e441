/** The catalogue as it is meant: what each rule is there to find, how grave it is and what stands in its place,
    by the rule's name and without its pattern; and what a scan with the catalogue, or a whole request, comes to
    in these terms. */
module Catalogue {
  import opened Regex
  import opened RuleTable
  import opened Redaction
  import opened Simultaneous
  import opened PassProperties
  import opened SecretMeanings
  import opened PiiMeanings
  import opened CheckHandler

  const SecretNames: seq<string> := ["private_key", "jwt", "aws_access_key", "openai_key", "anthropic_key", "github_pat"]
  const PiiNames: seq<string> := ["email", "iban", "nir_fr", "ssn_us", "credit_card", "phone_fr", "phone_intl"]
  const MediumNames: seq<string> := ["jwt", "email", "phone_fr", "phone_intl"]

  function NamesOf(category: string): seq<string> {
    if category == "secrets" then SecretNames else if category == "pii" then PiiNames else []
  }

  /** text[i..j] is what a rule of this name is there to find. */
  ghost predicate Meant(name: string, s: string, i: nat, j: nat)
    requires i <= j <= |s|
  {
    match name
    case "private_key" => IsPrivateKey(s, i, j)
    case "jwt" => IsJwt(s, i, j)
    case "aws_access_key" => IsAwsKey(s, i, j)
    case "openai_key" => Prefixed("sk-", IsTokenChar, 20, s, i, j)
    case "anthropic_key" => Prefixed("sk-ant-", IsTokenChar, 20, s, i, j)
    case "github_pat" => IsGithubPat(s, i, j)
    case "email" => IsEmail(s, i, j)
    case "iban" => IsIban(s, i, j)
    case "nir_fr" => IsNir(s, i, j)
    case "ssn_us" => IsSsn(s, i, j)
    case "credit_card" => IsCard(s, i, j)
    case "phone_fr" => IsPhoneFr(s, i, j)
    case "phone_intl" => IsPhoneIntl(s, i, j)
    case _ => false
  }

  /** What stands in the place of what such a rule finds. */
  function Tag(name: string): string {
    match name
    case "private_key" => "[REDACTED_PRIVATE_KEY]"
    case "jwt" => "[REDACTED_JWT]"
    case "aws_access_key" => "[REDACTED_AWS_KEY]"
    case "openai_key" => "[REDACTED_OPENAI_KEY]"
    case "anthropic_key" => "[REDACTED_ANTHROPIC_KEY]"
    case "github_pat" => "[REDACTED_GH_TOKEN]"
    case "email" => "[REDACTED_EMAIL]"
    case "iban" => "[REDACTED_IBAN]"
    case "nir_fr" => "[REDACTED_NIR]"
    case "ssn_us" => "[REDACTED_SSN]"
    case "credit_card" => "[REDACTED_CC]"
    case _ => "[REDACTED_PHONE]"
  }

  /** One rule as its name has it. */
  ghost predicate AsMeant(r: Rule) {
    && (forall s, i, j | 0 <= i <= j <= |s| :: Matches(r.pattern, s, i, j) <==> Meant(r.name, s, i, j))
    && r.placeholder == Tag(r.name)
    && (r.severity == Medium <==> r.name in MediumNames)
    && r.name in NamesOf(r.category)
  }

  lemma SecretMeans(r: Rule, s: string, i: nat, j: nat)
    requires i <= j <= |s|
    requires r in [PrivateKeyRule, JwtRule, AwsAccessKeyRule, OpenaiKeyRule, AnthropicKeyRule, GithubPatRule]
    ensures Matches(r.pattern, s, i, j) <==> Meant(r.name, s, i, j)
  {
    hide Matches, IsPrivateKey, IsJwt, IsAwsKey, Prefixed, IsGithubPat;
    if r == PrivateKeyRule { PrivateKeyMeans(s, i, j); }
    else if r == JwtRule { JwtMeans(s, i, j); }
    else if r == AwsAccessKeyRule { AwsKeyMeans(s, i, j); }
    else if r == OpenaiKeyRule { OpenaiKeyMeans(s, i, j); }
    else if r == AnthropicKeyRule { AnthropicKeyMeans(s, i, j); }
    else { GithubPatMeans(s, i, j); }
  }

  lemma NumberMeans(r: Rule, s: string, i: nat, j: nat)
    requires i <= j <= |s| && r in [IbanRule, NirFrRule, SsnUsRule, CreditCardRule]
    ensures Matches(r.pattern, s, i, j) <==> Meant(r.name, s, i, j)
  {
    hide Matches, IsIban, IsNir, IsSsn, IsCard;
    if r == IbanRule { IbanMeans(s, i, j); }
    else if r == NirFrRule { NirMeans(s, i, j); }
    else if r == SsnUsRule { SsnMeans(s, i, j); }
    else { CreditCardMeans(s, i, j); }
  }

  lemma ContactMeans(r: Rule, s: string, i: nat, j: nat)
    requires i <= j <= |s| && r in [EmailRule, PhoneFrRule, PhoneIntlRule]
    ensures Matches(r.pattern, s, i, j) <==> Meant(r.name, s, i, j)
  {
    hide Matches, IsEmail, IsPhoneFr, IsPhoneIntl;
    if r == EmailRule { EmailMeans(s, i, j); }
    else if r == PhoneFrRule { PhoneFrMeans(s, i, j); }
    else { PhoneIntlMeans(s, i, j); }
  }

  lemma PiiMeans(r: Rule, s: string, i: nat, j: nat)
    requires i <= j <= |s|
    requires r in [EmailRule, IbanRule, NirFrRule, SsnUsRule, CreditCardRule, PhoneFrRule, PhoneIntlRule]
    ensures Matches(r.pattern, s, i, j) <==> Meant(r.name, s, i, j)
  {
    hide Matches, Meant;
    if r in [IbanRule, NirFrRule, SsnUsRule, CreditCardRule] { NumberMeans(r, s, i, j); } else { ContactMeans(r, s, i, j); }
  }

  lemma SecretAsListed(r: Rule)
    requires r in [PrivateKeyRule, JwtRule, AwsAccessKeyRule, OpenaiKeyRule, AnthropicKeyRule, GithubPatRule]
    ensures r.placeholder == Tag(r.name) && (r.severity == Medium <==> r.name in MediumNames)
    ensures r.category == "secrets" && r.name in SecretNames
  {}

  lemma PiiAsListed(r: Rule)
    requires r in [EmailRule, IbanRule, NirFrRule, SsnUsRule, CreditCardRule, PhoneFrRule, PhoneIntlRule]
    ensures r.placeholder == Tag(r.name) && (r.severity == Medium <==> r.name in MediumNames)
    ensures r.category == "pii" && r.name in PiiNames
  {}

  /** Every rule of the catalogue is as its name has it, and every name of a category has its rule. */
  lemma CatalogueIsAsMeant()
    ensures forall r <- Rules :: AsMeant(r)
    ensures forall category, name <- NamesOf(category) :: exists r <- Rules :: r.name == name && r.category == category
  {
    forall r <- Rules ensures AsMeant(r) { RuleIsAsMeant(r); }
    forall category, name <- NamesOf(category) ensures exists r <- Rules :: r.name == name && r.category == category {
      EveryNameHasItsRule(category, name);
    }
  }

  lemma RuleIsAsMeant(r: Rule)
    requires r in Rules
    ensures AsMeant(r)
  {
    hide Matches, Meant, Tag;
    if r in [PrivateKeyRule, JwtRule, AwsAccessKeyRule, OpenaiKeyRule, AnthropicKeyRule, GithubPatRule] {
      SecretAsListed(r);
      forall s, i, j | 0 <= i <= j <= |s| ensures Matches(r.pattern, s, i, j) <==> Meant(r.name, s, i, j) { SecretMeans(r, s, i, j); }
    } else {
      PiiAsListed(r);
      forall s, i, j | 0 <= i <= j <= |s| ensures Matches(r.pattern, s, i, j) <==> Meant(r.name, s, i, j) { PiiMeans(r, s, i, j); }
    }
  }

  lemma EveryNameHasItsRule(category: string, name: string)
    requires name in NamesOf(category)
    ensures exists r <- Rules :: r.name == name && r.category == category
  {
    var k :| 0 <= k < |NamesOf(category)| && NamesOf(category)[k] == name;
    var r := Rules[if category == "secrets" then k else k + 6];
    assert r in Rules && r.name == name && r.category == category;
  }

  // ----- what the category scans come to -----

  /** Nothing a rule of the category is there to find is anywhere in the text. */
  ghost predicate NothingMeant(category: string, text: string) {
    forall name, i, j | name in NamesOf(category) && 0 <= i <= j <= |text| :: !Meant(name, text, i, j)
  }

  /** The table's part, for any table whose rules are as meant. */
  lemma CleanMeans(table: seq<Rule>, category: string, text: string)
    requires forall r <- table :: AsMeant(r)
    requires forall c, name <- NamesOf(c) :: exists r <- table :: r.name == name && r.category == c
    ensures Clean(table, category, text) <==> NothingMeant(category, text)
  {
    hide Matches, Meant, NamesOf, Tag;
    if Clean(table, category, text) {
      forall name, i, j | name in NamesOf(category) && 0 <= i <= j <= |text| ensures !Meant(name, text, i, j) {
        var r :| r in table && r.name == name && r.category == category;
        assert NoMatch(r.pattern, text) && AsMeant(r);
        assert Matches(r.pattern, text, i, j) <==> Meant(r.name, text, i, j);
      }
    }
    if NothingMeant(category, text) {
      forall r <- table | r.category == category ensures NoMatch(r.pattern, text) {
        assert AsMeant(r);
        forall p, q | 0 <= p <= q <= |text| ensures !Matches(r.pattern, text, p, q) {
          assert Matches(r.pattern, text, p, q) <==> Meant(r.name, text, p, q);
        }
      }
    }
  }

  /** The answer leaves the text as it was iff nothing that a rule of a requested category is there to find is in it. */
  lemma UnchangedIffNothingMeant(categories: seq<string>, replies: seq<Inference>, text: string)
    requires |replies| == |categories|
    ensures AllConsume(Rules)
    ensures LoopOver(Rules, categories, replies, text).redacted == text
            <==> forall c <- categories | c == "pii" || c == "secrets" :: NothingMeant(c, text)
  {
    hide SafeTable, LoopOver, Clean, NothingMeant, AsMeant, AllConsume;
    CatalogueIsSafe();
    ConsumesAll(Rules);
    CatalogueIsAsMeant();
    forall c ensures Clean(Rules, c, text) <==> NothingMeant(c, text) { CleanMeans(Rules, c, text); }
    UnchangedIffClean(Rules, categories, replies, text);
  }

  /** f quotes, at its offsets in t, something its rule is there to find. */
  ghost predicate Quotes(f: Finding, t: string) {
    f.start < f.end <= |t| && f.match_ == t[f.start..f.end] && Meant(f.rule, t, f.start, f.end)
  }

  /** A finding of the category: by name, as grave as the catalogue says, quoting what was meant. */
  ghost predicate FoundAsMeant(f: Finding, category: string) {
    && f.category == category && f.rule in NamesOf(category) && (f.severity == Medium <==> f.rule in MediumNames)
    && exists t: string :: Quotes(f, t)
  }

  lemma {:induction false} FindingsAreAsMeant(rules: seq<Rule>, category: string, text: string)
    requires AllConsume(rules) && forall r <- rules :: AsMeant(r)
    ensures forall f <- ScanWith(rules, category, text).findings :: FoundAsMeant(f, category)
    decreases |rules|
  {
    hide Pass, FoundAsMeant, AsMeant;
    if rules != [] {
      if rules[0].category == category {
        var pass := Pass(rules[0], text);
        assert AsMeant(rules[0]);
        forall f <- pass.findings ensures FoundAsMeant(f, category) { PassFindingAsMeant(rules[0], text, f); }
        FindingsAreAsMeant(rules[1..], category, pass.redacted);
      } else {
        FindingsAreAsMeant(rules[1..], category, text);
      }
    }
  }

  lemma PassFindingAsMeant(rule: Rule, text: string, f: Finding)
    requires AsMeant(rule) && Consumes(rule.pattern) && f in Pass(rule, text).findings
    ensures FoundAsMeant(f, rule.category)
  {
    hide Pass, Matches, Meant, NamesOf, Tag, FirstEnd;
    var k :| 0 <= k < |Pass(rule, text).findings| && Pass(rule, text).findings[k] == f;
    FindingsAreMatches(rule, text, k);
    assert Matches(rule.pattern, text, f.start, f.end) <==> Meant(rule.name, text, f.start, f.end);
    assert Quotes(f, text);
  }

  /** Every finding of a scan with the catalogue is as meant. */
  lemma CatalogueFindings(category: string, text: string)
    ensures AllConsume(Rules)
    ensures forall f <- ScanWith(Rules, category, text).findings :: FoundAsMeant(f, category)
  {
    hide SafeTable, AsMeant, FoundAsMeant, AllConsume, ScanWith;
    CatalogueIsSafe();
    ConsumesAll(Rules);
    CatalogueIsAsMeant();
    FindingsAreAsMeant(Rules, category, text);
  }
}
