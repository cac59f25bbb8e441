/** Secrets or personal data first: which lists of categories never miss a secret. With pii first, the local
    part of an e-mail address can be a key, and is reported as an address; with secrets first every text that
    has a secret gets a finding for one. */
module ScanOrder {
  import opened Wrappers
  import opened Regex
  import opened RuleTable
  import opened Redaction
  import opened Simultaneous
  import opened PassProperties
  import opened PatternMeanings
  import opened PreferredEnds
  import opened CheckHandler

  /** The list asks for secrets, and not for pii before that. */
  predicate SecretsFirst(categories: seq<string>) {
    exists k | 0 <= k < |categories| :: categories[k] == "secrets" && "pii" !in categories[..k]
  }

  ghost predicate HasSecret(table: seq<Rule>, text: string) { !Clean(table, "secrets", text) }

  ghost predicate FindsSecret(findings: seq<Finding>) { exists f <- findings :: f.category == "secrets" }

  // ----- secrets first: none is missed -----

  lemma {:induction false} FirstScanned(categories: seq<string>)
    ensures SecretsFirst(categories) <==> ScannedOnly(categories) != [] && ScannedOnly(categories)[0] == "secrets"
    ensures ScannedOnly(categories) != [] ==> IsScanned(ScannedOnly(categories)[0])
    decreases |categories|
  {
    if categories != [] {
      var rest := categories[1..];
      FirstScanned(rest);
      if SecretsFirst(rest) && !IsScanned(categories[0]) {
        var k :| 0 <= k < |rest| && rest[k] == "secrets" && "pii" !in rest[..k];
        assert categories[..k + 1] == [categories[0]] + rest[..k];
        assert categories[k + 1] == "secrets";
      }
      if SecretsFirst(categories) && !IsScanned(categories[0]) {
        var k :| 0 <= k < |categories| && categories[k] == "secrets" && "pii" !in categories[..k];
        assert categories[..k] == [categories[0]] + rest[..k - 1];
        assert rest[k - 1] == "secrets";
      }
      if categories[0] == "secrets" { assert categories[..0] == []; }
      if categories[0] == "pii" {
        forall k | 0 < k < |categories| ensures "pii" in categories[..k] { assert categories[..k][0] == "pii"; }
      }
    }
  }

  lemma {:induction false} FromScansIn(fs: seq<Finding>)
    ensures forall f :: f in FromScans(fs) <==> f in fs && IsScanned(f.category)
  {
    if fs != [] {
      FromScansIn(fs[1..]);
      assert fs == [fs[0]] + fs[1..];
    }
  }

  lemma SecretsFirstFinds(table: seq<Rule>, categories: seq<string>, replies: seq<Inference>, text: string)
    requires AllConsume(table) && |replies| == |categories| && SecretsFirst(categories) && HasSecret(table, text)
    ensures FindsSecret(LoopOver(table, categories, replies, text).findings)
  {
    hide Clean, ScanWith, SecretsFirst, AllConsume;
    FirstScanned(categories);
    LoopIsChain(table, categories, replies, text);
    QuietIffClean(table, "secrets", text);
    ScanCategories(table, "secrets", text);
    var loop := LoopOver(table, categories, replies, text);
    FromScansIn(loop.findings);
    var f := ScanWith(table, "secrets", text).findings[0];
    assert f in ScanWith(table, "secrets", text).findings;
    assert f in FromScans(loop.findings);
  }

  // ----- otherwise: a key in front of an at sign -----

  /** An OpenAI key of the shortest kind, as the local part of an e-mail address. */
  const Masked := "sk-abcdefghijklmnopqrst@x.yz"

  lemma MaskedIsKey()
    ensures Matches(OpenaiKey, Masked, 0, 23)
  {
    hide Matches;
    var run := AtLeast(Char(Token), 20);
    AtLeastRun(Token, 20, Masked, 3, 23);
    Join(run, Boundary, Masked, 3, 23, 23);
    Join(Text("sk-"), OpenaiKey.second.second, Masked, 0, 3, 23);
    Join(Boundary, OpenaiKey.second, Masked, 0, 0, 23);
  }

  lemma AtLeastRun(cl: Class, lo: nat, s: string, i: nat, j: nat)
    requires i <= j <= |s| && j - i >= lo && forall d | i <= d < j :: Has(cl, s[d])
    ensures Matches(AtLeast(Char(cl), lo), s, i, j)
  {
    RunOfClass(cl, lo, s, i, j);
  }

  lemma MaskedIsAddress()
    ensures Matches(Email, Masked, 0, 28)
  {
    hide Matches;
    var r1 := Email.second;
    var r2 := r1.second;
    var r3 := r2.second;
    AtLeastRun(Email.first.body.cls, 1, Masked, 0, 23);
    assert Masked[23..24] == "@" && Masked[25..26] == ".";
    AtLeastRun(r2.first.body.cls, 1, Masked, 24, 25);
    AtLeastRun(r3.second.body.cls, 2, Masked, 26, 28);
    Join(Text("."), r3.second, Masked, 25, 26, 28);
    Join(r2.first, r3, Masked, 24, 25, 28);
    Join(Text("@"), r2, Masked, 23, 24, 28);
    Join(Email.first, r1, Masked, 0, 23, 28);
  }

  /** The greedy pattern takes the whole text. */
  lemma AddressIsTaken()
    ensures Consumes(Email) && FindAll(Email, Masked, 0) == [Span(0, 28)]
  {
    hide Matches, FirstEnd, Greedy;
    EmailRead();
    EmailIsGreedy();
    MaskedIsAddress();
    PreferredIsLongest(Email, Masked, 0, 28);
    FirstEndMatches(Email, Masked, 0, FirstEnd(Email, Masked, 0).value);
    FindAllIsLeftmost(Email, Masked, 28);
    assert FindNext(Email, Masked, 0) == Some(Span(0, 28));
    assert FindAll(Email, Masked, 0) == [Span(0, 28)] + FindAll(Email, Masked, 28);
    assert FindAll(Email, Masked, 28) == [];
  }

  // ----- what is left of it is quiet -----

  /** No rule matches anywhere in a text that is one placeholder. */
  lemma PlaceholderIsQuiet(table: seq<Rule>, rule: Rule, ph: string)
    requires Safe(rule, table) && exists q <- table :: q.placeholder == ph
    ensures NoMatch(rule.pattern, ph)
  {
    hide Matches, Sound, Inert, IsPlaceholder;
    forall p, q | 0 <= p <= q <= |ph| && Matches(rule.pattern, ph, p, q) ensures false {
      NotInPlaceholder(ph, rule, table, ph, p, q, 0);
      SafeHasNoBrackets(rule, table, ph, p, q);
    }
  }

  lemma PlaceholderIsClean(table: seq<Rule>, rules: seq<Rule>, category: string, ph: string)
    requires SafeTable(table) && (exists q <- table :: q.placeholder == ph) && forall r <- rules :: r in table
    ensures Clean(rules, category, ph)
  {
    hide NoMatch, Safe, NamesDistinct;
    forall r <- rules ensures NoMatch(r.pattern, ph) { PlaceholderIsQuiet(table, r, ph); }
  }

  const Hidden := "[REDACTED_EMAIL]"

  lemma HiddenIsClean(rules: seq<Rule>, category: string)
    requires forall r <- rules :: r in Rules
    ensures Clean(rules, category, Hidden)
  {
    hide SafeTable, Clean;
    HiddenIsPlaceholder();
    PlaceholderIsClean(Rules, rules, category, Hidden);
  }

  lemma AddressIsReplaced()
    ensures Consumes(Email)
    ensures Pass(EmailRule, Masked) == Scan([Finding("pii", "email", Medium, Masked, 0, 28)], Hidden)
  {
    hide FindAll;
    AddressIsTaken();
    var ph, spans := EmailRule.placeholder, [Span(0, 28)];
    assert spans[1..] == [] && Masked[0..28] == Masked;
    FirstEdit(Masked, spans, ph, 0) by { assert InOrder(EditsOf(spans, ph), 0, |Masked|); }
    LastPiece(Masked, ph, 28);
    assert Substitute(Masked, EditsOf(spans, ph), 0) == Masked[0..0] + Hidden + Masked[28..];
    assert FindingsOf(EmailRule, Masked, spans) == [Finding("pii", "email", Medium, Masked, 0, 28)];
  }

  lemma PartsConsume(table: seq<Rule>, n: nat)
    requires n <= |table| && AllConsume(table)
    ensures AllConsume(table[..n]) && AllConsume(table[n..])
  {
    assert forall r <- table[..n] :: r in table;
    assert forall r <- table[n..] :: r in table;
  }

  lemma SkipTo(table: seq<Rule>, n: nat, category: string, text: string)
    requires n <= |table| && AllConsume(table) && Clean(table[..n], category, text)
    ensures AllConsume(table[n..]) && ScanWith(table, category, text) == ScanWith(table[n..], category, text)
  {
    hide Clean, ScanWith, AllConsume;
    PartsConsume(table, n);
    assert table[..n] + table[n..] == table;
    QuietIffClean(table[..n], category, text);
    ScanAppend(table[..n], table[n..], category, text);
    var rest := ScanWith(table[n..], category, text);
    assert [] + rest.findings == rest.findings;
  }

  lemma CatalogueConsumes()
    ensures AllConsume(Rules)
  {
    CatalogueIsSafe();
    hide SafeTable;
    ConsumesAll(Rules);
  }

  lemma ScanOfMasked()
    ensures AllConsume(Rules)
    ensures ScanWith(Rules, "pii", Masked) == Scan([Finding("pii", "email", Medium, Masked, 0, 28)], Hidden)
  {
    hide Clean, Pass, AllConsume, Consumes;
    NoneBefore();
    CatalogueConsumes();
    SkipTo(Rules, 6, "pii", Masked);
    PartsConsume(Rules, 7);
    assert Rules[6..][0] == EmailRule && Rules[6..][1..] == Rules[7..];
    AddressIsReplaced();
    HiddenIsClean(Rules[7..], "pii");
    QuietIffClean(Rules[7..], "pii", Hidden);
    TakeFirst(Rules[6..], Masked);
  }

  lemma NoneBefore()
    ensures |Rules| > 6 && Clean(Rules[..6], "pii", Masked)
  {
    hide NoMatch;
  }

  lemma TakeFirst(rules: seq<Rule>, text: string)
    requires rules != [] && AllConsume(rules) && AllConsume(rules[1..]) && Consumes(rules[0].pattern)
    ensures var pass := Pass(rules[0], text); var rest := ScanWith(rules[1..], rules[0].category, pass.redacted);
            ScanWith(rules, rules[0].category, text) == Scan(pass.findings + rest.findings, rest.redacted)
  {
    hide Pass, Consumes;
  }

  lemma MaskedIsMissed(categories: seq<string>, replies: seq<Inference>)
    requires |replies| == |categories| && !SecretsFirst(categories)
    ensures AllConsume(Rules)
    ensures !FindsSecret(LoopOver(Rules, categories, replies, Masked).findings)
    ensures ScannedOnly(categories) != [] ==>
              FromScans(LoopOver(Rules, categories, replies, Masked).findings) == [Finding("pii", "email", Medium, Masked, 0, 28)]
  {
    hide ScanWith, SecretsFirst, AllConsume, FromScans, LoopOver, SafeTable, ScannedOnly;
    ScanOfMasked();
    LoopIsChain(Rules, categories, replies, Masked);
    FirstScanned(categories);
    var loop := LoopOver(Rules, categories, replies, Masked);
    var scanned := ScannedOnly(categories);
    FromScansIn(loop.findings);
    if scanned != [] {
      HiddenIsPlaceholder();
      PlaceholderStaysQuiet(Rules, scanned[1..], Hidden);
      var found := [Finding("pii", "email", Medium, Masked, 0, 28)];
      assert found + [] == found;
    }
  }

  lemma PlaceholderStaysQuiet(table: seq<Rule>, categories: seq<string>, ph: string)
    requires SafeTable(table) && exists q <- table :: q.placeholder == ph
    ensures AllConsume(table) && ScanChain(table, categories, ph).findings == []
  {
    hide Clean, ScanChain, SafeTable, AllConsume;
    ConsumesAll(table);
    forall c <- categories ensures Clean(table, c, ph) { PlaceholderIsClean(table, table, c, ph); }
    ChainIsQuietIffClean(table, categories, ph);
  }

  lemma HiddenIsPlaceholder()
    ensures SafeTable(Rules) && exists q <- Rules :: q.placeholder == Hidden
  {
    hide SafeTable;
    CatalogueIsSafe();
    assert EmailRule in Rules && EmailRule.placeholder == Hidden;
  }

  lemma MaskedHasSecret()
    ensures HasSecret(Rules, Masked)
  {
    hide Matches;
    MaskedIsKey();
    assert !NoMatch(OpenaiKeyRule.pattern, Masked);
  }

  lemma DefaultIsPiiFirst()
    ensures !SecretsFirst(Requested([]))
  {
    FirstScanned(Requested([]));
  }

  /** A list of categories finds a secret in every text that has one iff it asks for secrets, and not
      for pii before that. The default list does not. */
  lemma NoSecretMissedIff(categories: seq<string>, replies: seq<Inference>)
    requires |replies| == |categories|
    ensures AllConsume(Rules)
    ensures (forall text | HasSecret(Rules, text) :: FindsSecret(LoopOver(Rules, categories, replies, text).findings)) <==> SecretsFirst(categories)
    ensures !SecretsFirst(Requested([]))
  {
    hide HasSecret, FindsSecret, LoopOver, AllConsume, SafeTable, SecretsFirst;
    CatalogueConsumes();
    DefaultIsPiiFirst();
    if SecretsFirst(categories) {
      forall text | HasSecret(Rules, text) ensures FindsSecret(LoopOver(Rules, categories, replies, text).findings) {
        SecretsFirstFinds(Rules, categories, replies, text);
      }
    } else {
      MaskedHasSecret();
      MaskedIsMissed(categories, replies);
    }
  }

  // ----- and the verdict changes with the order -----

  lemma NoCapitals(t: string, i: nat, j: nat, k: nat)
    requires i <= j <= |Masked| && k < |t| && 'A' <= t[k] <= 'Z'
    ensures !Matches(Text(t), Masked, i, j)
  {
    if j == i + |t| { assert Masked[i..j][k] == Masked[i + k]; }
  }

  lemma EarlierAreQuiet()
    ensures |Rules| > 3 && Clean(Rules[..3], "secrets", Masked)
  {
    hide Matches;
    forall p, q | 0 <= p <= q <= |Masked| ensures !Matches(PrivateKey, Masked, p, q) {
      if Matches(PrivateKey, Masked, p, q) {
        var a := Apart(KeyHeader, PrivateKey.second, Masked, p, q);
        NoCapitals("-----BEGIN ", p, a, 5);
      }
    }
    forall p, q | 0 <= p <= q <= |Masked| ensures !Matches(Jwt, Masked, p, q) {
      if Matches(Jwt, Masked, p, q) { SecondPart(Jwt, "eyJ", 2, p, q); }
    }
    forall p, q | 0 <= p <= q <= |Masked| ensures !Matches(AwsAccessKey, Masked, p, q) {
      if Matches(AwsAccessKey, Masked, p, q) { SecondPart(AwsAccessKey, "AKIA", 0, p, q); }
    }
  }

  lemma SecondPart(re: Regex, t: string, k: nat, p: nat, q: nat)
    requires re.Cat? && re.second.Cat? && re.second.first == Text(t) && k < |t| && 'A' <= t[k] <= 'Z'
    requires p <= q <= |Masked|
    ensures !Matches(re, Masked, p, q)
  {
    hide Matches;
    if Matches(re, Masked, p, q) {
      var a := Apart(re.first, re.second, Masked, p, q);
      var b := Apart(re.second.first, re.second.second, Masked, a, q);
      NoCapitals(t, a, b, k);
    }
  }

  lemma KeyIsBlocked()
    ensures AllConsume(Rules) && AnyHigh(ScanWith(Rules, "secrets", Masked).findings)
  {
    hide NoMatch, Pass, Clean, AllConsume, Consumes;
    EarlierAreQuiet();
    CatalogueConsumes();
    SkipTo(Rules, 3, "secrets", Masked);
    PartsConsume(Rules, 4);
    assert Rules[3..][0] == OpenaiKeyRule && Rules[3..][1..] == Rules[4..];
    assert Consumes(OpenaiKey) by { OpenaiKeyRead(); }
    TakeFirst(Rules[3..], Masked);
    KeyIsFound();
  }

  lemma KeyIsFound()
    ensures Consumes(OpenaiKey) && Pass(OpenaiKeyRule, Masked).findings != []
    ensures Pass(OpenaiKeyRule, Masked).findings[0].severity == High
  {
    hide Matches, Pass, FindAll;
    OpenaiKeyRead();
    MaskedIsKey();
    assert !NoMatch(OpenaiKey, Masked);
    QuietPass(OpenaiKeyRule, Masked);
    FindingsAreMatches(OpenaiKeyRule, Masked, 0);
  }

  lemma ThreeTurns(table: seq<Rule>, a: string, b: string, c: string, replies: seq<Inference>, text: string)
    requires |replies| == 3 && AllConsume(table)
    ensures var first := Visit(table, a, replies[0], text);
            var second := Visit(table, b, replies[1], first.redacted);
            var third := Visit(table, c, replies[2], second.redacted);
            LoopOver(table, [a, b, c], replies, text).findings == first.findings + (second.findings + third.findings)
  {
    hide Visit, AllConsume, LoopOver;
    var first := Visit(table, a, replies[0], text);
    var second := Visit(table, b, replies[1], first.redacted);
    var third := Visit(table, c, replies[2], second.redacted);
    OneTurn(table, a, [b, c], replies, text);
    OneTurn(table, b, [c], replies[1..], first.redacted);
    OneTurn(table, c, [], replies[2..], second.redacted);
    assert [a, b, c] == [a] + [b, c] && [b, c] == [b] + [c] && [c] == [c] + [];
    assert third.findings + [] == third.findings;
  }

  lemma OneTurn(table: seq<Rule>, c: string, rest: seq<string>, replies: seq<Inference>, text: string)
    requires |replies| == 1 + |rest| && AllConsume(table)
    ensures var first := Visit(table, c, replies[0], text);
            var after := LoopOver(table, rest, replies[1..], first.redacted);
            && LoopOver(table, [c] + rest, replies, text).findings == first.findings + after.findings
            && (rest == [] ==> after.findings == [])
  {
    hide Visit, AllConsume;
    assert ([c] + rest)[1..] == rest;
  }

  /** With nothing from the classifier, the default order lets the masked key through as a redacted
      address; with secrets first it is blocked. */
  lemma OrderDecidesVerdict(replies: seq<Inference>)
    requires |replies| == 3 && (replies[2].Failed? || replies[2].value < 0.5)
    ensures AllConsume(Rules)
    ensures ActionFor(LoopOver(Rules, Requested([]), replies, Masked).findings) == "redact"
    ensures ActionFor(LoopOver(Rules, ["secrets", "pii", "injection"], replies, Masked).findings) == "block"
  {
    DefaultRedacts(replies);
    SecretsFirstBlocks(replies);
  }

  lemma VisitsOfMasked(reply: Inference)
    ensures AllConsume(Rules)
    ensures Visit(Rules, "pii", reply, Masked) == Looped([Finding("pii", "email", Medium, Masked, 0, 28)], Hidden, [])
    ensures Visit(Rules, "secrets", reply, Hidden) == Looped([], Hidden, [])
  {
    hide ScanWith, AllConsume, Clean;
    ScanOfMasked();
    HiddenIsClean(Rules, "secrets");
    QuietIffClean(Rules, "secrets", Hidden);
  }

  lemma SilentClassifier(table: seq<Rule>, reply: Inference, text: string)
    requires AllConsume(table) && (reply.Failed? || reply.value < 0.5)
    ensures Visit(table, "injection", reply, text).findings == []
  {
    hide AllConsume, ScanWith;
  }

  lemma OnlyAddress(fs: seq<Finding>)
    requires fs == [Finding("pii", "email", Medium, Masked, 0, 28)]
    ensures ActionFor(fs) == "redact"
  {
    assert fs[0] in fs && IsScanned(fs[0].category);
  }

  lemma DefaultRedacts(replies: seq<Inference>)
    requires |replies| == 3 && (replies[2].Failed? || replies[2].value < 0.5)
    ensures AllConsume(Rules)
    ensures ActionFor(LoopOver(Rules, Requested([]), replies, Masked).findings) == "redact"
  {
    hide AllConsume, LoopOver, Visit, ActionFor;
    VisitsOfMasked(replies[0]);
    VisitsOfMasked(replies[1]);
    SilentClassifier(Rules, replies[2], Hidden);
    ThreeTurns(Rules, "pii", "secrets", "injection", replies, Masked);
    OnlyAddress(LoopOver(Rules, Requested([]), replies, Masked).findings);
  }

  lemma HighBlocks(found: seq<Finding>, rest: seq<Finding>)
    requires AnyHigh(found)
    ensures ActionFor(found + rest) == "block"
  {
    var f :| f in found && f.severity == High;
    assert f in found + rest;
  }

  lemma SecretsFirstBlocks(replies: seq<Inference>)
    requires |replies| == 3
    ensures AllConsume(Rules)
    ensures ActionFor(LoopOver(Rules, ["secrets", "pii", "injection"], replies, Masked).findings) == "block"
  {
    hide AllConsume, LoopOver, AnyHigh, ActionFor, ScanWith;
    KeyIsBlocked();
    ThreeTurns(Rules, "secrets", "pii", "injection", replies, Masked);
    var first := Visit(Rules, "secrets", replies[0], Masked);
    var second := Visit(Rules, "pii", replies[1], first.redacted);
    HighBlocks(first.findings, second.findings + Visit(Rules, "injection", replies[2], second.redacted).findings);
  }
}
