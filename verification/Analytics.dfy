/** The deduplicated categories, rules and pairs of a request, and the pairs on the wire. */
module Analytics {
  import opened RuleTable
  import opened Redaction
  import opened Simultaneous
  import opened CheckHandler
  import opened Strings

  datatype FindingPair = FindingPair(rule: string, category: string)

  // ----- first occurrences -----

  function Firsts(xs: seq<string>): seq<string> {
    if xs == [] then []
    else
      var n := |xs| - 1;
      var before := Firsts(xs[..n]);
      if xs[n] in xs[..n] then before else before + [xs[n]]
  }

  /** x occurs before y does. */
  ghost predicate SeenBefore(xs: seq<string>, x: string, y: string) {
    exists k | 0 <= k < |xs| :: xs[k] == x && y !in xs[..k + 1]
  }

  /** Firsts keeps every element once, each at the rank of its first occurrence. */
  lemma {:induction false} FirstsIsDedup(xs: seq<string>)
    ensures forall x :: x in Firsts(xs) <==> x in xs
    ensures forall i, j | 0 <= i < j < |Firsts(xs)| :: Firsts(xs)[i] != Firsts(xs)[j]
    ensures forall i, j | 0 <= i < j < |Firsts(xs)| :: SeenBefore(xs, Firsts(xs)[i], Firsts(xs)[j])
  {
    if xs != [] {
      var n := |xs| - 1;
      var ys, before := Firsts(xs), Firsts(xs[..n]);
      FirstsIsDedup(xs[..n]);
      assert xs == xs[..n] + [xs[n]];
      forall i, j | 0 <= i < j < |ys| ensures SeenBefore(xs, ys[i], ys[j]) {
        if j < |before| {
          assert SeenBefore(xs[..n], before[i], before[j]);
          var k :| 0 <= k < |xs[..n]| && xs[..n][k] == before[i] && before[j] !in xs[..n][..k + 1];
          assert xs[..n][..k + 1] == xs[..k + 1];
        } else {
          assert before[i] in xs[..n];
          var k :| 0 <= k < n && xs[..n][k] == before[i];
          assert xs[..k + 1] == xs[..n][..k + 1];
          assert ys[j] == xs[n] && xs[n] !in xs[..k + 1];
        }
      }
    }
  }

  function Categories(findings: seq<Finding>): seq<string> { seq(|findings|, k requires 0 <= k < |findings| => findings[k].category) }

  function RuleNames(findings: seq<Finding>): seq<string> { seq(|findings|, k requires 0 <= k < |findings| => findings[k].rule) }

  function PairRules(pairs: seq<FindingPair>): seq<string> { seq(|pairs|, k requires 0 <= k < |pairs| => pairs[k].rule) }

  function PairCategories(pairs: seq<FindingPair>): seq<string> { seq(|pairs|, k requires 0 <= k < |pairs| => pairs[k].category) }

  /** The pairs, one for each first occurrence of a rule name. */
  function FirstPairs(findings: seq<Finding>): seq<FindingPair> {
    if findings == [] then []
    else
      var n := |findings| - 1;
      var before := FirstPairs(findings[..n]);
      if findings[n].rule in RuleNames(findings[..n]) then before
      else before + [FindingPair(findings[n].rule, findings[n].category)]
  }

  // ----- the three loops -----

  method FindingCategories(fs: seq<Finding>) returns (out: seq<string>)
    ensures out == Firsts(Categories(fs))
  {
    var seen: set<string> := {};
    out := [];
    for i := 0 to |fs|
      invariant out == Firsts(Categories(fs[..i])) && seen == set x | x in Categories(fs[..i])
    {
      CategoriesStep(fs, i);
      if fs[i].category in seen { continue; }
      seen := seen + {fs[i].category};
      out := out + [fs[i].category];
    }
    assert fs[..|fs|] == fs;
  }

  method FindingRules(fs: seq<Finding>) returns (out: seq<string>)
    ensures out == Firsts(RuleNames(fs))
  {
    var seen: set<string> := {};
    out := [];
    for i := 0 to |fs|
      invariant out == Firsts(RuleNames(fs[..i])) && seen == set x | x in RuleNames(fs[..i])
    {
      RuleNamesStep(fs, i);
      if fs[i].rule in seen { continue; }
      seen := seen + {fs[i].rule};
      out := out + [fs[i].rule];
    }
    assert fs[..|fs|] == fs;
  }

  method FindingPairs(fs: seq<Finding>) returns (out: seq<FindingPair>)
    ensures out == FirstPairs(fs)
  {
    var seen: set<string> := {};
    out := [];
    for i := 0 to |fs|
      invariant out == FirstPairs(fs[..i]) && seen == set x | x in RuleNames(fs[..i])
    {
      RuleNamesStep(fs, i);
      assert fs[..i + 1][..i] == fs[..i];
      if fs[i].rule in seen { continue; }
      seen := seen + {fs[i].rule};
      out := out + [FindingPair(fs[i].rule, fs[i].category)];
    }
    assert fs[..|fs|] == fs;
  }

  lemma CategoriesStep(fs: seq<Finding>, i: nat)
    requires i < |fs|
    ensures Categories(fs[..i + 1]) == Categories(fs[..i]) + [fs[i].category]
    ensures Firsts(Categories(fs[..i + 1])) == Firsts(Categories(fs[..i]))
            + if fs[i].category in Categories(fs[..i]) then [] else [fs[i].category]
  {
    var c := Categories(fs[..i + 1]);
    assert c == Categories(fs[..i]) + [fs[i].category];
    assert c[..i] == Categories(fs[..i]);
  }

  lemma RuleNamesStep(fs: seq<Finding>, i: nat)
    requires i < |fs|
    ensures RuleNames(fs[..i + 1]) == RuleNames(fs[..i]) + [fs[i].rule]
    ensures Firsts(RuleNames(fs[..i + 1])) == Firsts(RuleNames(fs[..i]))
            + if fs[i].rule in RuleNames(fs[..i]) then [] else [fs[i].rule]
  {
    var c := RuleNames(fs[..i + 1]);
    assert c == RuleNames(fs[..i]) + [fs[i].rule];
    assert c[..i] == RuleNames(fs[..i]);
  }

  // ----- the three lists agree -----

  /** Category is a function of rule. */
  ghost predicate Consistent(fs: seq<Finding>) {
    forall f <- fs, g <- fs | f.rule == g.rule :: f.category == g.category
  }

  lemma {:induction false} PairsProjectToRules(fs: seq<Finding>)
    ensures PairRules(FirstPairs(fs)) == Firsts(RuleNames(fs))
  {
    if fs != [] {
      var n := |fs| - 1;
      PairsProjectToRules(fs[..n]);
      RuleNamesStep(fs, n);
      assert fs[..n + 1] == fs;
    }
  }

  /** The pairs carry the category list, in its order. */
  lemma {:induction false} PairsProjectToCategories(fs: seq<Finding>)
    requires Consistent(fs)
    ensures Firsts(PairCategories(FirstPairs(fs))) == Firsts(Categories(fs))
  {
    if fs != [] {
      var n := |fs| - 1;
      var before := FirstPairs(fs[..n]);
      PairsProjectToCategories(fs[..n]);
      FirstsIsDedup(PairCategories(before));
      FirstsIsDedup(Categories(fs[..n]));
      CategoriesStep(fs, n);
      assert fs[..n + 1] == fs;
      if fs[n].rule in RuleNames(fs[..n]) {
        var k :| 0 <= k < n && RuleNames(fs[..n])[k] == fs[n].rule;
        assert Categories(fs[..n])[k] == fs[n].category;
      } else {
        var after := PairCategories(FirstPairs(fs));
        assert after == PairCategories(before) + [fs[n].category];
        assert after[..|before|] == PairCategories(before);
      }
    }
  }

  // ----- every request's findings are consistent -----

  ghost predicate Known(table: seq<Rule>, f: Finding) {
    || (f.rule == Classifier && f.category == "injection")
    || exists r <- table :: r.name == f.rule && r.category == f.category
  }

  lemma {:induction false} ScanIsKnown(rules: seq<Rule>, table: seq<Rule>, category: string, text: string)
    requires AllConsume(rules) && forall r <- rules :: r in table
    ensures forall f <- ScanWith(rules, category, text).findings :: Known(table, f)
    decreases |rules|
  {
    if rules != [] {
      assert rules[0] in rules;
      ScanIsKnown(rules[1..], table, category, if rules[0].category == category then Pass(rules[0], text).redacted else text);
    }
  }

  lemma {:induction false} LoopIsKnown(table: seq<Rule>, categories: seq<string>, replies: seq<Inference>, text: string)
    requires AllConsume(table) && |replies| == |categories|
    ensures forall f <- LoopOver(table, categories, replies, text).findings :: Known(table, f)
    decreases |categories|
  {
    if categories != [] {
      if IsScanned(categories[0]) { ScanIsKnown(table, table, categories[0], text); }
      LoopIsKnown(table, categories[1..], replies[1..], Visit(table, categories[0], replies[0], text).redacted);
    }
  }

  lemma LoopIsConsistent(table: seq<Rule>, categories: seq<string>, replies: seq<Inference>, text: string)
    requires SafeTable(table) && |replies| == |categories| && forall r <- table :: r.name != Classifier
    ensures Consistent(LoopOver(table, categories, replies, text).findings)
  {
    LoopIsKnown(table, categories, replies, text);
  }

  lemma ClassifierIsNoPattern()
    ensures forall r <- Rules :: r.name != Classifier
  {}

  // ----- the wire -----

  /** What publish writes into finding_rule_pairs. */
  function Tuple(p: FindingPair): string { p.rule + ":" + p.category }

  function EncodePairs(pairs: seq<FindingPair>): string {
    Join(seq(|pairs|, k requires 0 <= k < |pairs| => Tuple(pairs[k])), ',')
  }

  /** The reader's side: comma-separated, each cut at its first colon. */
  function DecodePair(s: string): FindingPair {
    var parts := Split(s, ':');
    FindingPair(parts[0], Join(parts[1..], ':'))
  }

  function DecodePairs(s: string): seq<FindingPair> {
    if s == "" then []
    else
      var parts := Split(s, ',');
      seq(|parts|, k requires 0 <= k < |parts| => DecodePair(parts[k]))
  }

  /** On the wire: rule, colon, category, with commas between the pairs. */
  lemma WireForm(p: FindingPair, rest: seq<FindingPair>)
    ensures EncodePairs([p]) == p.rule + ":" + p.category
    ensures rest != [] ==> EncodePairs([p] + rest) == p.rule + ":" + p.category + "," + EncodePairs(rest)
  {
    hide Join, Tuple;
    var all := seq(|[p] + rest|, k requires 0 <= k < |[p] + rest| => Tuple(([p] + rest)[k]));
    var others := seq(|rest|, k requires 0 <= k < |rest| => Tuple(rest[k]));
    assert all == [Tuple(p)] + others;
    assert seq(|[p]|, k requires 0 <= k < |[p]| => Tuple([p][k])) == [Tuple(p)];
    JoinStep(Tuple(p), others, ',');
    TupleForm(p);
  }

  lemma TupleForm(p: FindingPair) ensures Tuple(p) == p.rule + ":" + p.category {}

  predicate Plain(p: FindingPair) {
    ':' !in p.rule && ',' !in p.rule && ',' !in p.category
  }

  lemma TupleRoundTrip(p: FindingPair)
    requires ':' !in p.rule
    ensures DecodePair(Tuple(p)) == p
  {
    SplitAtSeparator(p.rule, p.category, ':');
    assert p.rule + [':'] + p.category == Tuple(p);
    assert ([p.rule] + Split(p.category, ':'))[1..] == Split(p.category, ':');
    JoinUndoesSplit(p.category, ':');
  }

  lemma PairsRoundTrip(pairs: seq<FindingPair>)
    requires forall p <- pairs :: Plain(p)
    ensures DecodePairs(EncodePairs(pairs)) == pairs
  {
    if pairs != [] {
      var parts := seq(|pairs|, k requires 0 <= k < |pairs| => Tuple(pairs[k]));
      forall p <- parts ensures ',' !in p {
        var k :| 0 <= k < |pairs| && parts[k] == p;
        assert Plain(pairs[k]);
      }
      SplitUndoesJoin(parts, ',');
      assert |Join(parts, ',')| >= |parts[0]| >= 1;
      forall k | 0 <= k < |pairs| ensures DecodePair(parts[k]) == pairs[k] {
        assert Plain(pairs[k]);
        TupleRoundTrip(pairs[k]);
      }
    }
  }

  /** The facts the wire format rests on: rule names and categories hold no separator, and the
      classifier's name is no pattern's. */
  ghost predicate WireReady(table: seq<Rule>) {
    forall r <- table :: r.name != Classifier && PlainName(r.name) && PlainName(r.category)
  }

  predicate PlainName(s: string) { ':' !in s && ',' !in s }

  lemma {:induction false} PairsAreFindings(fs: seq<Finding>)
    ensures forall p <- FirstPairs(fs) :: exists f <- fs :: p == FindingPair(f.rule, f.category)
  {
    if fs != [] {
      PairsAreFindings(fs[..|fs| - 1]);
    }
  }

  /** What the aggregator decodes for any request is its pairs, and from them alone it has the
      request's rules and categories in their order. */
  lemma WireKeepsEverything(table: seq<Rule>, categories: seq<string>, replies: seq<Inference>, text: string)
    requires SafeTable(table) && WireReady(table) && |replies| == |categories|
    ensures var fs := LoopOver(table, categories, replies, text).findings;
            var got := DecodePairs(EncodePairs(FirstPairs(fs)));
            && got == FirstPairs(fs)
            && PairRules(got) == Firsts(RuleNames(fs))
            && Firsts(PairCategories(got)) == Firsts(Categories(fs))
  {
    var fs := LoopOver(table, categories, replies, text).findings;
    LoopIsKnown(table, categories, replies, text);
    LoopIsConsistent(table, categories, replies, text);
    PairsProjectToRules(fs);
    PairsProjectToCategories(fs);
    PairsAreFindings(fs);
    ClassifierIsPlain();
    assert forall p <- FirstPairs(fs) :: Plain(p);
    PairsRoundTrip(FirstPairs(fs));
  }

  lemma ClassifierIsPlain()
    ensures PlainName(Classifier) && PlainName("injection")
  {}

  lemma CatalogueIsWireReady()
    ensures WireReady(Rules)
  {
    ClassifierIsNoPattern();
    SecretNamesArePlain();
    PiiNamesArePlain();
  }

  lemma SecretNamesArePlain()
    ensures forall k | 0 <= k < 6 :: PlainName(Rules[k].name) && PlainName(Rules[k].category)
  {
    PlainSecrets();
  }

  lemma PlainSecrets()
    ensures PlainName("private_key") && PlainName("jwt") && PlainName("aws_access_key") && PlainName("openai_key")
    ensures PlainName("anthropic_key") && PlainName("github_pat") && PlainName("secrets")
  {
    PlainTokens();
  }

  lemma PlainTokens()
    ensures PlainName("jwt") && PlainName("aws_access_key") && PlainName("openai_key")
  {}

  lemma PiiNamesArePlain()
    ensures forall k | 6 <= k < 13 :: PlainName(Rules[k].name) && PlainName(Rules[k].category)
  {
    PlainPii();
  }

  lemma PlainPii()
    ensures PlainName("email") && PlainName("iban") && PlainName("nir_fr") && PlainName("ssn_us")
    ensures PlainName("credit_card") && PlainName("phone_fr") && PlainName("phone_intl") && PlainName("pii")
  {}

  /** So it is with the real catalogue, for every request. */
  lemma RequestsKeepEverything(categories: seq<string>, replies: seq<Inference>, text: string)
    requires |replies| == |categories|
    ensures AllConsume(Rules)
    ensures var fs := LoopOver(Rules, categories, replies, text).findings;
            var got := DecodePairs(EncodePairs(FirstPairs(fs)));
            && got == FirstPairs(fs)
            && PairRules(got) == Firsts(RuleNames(fs))
            && Firsts(PairCategories(got)) == Firsts(Categories(fs))
  {
    hide SafeTable, WireReady, LoopOver;
    CatalogueIsSafe();
    CatalogueIsWireReady();
    assert AllConsume(Rules) by { ConsumesAll(Rules); }
    WireKeepsEverything(Rules, categories, replies, text);
  }
}
