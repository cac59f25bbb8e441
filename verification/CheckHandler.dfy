/** handleCheck from the parsed request to the verdict: the category loop, the verdict loop. */
module CheckHandler {
  import opened RuleTable
  import opened Redaction
  import opened Simultaneous
  import opened PassProperties
  import opened Undo
  import opened Strings

  /** What the inference service may answer: a score, or any kind of failure. */
  datatype Inference = Score(value: real) | Failed

  datatype Response = TextRequired | Checked(allowed: bool, action: string, findings: seq<Finding>, redacted: string, degraded: seq<string>)

  const Classifier := "ml_injection_classifier"

  function InjectionFindings(score: real): seq<Finding> {
    if score < 0.5 then [] else [Finding("injection", Classifier, if score > 0.8 then High else Medium, "", 0, 0)]
  }

  function Requested(categories: seq<string>): seq<string> {
    if categories == [] then ["pii", "secrets", "injection"] else categories
  }

  datatype Looped = Looped(findings: seq<Finding>, redacted: string, degraded: seq<string>)

  /** One turn of the category loop; reply is the service's answer if the category asks for one.
      A category with no case in the switch is skipped. */
  function Visit(table: seq<Rule>, category: string, reply: Inference, text: string): Looped
    requires AllConsume(table)
  {
    if IsScanned(category) then
      var scan := ScanWith(table, category, text);
      Looped(scan.findings, scan.redacted, [])
    else if category == "injection" then
      match reply
      case Score(v) => Looped(InjectionFindings(v), text, [])
      case Failed => Looped([], text, ["injection"])
    else Looped([], text, [])
  }

  /** The category loop. */
  function LoopOver(table: seq<Rule>, categories: seq<string>, replies: seq<Inference>, text: string): Looped
    requires AllConsume(table) && |replies| == |categories|
  {
    if categories == [] then Looped([], text, [])
    else
      var first := Visit(table, categories[0], replies[0], text);
      var rest := LoopOver(table, categories[1..], replies[1..], first.redacted);
      Looped(first.findings + rest.findings, rest.redacted, first.degraded + rest.degraded)
  }

  predicate IsScanned(category: string) { category == "pii" || category == "secrets" }

  ghost predicate AnyHigh(findings: seq<Finding>) {
    exists f <- findings :: f.severity == High
  }

  ghost predicate AnyScanned(findings: seq<Finding>) {
    exists f <- findings :: IsScanned(f.category)
  }

  /** The action depends on which findings there are, not on their order. */
  ghost function ActionFor(findings: seq<Finding>): string {
    if AnyHigh(findings) then "block" else if AnyScanned(findings) then "redact" else "allow"
  }

  lemma ActionIgnoresOrder(a: seq<Finding>, b: seq<Finding>)
    requires multiset(a) == multiset(b)
    ensures ActionFor(a) == ActionFor(b)
  {
    forall f ensures f in a <==> f in b {
      assert f in multiset(a) <==> f in multiset(b);
    }
  }

  method Verdict(findings: seq<Finding>) returns (action: string, allowed: bool)
    ensures allowed <==> !AnyHigh(findings)
    ensures action == ActionFor(findings)
  {
    action, allowed := "allow", true;
    for i := 0 to |findings|
      invariant allowed && !AnyHigh(findings[..i])
      invariant action == if AnyScanned(findings[..i]) then "redact" else "allow"
    {
      var f := findings[i];
      assert findings[..i + 1] == findings[..i] + [f];
      if f.severity == High {
        assert f in findings;
        action, allowed := "block", false;
        return;
      }
      if IsScanned(f.category) && action == "allow" {
        assert f in findings[..i + 1];
        action := "redact";
      }
    }
    assert findings[..|findings|] == findings;
  }

  method VisitCategory(table: seq<Rule>, category: string, reply: Inference, text: string)
      returns (findings: seq<Finding>, redacted: string, degraded: seq<string>)
    requires AllConsume(table)
    ensures Looped(findings, redacted, degraded) == Visit(table, category, reply, text)
  {
    findings, redacted, degraded := [], text, [];
    match category
    case "pii" => findings, redacted := ScanCategory(table, text, "pii");
    case "secrets" => findings, redacted := ScanCategory(table, text, "secrets");
    case "injection" =>
      match reply {
        case Failed => degraded := ["injection"];
        case Score(v) => findings := InjectionFindings(v);
      }
    case _ =>
  }

  method RunCategories(table: seq<Rule>, cats: seq<string>, replies: seq<Inference>, text: string)
      returns (findings: seq<Finding>, redacted: string, degraded: seq<string>)
    requires AllConsume(table) && |replies| == |cats|
    ensures Looped(findings, redacted, degraded) == LoopOver(table, cats, replies, text)
  {
    findings, redacted, degraded := [], text, [];
    ghost var goal := LoopOver(table, cats, replies, text);
    for i := 0 to |cats|
      invariant var rest := LoopOver(table, cats[i..], replies[i..], redacted);
                && goal.findings == findings + rest.findings && goal.redacted == rest.redacted
                && goal.degraded == degraded + rest.degraded
    {
      assert cats[i..][0] == cats[i] && cats[i..][1..] == cats[i + 1..];
      assert replies[i..][0] == replies[i] && replies[i..][1..] == replies[i + 1..];
      var f, red, d := VisitCategory(table, cats[i], replies[i], redacted);
      findings, redacted, degraded := findings + f, red, degraded + d;
    }
  }

  method HandleCheck(table: seq<Rule>, text: string, categories: seq<string>, replies: seq<Inference>) returns (r: Response)
    requires AllConsume(table) && |replies| == |Requested(categories)|
    ensures r.TextRequired? <==> forall k | 0 <= k < |text| :: IsBlank(text[k])
    ensures r.Checked? ==>
              && Looped(r.findings, r.redacted, r.degraded)
                 == LoopOver(table, if |categories| == 0 then ["pii", "secrets", "injection"] else categories, replies, text)
              && (r.allowed <==> !AnyHigh(r.findings))
              && r.action == ActionFor(r.findings)
  {
    TrimSpaceMeans(text);
    if TrimSpace(text) == "" { return TextRequired; }
    var cats := Requested(categories);
    var findings, redacted, degraded := RunCategories(table, cats, replies, text);
    var action, allowed := Verdict(findings);
    return Checked(allowed, action, findings, redacted, degraded);
  }

  // ----- the loop against the chain of scans -----

  function ScannedOnly(categories: seq<string>): seq<string> {
    if categories == [] then []
    else (if IsScanned(categories[0]) then [categories[0]] else []) + ScannedOnly(categories[1..])
  }

  function FromScan(f: Finding): seq<Finding> { if IsScanned(f.category) then [f] else [] }

  function FromScans(findings: seq<Finding>): seq<Finding> {
    if findings == [] then [] else FromScan(findings[0]) + FromScans(findings[1..])
  }

  lemma {:induction false} FromScansAppend(a: seq<Finding>, b: seq<Finding>)
    ensures FromScans(a + b) == FromScans(a) + FromScans(b)
  {
    hide FromScan;
    if a == [] {
      assert a + b == b;
    } else {
      assert (a + b)[0] == a[0] && (a + b)[1..] == a[1..] + b;
      FromScansAppend(a[1..], b);
      assert (FromScan(a[0]) + FromScans(a[1..])) + FromScans(b) == FromScan(a[0]) + (FromScans(a[1..]) + FromScans(b));
    }
  }

  lemma {:induction false} FromScansKeeps(a: seq<Finding>)
    requires forall f <- a :: IsScanned(f.category)
    ensures FromScans(a) == a
  {
    if a != [] { FromScansKeeps(a[1..]); }
  }

  lemma {:induction false} ScanCategories(table: seq<Rule>, category: string, text: string)
    requires AllConsume(table)
    ensures forall f <- ScanWith(table, category, text).findings :: f.category == category
  {
    if table != [] {
      if table[0].category == category {
        ScanCategories(table[1..], category, Pass(table[0], text).redacted);
      } else {
        ScanCategories(table[1..], category, text);
      }
    }
  }

  /** The pii and secrets findings and the redacted text are those of the chain of scans:
      what the classifier answers, and unknown categories, do not touch them. */
  lemma {:induction false} LoopIsChain(table: seq<Rule>, categories: seq<string>, replies: seq<Inference>, text: string)
    requires AllConsume(table) && |replies| == |categories|
    ensures var loop := LoopOver(table, categories, replies, text);
            ScanChain(table, ScannedOnly(categories), text) == Scan(FromScans(loop.findings), loop.redacted)
  {
    if categories != [] {
      var c := categories[0];
      var first := Visit(table, c, replies[0], text);
      var rest := LoopOver(table, categories[1..], replies[1..], first.redacted);
      LoopIsChain(table, categories[1..], replies[1..], first.redacted);
      FromScansAppend(first.findings, rest.findings);
      if IsScanned(c) {
        ScanCategories(table, c, text);
        FromScansKeeps(first.findings);
        assert ([c] + ScannedOnly(categories[1..]))[1..] == ScannedOnly(categories[1..]);
      } else {
        FromScansEmpty(first.findings);
        assert FromScans(first.findings) == [];
        assert ScannedOnly(categories) == ScannedOnly(categories[1..]);
        assert FromScans(first.findings + rest.findings) == FromScans(rest.findings);
      }
    }
  }

  lemma {:induction false} FromScansEmpty(findings: seq<Finding>)
    ensures FromScans(findings) == [] <==> !AnyScanned(findings)
  {
    if findings != [] {
      FromScansEmpty(findings[1..]);
      assert findings == [findings[0]] + findings[1..];
    }
  }

  /** End to end: the returned text is one substitution on the request's text, made exactly at
      the pii and secrets findings; it differs from the request's text iff there are any. */
  lemma CheckedTextIsOneSubstitution(table: seq<Rule>, categories: seq<string>, replies: seq<Inference>, text: string)
    requires SafeTable(table) && |replies| == |categories|
    ensures var loop := LoopOver(table, categories, replies, text);
            && OneSubstitution(text, loop.redacted, multiset(Pairs(table, FromScans(loop.findings))))
            && Opens(loop.redacted) == Opens(text) + |FromScans(loop.findings)|
            && (loop.redacted != text <==> AnyScanned(loop.findings))
  {
    var loop := LoopOver(table, categories, replies, text);
    LoopIsChain(table, categories, replies, text);
    ChainIsOneSubstitution(table, ScannedOnly(categories), text);
    FindingsAreBrackets(table, ScannedOnly(categories), text);
    FromScansEmpty(loop.findings);
    if FromScans(loop.findings) == [] {
      NoFindingsNoChange(table, ScannedOnly(categories), text);
    }
  }

  lemma {:induction false} NoFindingsNoChange(table: seq<Rule>, categories: seq<string>, text: string)
    requires SafeTable(table) && ScanChain(table, categories, text).findings == []
    ensures ScanChain(table, categories, text).redacted == text
  {
    var cells := Unredacted(text);
    var after := ChainKeepsCells(cells, categories, table);
    NoHoles(after);
  }

  lemma {:induction false} NoHoles(cells: seq<Cell>)
    requires Holes(cells) == multiset{}
    ensures Out(cells) == Orig(cells)
  {
    if cells != [] { NoHoles(cells[1..]); }
  }

  /** The verdict and the text agree: an allowed-as-is text is unchanged, and short of a block
      "redact" is answered iff the text changed. */
  lemma VerdictAgreesWithText(table: seq<Rule>, categories: seq<string>, replies: seq<Inference>, text: string)
    requires SafeTable(table) && |replies| == |categories|
    ensures var loop := LoopOver(table, categories, replies, text); var action := ActionFor(loop.findings);
            && (action == "allow" ==> loop.redacted == text)
            && (action != "block" ==> (action == "redact" <==> loop.redacted != text))
            && (action == "block" <==> AnyHigh(loop.findings))
  {
    CheckedTextIsOneSubstitution(table, categories, replies, text);
  }

  /** Nothing is lost: the request's text can be put together again from the response alone, whatever the
      categories asked for and however often. */
  lemma ResponseIsReversible(table: seq<Rule>, categories: seq<string>, replies: seq<Inference>, text: string)
    requires SafeTable(table) && |replies| == |categories|
    ensures var loop := LoopOver(table, categories, replies, text);
            Undone(table, FromScans(loop.findings), loop.redacted) == text
  {
    hide LoopOver, Undone, ScanChain, SafeTable;
    assert AllConsume(table) by { ConsumesAll(table); }
    LoopIsChain(table, categories, replies, text);
    ChainIsReversible(table, ScannedOnly(categories), text);
  }

  lemma {:induction false} ChainIsQuietIffClean(table: seq<Rule>, categories: seq<string>, text: string)
    requires AllConsume(table)
    ensures ScanChain(table, categories, text).findings == [] <==> forall c <- categories :: Clean(table, c, text)
    decreases |categories|
  {
    hide Clean, ScanWith;
    if categories != [] {
      assert categories == [categories[0]] + categories[1..];
      QuietIffClean(table, categories[0], text);
      ChainIsQuietIffClean(table, categories[1..], ScanWith(table, categories[0], text).redacted);
    }
  }

  lemma {:induction false} ScannedOnlyKeeps(categories: seq<string>)
    ensures forall c :: c in ScannedOnly(categories) <==> c in categories && IsScanned(c)
  {
    if categories != [] {
      ScannedOnlyKeeps(categories[1..]);
      assert categories == [categories[0]] + categories[1..];
    }
  }

  /** Nothing is missed: the text is answered unchanged iff no rule of a requested category matches
      anywhere in it. */
  lemma UnchangedIffClean(table: seq<Rule>, categories: seq<string>, replies: seq<Inference>, text: string)
    requires SafeTable(table) && |replies| == |categories|
    ensures LoopOver(table, categories, replies, text).redacted == text
            <==> forall c <- categories | IsScanned(c) :: Clean(table, c, text)
  {
    hide Clean, ScanChain, OneSubstitution, Pairs;
    LoopIsChain(table, categories, replies, text);
    CheckedTextIsOneSubstitution(table, categories, replies, text);
    FromScansEmpty(LoopOver(table, categories, replies, text).findings);
    ChainIsQuietIffClean(table, ScannedOnly(categories), text);
    ScannedOnlyKeeps(categories);
  }

  // ----- what the classifier's answers come to -----

  /** The k-th category asks the classifier, and it answers with a score that q holds of. */
  ghost predicate Scored(categories: seq<string>, replies: seq<Inference>, k: nat, q: real -> bool) {
    && k < |categories| == |replies| && categories[k] == "injection" && replies[k].Score? && q(replies[k].value)
  }

  ghost predicate SomeScored(categories: seq<string>, replies: seq<Inference>, q: real -> bool) {
    exists k :: Scored(categories, replies, k, q)
  }

  predicate Suspicious(v: real) { v >= 0.5 }

  predicate Grave(v: real) { v > 0.8 }

  /** How often the classifier was asked and failed. */
  function Failures(categories: seq<string>, replies: seq<Inference>): nat
    requires |replies| == |categories|
  {
    if categories == [] then 0
    else (if categories[0] == "injection" && replies[0].Failed? then 1 else 0) + Failures(categories[1..], replies[1..])
  }

  ghost predicate IsInjection(f: Finding, s: Severity) {
    f == Finding("injection", "ml_injection_classifier", s, "", 0, 0)
  }

  lemma ScoredStep(categories: seq<string>, replies: seq<Inference>, q: real -> bool)
    requires |replies| == |categories| > 0
    ensures SomeScored(categories, replies, q)
            <==> Scored(categories, replies, 0, q) || SomeScored(categories[1..], replies[1..], q)
  {
    if k: nat :| Scored(categories, replies, k, q) {
      if k > 0 { assert Scored(categories[1..], replies[1..], k - 1, q); }
    }
    if k: nat :| Scored(categories[1..], replies[1..], k, q) { assert Scored(categories, replies, k + 1, q); }
  }

  /** One turn: a score of 0.5 or more is a finding, high above 0.8; a failure is a degradation; nothing else is either. */
  lemma TurnHearsClassifier(table: seq<Rule>, category: string, reply: Inference, text: string)
    requires AllConsume(table)
    ensures var turn := Visit(table, category, reply, text);
            && (category == "injection" ==> turn.redacted == text)
            && (forall f <- turn.findings | f.category == "injection" :: IsInjection(f, High) || IsInjection(f, Medium))
            && ((exists f <- turn.findings :: f.category == "injection") <==> category == "injection" && reply.Score? && Suspicious(reply.value))
            && ((exists f <- turn.findings :: IsInjection(f, High)) <==> category == "injection" && reply.Score? && Grave(reply.value))
            && turn.degraded == if category == "injection" && reply.Failed? then ["injection"] else []
  {
    hide ScanWith;
    if IsScanned(category) { ScanCategories(table, category, text); }
    if category == "injection" && reply.Score? && reply.value >= 0.5 {
      assert Visit(table, category, reply, text).findings[0] in Visit(table, category, reply, text).findings;
    }
  }

  /** Over the whole request: an injection finding iff some score is 0.5 or more, a high one iff some score is above 0.8,
      and one degradation for each failed call. */
  lemma {:induction false} ClassifierIsHeard(table: seq<Rule>, categories: seq<string>, replies: seq<Inference>, text: string)
    requires AllConsume(table) && |replies| == |categories|
    ensures var loop := LoopOver(table, categories, replies, text);
            && (forall f <- loop.findings | f.category == "injection" :: IsInjection(f, High) || IsInjection(f, Medium))
            && ((exists f <- loop.findings :: f.category == "injection") <==> SomeScored(categories, replies, Suspicious))
            && ((exists f <- loop.findings :: IsInjection(f, High)) <==> SomeScored(categories, replies, Grave))
            && |loop.degraded| == Failures(categories, replies) && forall d <- loop.degraded :: d == "injection"
    decreases |categories|
  {
    hide Visit, AllConsume, SomeScored, IsInjection;
    if categories == [] {
      NoneScored(replies);
    } else {
      var first := Visit(table, categories[0], replies[0], text);
      var rest := LoopOver(table, categories[1..], replies[1..], first.redacted);
      TurnHearsClassifier(table, categories[0], replies[0], text);
      ClassifierIsHeard(table, categories[1..], replies[1..], first.redacted);
      ScoredStep(categories, replies, Suspicious);
      ScoredStep(categories, replies, Grave);
      assert forall f :: f in first.findings + rest.findings <==> f in first.findings || f in rest.findings;
    }
  }

  lemma NoneScored(replies: seq<Inference>)
    ensures !SomeScored([], replies, Suspicious) && !SomeScored([], replies, Grave)
  {}
}
