/** A rule whose matches are all matches of the rule scanned just before it never fires. */
module Shadowing {
  import opened Wrappers
  import opened Regex
  import opened RuleTable
  import opened Redaction
  import opened Simultaneous
  import opened PassProperties
  import opened Undo

  ghost predicate Subsumes(p: Regex, q: Regex) {
    forall s, i, j | 0 <= i <= j <= |s| && Matches(q, s, i, j) :: Matches(p, s, i, j)
  }

  lemma {:induction false} ShadowedRuleNeverFires(table: seq<Rule>, i: nat, k: nat, category: string, text: string)
    requires i <= k && k + 1 < |table| && SafeTable(table) && AllConsume(table[i..])
    requires table[k].category == table[k + 1].category && Subsumes(table[k].pattern, table[k + 1].pattern)
    ensures forall f <- ScanWith(table[i..], category, text).findings :: f.rule != table[k + 1].name
    decreases k - i
  {
    assert table[i..][0] == table[i] && table[i..][1..] == table[i + 1..];
    var mid := if table[i].category == category then Pass(table[i], text).redacted else text;
    PassIsUndone(table, i, text);
    if i < k {
      ShadowedRuleNeverFires(table, i + 1, k, category, mid);
    } else {
      assert table[i + 1..][0] == table[i + 1] && table[i + 1..][1..] == table[i + 2..];
      if table[i].category == category {
        PassLeavesNoMatch(table[i], table, text);
        NothingToFind(table[k + 1].pattern, mid);
        assert Pass(table[k + 1], mid).redacted == mid;
      }
      NamesOf(table, k + 2, category, mid);
    }
  }

  lemma AntPrefix(s: string, a: nat, b: nat)
    requires a <= b <= |s| && s[a..b] == "sk-ant-"
    ensures b == a + 7 && s[a..a + 3] == "sk-" && forall d | a + 3 <= d < b :: Has(Token, s[d])
  {
    assert s[a..a + 3] == s[a..b][..3];
    assert forall d | a + 3 <= d < b :: s[d] == s[a..b][d - a];
  }

  lemma OpenaiSubsumesAnthropic()
    ensures Subsumes(OpenaiKey, AnthropicKey)
  {
    forall s, i, j | 0 <= i <= j <= |s| && Matches(AnthropicKey, s, i, j) ensures Matches(OpenaiKey, s, i, j) {
      AnthropicIsOpenai(s, i, j);
    }
  }

  lemma AnthropicParts(s: string, i: nat, j: nat) returns (a: nat, b: nat, c: nat)
    requires i <= j <= |s| && Matches(AnthropicKey, s, i, j)
    ensures i <= a <= b <= c <= j && Matches(Boundary, s, i, a) && s[a..b] == "sk-ant-"
    ensures MatchesRepeat(Char(Token), 20, None, s, b, c) && Matches(Boundary, s, c, j)
  {
    hide MatchesRepeat, AtBoundary;
    a :| i <= a <= j && Matches(Boundary, s, i, a) && Matches(AnthropicKey.second, s, a, j);
    b :| a <= b <= j && Matches(Text("sk-ant-"), s, a, b) && Matches(AnthropicKey.second.second, s, b, j);
    c :| b <= c <= j && Matches(AtLeast(Char(Token), 20), s, b, c) && Matches(Boundary, s, c, j);
  }

  lemma AnthropicIsOpenai(s: string, i: nat, j: nat)
    requires i <= j <= |s| && Matches(AnthropicKey, s, i, j)
    ensures Matches(OpenaiKey, s, i, j)
  {
    hide MatchesRepeat, AtBoundary, Has;
    var a, b, c := AnthropicParts(s, i, j);
    AntPrefix(s, a, b);
    RunOfClass(Token, 20, s, b, c);
    RunOfClass(Token, 20, s, a + 3, c);
    Together(s, i, a, c, j, AtLeast(Char(Token), 20));
  }

  lemma Together(s: string, i: nat, a: nat, c: nat, j: nat, run: Regex)
    requires i <= a <= c <= j <= |s| && a + 3 <= c
    requires Matches(Boundary, s, i, a) && Matches(Text("sk-"), s, a, a + 3) && Matches(run, s, a + 3, c) && Matches(Boundary, s, c, j)
    ensures Matches(Cat(Boundary, Cat(Text("sk-"), Cat(run, Boundary))), s, i, j)
  {
    assert Matches(Cat(run, Boundary), s, a + 3, j);
    assert Matches(Cat(Text("sk-"), Cat(run, Boundary)), s, a, j);
  }

  /** anthropic_key stands right after openai_key, which takes every match it could have:
      no text whatever yields an anthropic_key finding. */
  lemma AnthropicKeyNeverFires(table: seq<Rule>, k: nat, category: string, text: string)
    requires SafeTable(table) && k + 1 < |table|
    requires table[k] == OpenaiKeyRule && table[k + 1] == AnthropicKeyRule
    ensures forall f <- ScanWith(table, category, text).findings :: f.rule != "anthropic_key"
  {
    OpenaiSubsumesAnthropic();
    assert table[0..] == table;
    ShadowedRuleNeverFires(table, 0, k, category, text);
  }

  lemma AnthropicFollowsOpenai()
    ensures |Rules| > 4 && Rules[3] == OpenaiKeyRule && Rules[4] == AnthropicKeyRule
  {}

  lemma AnthropicKeyIsDead(category: string, text: string)
    ensures AllConsume(Rules)
    ensures forall f <- ScanWith(Rules, category, text).findings :: f.rule != "anthropic_key"
  {
    CatalogueIsSafe();
    AnthropicFollowsOpenai();
    AnthropicKeyNeverFires(Rules, 3, category, text);
  }
}
