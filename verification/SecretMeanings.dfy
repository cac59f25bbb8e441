/** What the patterns for secrets match, said without regular expressions. */
module SecretMeanings {
  import opened Regex
  import opened RuleTable
  import opened PatternMeanings

  predicate IsTokenChar(c: char) { IsWord(c) || c == '-' }

  // ----- private_key: one of six header lines -----

  const KeyKinds: seq<string> := ["RSA ", "EC ", "DSA ", "OPENSSH ", "PGP ", ""]

  ghost predicate IsPrivateKey(s: string, i: nat, j: nat)
    requires i <= j <= |s|
  {
    exists kind <- KeyKinds :: s[i..j] == "-----BEGIN " + kind + "PRIVATE KEY-----"
  }

  lemma KeyKindMeans(s: string, i: nat, j: nat)
    requires i <= j <= |s|
    ensures Matches(KeyKind, s, i, j) <==> s[i..j] in KeyKinds
  {
    hide Matches;
    var r1 := KeyKind.second;
    var r2 := r1.second;
    var r3 := r2.second;
    var r4 := r3.second;
    Either(Text("RSA "), r1, s, i, j);
    Either(Text("EC "), r2, s, i, j);
    Either(Text("DSA "), r3, s, i, j);
    Either(Text("OPENSSH "), r4, s, i, j);
    Either(Text("PGP "), Empty, s, i, j);
    TextMeans("RSA ", s, i, j);
    TextMeans("EC ", s, i, j);
    TextMeans("DSA ", s, i, j);
    TextMeans("OPENSSH ", s, i, j);
    TextMeans("PGP ", s, i, j);
    EmptyMeans(s, i, j);
  }

  lemma EmptyMeans(s: string, i: nat, j: nat)
    requires i <= j <= |s|
    ensures Matches(Empty, s, i, j) <==> s[i..j] == ""
  {}

  /** A fixed head and a fixed foot around one of some words. */
  lemma FramedMeans(head: string, re: Regex, foot: string, words: seq<string>, s: string, i: nat, j: nat)
    requires i <= j <= |s|
    requires forall a, b | i <= a <= b <= j :: Matches(re, s, a, b) <==> s[a..b] in words
    ensures Matches(Cat(Text(head), Cat(re, Text(foot))), s, i, j) <==> exists w <- words :: s[i..j] == head + w + foot
  {
    hide Matches;
    var rest := Cat(re, Text(foot));
    TextFirst(head, rest, s, i, j);
    if Matches(Cat(Text(head), rest), s, i, j) {
      var a := i + |head|;
      var b := Apart(re, Text(foot), s, a, j);
      TextMeans(foot, s, b, j);
      ThreePieces(s, i, a, b, j);
    }
    if w :| w in words && s[i..j] == head + w + foot {
      FrameIsRead(head, re, w, foot, s, i, j);
    }
  }

  lemma FrameIsRead(head: string, re: Regex, w: string, foot: string, s: string, i: nat, j: nat)
    requires i <= j <= |s| && s[i..j] == head + w + foot
    requires forall a, b | i <= a <= b <= j && s[a..b] == w :: Matches(re, s, a, b)
    ensures Matches(Cat(Text(head), Cat(re, Text(foot))), s, i, j)
  {
    hide Matches;
    var a := i + |head|;
    var b := a + |w|;
    ThreePieces(s, i, a, b, j);
    SamePieces(s[i..a], s[a..b], s[b..j], head, w, foot);
    TextMeans(foot, s, b, j);
    Join(re, Text(foot), s, a, b, j);
    TextFirst(head, Cat(re, Text(foot)), s, i, j);
  }

  lemma PrivateKeyMeans(s: string, i: nat, j: nat)
    requires i <= j <= |s|
    ensures Matches(PrivateKey, s, i, j) <==> IsPrivateKey(s, i, j)
  {
    hide Matches;
    forall a, b | i <= a <= b <= j ensures Matches(KeyKind, s, a, b) <==> s[a..b] in KeyKinds { KeyKindMeans(s, a, b); }
    FramedMeans("-----BEGIN ", KeyKind, "PRIVATE KEY-----", KeyKinds, s, i, j);
  }

  // ----- jwt: three runs, the first two with their first letters -----

  ghost predicate JwtCut(s: string, i: nat, a: nat, b: nat, j: nat) {
    && i + 13 <= a && a + 14 <= b && b + 11 <= j <= |s|
    && s[i..i + 3] == "eyJ" && All(IsTokenChar, s, i + 3, a)
    && s[a..a + 4] == ".eyJ" && All(IsTokenChar, s, a + 4, b)
    && s[b] == '.' && All(IsTokenChar, s, b + 1, j)
  }

  ghost predicate IsJwt(s: string, i: nat, j: nat)
    requires i <= j <= |s|
  {
    Edge(s, i) && Edge(s, j) && exists a: nat, b: nat :: JwtCut(s, i, a, b, j)
  }

  lemma JwtMeans(s: string, i: nat, j: nat)
    requires i <= j <= |s|
    ensures Matches(Jwt, s, i, j) <==> IsJwt(s, i, j)
  {
    hide Matches, Edge, JwtCut;
    if Matches(Jwt, s, i, j) { JwtReads(s, i, j); }
    if IsJwt(s, i, j) {
      var a: nat, b: nat :| JwtCut(s, i, a, b, j);
      JwtIsRead(s, i, a, b, j);
    }
  }

  lemma TokenRun(s: string, i: nat, j: nat)
    requires i <= j <= |s|
    ensures Matches(AtLeast(Char(Token), 10), s, i, j) <==> j - i >= 10 && All(IsTokenChar, s, i, j)
  {
    LongRun(Token, IsTokenChar, 10, s, i, j);
  }

  lemma JwtReads(s: string, i: nat, j: nat)
    requires i <= j <= |s| && Matches(Jwt, s, i, j)
    ensures IsJwt(s, i, j)
  {
    hide Matches, Edge, All;
    var run := AtLeast(Char(Token), 10);
    var r1 := Jwt.second;
    var r2 := r1.second;
    var r3 := r2.second;
    var r4 := r3.second;
    var r5 := r4.second;
    EdgeFirst(r1, s, i, j);
    TextFirst("eyJ", r2, s, i, j);
    var a := Apart(run, r3, s, i + 3, j);
    TokenRun(s, i + 3, a);
    TextFirst(".eyJ", r4, s, a, j);
    var b := Apart(run, r5, s, a + 4, j);
    TokenRun(s, a + 4, b);
    TextFirst(".", r5.second, s, b, j);
    assert s[b..b + 1][0] == s[b];
    EdgeLast(run, s, b + 1, j);
    TokenRun(s, b + 1, j);
    assert JwtCut(s, i, a, b, j);
  }

  lemma JwtIsRead(s: string, i: nat, a: nat, b: nat, j: nat)
    requires i <= j <= |s| && JwtCut(s, i, a, b, j) && Edge(s, i) && Edge(s, j)
    ensures Matches(Jwt, s, i, j)
  {
    hide Matches, Edge, All;
    var run := AtLeast(Char(Token), 10);
    var r1 := Jwt.second;
    var r2 := r1.second;
    var r3 := r2.second;
    var r4 := r3.second;
    var r5 := r4.second;
    TokenRun(s, b + 1, j);
    EdgeLast(run, s, b + 1, j);
    assert s[b..b + 1] == ".";
    TextFirst(".", r5.second, s, b, j);
    TokenRun(s, a + 4, b);
    Join(run, r5, s, a + 4, b, j);
    TextFirst(".eyJ", r4, s, a, j);
    TokenRun(s, i + 3, a);
    Join(run, r3, s, i + 3, a, j);
    TextFirst("eyJ", r2, s, i, j);
    EdgeFirst(r1, s, i, j);
  }

  // ----- aws_access_key: AKIA and sixteen more -----

  ghost predicate IsAwsKey(s: string, i: nat, j: nat)
    requires i <= j <= |s|
  {
    j == i + 20 && Edge(s, i) && Edge(s, j) && s[i..i + 4] == "AKIA" && All(IsUpperOrDigit, s, i + 4, j)
  }

  lemma AwsKeyMeans(s: string, i: nat, j: nat)
    requires i <= j <= |s|
    ensures Matches(AwsAccessKey, s, i, j) <==> IsAwsKey(s, i, j)
  {
    hide Matches, Edge, All;
    var r1 := AwsAccessKey.second;
    var r2 := r1.second;
    EdgeFirst(r1, s, i, j);
    TextFirst("AKIA", r2, s, i, j);
    if i + 4 <= j {
      EdgeLast(r2.first, s, i + 4, j);
      ExactRun(CapitalsAndDigits, IsUpperOrDigit, 16, s, i + 4, j);
    }
  }

  // ----- openai_key and anthropic_key: a prefix and twenty or more -----

  /** The prefix, then at least so many characters of p, from word edge to word edge. */
  ghost predicate Prefixed(prefix: string, p: char -> bool, least: nat, s: string, i: nat, j: nat)
    requires i <= j <= |s|
  {
    var a := i + |prefix|;
    j - a >= least && Edge(s, i) && Edge(s, j) && s[i..a] == prefix && All(p, s, a, j)
  }

  lemma PrefixedMeans(prefix: string, cl: Class, p: char -> bool, least: nat, s: string, i: nat, j: nat)
    requires i <= j <= |s| && Same(cl, p)
    ensures Matches(Cat(Boundary, Cat(Text(prefix), Cat(AtLeast(Char(cl), least), Boundary))), s, i, j)
            <==> Prefixed(prefix, p, least, s, i, j)
  {
    hide Matches, Edge, All;
    var run := AtLeast(Char(cl), least);
    var r2 := Cat(run, Boundary);
    EdgeFirst(Cat(Text(prefix), r2), s, i, j);
    TextFirst(prefix, r2, s, i, j);
    var a := i + |prefix|;
    if a <= j {
      EdgeLast(run, s, a, j);
      LongRun(cl, p, least, s, a, j);
    }
  }

  lemma OpenaiKeyMeans(s: string, i: nat, j: nat)
    requires i <= j <= |s|
    ensures Matches(OpenaiKey, s, i, j) <==> Prefixed("sk-", IsTokenChar, 20, s, i, j)
  {
    hide Matches, Edge, All;
    PrefixedMeans("sk-", Token, IsTokenChar, 20, s, i, j);
  }

  lemma AnthropicKeyMeans(s: string, i: nat, j: nat)
    requires i <= j <= |s|
    ensures Matches(AnthropicKey, s, i, j) <==> Prefixed("sk-ant-", IsTokenChar, 20, s, i, j)
  {
    hide Matches, Edge, All;
    PrefixedMeans("sk-ant-", Token, IsTokenChar, 20, s, i, j);
  }

  // ----- github_pat: one of five kinds, an underscore and thirty or more -----

  const GithubKinds: seq<string> := ["ghp", "gho", "ghu", "ghs", "ghr"]

  ghost predicate IsGithubPat(s: string, i: nat, j: nat)
    requires i <= j <= |s|
  {
    && j - i >= 34 && Edge(s, i) && Edge(s, j)
    && s[i..i + 3] in GithubKinds && s[i + 3] == '_' && All(IsAlnum, s, i + 4, j)
  }

  lemma GithubKindMeans(s: string, i: nat, j: nat)
    requires i <= j <= |s|
    ensures Matches(GithubKind, s, i, j) <==> s[i..j] in GithubKinds
  {
    hide Matches;
    var r1 := GithubKind.second;
    var r2 := r1.second;
    var r3 := r2.second;
    Either(Text("ghp"), r1, s, i, j);
    Either(Text("gho"), r2, s, i, j);
    Either(Text("ghu"), r3, s, i, j);
    Either(Text("ghs"), Text("ghr"), s, i, j);
    TextMeans("ghp", s, i, j);
    TextMeans("gho", s, i, j);
    TextMeans("ghu", s, i, j);
    TextMeans("ghs", s, i, j);
    TextMeans("ghr", s, i, j);
  }

  /** What follows the kind. */
  lemma GithubRestMeans(s: string, i: nat, j: nat)
    requires i <= j <= |s|
    ensures Matches(GithubPat.second.second, s, i, j)
            <==> j - i >= 31 && s[i] == '_' && All(IsAlnum, s, i + 1, j) && Edge(s, j)
  {
    hide Matches, Edge, All;
    var cl := Class(true, true, true, "");
    var run := AtLeast(Char(cl), 30);
    TextFirst("_", Cat(run, Boundary), s, i, j);
    if i < j {
      assert s[i..i + 1] == [s[i]];
      EdgeLast(run, s, i + 1, j);
      LongRun(cl, IsAlnum, 30, s, i + 1, j);
    }
  }

  lemma GithubPatMeans(s: string, i: nat, j: nat)
    requires i <= j <= |s|
    ensures Matches(GithubPat, s, i, j) <==> IsGithubPat(s, i, j)
  {
    hide Matches, Edge, All;
    var rest := GithubPat.second.second;
    EdgeFirst(GithubPat.second, s, i, j);
    if Matches(GithubPat, s, i, j) {
      var a := Apart(GithubKind, rest, s, i, j);
      GithubKindMeans(s, i, a);
      GithubRestMeans(s, a, j);
    }
    if IsGithubPat(s, i, j) {
      GithubKindMeans(s, i, i + 3);
      GithubRestMeans(s, i + 3, j);
      Join(GithubKind, rest, s, i, i + 3, j);
    }
  }
}
