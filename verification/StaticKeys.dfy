/** Static-key mode: the environment variable as a key table, and the billing-period start. */
module StaticKeys {
  import opened Strings
  import opened KeyLookup

  // ----- the month-start loop -----

  datatype CivilDay = CivilDay(year: nat, month: nat, day: nat)

  predicate IsLeap(y: nat) { y % 4 == 0 && (y % 100 != 0 || y % 400 == 0) }

  function DaysIn(y: nat, m: nat): nat {
    if m == 2 then (if IsLeap(y) then 29 else 28) else if m == 4 || m == 6 || m == 9 || m == 11 then 30 else 31
  }

  predicate ValidDay(c: CivilDay) {
    c.year >= 1 && 1 <= c.month <= 12 && 1 <= c.day <= DaysIn(c.year, c.month)
  }

  function DaysBeforeYear(y: nat): nat { if y <= 1 then 0 else DaysBeforeYear(y - 1) + if IsLeap(y - 1) then 366 else 365 }

  function DaysBeforeMonth(y: nat, m: nat): nat { if m <= 1 then 0 else DaysBeforeMonth(y, m - 1) + DaysIn(y, m - 1) }

  /** Seconds since 1970-01-01, which is day 719162 of this count. */
  function Unix(c: CivilDay): int
    requires c.day >= 1
  {
    (DaysBeforeYear(c.year) + DaysBeforeMonth(c.year, c.month) + (c.day - 1) - 719162) * 86400
  }

  /** AddDate(0, 0, -1) */
  function DayBefore(c: CivilDay): CivilDay
    requires ValidDay(c) && c != CivilDay(1, 1, 1)
  {
    if c.day > 1 then CivilDay(c.year, c.month, c.day - 1)
    else if c.month > 1 then CivilDay(c.year, c.month - 1, DaysIn(c.year, c.month - 1))
    else CivilDay(c.year - 1, 12, 31)
  }

  lemma YearIsTwelveMonths(y: nat)
    ensures DaysBeforeMonth(y, 12) + 31 == if IsLeap(y) then 366 else 365
  {
    assert DaysBeforeMonth(y, 2) == 31;
    assert DaysBeforeMonth(y, 3) == 31 + DaysIn(y, 2);
    assert DaysBeforeMonth(y, 5) == DaysBeforeMonth(y, 3) + 61;
    assert DaysBeforeMonth(y, 7) == DaysBeforeMonth(y, 5) + 61;
    assert DaysBeforeMonth(y, 9) == DaysBeforeMonth(y, 7) + 62;
    assert DaysBeforeMonth(y, 11) == DaysBeforeMonth(y, 9) + 61;
  }

  /** Stepping back a day takes exactly a day off the clock, across month and year ends too. */
  lemma DayBeforeIsOneDay(c: CivilDay)
    requires ValidDay(c) && c != CivilDay(1, 1, 1)
    ensures ValidDay(DayBefore(c)) && Unix(DayBefore(c)) == Unix(c) - 86400
  {
    if c.day == 1 && c.month == 1 { YearIsTwelveMonths(c.year - 1); }
  }

  // ----- the calendar, in closed form -----

  /** A year has 365 days and one more every fourth year, but not every hundredth, but every four hundredth. */
  lemma {:induction false} YearsBefore(y: nat)
    requires y >= 1
    ensures var n := y - 1; DaysBeforeYear(y) == 365 * n + n / 4 - n / 100 + n / 400
    decreases y
  {
    if y > 1 {
      var m: nat := y - 1;
      YearsBefore(m);
      LeapsUpTo(m);
    }
  }

  lemma LeapsUpTo(m: nat)
    requires m >= 1
    ensures m / 4 - m / 100 + m / 400 == (m - 1) / 4 - (m - 1) / 100 + (m - 1) / 400 + if IsLeap(m) then 1 else 0
  {
    EveryFourth(m);
    EveryHundredth(m);
    EveryFourHundredth(m);
  }

  lemma EveryFourth(m: nat)
    requires m >= 1
    ensures m / 4 == (m - 1) / 4 + if m % 4 == 0 then 1 else 0
  {}

  lemma EveryHundredth(m: nat)
    requires m >= 1
    ensures m / 100 == (m - 1) / 100 + if m % 100 == 0 then 1 else 0
    ensures m % 100 == 0 ==> m % 4 == 0
  {}

  lemma EveryFourHundredth(m: nat)
    requires m >= 1
    ensures m / 400 == (m - 1) / 400 + if m % 400 == 0 then 1 else 0
    ensures m % 400 == 0 ==> m % 100 == 0
  {}

  /** The months alternate, with the start over in August, but for February. */
  lemma MonthsAlternate(y: nat, m: nat)
    requires 1 <= m <= 12 && m != 2
    ensures DaysIn(y, m) == 30 + (m + m / 8) % 2
  {}

  /** The epoch is the start of 1970, in which Unix counts days, by the calendar above. */
  lemma UnixCounts(c: CivilDay)
    requires ValidDay(c)
    ensures var n := c.year - 1;
            Unix(c) == (365 * n + n / 4 - n / 100 + n / 400 + DaysBeforeMonth(c.year, c.month) + c.day - 719163) * 86400
    ensures Unix(CivilDay(1970, 1, 1)) == 0
  {
    hide DaysBeforeYear, DaysBeforeMonth;
    YearsBefore(c.year);
    YearsBefore(1970);
    NothingBeforeJanuary();
  }

  lemma NothingBeforeJanuary() ensures DaysBeforeMonth(1970, 1) == 0 {}

  type Today = c: CivilDay | ValidDay(c) witness CivilDay(1970, 1, 1)

  function FirstOfMonth(today: CivilDay): CivilDay { CivilDay(today.year, today.month, 1) }

  method MonthStart(today: Today) returns (start: CivilDay)
    ensures start == FirstOfMonth(today)
    ensures Unix(start) == Unix(today) - 86400 * (today.day - 1)
  {
    start := today;
    while start.day != 1
      invariant ValidDay(start) && start.year == today.year && start.month == today.month && start.day <= today.day
      invariant Unix(start) == Unix(today) - 86400 * (today.day - start.day)
      decreases start.day
    {
      DayBeforeIsOneDay(start);
      start := DayBefore(start);
    }
  }

  // ----- the key table -----

  datatype Triple = Triple(key: string, org: string, tier: string)

  datatype Fault = FieldCount | BadPlaintext | NoOrg | BadTier | Duplicate

  datatype Segment = Blank | Good(triple: Triple) | Bad(why: Fault)

  /** Entries are numbered from one. */
  datatype Parsed = Disabled | Keys(table: map<string, Entry>) | Rejected(entry: nat, why: Fault) | NoEntries

  /** What the environment contributes to every entry: the clock's day is read once, at boot. */
  datatype Boot = Boot(shortHash: string -> string, today: Today)

  predicate IsTier(tier: string) { tier == "free" || tier == "pro" || tier == "enterprise" }

  function ReadSegment(e: string): Segment {
    var t := TrimSpace(e);
    if t == "" then Blank
    else
      var parts := Split(t, ':');
      if |parts| != 3 then Bad(FieldCount)
      else
        var key, org, tier := TrimSpace(parts[0]), TrimSpace(parts[1]), TrimSpace(parts[2]);
        if ParseAPIKey(key).None? then Bad(BadPlaintext)
        else if org == "" then Bad(NoOrg)
        else if !IsTier(tier) then Bad(BadTier)
        else Good(Triple(key, org, tier))
  }

  function EntryFor(boot: Boot, t: Triple): Entry {
    Entry("static-" + boot.shortHash(t.key), "static-" + t.org, t.org, t.tier, "", Unix(FirstOfMonth(boot.today)))
  }

  function TableOf(boot: Boot, ts: seq<Triple>): map<string, Entry> {
    if ts == [] then map[] else TableOf(boot, ts[..|ts| - 1])[ts[|ts| - 1].key := EntryFor(boot, ts[|ts| - 1])]
  }

  /** The triples of the segments that hold one. */
  function TriplesIn(segs: seq<string>): seq<Triple> {
    if segs == [] then []
    else
      var before, last := TriplesIn(segs[..|segs| - 1]), ReadSegment(segs[|segs| - 1]);
      if last.Good? then before + [last.triple] else before
  }

  ghost predicate NoneBad(segs: seq<string>) { forall k | 0 <= k < |segs| :: !ReadSegment(segs[k]).Bad? }

  ghost predicate DistinctKeys(ts: seq<Triple>) { forall i, j | 0 <= i < j < |ts| :: ts[i].key != ts[j].key }

  ghost predicate HasKey(ts: seq<Triple>, key: string) { exists t <- ts :: t.key == key }

  function Segments(raw: string): seq<string> { Split(TrimSpace(raw), ',') }

  /** What parsing raw means: a table iff every segment is blank or a good triple, no key twice and
      at least one; otherwise the first offending entry, or that there are none. */
  ghost predicate Means(boot: Boot, raw: string, r: Parsed) {
    var segs := Segments(raw);
    match r
    case Disabled => TrimSpace(raw) == ""
    case Keys(table) =>
      && TrimSpace(raw) != "" && NoneBad(segs) && DistinctKeys(TriplesIn(segs)) && TriplesIn(segs) != []
      && table == TableOf(boot, TriplesIn(segs))
    case NoEntries => TrimSpace(raw) != "" && NoneBad(segs) && TriplesIn(segs) == []
    case Rejected(n, why) =>
      && TrimSpace(raw) != "" && 1 <= n <= |segs|
      && NoneBad(segs[..n - 1]) && DistinctKeys(TriplesIn(segs[..n - 1]))
      && Offends(TriplesIn(segs[..n - 1]), ReadSegment(segs[n - 1]), why)
  }

  ghost predicate Offends(before: seq<Triple>, s: Segment, why: Fault) {
    s == Bad(why) || (s.Good? && why == Duplicate && HasKey(before, s.triple.key))
  }

  method ParseStaticKeys(boot: Boot, raw: string) returns (r: Parsed)
    ensures Means(boot, raw, r)
  {
    hide ReadSegment, TrimSpace, Split, TableOf, TriplesIn, Unix;
    var trimmed := TrimSpace(raw);
    if trimmed == "" { return Disabled; }
    var out: map<string, Entry> := map[];
    var periodStart := MonthStart(boot.today);
    var entries := Split(trimmed, ',');
    NothingYet(boot);
    for i := 0 to |entries|
      invariant NoneBad(entries[..i]) && DistinctKeys(TriplesIn(entries[..i]))
      invariant out == TableOf(boot, TriplesIn(entries[..i]))
    {
      TriplesStep(entries, i);
      TableKeys(boot, TriplesIn(entries[..i]));
      match ReadSegment(entries[i])
      case Blank =>
      case Bad(why) => return Rejected(i + 1, why);
      case Good(t) =>
        if t.key in out { return Rejected(i + 1, Duplicate); }
        TableStep(boot, TriplesIn(entries[..i]), t);
        out := out[t.key := Entry("static-" + boot.shortHash(t.key), "static-" + t.org, t.org, t.tier, "", Unix(periodStart))];
    }
    assert entries[..|entries|] == entries;
    TableKeys(boot, TriplesIn(entries));
    if |out| == 0 { return NoEntries; }
    return Keys(out);
  }

  lemma NothingYet(boot: Boot)
    ensures TriplesIn([]) == [] && TableOf(boot, []) == map[]
  {}

  lemma TriplesStep(segs: seq<string>, i: nat)
    requires i < |segs|
    ensures ReadSegment(segs[i]).Good? ==> TriplesIn(segs[..i + 1]) == TriplesIn(segs[..i]) + [ReadSegment(segs[i]).triple]
    ensures !ReadSegment(segs[i]).Good? ==> TriplesIn(segs[..i + 1]) == TriplesIn(segs[..i])
    ensures segs[..i + 1] == segs[..i] + [segs[i]]
  {
    assert segs[..i + 1][..i] == segs[..i];
  }

  lemma TableStep(boot: Boot, ts: seq<Triple>, t: Triple)
    ensures TableOf(boot, ts + [t]) == TableOf(boot, ts)[t.key := EntryFor(boot, t)]
  {
    assert (ts + [t])[..|ts|] == ts;
  }

  lemma {:induction false} TableKeys(boot: Boot, ts: seq<Triple>)
    ensures forall k :: k in TableOf(boot, ts) <==> HasKey(ts, k)
    ensures ts == [] <==> |TableOf(boot, ts)| == 0
  {
    if ts != [] {
      var n := |ts| - 1;
      TableKeys(boot, ts[..n]);
      assert ts == ts[..n] + [ts[n]];
      assert ts[n].key in TableOf(boot, ts);
    }
  }

  /** The table of distinct triples has exactly one entry for each. */
  lemma {:induction false} TableIsExact(boot: Boot, ts: seq<Triple>)
    requires DistinctKeys(ts)
    ensures |TableOf(boot, ts)| == |ts|
    ensures forall t <- ts :: t.key in TableOf(boot, ts) && TableOf(boot, ts)[t.key] == EntryFor(boot, t)
  {
    hide EntryFor;
    if ts != [] {
      hide TableOf, DistinctKeys, HasKey;
      var n := |ts| - 1;
      var before, last := ts[..n], ts[n];
      assert ts == before + [last];
      LastIsNew(before, last, ts);
      TableIsExact(boot, before);
      TableKeys(boot, before);
      TableStep(boot, before, last);
      forall t <- ts ensures t.key in TableOf(boot, ts) && TableOf(boot, ts)[t.key] == EntryFor(boot, t) {
        assert t == last || t in before;
      }
    }
  }

  lemma LastIsNew(before: seq<Triple>, last: Triple, ts: seq<Triple>)
    requires ts == before + [last] && DistinctKeys(ts)
    ensures !HasKey(before, last.key) && DistinctKeys(before)
  {
    forall t <- before ensures t.key != last.key {
      var i :| 0 <= i < |before| && before[i] == t;
      assert ts[i] == t && ts[|before|] == last;
    }
    forall i, j | 0 <= i < j < |before| ensures before[i].key != before[j].key {
      assert ts[i] == before[i] && ts[j] == before[j];
    }
  }

  lemma {:induction false} TriplesOfPrefix(segs: seq<string>, n: nat)
    requires n <= |segs|
    ensures TriplesIn(segs[..n]) <= TriplesIn(segs)
    decreases |segs|
  {
    if n < |segs| {
      var m := |segs| - 1;
      assert segs[..m][..n] == segs[..n];
      TriplesOfPrefix(segs[..m], n);
    } else {
      assert segs[..n] == segs;
    }
  }

  /** Past an offending entry, the segments are bad or hold a key twice. */
  lemma OffenceStays(segs: seq<string>, n: nat, why: Fault)
    requires 1 <= n <= |segs| && Offends(TriplesIn(segs[..n - 1]), ReadSegment(segs[n - 1]), why)
    ensures !NoneBad(segs) || !DistinctKeys(TriplesIn(segs))
  {
    hide TriplesIn, ReadSegment;
    var s := ReadSegment(segs[n - 1]);
    if s.Good? {
      TriplesStep(segs, n - 1);
      TriplesOfPrefix(segs, n);
      var before, ts := TriplesIn(segs[..n - 1]), TriplesIn(segs);
      var t :| t in before && t.key == s.triple.key;
      var i :| 0 <= i < |before| && before[i] == t;
      assert segs[..n - 1 + 1] == segs[..n];
      assert ts[i] == t && ts[|before|] == s.triple;
    }
  }

  lemma OffenceIn(segs: seq<string>, n: nat, why: Fault, upTo: nat)
    requires 1 <= n <= upTo <= |segs| && Offends(TriplesIn(segs[..n - 1]), ReadSegment(segs[n - 1]), why)
    ensures !NoneBad(segs[..upTo]) || !DistinctKeys(TriplesIn(segs[..upTo]))
  {
    assert segs[..upTo][..n - 1] == segs[..n - 1];
    OffenceStays(segs[..upTo], n, why);
  }

  /** There is only one thing a text can mean. */
  lemma MeaningIsUnique(boot: Boot, raw: string, r: Parsed, s: Parsed)
    requires Means(boot, raw, r) && Means(boot, raw, s)
    ensures r == s
  {
    hide ReadSegment, TrimSpace, Split, EntryFor, TableOf, TriplesIn, HasKey;
    var segs := Segments(raw);
    assert segs[..|segs|] == segs;
    if r.Rejected? && (s.Keys? || s.NoEntries?) { OffenceIn(segs, r.entry, r.why, |segs|); }
    if s.Rejected? && (r.Keys? || r.NoEntries?) { OffenceIn(segs, s.entry, s.why, |segs|); }
    if r.Rejected? && s.Rejected? {
      if r.entry < s.entry { OffenceIn(segs, r.entry, r.why, s.entry - 1); }
      if s.entry < r.entry { OffenceIn(segs, s.entry, s.why, r.entry - 1); }
    }
  }

  // ----- printing and reading back -----

  function PrintTriple(t: Triple): string { Join([t.key, t.org, t.tier], ':') }

  function PrintTriples(ts: seq<Triple>): seq<string> { seq(|ts|, k requires 0 <= k < |ts| => PrintTriple(ts[k])) }

  function Print(ts: seq<Triple>): string { Join(PrintTriples(ts), ',') }

  predicate PlainField(s: string) { Trimmed(s) && s != "" && ',' !in s && ':' !in s }

  predicate Printable(t: Triple) {
    && PlainField(t.key) && PlainField(t.org) && PlainField(t.tier)
    && ParseAPIKey(t.key).Some? && IsTier(t.tier)
  }

  lemma {:induction false} JoinEnds(parts: seq<string>, sep: char)
    requires parts != [] && forall k | 0 <= k < |parts| :: parts[k] != ""
    ensures var s := Join(parts, sep);
            s != "" && s[0] == parts[0][0] && s[|s| - 1] == parts[|parts| - 1][|parts[|parts| - 1]| - 1]
  {
    if |parts| > 1 { JoinEnds(parts[1..], sep); }
  }

  lemma {:induction false} JoinAvoids(parts: seq<string>, sep: char, c: char)
    requires c != sep && forall k | 0 <= k < |parts| :: c !in parts[k]
    ensures c !in Join(parts, sep)
  {
    if |parts| > 1 { JoinAvoids(parts[1..], sep, c); }
  }

  lemma PrintedTriple(t: Triple)
    requires Printable(t)
    ensures ReadSegment(PrintTriple(t)) == Good(t) && ',' !in PrintTriple(t)
    ensures PrintTriple(t) != "" && Trimmed(PrintTriple(t))
  {
    hide Join, TrimSpace, Split, ParseAPIKey, IsTier;
    var s, fields := PrintTriple(t), [t.key, t.org, t.tier];
    SplitUndoesJoin(fields, ':');
    JoinEnds(fields, ':');
    JoinAvoids(fields, ':', ',');
    TrimSpaceTrims(s);
    TrimSpaceTrims(t.key);
    TrimSpaceTrims(t.org);
    TrimSpaceTrims(t.tier);
  }

  lemma {:induction false} PrintedSegments(ts: seq<Triple>)
    requires forall t <- ts :: Printable(t)
    ensures NoneBad(PrintTriples(ts)) && TriplesIn(PrintTriples(ts)) == ts
  {
    hide ReadSegment, PrintTriple, Printable, TriplesIn;
    NoTriples();
    if ts == [] {
      assert PrintTriples(ts) == [];
    } else {
      var n := |ts| - 1;
      var segs := PrintTriples(ts);
      PrintedSegments(ts[..n]);
      assert segs[..n] == PrintTriples(ts[..n]) && segs[..n + 1] == segs;
      PrintedTriple(ts[n]);
      TriplesStep(segs, n);
      assert ts == ts[..n] + [ts[n]];
    }
  }

  lemma NoTriples() ensures TriplesIn([]) == [] {}

  /** Parsing inverts printing: distinct valid triples come back as exactly their table. */
  lemma PrintRoundTrip(boot: Boot, ts: seq<Triple>)
    requires ts != [] && DistinctKeys(ts) && forall t <- ts :: Printable(t)
    ensures Means(boot, Print(ts), Keys(TableOf(boot, ts)))
  {
    hide ReadSegment, PrintTriple, Printable, TriplesIn, TableOf, Join, Split, TrimSpace;
    var parts := PrintTriples(ts);
    PrintedSegments(ts);
    forall k | 0 <= k < |ts| ensures parts[k] != "" && Trimmed(parts[k]) && ',' !in parts[k] { PrintedTriple(ts[k]); }
    SplitUndoesJoin(parts, ',');
    JoinEnds(parts, ',');
    TrimSpaceTrims(Print(ts));
  }

  // ----- what a segment says -----

  /** The segment is three fields with colons between them, but for blanks around it. */
  ghost predicate Fields(e: string, a: string, b: string, c: string) {
    TrimSpace(e) == a + ":" + b + ":" + c && ':' !in a && ':' !in b && ':' !in c
  }

  lemma FieldsAreParts(e: string)
    ensures forall a, b, c | Fields(e, a, b, c) :: Split(TrimSpace(e), ':') == [a, b, c]
    ensures |Split(TrimSpace(e), ':')| == 3 ==> exists a, b, c :: Fields(e, a, b, c)
  {
    hide TrimSpace, Split;
    var t := TrimSpace(e);
    forall a, b, c | Fields(e, a, b, c) ensures Split(t, ':') == [a, b, c] {
      JoinOfThree(a, b, c);
      SplitUndoesJoin([a, b, c], ':');
    }
    var parts := Split(t, ':');
    if |parts| == 3 {
      JoinUndoesSplit(t, ':');
      assert parts == [parts[0], parts[1], parts[2]];
      JoinOfThree(parts[0], parts[1], parts[2]);
      assert Fields(e, parts[0], parts[1], parts[2]);
    }
  }

  lemma JoinOfThree(a: string, b: string, c: string)
    ensures Join([a, b, c], ':') == a + ":" + b + ":" + c
  {
    JoinStep(a, [b, c], ':');
    JoinStep(b, [c], ':');
    assert [a, b, c] == [a] + [b, c] && [b, c] == [b] + [c];
    assert a + ":" + (b + ":" + c) == a + ":" + b + ":" + c;
  }

  /** How a segment reads: nothing but blanks is skipped; other than three fields is an error, and so is a key that does not
      have the minted form, an empty organisation or a tier other than the three; otherwise the trimmed fields. */
  lemma SegmentMeans(e: string)
    ensures ReadSegment(e) == Blank <==> forall k | 0 <= k < |e| :: IsBlank(e[k])
    ensures ReadSegment(e) != Blank && (forall a, b, c :: !Fields(e, a, b, c)) ==> ReadSegment(e) == Bad(FieldCount)
    ensures forall a, b, c | Fields(e, a, b, c) :: ReadSegment(e) == Said(TrimSpace(a), TrimSpace(b), TrimSpace(c))
  {
    hide TrimSpace, Split;
    TrimSpaceMeans(e);
    FieldsAreParts(e);
    forall a, b, c | Fields(e, a, b, c) ensures TrimSpace(e) != "" { assert |TrimSpace(e)| >= 2; }
  }

  ghost function Said(key: string, org: string, tier: string): Segment {
    if |key| != 60 || !("vt_live_" <= key) then Bad(BadPlaintext)
    else if org == "" then Bad(NoOrg)
    else if tier != "free" && tier != "pro" && tier != "enterprise" then Bad(BadTier)
    else Good(Triple(key, org, tier))
  }

  /** The entry of a key, an organisation and a tier: both ids derived, no hash, the period from the first of the month. */
  ghost predicate EntryOf(boot: Boot, e: Entry, key: string, org: string, tier: string) {
    && e.keyID == "static-" + boot.shortHash(key) && e.projectID == "static-" + org && e.orgID == org && e.tier == tier
    && e.hashArgon2id == "" && e.currentPeriodStart == Unix(CivilDay(boot.today.year, boot.today.month, 1))
  }

  /** An accepted text yields one entry per non-blank segment, with its three fields. */
  lemma AcceptedIsComplete(boot: Boot, raw: string, table: map<string, Entry>)
    requires Means(boot, raw, Keys(table))
    ensures |table| == |TriplesIn(Segments(raw))|
    ensures forall k | 0 <= k < |Segments(raw)| && TrimSpace(Segments(raw)[k]) != "" ::
              var s := ReadSegment(Segments(raw)[k]);
              s.Good? && s.triple.key in table && EntryOf(boot, table[s.triple.key], s.triple.key, s.triple.org, s.triple.tier)
  {
    hide TriplesIn, TableOf, Split, Unix;
    var segs := Segments(raw);
    TableIsExact(boot, TriplesIn(segs));
    forall k | 0 <= k < |segs| && TrimSpace(segs[k]) != ""
      ensures ReadSegment(segs[k]).Good? && ReadSegment(segs[k]).triple in TriplesIn(segs)
    {
      GoodIsListed(segs, k);
    }
  }

  lemma GoodIsListed(segs: seq<string>, k: nat)
    requires k < |segs| && ReadSegment(segs[k]).Good?
    ensures ReadSegment(segs[k]).triple in TriplesIn(segs)
  {
    hide TriplesIn, ReadSegment;
    TriplesStep(segs, k);
    TriplesOfPrefix(segs, k + 1);
    var upTo := TriplesIn(segs[..k + 1]);
    assert TriplesIn(segs)[|upTo| - 1] == upTo[|upTo| - 1];
  }
}
