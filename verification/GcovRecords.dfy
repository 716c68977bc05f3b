/**
 The serialised coverage file read back the way its users read it: a header of three words,
 then records of a tag, a length in words and that many words.
 */
module GcovRecords {
  import opened Options
  import opened Gcov

  const WORD: nat := 0x1_0000_0000
  const LONG: nat := 0x1_0000_0000_0000_0000

  datatype Record = Record(tag: nat, words: seq<nat>)

  // ----- the reader -----

  function Words(s: seq<Byte>): seq<nat> {
    if |s| < 4 then [] else [FromLe32(s[..4])] + Words(s[4..])
  }

  function Records(s: seq<Byte>): Option<seq<Record>> {
    if s == [] then Some([])
    else if |s| < 8 || 8 + 4 * FromLe32(s[4..8]) > |s| then None
    else
      var end := 8 + 4 * FromLe32(s[4..8]);
      var rest := Records(s[end..]);
      if rest.None? then None else Some([Record(FromLe32(s[..4]), Words(s[8..end]))] + rest.value)
  }

  // Whole words followed by more.
  lemma {:induction false} WordsConcat(a: seq<Byte>, n: nat, b: seq<Byte>)
    requires |a| == 4 * n
    ensures Words(a + b) == Words(a) + Words(b)
    decreases n
  {
    if n == 0 {
      assert a + b == b;
    } else {
      WordsConcat(a[4..], n - 1, b);
      FirstWord(a, b);
    }
  }

  lemma FirstWord(a: seq<Byte>, b: seq<Byte>)
    requires |a| >= 4
    ensures (a + b)[..4] == a[..4] && (a + b)[4..] == a[4..] + b
  {
  }

  lemma OneWord(v: nat)
    requires v < WORD
    ensures Words(Le32(v)) == [v]
  {
    var s := Le32(v);
    assert s[..4] == s && s[4..] == [];
    Le32RoundTrip(v);
  }

  // The reader finds these records, and nothing more.
  predicate ReadsAs(s: seq<Byte>, records: seq<Record>) {
    Records(s) == Some(records)
  }

  // The first record, and the others.
  lemma ReadsFirst(s: seq<Byte>, end: nat, rest: seq<Record>)
    requires |s| >= 8 && end == 8 + 4 * FromLe32(s[4..8]) <= |s| && ReadsAs(s[end..], rest)
    ensures ReadsAs(s, [Record(FromLe32(s[..4]), Words(s[8..end]))] + rest)
  {
  }

  lemma Fields(a: seq<Byte>, b: seq<Byte>, c: seq<Byte>)
    requires |a| == 4 && |b| == 4
    ensures var s := a + b + c; s[..4] == a && s[4..8] == b && s[8..|s|] == c && s[|s|..] == []
  {
  }

  lemma ReadsOne(tag: nat, n: nat, body: seq<Byte>)
    requires tag < WORD && n < WORD && |body| == 4 * n
    ensures ReadsAs(Le32(tag) + Le32(n) + body, [Record(tag, Words(body))])
  {
    var s, r := Le32(tag) + Le32(n) + body, Record(tag, Words(body));
    Fields(Le32(tag), Le32(n), body);
    Le32RoundTrip(tag);
    Le32RoundTrip(n);
    assert ReadsAs([], []);
    ReadsFirst(s, |s|, []);
    assert [r] + [] == [r];
  }

  lemma Prefixes(a: seq<Byte>, b: seq<Byte>, end: nat)
    requires 8 <= end <= |a|
    ensures var all := a + b;
      all[..4] == a[..4] && all[4..8] == a[4..8] && all[8..end] == a[8..end] && all[end..] == a[end..] + b
  {
  }

  lemma {:induction false} ReadsBoth(a: seq<Byte>, x: seq<Record>, b: seq<Byte>, y: seq<Record>)
    requires ReadsAs(a, x) && ReadsAs(b, y)
    ensures ReadsAs(a + b, x + y)
    decreases |a|
  {
    if a == [] {
      assert a + b == b && x + y == y;
    } else {
      var end := 8 + 4 * FromLe32(a[4..8]);
      var first, rest := x[0], Records(a[end..]).value;
      assert x == [first] + rest;
      Prefixes(a, b, end);
      ReadsBoth(a[end..], rest, b, y);
      ReadsFirst(a + b, end, rest + y);
      assert [first] + (rest + y) == x + y;
    }
  }

  // ----- what the file should say -----

  // Numbers that their fields can hold.
  ghost predicate Fits(info: Info)
    requires Valid(info)
  {
    && info.version < WORD && info.stamp < WORD
    && (forall f :: 0 <= f < |info.functions| ==> info.functions[f].ident < WORD && info.functions[f].checksum < WORD)
    && (forall f, t :: 0 <= f < |info.functions| && 0 <= t < COUNTERS ==> info.functions[f].ctrs[t] * 2 < WORD)
    && (forall r, c :: 0 <= r < |info.counts| && 0 <= c < |info.counts[r]| ==> info.counts[r][c] < LONG)
  }

  // Counters as words: of the low half only 16 bits, then the high half.
  function Halves(values: seq<nat>): (w: seq<nat>)
    ensures |w| == 2 * |values|
    decreases |values|
  {
    if values == [] then []
    else
      var last := values[|values| - 1];
      Halves(values[..|values| - 1]) + [last % 0x1_0000, last / WORD]
  }

  // The counters of a type that belong to a function: the next ones of that type.
  ghost function CountersOf(info: Info, f: nat, t: nat): seq<nat>
    requires Valid(info) && f < |info.functions| && t < COUNTERS && info.active[t]
  {
    BeforeGrows(info.functions, f + 1, |info.functions|, t);
    info.counts[TypeOff(info.active, t)][Before(info.functions, f, t)..Before(info.functions, f + 1, t)]
  }

  // A function, and for each active type below k its counters.
  ghost function FnRecords(info: Info, f: nat, k: nat): seq<Record>
    requires Valid(info) && f < |info.functions| && k <= COUNTERS
    decreases |info.active|, k
  {
    if k == 0 then [Record(0x0100_0000, [info.functions[f].ident, info.functions[f].checksum])]
    else FnRecords(info, f, k - 1) + SectionRecords(info, f, k - 1)
  }

  ghost function SectionRecords(info: Info, f: nat, t: nat): seq<Record>
    requires Valid(info) && f < |info.functions| && t < COUNTERS
  {
    if info.active[t] then [Record(0x01a1_0000 + 0x2_0000 * t, Halves(CountersOf(info, f, t)))] else []
  }

  ghost function FileRecords(info: Info, k: nat): seq<Record>
    requires Valid(info) && k <= |info.functions|
    decreases k
  {
    if k == 0 then [] else FileRecords(info, k - 1) + FnRecords(info, k - 1, COUNTERS)
  }

  // ----- the round trip -----

  lemma ValueWords(v: nat)
    requires v < LONG
    ensures Words(Int64(v)) == [v % 0x1_0000, v / WORD]
  {
    var low, high := v % 0x1_0000, v / WORD;
    OneWord(low);
    OneWord(high);
    WordsConcat(Le32(low), 1, Le32(high));
  }

  // The first n counters of a function, each of 64 bits.
  ghost predicate AreValues(info: Info, f: nat, t: nat, n: nat, values: seq<nat>)
    requires Valid(info) && f < |info.functions| && t < COUNTERS && info.active[t] && n <= info.functions[f].ctrs[t]
  {
    |values| == n && forall c :: 0 <= c < n ==> values[c] == Value(info, f, t, c) && values[c] < LONG
  }

  // Counters as they are stored.
  function Stored(values: seq<nat>): (s: seq<Byte>)
    ensures |s| == 8 * |values|
    decreases |values|
  {
    if values == [] then [] else Stored(values[..|values| - 1]) + Int64(values[|values| - 1])
  }

  lemma {:induction false} ValuesAreStored(info: Info, f: nat, t: nat, n: nat, values: seq<nat>)
    requires Valid(info) && f < |info.functions| && t < COUNTERS && info.active[t] && n <= info.functions[f].ctrs[t]
    requires AreValues(info, f, t, n, values)
    ensures Values(info, f, t, n) == Stored(values)
    decreases n
  {
    if n > 0 { ValuesAreStored(info, f, t, n - 1, values[..n - 1]); }
  }

  predicate WordsAre(s: seq<Byte>, words: seq<nat>) {
    Words(s) == words
  }

  lemma {:induction false} StoredWords(values: seq<nat>)
    requires forall c :: 0 <= c < |values| ==> values[c] < LONG
    ensures WordsAre(Stored(values), Halves(values))
    decreases |values|
  {
    if values != [] {
      var v, shorter := values[|values| - 1], values[..|values| - 1];
      StoredWords(shorter);
      OneMoreValue(Stored(shorter), |shorter|, Halves(shorter), v);
    }
  }

  lemma OneMoreValue(s: seq<Byte>, n: nat, words: seq<nat>, v: nat)
    requires |s| == 8 * n && WordsAre(s, words) && v < LONG
    ensures WordsAre(s + Int64(v), words + [v % 0x1_0000, v / WORD])
  {
    ValueWords(v);
    WordsConcat(s, 2 * n, Int64(v));
  }

  lemma CountersAre(info: Info, f: nat, t: nat)
    requires Valid(info) && f < |info.functions| && t < COUNTERS && info.active[t]
    ensures |CountersOf(info, f, t)| == info.functions[f].ctrs[t]
    ensures forall c :: 0 <= c < info.functions[f].ctrs[t] ==> CountersOf(info, f, t)[c] == Value(info, f, t, c)
  {
    FnValuesAre(info, f, f + 1, t);
    assert FnValues(info, f, t) == CountersOf(info, f, t);
  }

  lemma CounterFits(info: Info, f: nat, t: nat, c: nat)
    requires Valid(info) && Fits(info) && f < |info.functions| && t < COUNTERS && info.active[t] && c < |CountersOf(info, f, t)|
    ensures CountersOf(info, f, t)[c] < LONG
  {
    BeforeGrows(info.functions, f + 1, |info.functions|, t);
    var row, a, b := info.counts[TypeOff(info.active, t)], Before(info.functions, f, t), Before(info.functions, f + 1, t);
    assert CountersOf(info, f, t) == row[a..b] && row[a..b][c] == row[a + c];
  }

  lemma CountersReadBack(info: Info, f: nat, t: nat)
    requires Valid(info) && Fits(info) && f < |info.functions| && t < COUNTERS && info.active[t]
    ensures Words(Values(info, f, t, info.functions[f].ctrs[t])) == Halves(CountersOf(info, f, t))
  {
    var n, values := info.functions[f].ctrs[t], CountersOf(info, f, t);
    CountersAre(info, f, t);
    forall c | 0 <= c < n ensures values[c] == Value(info, f, t, c) && values[c] < LONG {
      CounterFits(info, f, t, c);
    }
    ValuesAreStored(info, f, t, n, values);
    StoredWords(values);
  }

  lemma SectionReadsBack(info: Info, f: nat, t: nat)
    requires Valid(info) && Fits(info) && f < |info.functions| && t < COUNTERS
    ensures ReadsAs(CounterSection(info, f, t), SectionRecords(info, f, t))
  {
    if info.active[t] {
      var n := info.functions[f].ctrs[t];
      CountersReadBack(info, f, t);
      assert n * 2 < WORD;
      ReadsOne(CounterTag(t), n * 2, Values(info, f, t, n));
    }
  }

  lemma HeaderReadsBack(fn: Fn)
    requires fn.ident < WORD && fn.checksum < WORD
    ensures ReadsAs(FnHeader(fn), [Record(0x0100_0000, [fn.ident, fn.checksum])])
  {
    var body := Le32(fn.ident) + Le32(fn.checksum);
    assert Words(body) == [fn.ident, fn.checksum] by {
      OneWord(fn.ident);
      OneWord(fn.checksum);
      WordsConcat(Le32(fn.ident), 1, Le32(fn.checksum));
    }
    assert FnHeader(fn) == Le32(TAG_FUNCTION) + Le32(2) + body;
    ReadsOne(TAG_FUNCTION, 2, body);
  }

  lemma {:induction false} FnReadsBack(info: Info, f: nat, k: nat)
    requires Valid(info) && Fits(info) && f < |info.functions| && k <= COUNTERS
    ensures ReadsAs(FnSections(info, f, k), FnRecords(info, f, k))
    decreases k
  {
    if k == 0 {
      HeaderReadsBack(info.functions[f]);
    } else {
      var t := k - 1;
      FnReadsBack(info, f, t);
      SectionReadsBack(info, f, t);
      var a, x, b, y := FnSections(info, f, t), FnRecords(info, f, t), CounterSection(info, f, t), SectionRecords(info, f, t);
      assert FnSections(info, f, k) == a + b && FnRecords(info, f, k) == x + y;
      ReadsBoth(a, x, b, y);
    }
  }

  // The header, and behind it these records.
  predicate FileReadsAs(s: seq<Byte>, header: seq<Byte>, records: seq<Record>) {
    |s| >= 12 && s[..12] == header && ReadsAs(s[12..], records)
  }

  lemma FileGrows(s: seq<Byte>, header: seq<Byte>, x: seq<Record>, last: seq<Byte>, y: seq<Record>)
    requires FileReadsAs(s, header, x) && ReadsAs(last, y)
    ensures FileReadsAs(s + last, header, x + y)
  {
    assert (s + last)[..12] == s[..12] && (s + last)[12..] == s[12..] + last;
    ReadsBoth(s[12..], x, last, y);
  }

  lemma {:induction false} FunctionsReadBack(info: Info, k: nat)
    requires Valid(info) && Fits(info) && k <= |info.functions|
    ensures FileReadsAs(FileUpTo(info, k), FileHeader(info), FileRecords(info, k))
    decreases k
  {
    if k == 0 {
      assert FileHeader(info)[12..] == [];
    } else {
      FunctionsReadBack(info, k - 1);
      FnReadsBack(info, k - 1, COUNTERS);
      FileGrows(FileUpTo(info, k - 1), FileHeader(info), FileRecords(info, k - 1),
                FnSections(info, k - 1, COUNTERS), FnRecords(info, k - 1, COUNTERS));
    }
  }

  /** A reader of tagged records finds, behind the magic number, the version and the stamp,
      every function with its ident and checksum, and after it for every active type exactly
      its own counters, each as the two words that are stored of it. */
  lemma FileReadsBack(info: Info)
    requires Valid(info) && Fits(info)
    ensures var file := File(info);
      && |file| >= 12 && Words(file[..12]) == [0x6763_6461, info.version, info.stamp]
      && ReadsAs(file[12..], FileRecords(info, |info.functions|))
  {
    FunctionsReadBack(info, |info.functions|);
    OneWord(DATA_MAGIC);
    OneWord(info.version);
    OneWord(info.stamp);
    WordsConcat(Le32(DATA_MAGIC), 1, Le32(info.version));
    WordsConcat(Le32(DATA_MAGIC) + Le32(info.version), 2, Le32(info.stamp));
  }
}
