/**
 Processor masks as text. A mask is an integer of any size, represented here by the set of
 its one bits: `|=` is union, `&= ~(1 << i)` removes i, and shifting moves every bit.
 */
module SfcMask {
  import opened Options

  type Mask = set<nat>

  // ----- text -----

  function IndexOf(s: string, c: char): (i: nat)
    requires c in s
    ensures i < |s| && s[i] == c && c !in s[..i]
  {
    if s[0] == c then 0
    else
      var i := IndexOf(s[1..], c);
      assert s[..1 + i] == [s[0]] + s[1..][..i];
      1 + i
  }

  lemma {:induction false} IndexIs(s: string, c: char, i: nat)
    requires i < |s| && s[i] == c && c !in s[..i]
    ensures IndexOf(s, c) == i
    decreases i
  {
    if i > 0 {
      assert s[0] in s[..i] && s[1..][..i - 1] == s[..i][1..];
      IndexIs(s[1..], c, i - 1);
    }
  }

  // str.split
  function Split(s: string, c: char): (pieces: seq<string>)
    ensures |pieces| >= 1
    decreases |s|
  {
    if c !in s then [s]
    else
      var i := IndexOf(s, c);
      [s[..i]] + Split(s[i + 1..], c)
  }

  function Join(pieces: seq<string>, c: char): string
    requires |pieces| >= 1
    decreases |pieces|
  {
    if |pieces| == 1 then pieces[0] else pieces[0] + [c] + Join(pieces[1..], c)
  }

  lemma SplitFirst(first: string, c: char, rest: string)
    requires c !in first
    ensures Split(first + [c] + rest, c) == [first] + Split(rest, c)
  {
    var s, i := first + [c] + rest, |first|;
    assert s[i] == c && s[..i] == first && s[i + 1..] == rest;
    IndexIs(s, c, i);
  }

  lemma {:induction false} SplitJoin(pieces: seq<string>, c: char)
    requires |pieces| >= 1 && forall k :: 0 <= k < |pieces| ==> c !in pieces[k]
    ensures Split(Join(pieces, c), c) == pieces
    decreases |pieces|
  {
    if |pieces| > 1 {
      SplitJoin(pieces[1..], c);
      SplitFirst(pieces[0], c, Join(pieces[1..], c));
      assert pieces == [pieces[0]] + pieces[1..];
    }
  }

  lemma {:induction false} JoinLast(pieces: seq<string>, last: string, c: char)
    requires |pieces| >= 1
    ensures Join(pieces + [last], c) == Join(pieces, c) + [c] + last
    decreases |pieces|
  {
    if |pieces| > 1 {
      JoinLast(pieces[1..], last, c);
      assert (pieces + [last])[1..] == pieces[1..] + [last];
    } else {
      assert (pieces + [last])[1..] == [last];
    }
  }

  // ----- decimal numbers -----

  const DIGITS := "0123456789abcdef"

  predicate IsDigit(c: char) {
    '0' <= c <= '9'
  }

  predicate AllDigits(s: string) {
    forall k :: 0 <= k < |s| ==> IsDigit(s[k])
  }

  // "%d"
  function Dec(n: nat): (s: string)
    ensures |s| >= 1 && AllDigits(s)
  {
    if n < 10 then [('0' as int + n) as char] else Dec(n / 10) + [('0' as int + n % 10) as char]
  }

  function DecValue(s: string): nat
    requires AllDigits(s)
  {
    if s == [] then 0 else DecValue(s[..|s| - 1]) * 10 + (s[|s| - 1] as int - '0' as int)
  }

  function ParseInt(s: string): Option<nat> {
    if s == [] || !AllDigits(s) then None else Some(DecValue(s))
  }

  lemma {:induction false} DecRoundTrip(n: nat)
    ensures ParseInt(Dec(n)) == Some(n)
    decreases n
  {
    var s := Dec(n);
    if n < 10 {
      assert s[..0] == [] && DecValue(s[..|s| - 1]) == 0;
    } else {
      DecRoundTrip(n / 10);
      assert s[..|s| - 1] == Dec(n / 10);
    }
  }

  lemma {:induction false} DecLength(n: nat, k: nat, bound: nat)
    requires n < bound && ((k == 1 && bound == 10) || (k == 2 && bound == 100) || (k == 3 && bound == 1000))
    ensures |Dec(n)| <= k
    decreases k
  {
    if n >= 10 { DecLength(n / 10, k - 1, bound / 10); }
  }

  lemma {:induction false} DecLeads(n: nat)
    ensures n > 0 ==> Dec(n)[0] != '0'
    ensures |Dec(n)| > 1 ==> n > 0
    decreases n
  {
    if n >= 10 { DecLeads(n / 10); }
  }

  // A number that takes eight digits is at least 32.
  lemma DecLong(n: nat)
    requires |Dec(n)| > 3
    ensures n >= 32
  {
    if n < 1000 { DecLength(n, 3, 1000); }
  }

  // ----- lists of ranges -----

  datatype Range = Range(low: nat, high: nat)

  predicate Covers(r: Range, p: nat) {
    r.low <= p <= r.high
  }

  function Bits(r: Range): Mask {
    set p: nat | p <= r.high && Covers(r, p)
  }

  // One more than the highest bit.
  ghost function Top(mask: Mask): (t: nat)
    ensures forall p :: p in mask ==> p < t
    ensures t > 0 ==> t - 1 in mask
  {
    if mask == {} then 0
    else
      var p :| p in mask;
      var t := Top(mask - {p});
      assert forall q :: q in mask ==> q == p || q in mask - {p};
      if p < t then t else p + 1
  }

  lemma TopIs(mask: Mask, t: nat)
    requires forall p :: p in mask ==> p < t
    ensures Top(mask) <= t
  {
  }

  predicate More(mask: Mask, i: nat) {
    exists p :: p in mask && p >= i
  }

  // The next one bit, and the next zero bit.
  function NextIn(mask: Mask, i: nat): (j: nat)
    requires More(mask, i)
    ensures i <= j && j in mask && forall p :: i <= p < j ==> p !in mask
    decreases Top(mask) - i
  {
    if i in mask then i else NextIn(mask, i + 1)
  }

  function NextOut(mask: Mask, i: nat): (j: nat)
    ensures i <= j && j !in mask && forall p :: i <= p < j ==> p in mask
    decreases if i < Top(mask) then Top(mask) - i else 0
  {
    if i !in mask then i else NextOut(mask, i + 1)
  }

  // The runs of one bits from i on.
  function Runs(mask: Mask, i: nat): seq<Range>
    decreases if i < Top(mask) then Top(mask) - i else 0
  {
    if !More(mask, i) then []
    else
      var a := NextIn(mask, i);
      var b := NextOut(mask, a);
      [Range(a, b - 1)] + Runs(mask, b)
  }

  // Every run lies in the mask, and cannot be made longer.
  ghost predicate Maximal(mask: Mask, r: Range) {
    && r.low <= r.high && (forall p {:trigger Covers(r, p)} :: Covers(r, p) ==> p in mask)
    && r.high + 1 !in mask && (r.low > 0 ==> r.low - 1 !in mask)
  }

  ghost predicate Ascending(runs: seq<Range>) {
    forall j, k :: 0 <= j < k < |runs| ==> runs[j].high + 1 < runs[k].low
  }

  ghost predicate Covered(runs: seq<Range>, p: nat) {
    exists k :: 0 <= k < |runs| && Covers(runs[k], p)
  }

  // Either the start of the mask or a zero bit: no run begins earlier.
  predicate Boundary(mask: Mask, i: nat) {
    i == 0 || i - 1 !in mask || i !in mask
  }

  lemma FirstRun(mask: Mask, i: nat)
    requires Boundary(mask, i) && More(mask, i)
    ensures var a := NextIn(mask, i); var b := NextOut(mask, a);
      a < b && Maximal(mask, Range(a, b - 1)) && Boundary(mask, b) && Runs(mask, i) == [Range(a, b - 1)] + Runs(mask, b)
    ensures var b := NextOut(mask, NextIn(mask, i)); i < b && forall p :: p in mask && i <= p < b ==> Covers(Runs(mask, i)[0], p)
  {
  }

  /** The runs are the maximal ones, in order, and together they are the mask from i on. */
  ghost predicate RunsOf(mask: Mask, i: nat, runs: seq<Range>) {
    && (forall k :: 0 <= k < |runs| ==> Maximal(mask, runs[k]) && i <= runs[k].low)
    && Ascending(runs)
    && (forall p {:trigger Covered(runs, p)} :: p in mask && p >= i ==> Covered(runs, p))
  }

  lemma {:induction false} RunsAreMaximal(mask: Mask, i: nat)
    requires Boundary(mask, i)
    ensures RunsOf(mask, i, Runs(mask, i))
    decreases if i < Top(mask) then Top(mask) - i else 0
  {
    if More(mask, i) {
      FirstRun(mask, i);
      var a := NextIn(mask, i);
      var b := NextOut(mask, a);
      RunsAreMaximal(mask, b);
      PrependRun(mask, Range(a, b - 1), Runs(mask, b), i, b);
    } else {
      NoRuns(mask, i);
    }
  }

  lemma NoRuns(mask: Mask, i: nat)
    requires !More(mask, i)
    ensures RunsOf(mask, i, [])
  {
    assert forall p :: p in mask ==> p < i;
  }

  lemma PrependRun(mask: Mask, r: Range, rest: seq<Range>, i: nat, b: nat)
    requires r.high + 1 == b && i <= r.low < b && b !in mask && Maximal(mask, r)
    requires forall p :: p in mask && i <= p < b ==> Covers(r, p)
    requires RunsOf(mask, b, rest)
    ensures RunsOf(mask, i, [r] + rest)
  {
    var runs := [r] + rest;
    forall k | 0 < k < |runs| ensures runs[0].high + 1 < runs[k].low {
      assert Maximal(mask, rest[k - 1]) && Covers(rest[k - 1], rest[k - 1].low);
    }
    forall p | p in mask && p >= i ensures Covered(runs, p) {
      if p < b {
        assert Covers(runs[0], p);
      } else {
        assert Covered(rest, p);
        var k :| 0 <= k < |rest| && Covers(rest[k], p);
        assert Covers(runs[k + 1], p);
      }
    }
  }

  // ----- the list form -----

  function RunText(r: Range): string {
    if r.high > r.low then Dec(r.low) + "-" + Dec(r.high) else Dec(r.low)
  }

  function Texts(runs: seq<Range>): (texts: seq<string>)
    ensures |texts| == |runs| && forall k :: 0 <= k < |runs| ==> texts[k] == RunText(runs[k])
  {
    if runs == [] then [] else Texts(runs[..|runs| - 1]) + [RunText(runs[|runs| - 1])]
  }

  function ShowList(mask: Mask): string {
    var runs := Runs(mask, 0);
    if runs == [] then "" else Join(Texts(runs), ',')
  }

  function ParsePiece(s: string): Option<Mask> {
    if '-' in s then
      var ends := Split(s, '-');
      if |ends| != 2 || ParseInt(ends[0]).None? || ParseInt(ends[1]).None? then None
      else Some(Bits(Range(ParseInt(ends[0]).value, ParseInt(ends[1]).value)))
    else if ParseInt(s).None? then None
    else Some({ParseInt(s).value})
  }

  function ParsePieces(pieces: seq<string>): Option<Mask> {
    if pieces == [] then Some({})
    else
      var init, last := ParsePieces(pieces[..|pieces| - 1]), ParsePiece(pieces[|pieces| - 1]);
      if init.None? || last.None? then None else Some(init.value + last.value)
  }

  function ParseList(csl: string): Option<Mask> {
    ParsePieces(Split(csl, ','))
  }

  lemma PlainDec(n: nat, c: char)
    requires !IsDigit(c)
    ensures c !in Dec(n)
  {
  }

  lemma RunTextRoundTrip(r: Range)
    requires r.low <= r.high
    ensures ParsePiece(RunText(r)) == Some(Bits(r)) && ',' !in RunText(r)
  {
    DecRoundTrip(r.low);
    DecRoundTrip(r.high);
    PlainDec(r.low, '-');
    PlainDec(r.high, '-');
    PlainDec(r.low, ',');
    PlainDec(r.high, ',');
    if r.high > r.low {
      var ends := [Dec(r.low), Dec(r.high)];
      assert ends[1..] == [Dec(r.high)];
      assert RunText(r) == Join(ends, '-');
      assert RunText(r)[|Dec(r.low)|] == '-';
      SplitJoin(ends, '-');
    } else {
      assert Bits(r) == {r.low};
    }
  }

  function UnionOf(runs: seq<Range>): Mask {
    if runs == [] then {} else UnionOf(runs[..|runs| - 1]) + Bits(runs[|runs| - 1])
  }

  lemma {:induction false} UnionIs(runs: seq<Range>, p: nat)
    ensures p in UnionOf(runs) <==> Covered(runs, p)
    decreases |runs|
  {
    if runs != [] {
      var n := |runs| - 1;
      UnionIs(runs[..n], p);
      if Covered(runs, p) && !Covers(runs[n], p) {
        var k :| 0 <= k < |runs| && Covers(runs[k], p);
        assert Covers(runs[..n][k], p);
      }
      if Covered(runs[..n], p) {
        var k :| 0 <= k < n && Covers(runs[..n][k], p);
        assert Covers(runs[k], p);
      }
    }
  }

  lemma {:induction false} TextsRoundTrip(runs: seq<Range>)
    requires forall k :: 0 <= k < |runs| ==> runs[k].low <= runs[k].high
    ensures ParsePieces(Texts(runs)) == Some(UnionOf(runs))
    decreases |runs|
  {
    if runs != [] {
      TextsRoundTrip(runs[..|runs| - 1]);
      RunTextRoundTrip(runs[|runs| - 1]);
      assert Texts(runs)[..|runs| - 1] == Texts(runs[..|runs| - 1]);
    }
  }

  lemma RunsMakeMask(mask: Mask)
    ensures UnionOf(Runs(mask, 0)) == mask && RunsOf(mask, 0, Runs(mask, 0))
    ensures Runs(mask, 0) == [] <==> mask == {}
  {
    var runs := Runs(mask, 0);
    RunsAreMaximal(mask, 0);
    forall p: nat ensures p in UnionOf(runs) <==> p in mask {
      UnionIs(runs, p);
      if Covered(runs, p) {
        var k :| 0 <= k < |runs| && Covers(runs[k], p);
        assert Maximal(mask, runs[k]);
      }
    }
    if mask == {} { assert !More(mask, 0); }
  }

  lemma PiecesOfList(mask: Mask)
    requires mask != {}
    ensures |Texts(Runs(mask, 0))| >= 1 && Split(ShowList(mask), ',') == Texts(Runs(mask, 0))
  {
    var runs := Runs(mask, 0);
    RunsMakeMask(mask);
    forall k | 0 <= k < |runs| ensures ',' !in Texts(runs)[k] {
      assert Maximal(mask, runs[k]);
      RunTextRoundTrip(runs[k]);
    }
    SplitJoin(Texts(runs), ',');
  }

  /** Reading the list text of a mask gives the mask back, for every mask but zero, whose
      text is empty and is refused. */
  lemma ListRoundTrip(mask: Mask)
    ensures ParseList(ShowList(mask)) == if mask == {} then None else Some(mask)
  {
    var runs := Runs(mask, 0);
    RunsMakeMask(mask);
    if mask == {} {
      EmptyText();
    } else {
      PiecesOfList(mask);
      RunsRoundTrip(mask, runs);
    }
  }

  lemma EmptyText()
    ensures ParseList("").None?
  {
    assert Split("", ',') == [""] && [""][..0] == [] && ParsePiece("").None?;
  }

  lemma RunsRoundTrip(mask: Mask, runs: seq<Range>)
    requires forall k :: 0 <= k < |runs| ==> Maximal(mask, runs[k])
    ensures ParsePieces(Texts(runs)) == Some(UnionOf(runs))
  {
    assert forall k :: 0 <= k < |runs| ==> runs[k].low <= runs[k].high;
    TextsRoundTrip(runs);
  }

  // ----- the hexadecimal form -----

  function Bit(mask: Mask, p: nat): nat {
    if p in mask then 1 else 0
  }

  function Nibble(mask: Mask, k: nat): (v: nat)
    ensures v < 16
  {
    Bit(mask, 4 * k) + 2 * Bit(mask, 4 * k + 1) + 4 * Bit(mask, 4 * k + 2) + 8 * Bit(mask, 4 * k + 3)
  }

  // "%08x" of a value below 2^32
  function HexWord(mask: Mask): (s: string)
    ensures |s| == 8 && forall k :: 0 <= k < 8 ==> s[k] == DIGITS[Nibble(mask, 7 - k)]
  {
    seq(8, k requires 0 <= k < 8 => DIGITS[Nibble(mask, 7 - k)])
  }

  predicate IsHexDigit(c: char) {
    '0' <= c <= '9' || 'a' <= c <= 'f' || 'A' <= c <= 'F'
  }

  function HexValue(c: char): (v: nat)
    requires IsHexDigit(c)
    ensures v < 16
  {
    if c <= '9' then c as int - '0' as int
    else if c <= 'F' then c as int - 'A' as int + 10
    else c as int - 'a' as int + 10
  }

  predicate BitOf(v: nat, j: nat)
    requires v < 16 && j < 4
  {
    match j
    case 0 => v % 2 == 1
    case 1 => v / 2 % 2 == 1
    case 2 => v / 4 % 2 == 1
    case 3 => v / 8 % 2 == 1
  }

  predicate AllHex(s: string) {
    forall k :: 0 <= k < |s| ==> IsHexDigit(s[k])
  }

  predicate HexBit(s: string, p: nat)
    requires AllHex(s) && p < 4 * |s|
  {
    BitOf(HexValue(s[|s| - 1 - p / 4]), p % 4)
  }

  function HexBits(s: string): Mask
    requires AllHex(s)
  {
    set p: nat | p < 4 * |s| && HexBit(s, p)
  }

  function WithoutPrefix(s: string): string {
    if |s| > 2 && s[0] == '0' && (s[1] == 'x' || s[1] == 'X') then s[2..] else s
  }

  // int(s, 16)
  function ParseHexInt(s: string): Option<Mask> {
    var digits := WithoutPrefix(s);
    if digits == [] || !AllHex(digits) then None else Some(HexBits(digits))
  }

  lemma DigitsAreHex(v: nat)
    requires v < 16
    ensures IsHexDigit(DIGITS[v]) && HexValue(DIGITS[v]) == v
  {
  }

  lemma NibbleBits(mask: Mask, k: nat, j: nat)
    requires j < 4
    ensures BitOf(Nibble(mask, k), j) <==> 4 * k + j in mask
  {
    match j
    case 0 =>
    case 1 =>
    case 2 =>
    case 3 =>
  }

  lemma WordIsHex(mask: Mask)
    ensures AllHex(HexWord(mask)) && WithoutPrefix(HexWord(mask)) == HexWord(mask) && ',' !in HexWord(mask)
  {
    var s := HexWord(mask);
    forall k | 0 <= k < 8 ensures IsHexDigit(s[k]) {
      DigitsAreHex(Nibble(mask, 7 - k));
    }
    assert IsHexDigit(s[1]);
  }

  lemma WordBit(mask: Mask, p: nat)
    requires p < 32 && AllHex(HexWord(mask))
    ensures HexBit(HexWord(mask), p) <==> p in mask
  {
    var k := 7 - p / 4;
    assert HexWord(mask)[k] == DIGITS[Nibble(mask, 7 - k)];
    DigitsAreHex(Nibble(mask, 7 - k));
    NibbleBits(mask, p / 4, p % 4);
  }

  lemma WordRoundTrip(mask: Mask)
    requires forall p :: p in mask ==> p < 32
    ensures ParseHexInt(HexWord(mask)) == Some(mask) && ',' !in HexWord(mask)
  {
    WordIsHex(mask);
    forall p: nat | p < 32 ensures HexBit(HexWord(mask), p) <==> p in mask {
      WordBit(mask, p);
    }
    BitsMakeMask(HexWord(mask), mask);
  }

  lemma BitsMakeMask(s: string, mask: Mask)
    requires AllHex(s) && (forall p :: p in mask ==> p < 4 * |s|)
    requires forall p: nat {:trigger HexBit(s, p)} :: p < 4 * |s| ==> (HexBit(s, p) <==> p in mask)
    ensures HexBits(s) == mask
  {
    assert forall p: nat :: p in mask ==> p < 4 * |s| && HexBit(s, p);
  }

  function Low(mask: Mask): Mask {
    set p | p in mask && p < 32
  }

  function ShiftDown(mask: Mask): Mask {
    set p | p in mask && p >= 32 :: p - 32
  }

  function ShiftUp(mask: Mask): Mask {
    set p | p in mask :: p + 32
  }

  lemma ShiftShrinks(mask: Mask)
    requires mask != {}
    ensures Top(ShiftDown(mask)) < Top(mask)
  {
    var p :| p in mask;
    if Top(ShiftDown(mask)) > 0 { assert Top(ShiftDown(mask)) - 1 in ShiftDown(mask); }
  }

  lemma ShiftOrLow(mask: Mask)
    ensures ShiftUp(ShiftDown(mask)) + Low(mask) == mask
  {
    forall p: nat ensures p in ShiftUp(ShiftDown(mask)) + Low(mask) <==> p in mask {
      if p >= 32 && p in mask { assert p - 32 in ShiftDown(mask); }
    }
  }

  // The words of a mask, the highest first.
  function WordTexts(mask: Mask): (words: seq<string>)
    ensures |words| >= 1 && forall k :: 0 <= k < |words| ==> |words[k]| == 8
    decreases Top(mask)
  {
    if ShiftDown(mask) == {} then [HexWord(Low(mask))]
    else
      assert mask != {};
      ShiftShrinks(mask);
      WordTexts(ShiftDown(mask)) + [HexWord(Low(mask))]
  }

  function ShowHex(mask: Mask): string {
    Join(WordTexts(mask), ',')
  }

  function ParseWords(pieces: seq<string>): Option<Mask> {
    if pieces == [] then Some({})
    else
      var init, last := ParseWords(pieces[..|pieces| - 1]), ParseHexInt(pieces[|pieces| - 1]);
      if init.None? || last.None? then None else Some(ShiftUp(init.value) + last.value)
  }

  function ParseHex(cshm: string): Option<Mask> {
    ParseWords(Split(cshm, ','))
  }

  lemma {:induction false} WordsRoundTrip(mask: Mask)
    ensures ParseWords(WordTexts(mask)) == Some(mask)
    decreases Top(mask)
  {
    var words, low, high := WordTexts(mask), Low(mask), ShiftDown(mask);
    if high == {} {
      assert words[..0] == [] && words[|words| - 1] == HexWord(low);
    } else {
      assert mask != {};
      ShiftShrinks(mask);
      WordsRoundTrip(high);
      assert words[..|words| - 1] == WordTexts(high) && words[|words| - 1] == HexWord(low);
    }
    WordRoundTrip(low);
    ShiftOrLow(mask);
  }

  lemma {:induction false} WordsAreHex(mask: Mask)
    ensures forall k :: 0 <= k < |WordTexts(mask)| ==> ',' !in WordTexts(mask)[k] && ParseHexInt(WordTexts(mask)[k]).Some?
    decreases Top(mask)
  {
    WordRoundTrip(Low(mask));
    if ShiftDown(mask) != {} {
      assert mask != {};
      ShiftShrinks(mask);
      WordsAreHex(ShiftDown(mask));
    }
  }

  lemma PiecesOfHex(mask: Mask)
    ensures Split(ShowHex(mask), ',') == WordTexts(mask)
  {
    WordsAreHex(mask);
    SplitJoin(WordTexts(mask), ',');
  }

  /** Reading the hexadecimal text of a mask gives the mask back, for every mask. */
  lemma HexRoundTrip(mask: Mask)
    ensures ParseHex(ShowHex(mask)) == Some(mask)
  {
    PiecesOfHex(mask);
    WordsRoundTrip(mask);
  }

  // ----- telling the forms apart -----

  predicate IsPrefixedHex(s: string) {
    ParseHexInt(s).Some? && |s| >= 2 && s[..2] == "0x"
  }

  predicate IsCommaSepHex(s: string) {
    if ',' !in s && |s| < 8 then IsPrefixedHex(s)
    else
      var pieces := Split(s, ',');
      forall k :: 0 <= k < |pieces| ==> |pieces[k]| == 8 && ParseHexInt(pieces[k]).Some?
  }

  // The regular expression is not anchored at the end: only the first character counts.
  predicate IsCommaSepList(s: string) {
    var pieces := Split(s, ',');
    forall k :: 0 <= k < |pieces| ==> 0 < |pieces[k]| <= 7 && IsDigit(pieces[k][0])
  }

  // to_int on text; None is the exception.
  function ToInt(s: string): Option<Mask> {
    if IsCommaSepHex(s) then ParseHex(s) else if IsCommaSepList(s) then ParseList(s) else None
  }

  /** Hexadecimal text is always recognised as such. */
  lemma HexTextIsRead(mask: Mask)
    ensures ToInt(ShowHex(mask)) == Some(mask)
  {
    PiecesOfHex(mask);
    WordsAreHex(mask);
    HexRoundTrip(mask);
    if ',' !in ShowHex(mask) { assert WordTexts(mask) == [ShowHex(mask)]; }
  }

  predicate Short(mask: Mask) {
    forall k :: 0 <= k < |Runs(mask, 0)| ==> |RunText(Runs(mask, 0)[k])| <= 7
  }

  lemma RunTextStarts(r: Range)
    ensures |RunText(r)| > 0 && IsDigit(RunText(r)[0])
    ensures |RunText(r)| > 1 ==> RunText(r)[1] == '-' || IsDigit(RunText(r)[1])
  {
    var s, d := RunText(r), Dec(r.low);
    assert s[0] == d[0];
    if |s| > 1 && |d| > 1 { assert s[1] == d[1]; }
  }

  lemma RangeIsNotHex(r: Range)
    requires r.high > r.low
    ensures ParseHexInt(RunText(r)).None?
  {
    RunTextStarts(r);
    assert WithoutPrefix(RunText(r)) == RunText(r);
    assert RunText(r)[|Dec(r.low)|] == '-';
  }

  lemma NoPrefix(r: Range)
    ensures !IsPrefixedHex(RunText(r))
  {
    RunTextStarts(r);
    if |RunText(r)| >= 2 { assert RunText(r)[..2][1] == RunText(r)[1]; }
  }

  // Eight decimal digits read as hexadecimal have a bit below 32; the number is above that.
  lemma MisreadPiece(n: nat)
    requires |Dec(n)| == 8
    ensures n >= 32 && ParseHexInt(Dec(n)).Some? && exists p :: p in ParseHexInt(Dec(n)).value && p < 32
  {
    var s := Dec(n);
    DecLong(n);
    DecLeads(n);
    assert IsDigit(s[1]) && WithoutPrefix(s) == s && AllHex(s);
    var v := HexValue(s[0]);
    assert 0 < v < 10;
    var j := if v % 2 == 1 then 0 else if v / 2 % 2 == 1 then 1 else if v / 4 % 2 == 1 then 2 else 3;
    assert BitOf(v, j);
    assert HexBit(s, 28 + j);
    assert 28 + j in HexBits(s);
  }

  // When a list text is taken for hexadecimal, every piece is one number of eight digits.
  lemma HexLikeList(mask: Mask)
    requires mask != {} && IsCommaSepHex(ShowList(mask))
    ensures |Runs(mask, 0)| > 0 && Split(ShowList(mask), ',') == Texts(Runs(mask, 0))
    ensures forall k :: 0 <= k < |Runs(mask, 0)| ==> |Dec(Runs(mask, 0)[k].low)| == 8 && RunText(Runs(mask, 0)[k]) == Dec(Runs(mask, 0)[k].low)
  {
    PiecesOfList(mask);
    var runs, s := Runs(mask, 0), ShowList(mask);
    var pieces := Split(s, ',');
    NoPrefix(runs[0]);
    assert ',' !in s ==> pieces == [s] && pieces[0] == RunText(runs[0]);
    forall k | 0 <= k < |runs| ensures |Dec(runs[k].low)| == 8 && RunText(runs[k]) == Dec(runs[k].low) {
      assert |pieces[k]| == 8 && ParseHexInt(pieces[k]).Some? && pieces[k] == RunText(runs[k]);
      if runs[k].high > runs[k].low { RangeIsNotHex(runs[k]); }
    }
  }

  lemma ListIsNotHex(mask: Mask)
    requires mask != {} && IsCommaSepHex(ShowList(mask))
    ensures ParseHex(ShowList(mask)) != Some(mask) && !Short(mask)
  {
    HexLikeList(mask);
    var runs := Runs(mask, 0);
    var pieces, n := Split(ShowList(mask), ','), |runs| - 1;
    assert |RunText(runs[n])| == 8 && pieces[n] == Dec(runs[n].low);
    MisreadPiece(runs[n].low);
    var p :| p in ParseHexInt(pieces[n]).value && p < 32;
    NoLowBit(mask, p);
    LastWordStays(pieces, p);
  }

  // The bits of the last word are bits of the whole.
  lemma LastWordStays(pieces: seq<string>, p: nat)
    requires pieces != [] && ParseHexInt(pieces[|pieces| - 1]).Some? && p in ParseHexInt(pieces[|pieces| - 1]).value
    ensures ParseWords(pieces).Some? ==> p in ParseWords(pieces).value
  {
  }

  lemma NoLowBit(mask: Mask, p: nat)
    requires p < 32 && forall k :: 0 <= k < |Runs(mask, 0)| ==> |Dec(Runs(mask, 0)[k].low)| == 8
    ensures p !in mask
  {
    var runs := Runs(mask, 0);
    RunsMakeMask(mask);
    if p in mask {
      assert Covered(runs, p);
      var k :| 0 <= k < |runs| && Covers(runs[k], p);
      DecLong(runs[k].low);
    }
  }

  /** List text is taken for a list, and read correctly, exactly when the mask is not zero
      and every piece has at most seven characters. */
  lemma ListTextIsReadIff(mask: Mask)
    ensures ToInt(ShowList(mask)) == Some(mask) <==> mask != {} && Short(mask)
  {
    ListRoundTrip(mask);
    if mask == {} {
      RunsMakeMask(mask);
      assert ShowList(mask) == "" && Split("", ',') == [""] && !IsCommaSepList("");
    } else if IsCommaSepHex(ShowList(mask)) {
      ListIsNotHex(mask);
    } else {
      RecognisedIff(mask);
    }
  }

  lemma RecognisedIff(mask: Mask)
    requires mask != {}
    ensures IsCommaSepList(ShowList(mask)) <==> Short(mask)
  {
    PiecesOfList(mask);
    ShortTexts(Runs(mask, 0), Texts(Runs(mask, 0)));
  }

  lemma ShortTexts(runs: seq<Range>, texts: seq<string>)
    requires |texts| == |runs| && forall k :: 0 <= k < |runs| ==> texts[k] == RunText(runs[k])
    ensures (forall k :: 0 <= k < |texts| ==> 0 < |texts[k]| <= 7 && IsDigit(texts[k][0])) <==>
      (forall k :: 0 <= k < |runs| ==> |RunText(runs[k])| <= 7)
  {
    forall k | 0 <= k < |runs| ensures |texts[k]| > 0 && IsDigit(texts[k][0]) {
      RunTextStarts(runs[k]);
    }
  }

  /** In particular every mask of processors below 1000. */
  lemma SmallIsShort(mask: Mask)
    requires forall p :: p in mask ==> p < 1000
    ensures Short(mask)
  {
    RunsMakeMask(mask);
    var runs := Runs(mask, 0);
    forall k | 0 <= k < |runs| ensures |RunText(runs[k])| <= 7 {
      assert Maximal(mask, runs[k]) && Covers(runs[k], runs[k].low) && Covers(runs[k], runs[k].high);
      DecLength(runs[k].low, 3, 1000);
      DecLength(runs[k].high, 3, 1000);
    }
  }

  // ----- the code -----

  ghost predicate AtLeast(mask: Mask, i: nat) {
    forall p :: p in mask ==> p >= i
  }

  ghost function Span(rest: Mask, high: nat): nat
    requires AtLeast(rest, high)
  {
    if rest == {} then 0 else Top(rest) - high + 1
  }

  lemma SpanShrinks(rest: Mask, high: nat)
    requires rest != {} && AtLeast(rest, high)
    ensures AtLeast(rest - {high}, high + 1) && Span(rest - {high}, high + 1) < Span(rest, high)
  {
    var next := rest - {high};
    if next != {} { assert Top(next) - 1 in next; }
  }

  // What the loop adds to the text at bit high, and where it takes the current run to begin.
  function NextLow(bit: bool, low: int, high: nat): int {
    if bit then if low < 0 then high else low else -1
  }

  function NextText(bit: bool, low: int, high: nat, r: string): string
    requires low < high
  {
    if !bit && low >= 0 then r + "," + RunText(Range(low, high - 1)) else r
  }

  // The loop, from bit high on.
  function Scan(rest: Mask, low: int, high: nat, r: string): string
    requires AtLeast(rest, high) && low < high
    decreases Span(rest, high)
  {
    var more, begin := NextText(high in rest, low, high, r), NextLow(high in rest, low, high);
    if rest == {} then Stripped(more)
    else
      SpanShrinks(rest, high);
      Scan(rest - {high}, begin, high + 1, more)
  }

  method IntToCommaSepList(mask: Mask) returns (r: string)
    ensures r == ShowList(mask)
  {
    assert From(mask, 0) == mask;
    ScanIsShow(mask, mask, -1, 0, 0, [], "");
    var rest, low, high := mask, -1, 0;
    r := "";
    while true
      invariant high >= 0 && low < high && AtLeast(rest, high) && Scan(rest, low, high, r) == ShowList(mask)
      decreases Span(rest, high)
    {
      ghost var next, begin := NextText(high in rest, low, high, r), NextLow(high in rest, low, high);
      if high in rest {
        if low < 0 { low := high; }
      } else if low >= 0 {
        if high - low > 1 {
          r := r + "," + (Dec(low) + "-" + Dec(high - 1));
        } else {
          r := r + "," + Dec(low);
        }
        low := -1;
      }
      assert r == next && low == begin;
      if rest == {} { break; }
      SpanShrinks(rest, high);
      rest := rest - {high};
      high := high + 1;
    }
    if r != "" { r := r[1..]; }
  }

  // low is where the current run began, or -1, and the runs from at on have not been printed.
  ghost predicate Listing(mask: Mask, low: int, high: nat, at: nat) {
    low < high && at == (if low >= 0 then low else high) && (low >= 0 ==> AllOnes(mask, low, high))
  }

  ghost predicate AllOnes(mask: Mask, low: nat, high: nat) {
    forall p :: low <= p < high ==> p in mask
  }

  lemma {:induction false} ScanIsShow(mask: Mask, rest: Mask, low: int, high: nat, at: nat, done: seq<Range>, r: string)
    requires rest == From(mask, high) && AtLeast(rest, high) && Listing(mask, low, high, at) && Printed(mask, done, at, r)
    ensures Scan(rest, low, high, r) == ShowList(mask)
    decreases Span(rest, high)
  {
    var printed, from := ScanStep(mask, rest, low, high, at, done, r);
    if rest != {} {
      SpanShrinks(rest, high);
      FromNext(mask, high);
      ScanIsShow(mask, rest - {high}, NextLow(high in rest, low, high), high + 1, from, printed, NextText(high in rest, low, high, r));
    }
  }

  lemma ScanStep(mask: Mask, rest: Mask, low: int, high: nat, at: nat, done: seq<Range>, r: string)
    returns (printed: seq<Range>, from: nat)
    requires rest == From(mask, high) && Listing(mask, low, high, at) && Printed(mask, done, at, r)
    ensures Listing(mask, NextLow(high in rest, low, high), high + 1, from)
    ensures Printed(mask, printed, from, NextText(high in rest, low, high, r))
    ensures rest == {} ==> Stripped(NextText(high in rest, low, high, r)) == ShowList(mask)
  {
    FromNext(mask, high);
    if high in rest {
      printed, from := done, NextLow(true, low, high);
    } else {
      printed, from := done, high + 1;
      if low >= 0 {
        Emit(mask, done, low, high, r);
        printed := done + [Range(low, high - 1)];
      }
      ScanZero(mask, rest, high, printed, NextText(false, low, high, r));
    }
  }

  function Stripped(r: string): string {
    if r == "" then "" else r[1..]
  }

  lemma ScanZero(mask: Mask, rest: Mask, high: nat, done: seq<Range>, r: string)
    requires rest == From(mask, high) && high !in mask && Printed(mask, done, high, r)
    ensures Printed(mask, done, high + 1, r)
    ensures rest == {} ==> Stripped(r) == ShowList(mask)
  {
    SkipZero(mask, high);
    if rest == {} { AllPrinted(mask, done, high, r); }
  }

  function From(mask: Mask, i: nat): Mask {
    set p | p in mask && p >= i
  }

  lemma FromNext(mask: Mask, i: nat)
    ensures From(mask, i) - {i} == From(mask, i + 1) && (i in From(mask, i) <==> i in mask)
    ensures From(mask, i) != {} ==> i < Top(mask)
  {
  }

  // The runs that begin before i have been printed.
  ghost predicate Printed(mask: Mask, done: seq<Range>, i: nat, r: string) {
    done + Runs(mask, i) == Runs(mask, 0) && r == Commas(done)
  }

  lemma Emit(mask: Mask, done: seq<Range>, low: nat, high: nat, r: string)
    requires Printed(mask, done, low, r)
    requires low < high && high !in mask && AllOnes(mask, low, high)
    ensures Printed(mask, done + [Range(low, high - 1)], high, r + "," + RunText(Range(low, high - 1)))
  {
    var run := Range(low, high - 1);
    NextRun(mask, low, high);
    assert done + [run] + Runs(mask, high) == done + ([run] + Runs(mask, high));
    assert (done + [run])[..|done|] == done;
  }

  lemma AllPrinted(mask: Mask, done: seq<Range>, i: nat, r: string)
    requires Printed(mask, done, i, r) && From(mask, i) == {}
    ensures Stripped(r) == ShowList(mask)
  {
    assert forall p :: p in mask && p >= i ==> p in From(mask, i);
    assert done == Runs(mask, 0);
    CommasAreJoin(done);
  }

  // Every run after a comma.
  function Commas(runs: seq<Range>): string {
    if runs == [] then "" else Commas(runs[..|runs| - 1]) + "," + RunText(runs[|runs| - 1])
  }

  lemma {:induction false} CommasAreJoin(runs: seq<Range>)
    ensures runs == [] ==> Commas(runs) == ""
    ensures runs != [] ==> Commas(runs) == "," + Join(Texts(runs), ',')
    decreases |runs|
  {
    if |runs| > 1 {
      var init, last := runs[..|runs| - 1], runs[|runs| - 1];
      CommasAreJoin(init);
      JoinLast(Texts(init), RunText(last), ',');
      assert Texts(init) + [RunText(last)] == Texts(runs);
    }
  }

  lemma NextRun(mask: Mask, low: nat, high: nat)
    requires low < high && high !in mask && AllOnes(mask, low, high)
    ensures Runs(mask, low) == [Range(low, high - 1)] + Runs(mask, high)
  {
    assert low in mask && NextIn(mask, low) == low;
    var b := NextOut(mask, low);
    assert b == high;
  }

  lemma SkipZero(mask: Mask, i: nat)
    ensures i !in mask ==> Runs(mask, i) == Runs(mask, i + 1)
  {
    if i !in mask && More(mask, i) {
      var p :| p in mask && p >= i;
      assert p >= i + 1 && More(mask, i + 1);
      assert NextIn(mask, i) == NextIn(mask, i + 1);
    }
  }

  method CommaSepListToInt(csl: string) returns (mask: Option<Mask>)
    ensures mask == ParseList(csl)
  {
    var pieces, bits := Split(csl, ','), {};
    for k := 0 to |pieces|
      invariant ParsePieces(pieces[..k]) == Some(bits)
    {
      assert pieces[..k + 1][..k] == pieces[..k] && pieces[..k + 1][k] == pieces[k];
      if ParsePiece(pieces[k]).None? {
        NoneStays(pieces, k);
        return None;
      }
      if '-' in pieces[k] {
        var ends := Split(pieces[k], '-');
        var a, b := ParseInt(ends[0]).value, ParseInt(ends[1]).value;
        ghost var start := bits;
        var i := a;
        while i < b + 1
          invariant a <= i && (i <= b + 1 || (a > b && i == a))
          invariant bits == start + set p: nat | p < i && Covers(Range(a, b), p)
        {
          bits := bits + {i};
          i := i + 1;
        }
        assert (set p: nat | p < i && Covers(Range(a, b), p)) == Bits(Range(a, b));
      } else {
        bits := bits + {ParseInt(pieces[k]).value};
      }
    }
    assert pieces[..|pieces|] == pieces;
    return Some(bits);
  }

  lemma {:induction false} NoneStays(pieces: seq<string>, k: nat)
    requires k < |pieces| && ParsePiece(pieces[k]).None?
    ensures ParsePieces(pieces).None?
    decreases |pieces|
  {
    if k < |pieces| - 1 { NoneStays(pieces[..|pieces| - 1], k); }
  }

  method IntToCommaSepHex(mask: Mask) returns (cshm: string)
    ensures cshm == ShowHex(mask)
  {
    cshm := HexWord(Low(mask));
    var rest := ShiftDown(mask);
    if rest != {} {
      ShiftShrinks(mask);
      JoinLast(WordTexts(rest), cshm, ',');
    }
    while rest != {}
      invariant ShowHex(mask) == if rest == {} then cshm else ShowHex(rest) + "," + cshm
      decreases Top(rest)
    {
      ShiftShrinks(rest);
      var next := ShiftDown(rest);
      if next != {} { JoinLast(WordTexts(next), HexWord(Low(rest)), ','); }
      cshm := HexWord(Low(rest)) + "," + cshm;
      rest := next;
    }
  }

  method CommaSepHexToInt(cshm: string) returns (mask: Option<Mask>)
    ensures mask == ParseHex(cshm)
  {
    var pieces, bits := Split(cshm, ','), {};
    for k := 0 to |pieces|
      invariant ParseWords(pieces[..k]) == Some(bits)
    {
      assert pieces[..k + 1][..k] == pieces[..k] && pieces[..k + 1][k] == pieces[k];
      if ParseHexInt(pieces[k]).None? {
        NoWordStays(pieces, k);
        return None;
      }
      bits := ShiftUp(bits) + ParseHexInt(pieces[k]).value;
    }
    assert pieces[..|pieces|] == pieces;
    return Some(bits);
  }

  lemma {:induction false} NoWordStays(pieces: seq<string>, k: nat)
    requires k < |pieces| && ParseHexInt(pieces[k]).None?
    ensures ParseWords(pieces).None?
    decreases |pieces|
  {
    if k < |pieces| - 1 { NoWordStays(pieces[..|pieces| - 1], k); }
  }
}
