/**
 Bit fields in hardware structures: reading, building and replacing fields of a structure
 that is kept as 32-bit or as 64-bit elements. A number is the sequence of its bits, the
 least significant first.
 */
module Bitfield {
  type Bits = seq<bool>

  // A field occupies bits low to high; the dummy field has low 0 and high -1.
  datatype Field = Field(low: nat, high: int)

  function Width(f: Field): int {
    f.high + 1 - f.low
  }

  predicate Within(f: Field, p: int) {
    f.low <= p <= f.high
  }

  // ----- machine words -----

  function Zeros(n: nat): (r: Bits)
    ensures |r| == n && forall i {:trigger r[i]} :: 0 <= i < n ==> !r[i]
  {
    seq(n, i => false)
  }

  function Or(a: Bits, b: Bits): (r: Bits)
    requires |a| == |b|
    ensures |r| == |a| && forall i {:trigger r[i]} :: 0 <= i < |r| ==> r[i] == (a[i] || b[i])
  {
    seq(|a|, i requires 0 <= i < |a| => a[i] || b[i])
  }

  function And(a: Bits, b: Bits): (r: Bits)
    requires |a| == |b|
    ensures |r| == |a| && forall i {:trigger r[i]} :: 0 <= i < |r| ==> r[i] == (a[i] && b[i])
  {
    seq(|a|, i requires 0 <= i < |a| => a[i] && b[i])
  }

  function Not(a: Bits): (r: Bits)
    ensures |r| == |a| && forall i {:trigger r[i]} :: 0 <= i < |r| ==> r[i] == !a[i]
  {
    seq(|a|, i requires 0 <= i < |a| => !a[i])
  }

  // A shift by the width of the word or more has no meaning in C.
  function ShiftLeft(a: Bits, s: nat): (r: Bits)
    requires s < |a|
    ensures |r| == |a| && forall i {:trigger r[i]} :: 0 <= i < |r| ==> r[i] == (i >= s && a[i - s])
  {
    seq(|a|, i requires 0 <= i < |a| => i >= s && a[i - s])
  }

  function ShiftRight(a: Bits, s: nat): (r: Bits)
    requires s < |a|
    ensures |r| == |a| && forall i {:trigger r[i]} :: 0 <= i < |r| ==> r[i] == (i + s < |a| && a[i + s])
  {
    seq(|a|, i requires 0 <= i < |a| => i + s < |a| && a[i + s])
  }

  // EFX_MASK32 and EFX_MASK64
  function Mask(w: nat, width: nat): (r: Bits)
    requires width <= w
    ensures |r| == w && forall i {:trigger r[i]} :: 0 <= i < w ==> r[i] == (i < width)
  {
    seq(w, i => i < width)
  }

  // A conversion between the two widths.
  function Resize(a: Bits, w: nat): (r: Bits)
    ensures |r| == w && forall i {:trigger r[i]} :: 0 <= i < w ==> r[i] == (i < |a| && a[i])
  {
    seq(w, i requires 0 <= i < w => i < |a| && a[i])
  }

  // ----- structures -----

  predicate Elements(words: seq<Bits>, w: nat) {
    w > 0 && forall k :: 0 <= k < |words| ==> |words[k]| == w
  }

  // Where element k begins.
  function Start(w: nat, k: nat): nat {
    if k == 0 then 0 else Start(w, k - 1) + w
  }

  // The bits of the first k elements.
  function FlatTo(words: seq<Bits>, k: nat): Bits
    requires k <= |words|
  {
    if k == 0 then [] else FlatTo(words, k - 1) + words[k - 1]
  }

  // All the bits of a structure.
  function Flat(words: seq<Bits>): Bits {
    FlatTo(words, |words|)
  }

  // EFX_EXTRACT_NATIVE; the element holds bits from min on.
  function ExtractNative(element: Bits, min: nat, f: Field): (r: Bits)
    requires f.low <= f.high && Width(f) <= |element|
    ensures |r| == |element|
  {
    var max := min + |element| - 1;
    if f.low > max || f.high < min then Zeros(|element|)
    else if f.low > min then ShiftRight(element, f.low - min)
    else ShiftLeft(element, min - f.low)
  }

  // The part of the field in the first k elements.
  function Gather(words: seq<Bits>, w: nat, k: nat, f: Field): (r: Bits)
    requires Elements(words, w) && f.low <= f.high && Width(f) <= w && k <= |words|
    ensures |r| == w
  {
    if k == 0 then Zeros(w) else Or(Gather(words, w, k - 1, f), ExtractNative(words[k - 1], Start(w, k - 1), f))
  }

  // EFX_EXTRACT_OWORD64 and its kin.
  function Extract(words: seq<Bits>, w: nat, f: Field): (r: Bits)
    requires Elements(words, w) && f.low <= f.high && Width(f) <= w
    ensures |r| == w
  {
    And(Gather(words, w, |words|, f), Mask(w, Width(f)))
  }

  // EFX_INSERT_NATIVE for an element of w bits, before it is stored; value is a u64.
  function InsertNative(w: nat, min: nat, f: Field, value: Bits): (r: Bits)
    requires (w == 32 || w == 64) && |value| == 64 && Width(f) <= 64
    ensures |r| == 64
  {
    var max := min + w - 1;
    if max - min >= 32 || f.high - f.low >= 32 then InsertIn(value, min, max, f)
    else Resize(InsertIn(Resize(value, 32), min, max, f), 64)
  }

  function InsertIn(value: Bits, min: nat, max: nat, f: Field): (r: Bits)
    requires Width(f) <= |value| && max - min < |value|
    ensures |r| == |value|
  {
    if f.low > max || f.high < min then Zeros(|value|)
    else if f.low > min then ShiftLeft(value, f.low - min)
    else ShiftRight(value, min - f.low)
  }

  datatype Setting = Setting(field: Field, value: Bits)

  predicate SettingOk(s: Setting) {
    |s.value| == 64 && Width(s.field) <= 64
  }

  predicate AllOk(settings: seq<Setting>) {
    forall k :: 0 <= k < |settings| ==> SettingOk(settings[k])
  }

  // EFX_INSERT_FIELDS_NATIVE
  function InsertFields(w: nat, min: nat, settings: seq<Setting>): (r: Bits)
    requires (w == 32 || w == 64) && AllOk(settings)
    ensures |r| == 64
  {
    if settings == [] then Zeros(64)
    else Or(InsertNative(w, min, settings[0].field, settings[0].value), InsertFields(w, min, settings[1..]))
  }

  function Element(w: nat, k: nat, settings: seq<Setting>): (r: Bits)
    requires (w == 32 || w == 64) && AllOk(settings)
    ensures |r| == w
  {
    Resize(InsertFields(w, Start(w, k), settings), w)
  }

  // EFX_POPULATE_OWORD64 and its kin, with n elements.
  function Populate(w: nat, n: nat, settings: seq<Setting>): (r: seq<Bits>)
    requires (w == 32 || w == 64) && AllOk(settings)
    ensures |r| == n && Elements(r, w) && forall k :: 0 <= k < n ==> r[k] == Element(w, k, settings)
  {
    seq(n, k requires 0 <= k < n => Element(w, k, settings))
  }

  // The element at min with the part of the field in it replaced.
  function SetElement(word: Bits, w: nat, min: nat, f: Field, value: Bits): (r: Bits)
    requires (w == 32 || w == 64) && |word| == w && |value| == 64 && 0 <= Width(f) <= w
    ensures |r| == w
  {
    var mask := Resize(InsertNative(w, min, f, Resize(Mask(w, Width(f)), 64)), w);
    Or(And(word, Not(mask)), Resize(InsertNative(w, min, f, value), w))
  }

  // EFX_SET_OWORD64 and its kin.
  function Set(words: seq<Bits>, w: nat, f: Field, value: Bits): (r: seq<Bits>)
    requires (w == 32 || w == 64) && Elements(words, w) && |value| == 64 && 0 <= Width(f) <= w
    ensures |r| == |words| && Elements(r, w)
    ensures forall k {:trigger r[k]} :: 0 <= k < |r| ==> r[k] == SetElement(words[k], w, Start(w, k), f, value)
  {
    seq(|words|, k requires 0 <= k < |words| => SetElement(words[k], w, Start(w, k), f, value))
  }

  // ----- what the bits are -----

  // The value has no bits beyond the field.
  predicate Fits(f: Field, value: Bits) {
    forall i :: 0 <= i < |value| && i >= Width(f) ==> !value[i]
  }

  predicate BitOf(f: Field, value: Bits, p: int) {
    Within(f, p) && p - f.low < |value| && value[p - f.low]
  }

  lemma {:induction false} FlatLength(words: seq<Bits>, w: nat, k: nat)
    requires Elements(words, w) && k <= |words|
    ensures |FlatTo(words, k)| == Start(w, k)
    decreases k
  {
    if k > 0 { FlatLength(words, w, k - 1); }
  }

  lemma ExtractBit(element: Bits, min: nat, f: Field, i: nat)
    requires f.low <= f.high && Width(f) <= |element| && i < Width(f)
    ensures ExtractNative(element, min, f)[i] == (min <= f.low + i < min + |element| && element[f.low + i - min])
  {
  }

  // Bit i of what has been gathered is the field's bit i in what has been passed.
  predicate ReadsAs(gathered: Bits, flat: Bits, f: Field, i: nat) {
    i < |gathered| && gathered[i] == (f.low + i < |flat| && flat[f.low + i])
  }

  lemma {:induction false} GatherBit(words: seq<Bits>, w: nat, k: nat, f: Field, i: nat)
    requires Elements(words, w) && f.low <= f.high && Width(f) <= w && i < Width(f) && k <= |words|
    ensures ReadsAs(Gather(words, w, k, f), FlatTo(words, k), f, i)
    decreases k
  {
    if k > 0 {
      var gathered, element, flat, min := Gather(words, w, k - 1, f), words[k - 1], FlatTo(words, k - 1), Start(w, k - 1);
      FlatLength(words, w, k - 1);
      GatherBit(words, w, k - 1, f, i);
      OrBit(gathered, element, flat, min, f, i);
    }
  }

  lemma OrBit(gathered: Bits, element: Bits, flat: Bits, min: nat, f: Field, i: nat)
    requires f.low <= f.high && Width(f) <= |element| == |gathered| && i < Width(f) && |flat| == min
    requires ReadsAs(gathered, flat, f, i)
    ensures ReadsAs(Or(gathered, ExtractNative(element, min, f)), flat + element, f, i)
  {
    ExtractBit(element, min, f, i);
    OneOfTwo(flat, element, f.low + i, gathered[i], ExtractNative(element, min, f)[i]);
  }

  // A bit of two parts side by side is a bit of the one or of the other.
  lemma OneOfTwo(a: Bits, b: Bits, p: nat, here: bool, later: bool)
    requires here == (p < |a| && a[p])
    requires later == (|a| <= p < |a| + |b| && b[p - |a|])
    ensures (here || later) == (p < |a + b| && (a + b)[p])
  {
  }

  /** Extracting a field gives its bits in the structure and nothing else, however many
      elements the field lies in. */
  lemma ExtractIs(words: seq<Bits>, w: nat, f: Field)
    requires Elements(words, w) && f.low <= f.high < |Flat(words)| && Width(f) <= w
    ensures forall i :: 0 <= i < w ==> Extract(words, w, f)[i] == (i < Width(f) && Flat(words)[f.low + i])
  {
    forall i | 0 <= i < w ensures Extract(words, w, f)[i] == (i < Width(f) && Flat(words)[f.low + i]) {
      if i < Width(f) { GatherBit(words, w, |words|, f, i); }
    }
  }

  lemma InsertBit(w: nat, min: nat, f: Field, value: Bits, j: nat)
    requires (w == 32 || w == 64) && |value| == 64 && Width(f) <= 64 && j < w && Fits(f, value)
    ensures InsertNative(w, min, f, value)[j] == BitOf(f, value, min + j)
  {
  }

  ghost predicate SetByOne(settings: seq<Setting>, p: int) {
    exists k :: 0 <= k < |settings| && BitOf(settings[k].field, settings[k].value, p)
  }

  predicate AllFit(settings: seq<Setting>) {
    forall k :: 0 <= k < |settings| ==> Fits(settings[k].field, settings[k].value)
  }

  lemma {:induction false} FieldsBit(w: nat, min: nat, settings: seq<Setting>, j: nat)
    requires (w == 32 || w == 64) && AllOk(settings) && AllFit(settings) && j < w
    ensures InsertFields(w, min, settings)[j] <==> SetByOne(settings, min + j)
    decreases |settings|
  {
    if settings != [] {
      var rest := settings[1..];
      InsertBit(w, min, settings[0].field, settings[0].value, j);
      FieldsBit(w, min, rest, j);
      if SetByOne(rest, min + j) {
        var k :| 0 <= k < |rest| && BitOf(rest[k].field, rest[k].value, min + j);
        assert settings[k + 1] == rest[k];
      }
      if SetByOne(settings, min + j) && !BitOf(settings[0].field, settings[0].value, min + j) {
        var k :| 0 <= k < |settings| && BitOf(settings[k].field, settings[k].value, min + j);
        assert rest[k - 1] == settings[k];
      }
    }
  }

  // The bits of the elements from min on are those that one setting sets.
  ghost predicate Populated(bits: Bits, min: nat, settings: seq<Setting>) {
    forall p {:trigger SetByOne(settings, p)} :: min <= p < min + |bits| ==> (bits[p - min] <==> SetByOne(settings, p))
  }

  lemma {:induction false} PopulatedAll(words: seq<Bits>, w: nat, settings: seq<Setting>, k: nat)
    requires Elements(words, w) && k <= |words| && forall j {:trigger words[j]} :: 0 <= j < k ==> Populated(words[j], Start(w, j), settings)
    ensures Populated(FlatTo(words, k), 0, settings)
    decreases k
  {
    if k > 0 {
      PopulatedAll(words, w, settings, k - 1);
      FlatLength(words, w, k - 1);
      PopulatedConcat(FlatTo(words, k - 1), words[k - 1], 0, Start(w, k - 1), settings);
    }
  }

  lemma PopulateBits(w: nat, n: nat, settings: seq<Setting>)
    requires (w == 32 || w == 64) && AllOk(settings) && AllFit(settings)
    ensures Populated(Flat(Populate(w, n, settings)), 0, settings)
  {
    var words := Populate(w, n, settings);
    forall j | 0 <= j < n ensures Populated(words[j], Start(w, j), settings) {
      ElementBits(w, Start(w, j), settings);
    }
    PopulatedAll(words, w, settings, n);
  }

  lemma ElementBits(w: nat, min: nat, settings: seq<Setting>)
    requires (w == 32 || w == 64) && AllOk(settings) && AllFit(settings)
    ensures Populated(Resize(InsertFields(w, min, settings), w), min, settings)
  {
    var bits := InsertFields(w, min, settings);
    forall p | min <= p < min + w ensures bits[p - min] <==> SetByOne(settings, p) {
      FieldsBit(w, min, settings, p - min);
    }
    LowBits(bits, w, min, settings);
  }

  lemma LowBits(bits: Bits, w: nat, min: nat, settings: seq<Setting>)
    requires w <= |bits|
    requires forall p {:trigger SetByOne(settings, p)} :: min <= p < min + w ==> (bits[p - min] <==> SetByOne(settings, p))
    ensures Populated(Resize(bits, w), min, settings)
  {
  }

  lemma PopulatedConcat(a: Bits, b: Bits, min: nat, mid: nat, settings: seq<Setting>)
    requires Populated(a, min, settings) && mid == min + |a| && Populated(b, mid, settings)
    ensures Populated(a + b, min, settings)
  {
    forall p | min <= p < min + |a + b| ensures (a + b)[p - min] <==> SetByOne(settings, p) {
      if p < min + |a| {
        assert (a + b)[p - min] == a[p - min];
      } else {
        assert (a + b)[p - min] == b[p - min - |a|];
      }
    }
  }

  predicate Disjoint(f: Field, g: Field) {
    f.high < g.low || g.high < f.low
  }

  predicate PairwiseDisjoint(settings: seq<Setting>) {
    forall i, j :: 0 <= i < j < |settings| ==> Disjoint(settings[i].field, settings[j].field)
  }

  lemma OthersOutside(settings: seq<Setting>, k: nat, j: nat, p: int)
    requires PairwiseDisjoint(settings) && k < |settings| && j < |settings| && j != k && Within(settings[k].field, p)
    ensures !Within(settings[j].field, p)
  {
    if j < k {
      assert Disjoint(settings[j].field, settings[k].field);
    } else {
      assert Disjoint(settings[k].field, settings[j].field);
    }
  }

  lemma OnlyOne(settings: seq<Setting>, k: nat, p: int)
    requires PairwiseDisjoint(settings) && k < |settings| && Within(settings[k].field, p)
    ensures SetByOne(settings, p) <==> BitOf(settings[k].field, settings[k].value, p)
  {
    forall j: nat | j < |settings| && j != k ensures !BitOf(settings[j].field, settings[j].value, p) {
      OthersOutside(settings, k, j, p);
    }
  }

  lemma PopulatedField(bits: Bits, settings: seq<Setting>, k: nat, i: nat)
    requires Populated(bits, 0, settings) && PairwiseDisjoint(settings) && k < |settings|
    requires |settings[k].value| == 64 && i < Width(settings[k].field) <= 64 && settings[k].field.high < |bits|
    ensures bits[settings[k].field.low + i] == settings[k].value[i]
  {
    var p := settings[k].field.low + i;
    assert bits[p - 0] <==> SetByOne(settings, p);
    OnlyOne(settings, k, p);
  }

  lemma ReadField(words: seq<Bits>, w: nat, settings: seq<Setting>, k: nat)
    requires Elements(words, w) && w <= 64 && Populated(Flat(words), 0, settings) && PairwiseDisjoint(settings) && k < |settings|
    requires |settings[k].value| == 64 && Fits(settings[k].field, settings[k].value)
    requires settings[k].field.low <= settings[k].field.high < |Flat(words)| && Width(settings[k].field) <= w
    ensures Resize(Extract(words, w, settings[k].field), 64) == settings[k].value
  {
    var f := settings[k].field;
    ExtractIs(words, w, f);
    forall i | 0 <= i < w ensures Extract(words, w, f)[i] == settings[k].value[i] {
      if i < Width(f) { PopulatedField(Flat(words), settings, k, i); }
    }
  }

  /** Building a structure from disjoint fields with fitting values and reading any of the
      fields gives its value, wherever the fields lie and however wide the elements are. */
  lemma PopulateThenExtract(w: nat, n: nat, settings: seq<Setting>, k: nat)
    requires (w == 32 || w == 64) && AllOk(settings) && AllFit(settings) && PairwiseDisjoint(settings)
    requires k < |settings| && settings[k].field.low <= settings[k].field.high < Start(w, n) && Width(settings[k].field) <= w
    ensures Resize(Extract(Populate(w, n, settings), w, settings[k].field), 64) == settings[k].value
  {
    FlatLength(Populate(w, n, settings), w, n);
    PopulateBits(w, n, settings);
    ReadField(Populate(w, n, settings), w, settings, k);
  }

  /** The 32-bit and the 64-bit forms build the same structure. */
  lemma FormsBuildTheSame(n: nat, settings: seq<Setting>)
    requires AllOk(settings) && AllFit(settings)
    ensures Flat(Populate(32, n + n, settings)) == Flat(Populate(64, n, settings))
  {
    PopulateBits(32, n + n, settings);
    PopulateBits(64, n, settings);
    FlatLength(Populate(32, n + n, settings), 32, n + n);
    FlatLength(Populate(64, n, settings), 64, n);
    Halves(n);
    SameBits(Flat(Populate(32, n + n, settings)), Flat(Populate(64, n, settings)), settings);
  }

  lemma SameBits(a: Bits, b: Bits, settings: seq<Setting>)
    requires |a| == |b| && Populated(a, 0, settings) && Populated(b, 0, settings)
    ensures a == b
  {
    forall p | 0 <= p < |a| ensures a[p] == b[p] {
      assert a[p - 0] <==> SetByOne(settings, p);
    }
  }

  lemma {:induction false} Halves(n: nat)
    ensures Start(32, n + n) == Start(64, n)
    decreases n
  {
    if n > 0 {
      Halves(n - 1);
      assert Start(32, n + n) == Start(32, n + n - 2) + 32 + 32;
    }
  }

  /** The 32-bit and the 64-bit forms read the same value out of the same structure. */
  lemma FormsReadTheSame(narrow: seq<Bits>, wide: seq<Bits>, f: Field)
    requires Elements(narrow, 32) && Elements(wide, 64) && Flat(narrow) == Flat(wide)
    requires f.low <= f.high < |Flat(wide)| && Width(f) <= 32
    ensures Resize(Extract(narrow, 32, f), 64) == Extract(wide, 64, f)
  {
    ExtractIs(narrow, 32, f);
    ExtractIs(wide, 64, f);
  }

  lemma MaskFits(w: nat, f: Field)
    requires (w == 32 || w == 64) && 0 <= Width(f) <= w
    ensures Fits(f, Resize(Mask(w, Width(f)), 64))
    ensures forall p :: BitOf(f, Resize(Mask(w, Width(f)), 64), p) <==> Within(f, p)
  {
  }

  // Only the bits of the field are changed, and they become the value.
  ghost predicate Replaced(before: Bits, after: Bits, min: nat, f: Field, value: Bits) {
    |after| == |before| &&
    forall p {:trigger Within(f, p)} :: min <= p < min + |before| ==>
      after[p - min] == if Within(f, p) then BitOf(f, value, p) else before[p - min]
  }

  lemma SetElementReplaces(word: Bits, w: nat, min: nat, f: Field, value: Bits)
    requires (w == 32 || w == 64) && |word| == w && |value| == 64 && 0 <= Width(f) <= w && Fits(f, value)
    ensures Replaced(word, SetElement(word, w, min, f, value), min, f, value)
  {
    var ones := Resize(Mask(w, Width(f)), 64);
    MaskFits(w, f);
    forall p | min <= p < min + w
      ensures InsertNative(w, min, f, ones)[p - min] == Within(f, p) && InsertNative(w, min, f, value)[p - min] == BitOf(f, value, p)
    {
      InsertBit(w, min, f, ones, p - min);
      InsertBit(w, min, f, value, p - min);
    }
  }

  lemma ReplacedConcat(a: Bits, b: Bits, c: Bits, d: Bits, min: nat, mid: nat, f: Field, value: Bits)
    requires Replaced(a, c, min, f, value) && mid == min + |a| && Replaced(b, d, mid, f, value)
    ensures Replaced(a + b, c + d, min, f, value)
  {
    forall p | min <= p < min + |a + b|
      ensures (c + d)[p - min] == if Within(f, p) then BitOf(f, value, p) else (a + b)[p - min]
    {
      if p < min + |a| {
        assert (c + d)[p - min] == c[p - min];
      } else {
        assert (c + d)[p - min] == d[p - min - |a|];
      }
    }
  }

  lemma {:induction false} ReplacedAll(words: seq<Bits>, after: seq<Bits>, w: nat, f: Field, value: Bits, k: nat)
    requires Elements(words, w) && Elements(after, w) && k <= |words| == |after|
    requires forall j {:trigger words[j]} :: 0 <= j < k ==> Replaced(words[j], after[j], Start(w, j), f, value)
    ensures Replaced(FlatTo(words, k), FlatTo(after, k), 0, f, value)
    decreases k
  {
    if k > 0 {
      ReplacedAll(words, after, w, f, value, k - 1);
      FlatLength(words, w, k - 1);
      ReplacedConcat(FlatTo(words, k - 1), words[k - 1], FlatTo(after, k - 1), after[k - 1], 0, Start(w, k - 1), f, value);
    }
  }

  /** Setting a field makes its bits the value and changes no other bit. */
  lemma SetReplaces(words: seq<Bits>, w: nat, f: Field, value: Bits)
    requires (w == 32 || w == 64) && Elements(words, w) && |value| == 64 && 0 <= Width(f) <= w && Fits(f, value)
    ensures Replaced(Flat(words), Flat(Set(words, w, f, value)), 0, f, value)
  {
    var after := Set(words, w, f, value);
    forall j | 0 <= j < |words| ensures Replaced(words[j], after[j], Start(w, j), f, value) {
      SetElementReplaces(words[j], w, Start(w, j), f, value);
    }
    ReplacedAll(words, after, w, f, value, |words|);
  }

  lemma ReplacedReads(before: seq<Bits>, after: seq<Bits>, w: nat, f: Field, value: Bits, g: Field)
    requires Elements(before, w) && Elements(after, w) && Replaced(Flat(before), Flat(after), 0, f, value) && Disjoint(f, g)
    requires g.low <= g.high < |Flat(before)| && Width(g) <= w
    ensures Extract(after, w, g) == Extract(before, w, g)
  {
    ExtractIs(after, w, g);
    ExtractIs(before, w, g);
    forall i | 0 <= i < w ensures Extract(after, w, g)[i] == Extract(before, w, g)[i] {
      if i < Width(g) { assert !Within(f, g.low + i); }
    }
  }

  lemma ReplacementReads(before: seq<Bits>, after: seq<Bits>, w: nat, f: Field, value: Bits)
    requires Elements(after, w) && w <= 64 && Replaced(Flat(before), Flat(after), 0, f, value) && |value| == 64 && Fits(f, value)
    requires f.low <= f.high < |Flat(before)| && Width(f) <= w
    ensures Resize(Extract(after, w, f), 64) == value
  {
    ExtractIs(after, w, f);
    forall i | 0 <= i < w ensures Extract(after, w, f)[i] == value[i] {
      if i < Width(f) { assert Within(f, f.low + i); }
    }
  }

  /** So a field that has been set reads back, and every disjoint field reads as before. */
  lemma SetThenExtract(words: seq<Bits>, w: nat, f: Field, value: Bits, g: Field)
    requires (w == 32 || w == 64) && Elements(words, w) && |value| == 64 && Fits(f, value)
    requires f.low <= f.high < |Flat(words)| && Width(f) <= w && g.low <= g.high < |Flat(words)| && Width(g) <= w
    ensures |Flat(Set(words, w, f, value))| == |Flat(words)|
    ensures Resize(Extract(Set(words, w, f, value), w, f), 64) == value
    ensures Disjoint(f, g) ==> Extract(Set(words, w, f, value), w, g) == Extract(words, w, g)
  {
    var after := Set(words, w, f, value);
    SetReplaces(words, w, f, value);
    ReplacementReads(words, after, w, f, value);
    if Disjoint(f, g) { ReplacedReads(words, after, w, f, value, g); }
  }

  /** The dummy field inserts nothing, whatever the value given with it. */
  lemma DummyInsertsNothing(w: nat, min: nat, value: Bits)
    requires (w == 32 || w == 64) && |value| == 64
    ensures InsertNative(w, min, Field(0, -1), value) == Zeros(64)
  {
    assert Resize(Zeros(32), 64) == Zeros(64);
  }

  // ----- the structure in place -----

  lemma NextWords(before: seq<Bits>, whole: seq<Bits>, k: nat, element: Bits)
    requires k < |before| == |whole| && element == whole[k]
    ensures (whole[..k] + before[k..])[k := element] == whole[..k + 1] + before[k + 1..]
  {
  }

  class Structure {
    const w: nat
    var words: seq<Bits>

    ghost predicate Valid()
      reads this
    {
      (w == 32 || w == 64) && Elements(words, w)
    }

    constructor (w: nat, words: seq<Bits>)
      requires (w == 32 || w == 64) && Elements(words, w)
      ensures Valid() && this.w == w && this.words == words
    {
      this.w, this.words := w, words;
    }

    // Every bit of the structure is overwritten.
    method PopulateAll(settings: seq<Setting>)
      requires Valid() && AllOk(settings)
      modifies this
      ensures Valid() && words == Populate(w, |old(words)|, settings)
    {
      ghost var whole := Populate(w, |words|, settings);
      var min: nat, k := 0, 0;
      while k < |words|
        invariant k <= |words| == |whole| && min == Start(w, k) && Elements(words, w)
        invariant forall j :: 0 <= j < k ==> words[j] == whole[j]
      {
        words := words[k := Resize(InsertFields(w, min, settings), w)];
        k, min := k + 1, min + w;
      }
    }

    method SetField(f: Field, value: Bits)
      requires Valid() && |value| == 64 && 0 <= Width(f) <= w
      modifies this
      ensures Valid() && words == Set(old(words), w, f, value)
    {
      ghost var before, whole := words, Set(words, w, f, value);
      var min: nat, k := 0, 0;
      while k < |words|
        invariant k <= |words| == |whole| == |before| && min == Start(w, k) && words == whole[..k] + before[k..]
      {
        var element := NextElement(before, k, min, f, value);
        NextWords(before, whole, k, element);
        words := words[k := element];
        k, min := k + 1, min + w;
      }
      assert words == whole;
    }

    method NextElement(ghost before: seq<Bits>, k: nat, min: nat, f: Field, value: Bits) returns (element: Bits)
      requires (w == 32 || w == 64) && Elements(before, w) && |value| == 64 && 0 <= Width(f) <= w
      requires k < |words| == |before| && words[k] == before[k] && min == Start(w, k)
      ensures element == Set(before, w, f, value)[k]
    {
      var mask := Resize(InsertNative(w, min, f, Resize(Mask(w, Width(f)), 64)), w);
      element := Or(And(words[k], Not(mask)), Resize(InsertNative(w, min, f, value), w));
      assert element == SetElement(words[k], w, min, f, value);
    }

    // EFX_OWORD_FIELD and its kin.
    method GetField(f: Field) returns (r: Bits)
      requires Valid() && f.low <= f.high && Width(f) <= w
      ensures r == Extract(words, w, f)
    {
      r := Zeros(w);
      var min: nat, k := 0, 0;
      while k < |words|
        invariant k <= |words| && min == Start(w, k) && r == Gather(words, w, k, f)
      {
        r := Or(r, ExtractNative(words[k], min, f));
        k, min := k + 1, min + w;
      }
      r := And(r, Mask(w, Width(f)));
    }
  }
}
