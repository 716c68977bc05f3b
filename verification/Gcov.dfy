/**
 The kernel's .gcda files (gcc 3.4 format), read at any offset.

 A read never builds the file: it works out which field the offset falls into, copies
 the rest of that field, and goes on.  The nested readers are proved to return exactly
 the slice of the serialised file.
 */
module Gcov {

  const COUNTERS: nat := 5                  // GCOV_COUNTERS
  const DATA_MAGIC: nat := 0x67636461
  const TAG_FUNCTION: nat := 0x01000000
  const TAG_COUNTER_BASE: nat := 0x01a10000
  const EFAULT: int := 14

  type Byte = b: nat | b < 256

  datatype Fn = Fn(ident: nat, checksum: nat, ctrs: seq<nat>)

  datatype Info = Info(version: nat, stamp: nat, functions: seq<Fn>, active: seq<bool>, counts: seq<seq<nat>>)

  // ----- the serialised file -----

  function Le32(v: nat): (s: seq<Byte>)
    ensures |s| == 4
  {
    [v % 256, v / 256 % 256, v / 65536 % 256, v / 16777216 % 256]
  }

  // The low half goes through a 16-bit mask.
  function Int64(v: nat): (s: seq<Byte>)
    ensures |s| == 8
  {
    Le32(v % 0x1_0000) + Le32(v / 0x1_0000_0000)
  }

  function CounterTag(t: nat): nat {
    TAG_COUNTER_BASE + t * 0x2_0000
  }

  // Active counter types before type t: the position of its values.
  function TypeOff(active: seq<bool>, t: nat): (off: nat)
    requires t <= |active|
    ensures off <= t
  {
    if t == 0 then 0 else TypeOff(active, t - 1) + if active[t - 1] then 1 else 0
  }

  // Counters of type t in the functions before function f.
  function Before(functions: seq<Fn>, f: nat, t: nat): nat
    requires f <= |functions| && forall i :: 0 <= i < |functions| ==> |functions[i].ctrs| == COUNTERS
    requires t < COUNTERS
  {
    if f == 0 then 0 else Before(functions, f - 1, t) + functions[f - 1].ctrs[t]
  }

  ghost predicate Valid(info: Info) {
    && |info.active| == COUNTERS
    && (forall i :: 0 <= i < |info.functions| ==> |info.functions[i].ctrs| == COUNTERS)
    && |info.counts| == TypeOff(info.active, COUNTERS)
    && (forall t :: 0 <= t < COUNTERS && info.active[t] ==>
          TypeOff(info.active, t) < |info.counts| &&
          |info.counts[TypeOff(info.active, t)]| == Before(info.functions, |info.functions|, t))
  }

  lemma {:induction false} BeforeGrows(functions: seq<Fn>, f: nat, g: nat, t: nat)
    requires f <= g <= |functions| && forall i :: 0 <= i < |functions| ==> |functions[i].ctrs| == COUNTERS
    requires t < COUNTERS
    ensures Before(functions, f, t) <= Before(functions, g, t)
    decreases g
  {
    if f < g { BeforeGrows(functions, f, g - 1, t); }
  }

  ghost function Value(info: Info, f: nat, t: nat, c: nat): nat
    requires Valid(info) && f < |info.functions| && t < COUNTERS && info.active[t] && c < info.functions[f].ctrs[t]
  {
    BeforeGrows(info.functions, f + 1, |info.functions|, t);
    info.counts[TypeOff(info.active, t)][Before(info.functions, f, t) + c]
  }

  // The first n counters of a section.
  ghost function Values(info: Info, f: nat, t: nat, n: nat): (s: seq<Byte>)
    requires Valid(info) && f < |info.functions| && t < COUNTERS && info.active[t] && n <= info.functions[f].ctrs[t]
    ensures |s| == 8 * n
  {
    if n == 0 then [] else Values(info, f, t, n - 1) + Int64(Value(info, f, t, n - 1))
  }

  ghost function CounterSection(info: Info, f: nat, t: nat): seq<Byte>
    requires Valid(info) && f < |info.functions| && t < COUNTERS
  {
    if !info.active[t] then []
    else Le32(CounterTag(t)) + Le32(info.functions[f].ctrs[t] * 2) + Values(info, f, t, info.functions[f].ctrs[t])
  }

  ghost function FnHeader(fn: Fn): (s: seq<Byte>)
    ensures |s| == 16
  {
    Le32(TAG_FUNCTION) + Le32(2) + Le32(fn.ident) + Le32(fn.checksum)
  }

  // A function section up to its first k counter sections.
  ghost function FnSections(info: Info, f: nat, k: nat): seq<Byte>
    requires Valid(info) && f < |info.functions| && k <= COUNTERS
    decreases |info.active|, k
  {
    if k == 0 then FnHeader(info.functions[f]) else FnSections(info, f, k - 1) + CounterSection(info, f, k - 1)
  }

  ghost function FileHeader(info: Info): (s: seq<Byte>)
    ensures |s| == 12
  {
    Le32(DATA_MAGIC) + Le32(info.version) + Le32(info.stamp)
  }

  // The file up to its first k functions.
  ghost function FileUpTo(info: Info, k: nat): seq<Byte>
    requires Valid(info) && k <= |info.functions|
    decreases k
  {
    if k == 0 then FileHeader(info) else FileUpTo(info, k - 1) + FnSections(info, k - 1, COUNTERS)
  }

  ghost function File(info: Info): seq<Byte>
    requires Valid(info)
  {
    FileUpTo(info, |info.functions|)
  }

  // ----- slices -----

  function Min(a: nat, b: nat): nat {
    if a < b then a else b
  }

  // At most count bytes from an offset on; nothing past the end.
  function Slice(s: seq<Byte>, offset: nat, count: nat): (r: seq<Byte>)
    ensures |r| <= count
  {
    s[Min(offset, |s|)..Min(offset + count, |s|)]
  }

  // s holds part at position off.
  predicate HasAt(s: seq<Byte>, off: nat, part: seq<Byte>) {
    off + |part| <= |s| && s[off..off + |part|] == part
  }

  lemma SliceLength(s: seq<Byte>, offset: nat, count: nat)
    requires offset <= |s|
    ensures |Slice(s, offset, count)| == Min(count, |s| - offset)
  {
  }

  lemma SliceElement(s: seq<Byte>, offset: nat, count: nat, i: nat)
    requires offset <= |s| && i < |Slice(s, offset, count)|
    ensures offset + i < |s| && Slice(s, offset, count)[i] == s[offset + i]
  {
  }

  lemma PartElement(s: seq<Byte>, off: nat, part: seq<Byte>, i: nat)
    requires HasAt(s, off, part) && i < |part|
    ensures part[i] == s[off + i]
  {
    assert s[off..off + |part|][i] == s[off + i];
  }

  // The slice of a part is the slice of the whole, as long.
  lemma PartSlice(s: seq<Byte>, off: nat, part: seq<Byte>, offset: nat, count: nat)
    requires HasAt(s, off, part) && off <= offset < off + |part|
    ensures var piece := Slice(part, offset - off, count);
      offset + |piece| <= |s| && Slice(s, offset, |piece|) == piece
  {
    var piece := Slice(part, offset - off, count);
    SliceLength(part, offset - off, count);
    SliceLength(s, offset, |piece|);
    forall i | 0 <= i < |piece| ensures Slice(s, offset, |piece|)[i] == piece[i] {
      SliceElement(part, offset - off, count, i);
      PartElement(s, off, part, offset - off + i);
      SliceElement(s, offset, |piece|, i);
    }
  }

  // A slice that starts inside a part starts with that part's slice.
  lemma SliceOfPart(s: seq<Byte>, off: nat, part: seq<Byte>, offset: nat, count: nat)
    requires HasAt(s, off, part) && off <= offset < off + |part|
    ensures var piece := Slice(part, offset - off, count);
      piece <= Slice(s, offset, count) && (count > 0 ==> |piece| > 0) &&
      Slice(s, offset, count) == piece + Slice(s, offset + |piece|, count - |piece|)
  {
    var piece := Slice(part, offset - off, count);
    SliceLength(part, offset - off, count);
    PartSlice(s, off, part, offset, count);
    SplitSlice(s, offset, |piece|, count - |piece|);
  }

  // Successive reads of the given sizes, each from where the one before ended.
  function Chunked(s: seq<Byte>, offset: nat, sizes: seq<nat>): seq<Byte>
    decreases |sizes|
  {
    if sizes == [] then []
    else
      var first := Slice(s, offset, sizes[0]);
      first + Chunked(s, offset + |first|, sizes[1..])
  }

  function Total(sizes: seq<nat>): nat
    decreases |sizes|
  {
    if sizes == [] then 0 else sizes[0] + Total(sizes[1..])
  }

  /** Reads in chunks of any sizes together give what one read of their total size gives. */
  lemma {:induction false} ChunksReassemble(s: seq<Byte>, offset: nat, sizes: seq<nat>)
    ensures Chunked(s, offset, sizes) == Slice(s, offset, Total(sizes))
    decreases |sizes|
  {
    if sizes != [] {
      var first := Slice(s, offset, sizes[0]);
      var rest := Chunked(s, offset + |first|, sizes[1..]);
      ChunksReassemble(s, offset + |first|, sizes[1..]);
      SplitSlice(s, offset, sizes[0], Total(sizes[1..]));
      assert Chunked(s, offset, sizes) == first + rest;
    } else {
      assert Slice(s, offset, 0) == [];
    }
  }

  lemma SplitSlice(s: seq<Byte>, offset: nat, a: nat, b: nat)
    ensures var first := Slice(s, offset, a);
      Slice(s, offset, a + b) == first + Slice(s, offset + |first|, b)
  {
  }

  lemma PrefixHasAt(s: seq<Byte>, t: seq<Byte>, off: nat, part: seq<Byte>)
    requires HasAt(s, off, part)
    ensures HasAt(s + t, off, part)
  {
    assert (s + t)[off..off + |part|] == s[off..off + |part|];
  }

  lemma LastHasAt(s: seq<Byte>, part: seq<Byte>)
    ensures HasAt(s + part, |s|, part)
  {
  }

  // ----- where the fields are -----

  lemma CounterFields(info: Info, f: nat, t: nat)
    requires Valid(info) && f < |info.functions| && t < COUNTERS && info.active[t]
    ensures var s := CounterSection(info, f, t);
      |s| == 8 + 8 * info.functions[f].ctrs[t] && HasAt(s, 0, Le32(CounterTag(t))) && HasAt(s, 4, Le32(info.functions[f].ctrs[t] * 2))
  {
    var tag, len := Le32(CounterTag(t)), Le32(info.functions[f].ctrs[t] * 2);
    LastHasAt(tag, len);
    PrefixHasAt(tag + len, Values(info, f, t, info.functions[f].ctrs[t]), 4, len);
  }

  lemma {:induction false} ValueField(info: Info, f: nat, t: nat, n: nat, c: nat)
    requires Valid(info) && f < |info.functions| && t < COUNTERS && info.active[t] && c < n <= info.functions[f].ctrs[t]
    ensures HasAt(Values(info, f, t, n), 8 * c, Int64(Value(info, f, t, c)))
    decreases n
  {
    var last := Int64(Value(info, f, t, n - 1));
    if c == n - 1 {
      LastHasAt(Values(info, f, t, n - 1), last);
    } else {
      ValueField(info, f, t, n - 1, c);
      PrefixHasAt(Values(info, f, t, n - 1), last, 8 * c, Int64(Value(info, f, t, c)));
    }
  }

  lemma CounterField(info: Info, f: nat, t: nat, c: nat)
    requires Valid(info) && f < |info.functions| && t < COUNTERS && info.active[t] && c < info.functions[f].ctrs[t]
    ensures HasAt(CounterSection(info, f, t), 8 + 8 * c, Int64(Value(info, f, t, c)))
  {
    var n := info.functions[f].ctrs[t];
    ValueField(info, f, t, n, c);
    var head := Le32(CounterTag(t)) + Le32(n * 2);
    var values := Values(info, f, t, n);
    var s := head + values;
    assert s[8 + 8 * c..8 + 8 * c + 8] == values[8 * c..8 * c + 8];
    assert CounterSection(info, f, t) == s;
  }

  lemma HeaderFields(fn: Fn)
    ensures var s := FnHeader(fn);
      HasAt(s, 0, Le32(TAG_FUNCTION)) && HasAt(s, 4, Le32(2)) && HasAt(s, 8, Le32(fn.ident)) && HasAt(s, 12, Le32(fn.checksum))
  {
  }

  lemma FileFields(info: Info)
    ensures var s := FileHeader(info);
      HasAt(s, 0, Le32(DATA_MAGIC)) && HasAt(s, 4, Le32(info.version)) && HasAt(s, 8, Le32(info.stamp))
  {
  }

  lemma {:induction false} SectionIn(info: Info, f: nat, k: nat, t: nat)
    requires Valid(info) && f < |info.functions| && t < k <= COUNTERS
    ensures HasAt(FnSections(info, f, k), |FnSections(info, f, t)|, CounterSection(info, f, t))
    decreases k
  {
    var part := CounterSection(info, f, t);
    if t == k - 1 {
      LastHasAt(FnSections(info, f, k - 1), part);
    } else {
      SectionIn(info, f, k - 1, t);
      PrefixHasAt(FnSections(info, f, k - 1), CounterSection(info, f, k - 1), |FnSections(info, f, t)|, part);
    }
  }

  lemma {:induction false} HeaderIn(info: Info, f: nat, k: nat, off: nat, part: seq<Byte>)
    requires Valid(info) && f < |info.functions| && k <= COUNTERS && HasAt(FnHeader(info.functions[f]), off, part)
    ensures HasAt(FnSections(info, f, k), off, part)
    decreases k
  {
    if k > 0 {
      HeaderIn(info, f, k - 1, off, part);
      PrefixHasAt(FnSections(info, f, k - 1), CounterSection(info, f, k - 1), off, part);
    }
  }

  lemma {:induction false} FunctionIn(info: Info, k: nat, f: nat)
    requires Valid(info) && f < k <= |info.functions|
    ensures HasAt(FileUpTo(info, k), |FileUpTo(info, f)|, FnSections(info, f, COUNTERS))
    decreases k
  {
    var part := FnSections(info, f, COUNTERS);
    if f == k - 1 {
      LastHasAt(FileUpTo(info, k - 1), part);
    } else {
      FunctionIn(info, k - 1, f);
      PrefixHasAt(FileUpTo(info, k - 1), FnSections(info, k - 1, COUNTERS), |FileUpTo(info, f)|, part);
    }
  }

  lemma {:induction false} FileHeaderIn(info: Info, k: nat, off: nat, part: seq<Byte>)
    requires Valid(info) && k <= |info.functions| && HasAt(FileHeader(info), off, part)
    ensures HasAt(FileUpTo(info, k), off, part)
    decreases k
  {
    if k > 0 {
      FileHeaderIn(info, k - 1, off, part);
      PrefixHasAt(FileUpTo(info, k - 1), FnSections(info, k - 1, COUNTERS), off, part);
    }
  }

  /** Reads in chunks of any sizes that reach the end reassemble the whole file. */
  lemma ChunksGiveFile(info: Info, sizes: seq<nat>)
    requires Valid(info) && Total(sizes) >= |File(info)|
    ensures Chunked(File(info), 0, sizes) == File(info)
  {
    ChunksReassemble(File(info), 0, sizes);
  }

  // ----- every counter once -----

  ghost function FnValues(info: Info, f: nat, t: nat): seq<nat>
    requires Valid(info) && f < |info.functions| && t < COUNTERS && info.active[t]
  {
    seq(info.functions[f].ctrs[t], c requires 0 <= c < info.functions[f].ctrs[t] => Value(info, f, t, c))
  }

  ghost function StoredValues(info: Info, k: nat, t: nat): seq<nat>
    requires Valid(info) && k <= |info.functions| && t < COUNTERS && info.active[t]
    decreases k
  {
    if k == 0 then [] else StoredValues(info, k - 1, t) + FnValues(info, k - 1, t)
  }

  // What the first k functions store of a type are its first counters, in order.
  ghost predicate StoredInOrder(info: Info, k: nat, t: nat)
    requires Valid(info) && k <= |info.functions| && t < COUNTERS && info.active[t]
  {
    var row, a := info.counts[TypeOff(info.active, t)], Before(info.functions, k, t);
    a <= |row| && StoredValues(info, k, t) == row[..a]
  }

  /** Over all functions, the sections of a type store its counters one after the other:
      every one exactly once. */
  lemma {:induction false} EveryCounterOnce(info: Info, k: nat, t: nat)
    requires Valid(info) && k <= |info.functions| && t < COUNTERS && info.active[t]
    ensures StoredInOrder(info, k, t)
    decreases k
  {
    if k > 0 {
      var row, a, b := info.counts[TypeOff(info.active, t)], Before(info.functions, k - 1, t), Before(info.functions, k, t);
      EveryCounterOnce(info, k - 1, t);
      assert FnValues(info, k - 1, t) == row[a..b] && b <= |row| by { FnValuesAre(info, k - 1, k, t); }
      TakeMore(row, a, b);
    }
  }

  lemma FnValuesAre(info: Info, f: nat, g: nat, t: nat)
    requires Valid(info) && g == f + 1 <= |info.functions| && t < COUNTERS && info.active[t]
    ensures Before(info.functions, f, t) <= Before(info.functions, g, t) <= |info.counts[TypeOff(info.active, t)]|
    ensures FnValues(info, f, t) == info.counts[TypeOff(info.active, t)][Before(info.functions, f, t)..Before(info.functions, g, t)]
  {
    BeforeGrows(info.functions, g, |info.functions|, t);
    var row, a, n := info.counts[TypeOff(info.active, t)], Before(info.functions, f, t), info.functions[f].ctrs[t];
    assert Before(info.functions, g, t) == a + n;
    var values := FnValues(info, f, t);
    assert |values| == n && forall c :: 0 <= c < n ==> values[c] == row[a + c];
  }

  lemma TakeMore(row: seq<nat>, a: nat, b: nat)
    requires a <= b <= |row|
    ensures row[..a] + row[a..b] == row[..b]
  {
  }

  function FromLe32(s: seq<Byte>): nat
    requires |s| == 4
  {
    (s[0] as nat) + 256 * (s[1] as nat) + 65536 * (s[2] as nat) + 16777216 * (s[3] as nat)
  }

  lemma Le32RoundTrip(v: nat)
    requires v < 0x1_0000_0000
    ensures FromLe32(Le32(v)) == v
  {
    var a, b, c := v / 256, v / 65536, v / 16777216;
    assert v == 256 * a + v % 256;
    assert a == 256 * b + a % 256;
    assert b == 256 * c + b % 256;
    assert c == c % 256;
  }

  /** A stored counter reads back as itself exactly when bits 16 to 31 are clear: the low
      half is masked with 0xffff where 0xffffffff was meant. */
  lemma StoredCounterFaithfulIff(v: nat)
    requires v < 0x1_0000_0000_0000_0000
    ensures var s := Int64(v);
      FromLe32(s[..4]) + 0x1_0000_0000 * FromLe32(s[4..]) == v <==> v % 0x1_0000_0000 < 0x1_0000
  {
    var s := Int64(v);
    assert s[..4] == Le32(v % 0x1_0000) && s[4..] == Le32(v / 0x1_0000_0000);
    Le32RoundTrip(v % 0x1_0000);
    Le32RoundTrip(v / 0x1_0000_0000);
    HalvesIff(v, v / 0x1_0000_0000, v % 0x1_0000_0000);
  }

  lemma HalvesIff(v: nat, high: nat, low: nat)
    requires v == 0x1_0000_0000 * high + low && low < 0x1_0000_0000
    ensures v % 0x1_0000 + 0x1_0000_0000 * high == v <==> low < 0x1_0000
  {
    var a, b := low / 0x1_0000, low % 0x1_0000;
    RemainderIs(v, 0x1_0000 * high + a, b);
  }

  lemma RemainderIs(v: nat, q: nat, r: nat)
    requires v == 0x1_0000 * q + r && r < 0x1_0000
    ensures v % 0x1_0000 == r
  {
  }

  // ----- the code -----

  method SizeofCounterData(info: Info, f: nat, t: nat) returns (size: nat)
    requires Valid(info) && f < |info.functions| && t < COUNTERS
    ensures size == |CounterSection(info, f, t)|
  {
    if info.active[t] {
      CounterFields(info, f, t);
      size := 4 + 4 + info.functions[f].ctrs[t] * 8;
    } else {
      size := 0;
    }
  }

  method SizeofFuncData(info: Info, f: nat) returns (size: nat)
    requires Valid(info) && f < |info.functions|
    ensures size == |FnSections(info, f, COUNTERS)|
  {
    size := 4 + 4 + 4 + 4;
    for t := 0 to COUNTERS
      invariant size == |FnSections(info, f, t)|
    {
      var part := SizeofCounterData(info, f, t);
      size := size + part;
    }
  }

  method SizeofFile(info: Info) returns (size: nat)
    requires Valid(info)
    ensures size == |File(info)|
  {
    size := 4 + 4 + 4;
    for f := 0 to |info.functions|
      invariant size == |FileUpTo(info, f)|
    {
      var part := SizeofFuncData(info, f);
      size := size + part;
    }
  }

  method StoreCounter(info: Info, f: nat, t: nat, c: nat) returns (data: seq<Byte>)
    requires Valid(info) && f < |info.functions| && t < COUNTERS && info.active[t] && c < info.functions[f].ctrs[t]
    ensures data == Int64(Value(info, f, t, c))
  {
    var typeOff := 0;
    for i := 0 to t
      invariant typeOff == TypeOff(info.active, i)
    {
      if info.active[i] { typeOff := typeOff + 1; }
    }
    var counterOff := c;
    for i := 0 to f
      invariant counterOff == c + Before(info.functions, i, t)
    {
      counterOff := counterOff + info.functions[i].ctrs[t];
    }
    BeforeGrows(info.functions, f + 1, |info.functions|, t);
    data := Int64(info.counts[typeOff][counterOff]);
  }

  // Two buffer contents differ only from one position up to another.
  predicate SameOutside(was: seq<Byte>, now: seq<Byte>, from: nat, to: nat) {
    |now| == |was| && forall i :: 0 <= i < |was| && !(from <= i < to) ==> now[i] == was[i]
  }

  // A reader's outcome: it stores the slice of the section, or fails if the caller's
  // buffer is not accessible up to where the slice would end.
  predicate Stores(section: seq<Byte>, was: seq<Byte>, now: seq<Byte>, at: nat, count: nat, offset: nat, limit: nat, rc: int) {
    var want := Slice(section, offset, count);
    && at + |want| <= |now|
    && rc == (if at + |want| <= limit then |want| else -EFAULT)
    && (rc >= 0 ==> now[at..at + |want|] == want)
    && SameOutside(was, now, at, at + |want|)
  }

  // copy_to_user
  method CopyOut(buf: array<Byte>, at: nat, data: seq<Byte>, limit: nat) returns (ok: bool)
    requires at + |data| <= buf.Length && limit <= buf.Length
    modifies buf
    ensures ok == (at + |data| <= limit)
    ensures ok ==> buf[at..at + |data|] == data
    ensures SameOutside(old(buf[..]), buf[..], at, at + |data|)
  {
    ok := at + |data| <= limit;
    if ok {
      for i := 0 to |data|
        invariant forall k :: 0 <= k < i ==> buf[at + k] == data[k]
        invariant forall k :: 0 <= k < at || at + |data| <= k < buf.Length ==> buf[k] == old(buf[k])
      {
        buf[at + i] := data[i];
      }
    }
  }

  // The first `done` bytes of what is wanted are in the buffer, and nothing else changed.
  predicate Progress(want: seq<Byte>, was: seq<Byte>, now: seq<Byte>, at: nat, done: nat) {
    && done <= |want| && at + |want| <= |now|
    && now[at..at + done] == want[..done]
    && SameOutside(was, now, at, at + done)
  }

  // One more piece of what is wanted has been copied out, or the copy has failed, or
  // there was nothing left to copy.
  predicate Piece(want: seq<Byte>, was: seq<Byte>, now: seq<Byte>, at: nat, done: nat, limit: nat, ok: bool, len: nat) {
    && done <= |want| && at + |want| <= |now|
    && (ok ==>
          && done + len <= |want| && at + done + len <= limit && (len == 0 ==> done == |want|)
          && now[at + done..at + done + len] == want[done..done + len]
          && SameOutside(was, now, at + done, at + done + len))
    && (!ok ==> at + |want| > limit && SameOutside(was, now, at + done, at + |want|))
  }

  lemma PieceJoins(want: seq<Byte>, was: seq<Byte>, mid: seq<Byte>, now: seq<Byte>, at: nat, done: nat, limit: nat, len: nat)
    requires Progress(want, was, mid, at, done) && Piece(want, mid, now, at, done, limit, true, len)
    ensures Progress(want, was, now, at, done + len)
  {
    assert now[at..at + done] == mid[at..at + done];
    assert now[at..at + done + len] == now[at..at + done] + now[at + done..at + done + len];
    assert want[..done + len] == want[..done] + want[done..done + len];
  }

  lemma PieceFails(section: seq<Byte>, was: seq<Byte>, mid: seq<Byte>, now: seq<Byte>, at: nat, count: nat, offset: nat,
                   done: nat, limit: nat, len: nat)
    requires Progress(Slice(section, offset, count), was, mid, at, done)
    requires Piece(Slice(section, offset, count), mid, now, at, done, limit, false, len)
    ensures Stores(section, was, now, at, count, offset, limit, -EFAULT)
  {
  }

  lemma AllStored(section: seq<Byte>, was: seq<Byte>, now: seq<Byte>, at: nat, count: nat, offset: nat, done: nat, limit: nat)
    requires Progress(Slice(section, offset, count), was, now, at, done) && at + done <= limit
    requires done == count || done == |Slice(section, offset, count)|
    ensures Stores(section, was, now, at, count, offset, limit, done)
  {
    assert Slice(section, offset, count)[..done] == Slice(section, offset, count);
  }

  // What a nested reader stored is a piece of the whole.
  lemma NestedPiece(section: seq<Byte>, part: seq<Byte>, was: seq<Byte>, now: seq<Byte>, at: nat, count: nat, offset: nat,
                    done: nat, off: nat, limit: nat, rc: int)
    requires done < count && at + count <= |now| && done <= |Slice(section, offset, count)|
    requires HasAt(section, off, part) && off <= offset + done < off + |part|
    requires Stores(part, was, now, at + done, count - done, offset + done - off, limit, rc)
    ensures Piece(Slice(section, offset, count), was, now, at, done, limit, rc >= 0, if rc >= 0 then rc else 0)
  {
    NextPiece(section, offset, count, done, off, part);
  }

  // What is still wanted, after `done` bytes.
  lemma StillWanted(section: seq<Byte>, offset: nat, count: nat, done: nat)
    requires done <= |Slice(section, offset, count)|
    ensures done <= count && Slice(section, offset, count)[done..] == Slice(section, offset + done, count - done)
  {
  }

  // The next piece comes out of a part of the section.
  lemma NextPiece(section: seq<Byte>, offset: nat, count: nat, done: nat, off: nat, part: seq<Byte>)
    requires done <= |Slice(section, offset, count)| && done < count
    requires HasAt(section, off, part) && off <= offset + done < off + |part|
    ensures var want := Slice(section, offset, count);
      var piece := Slice(part, offset + done - off, count - done);
      0 < |piece| && done + |piece| <= |want| && want[done..done + |piece|] == piece
  {
    StillWanted(section, offset, count, done);
    SliceOfPart(section, off, part, offset + done, count - done);
  }

  // At the end of the section nothing more is wanted.
  lemma NothingLeft(section: seq<Byte>, offset: nat, count: nat, done: nat)
    requires done <= |Slice(section, offset, count)| && (done == count || offset + done >= |section|)
    ensures done == |Slice(section, offset, count)|
  {
  }

  // Copy out the rest of one field.
  method CopyField(ghost section: seq<Byte>, buf: array<Byte>, at: nat, count: nat, offset: nat, done: nat,
                   field: seq<Byte>, off: nat, limit: nat) returns (ok: bool, len: nat)
    requires at + count <= buf.Length && at + done <= limit <= buf.Length && done < count
    requires done <= |Slice(section, offset, count)| && HasAt(section, off, field) && off <= offset + done < off + |field|
    modifies buf
    ensures Piece(Slice(section, offset, count), old(buf[..]), buf[..], at, done, limit, ok, len)
  {
    NextPiece(section, offset, count, done, off, field);
    var skip := offset + done - off;
    len := |field| - skip;
    if len > count - done { len := count - done; }
    assert field[skip..skip + len] == Slice(field, skip, count - done);
    ok := CopyOut(buf, at + done, field[skip..skip + len], limit);
  }

  method CounterPiece(info: Info, f: nat, t: nat, buf: array<Byte>, at: nat, count: nat, offset: nat, done: nat, limit: nat)
    returns (ok: bool, len: nat)
    requires Valid(info) && f < |info.functions| && t < COUNTERS && info.active[t]
    requires at + count <= buf.Length && at + done <= limit <= buf.Length && done < count
    requires done <= |Slice(CounterSection(info, f, t), offset, count)|
    modifies buf
    ensures Piece(Slice(CounterSection(info, f, t), offset, count), old(buf[..]), buf[..], at, done, limit, ok, len)
  {
    ghost var section := CounterSection(info, f, t);
    CounterFields(info, f, t);
    var n := info.functions[f].ctrs[t];
    var pos := offset + done;
    var field, off := Le32(CounterTag(t)), 0;
    if 4 <= pos < 8 {
      field, off := Le32(n * 2), 4;
    } else if pos >= 8 {
      var i := (pos - 8) / 8;
      if i >= n {
        NothingLeft(section, offset, count, done);
        return true, 0;
      }
      CounterField(info, f, t, i);
      field := StoreCounter(info, f, t, i);
      off := 8 + 8 * i;
    }
    ok, len := CopyField(section, buf, at, count, offset, done, field, off, limit);
  }

  method StoreCounterData(info: Info, f: nat, t: nat, buf: array<Byte>, at: nat, count: nat, offset: nat, limit: nat)
    returns (rc: int)
    requires Valid(info) && f < |info.functions| && t < COUNTERS && info.active[t]
    requires at + count <= buf.Length && at <= limit <= buf.Length
    modifies buf
    ensures Stores(CounterSection(info, f, t), old(buf[..]), buf[..], at, count, offset, limit, rc)
  {
    ghost var section := CounterSection(info, f, t);
    ghost var want := Slice(section, offset, count);
    ghost var was := buf[..];
    var done, len := 0, 1;
    while done < count && len > 0
      invariant done <= count && at + done <= limit && Progress(want, was, buf[..], at, done)
      invariant len == 0 ==> done == |want|
      decreases count - done, len
    {
      ghost var mid := buf[..];
      var ok;
      ok, len := CounterPiece(info, f, t, buf, at, count, offset, done, limit);
      if !ok {
        PieceFails(section, was, mid, buf[..], at, count, offset, done, limit, len);
        return -EFAULT;
      }
      PieceJoins(want, was, mid, buf[..], at, done, limit, len);
      done := done + len;
    }
    AllStored(section, was, buf[..], at, count, offset, done, limit);
    rc := done;
  }

  // The counter section that a position falls into.
  method FindCounterData(info: Info, f: nat, pos: nat) returns (t: nat, off: nat)
    requires Valid(info) && f < |info.functions| && pos >= 16
    ensures t <= COUNTERS && off == |FnSections(info, f, t)| <= pos
    ensures t < COUNTERS ==> pos < off + |CounterSection(info, f, t)| && info.active[t]
  {
    t, off := 0, 16;
    while t < COUNTERS
      invariant t <= COUNTERS && off == |FnSections(info, f, t)| <= pos
    {
      var size := SizeofCounterData(info, f, t);
      if pos < off + size { return; }
      off := off + size;
      t := t + 1;
    }
  }

  method HeaderField(info: Info, f: nat, pos: nat) returns (field: seq<Byte>, off: nat)
    requires Valid(info) && f < |info.functions| && pos < 16
    ensures HasAt(FnSections(info, f, COUNTERS), off, field) && off <= pos < off + |field|
  {
    HeaderFields(info.functions[f]);
    if pos < 4 {
      field, off := Le32(TAG_FUNCTION), 0;
    } else if pos < 8 {
      field, off := Le32(2), 4;
    } else if pos < 12 {
      field, off := Le32(info.functions[f].ident), 8;
    } else {
      field, off := Le32(info.functions[f].checksum), 12;
    }
    HeaderIn(info, f, COUNTERS, off, field);
  }

  method FuncPiece(info: Info, f: nat, buf: array<Byte>, at: nat, count: nat, offset: nat, done: nat, limit: nat)
    returns (ok: bool, len: nat)
    requires Valid(info) && f < |info.functions|
    requires at + count <= buf.Length && at + done <= limit <= buf.Length && done < count
    requires done <= |Slice(FnSections(info, f, COUNTERS), offset, count)|
    modifies buf
    ensures Piece(Slice(FnSections(info, f, COUNTERS), offset, count), old(buf[..]), buf[..], at, done, limit, ok, len)
  {
    ghost var section := FnSections(info, f, COUNTERS);
    var pos := offset + done;
    if pos < 16 {
      var field, off := HeaderField(info, f, pos);
      ok, len := CopyField(section, buf, at, count, offset, done, field, off, limit);
    } else {
      var t, off := FindCounterData(info, f, pos);
      if t == COUNTERS {
        NothingLeft(section, offset, count, done);
        return true, 0;
      }
      SectionIn(info, f, COUNTERS, t);
      ok, len := CounterPart(info, f, t, section, off, buf, at, count, offset, done, limit);
    }
  }

  method CounterPart(info: Info, f: nat, t: nat, ghost section: seq<Byte>, off: nat,
                     buf: array<Byte>, at: nat, count: nat, offset: nat, done: nat, limit: nat)
    returns (ok: bool, len: nat)
    requires Valid(info) && f < |info.functions| && t < COUNTERS && info.active[t]
    requires at + count <= buf.Length && at + done <= limit <= buf.Length && done < count
    requires done <= |Slice(section, offset, count)|
    requires HasAt(section, off, CounterSection(info, f, t)) && off <= offset + done < off + |CounterSection(info, f, t)|
    modifies buf
    ensures Piece(Slice(section, offset, count), old(buf[..]), buf[..], at, done, limit, ok, len)
  {
    ghost var part := CounterSection(info, f, t);
    ghost var was := buf[..];
    var rc := StoreCounterData(info, f, t, buf, at + done, count - done, offset + done - off, limit);
    NestedPiece(section, part, was, buf[..], at, count, offset, done, off, limit, rc);
    ok, len := rc >= 0, if rc >= 0 then rc else 0;
  }

  method StoreFuncData(info: Info, f: nat, buf: array<Byte>, at: nat, count: nat, offset: nat, limit: nat)
    returns (rc: int)
    requires Valid(info) && f < |info.functions|
    requires at + count <= buf.Length && at <= limit <= buf.Length
    modifies buf
    ensures Stores(FnSections(info, f, COUNTERS), old(buf[..]), buf[..], at, count, offset, limit, rc)
  {
    ghost var section := FnSections(info, f, COUNTERS);
    ghost var want := Slice(section, offset, count);
    ghost var was := buf[..];
    var done, len := 0, 1;
    while done < count && len > 0
      invariant done <= count && at + done <= limit && Progress(want, was, buf[..], at, done)
      invariant len == 0 ==> done == |want|
      decreases count - done, len
    {
      ghost var mid := buf[..];
      var ok;
      ok, len := FuncPiece(info, f, buf, at, count, offset, done, limit);
      if !ok {
        PieceFails(section, was, mid, buf[..], at, count, offset, done, limit, len);
        return -EFAULT;
      }
      PieceJoins(want, was, mid, buf[..], at, done, limit, len);
      done := done + len;
    }
    AllStored(section, was, buf[..], at, count, offset, done, limit);
    rc := done;
  }

  // The function that a position falls into.
  method FindFunction(info: Info, pos: nat) returns (f: nat, off: nat)
    requires Valid(info) && pos >= 12
    ensures f <= |info.functions| && off == |FileUpTo(info, f)| <= pos
    ensures f < |info.functions| ==> pos < off + |FnSections(info, f, COUNTERS)|
  {
    f, off := 0, 12;
    while f < |info.functions|
      invariant f <= |info.functions| && off == |FileUpTo(info, f)| <= pos
    {
      var size := SizeofFuncData(info, f);
      if pos < off + size { return; }
      off := off + size;
      f := f + 1;
    }
  }

  method FileField(info: Info, pos: nat) returns (field: seq<Byte>, off: nat)
    requires Valid(info) && pos < 12
    ensures HasAt(File(info), off, field) && off <= pos < off + |field|
  {
    FileFields(info);
    if pos < 4 {
      field, off := Le32(DATA_MAGIC), 0;
    } else if pos < 8 {
      field, off := Le32(info.version), 4;
    } else {
      field, off := Le32(info.stamp), 8;
    }
    FileHeaderIn(info, |info.functions|, off, field);
  }

  method FilePiece(info: Info, buf: array<Byte>, at: nat, count: nat, offset: nat, done: nat, limit: nat)
    returns (ok: bool, len: nat)
    requires Valid(info)
    requires at + count <= buf.Length && at + done <= limit <= buf.Length && done < count
    requires done <= |Slice(File(info), offset, count)|
    modifies buf
    ensures Piece(Slice(File(info), offset, count), old(buf[..]), buf[..], at, done, limit, ok, len)
  {
    ghost var section := File(info);
    var pos := offset + done;
    if pos < 12 {
      var field, off := FileField(info, pos);
      ok, len := CopyField(section, buf, at, count, offset, done, field, off, limit);
    } else {
      var f, off := FindFunction(info, pos);
      if f == |info.functions| {
        NothingLeft(section, offset, count, done);
        return true, 0;
      }
      FunctionIn(info, |info.functions|, f);
      ok, len := FunctionPart(info, f, section, off, buf, at, count, offset, done, limit);
    }
  }

  method FunctionPart(info: Info, f: nat, ghost section: seq<Byte>, off: nat,
                      buf: array<Byte>, at: nat, count: nat, offset: nat, done: nat, limit: nat)
    returns (ok: bool, len: nat)
    requires Valid(info) && f < |info.functions|
    requires at + count <= buf.Length && at + done <= limit <= buf.Length && done < count
    requires done <= |Slice(section, offset, count)|
    requires HasAt(section, off, FnSections(info, f, COUNTERS)) && off <= offset + done < off + |FnSections(info, f, COUNTERS)|
    modifies buf
    ensures Piece(Slice(section, offset, count), old(buf[..]), buf[..], at, done, limit, ok, len)
  {
    ghost var part := FnSections(info, f, COUNTERS);
    ghost var was := buf[..];
    var rc := StoreFuncData(info, f, buf, at + done, count - done, offset + done - off, limit);
    NestedPiece(section, part, was, buf[..], at, count, offset, done, off, limit, rc);
    ok, len := rc >= 0, if rc >= 0 then rc else 0;
  }

  /** For every offset and count the read stores exactly that slice of the serialised file
      and returns its length, 0 at the end of the file, or -EFAULT when the slice does not
      fit the accessible part of the buffer. */
  method StoreFile(info: Info, buf: array<Byte>, at: nat, count: nat, offset: nat, limit: nat) returns (rc: int)
    requires Valid(info)
    requires at + count <= buf.Length && at <= limit <= buf.Length
    modifies buf
    ensures Stores(File(info), old(buf[..]), buf[..], at, count, offset, limit, rc)
  {
    ghost var section := File(info);
    ghost var want := Slice(section, offset, count);
    ghost var was := buf[..];
    var done, len := 0, 1;
    while done < count && len > 0
      invariant done <= count && at + done <= limit && Progress(want, was, buf[..], at, done)
      invariant len == 0 ==> done == |want|
      decreases count - done, len
    {
      ghost var mid := buf[..];
      var ok;
      ok, len := FilePiece(info, buf, at, count, offset, done, limit);
      if !ok {
        PieceFails(section, was, mid, buf[..], at, count, offset, done, limit, len);
        return -EFAULT;
      }
      PieceJoins(want, was, mid, buf[..], at, done, limit, len);
      done := done + len;
    }
    AllStored(section, was, buf[..], at, count, offset, done, limit);
    rc := done;
  }
}
