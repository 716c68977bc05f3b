/**
 Receive completions.

 An event carries only the low 4 bits of the adapter's descriptor pointer.  From them
 the driver recovers how many descriptors were completed - one more fragment of a
 scattered packet, a whole batch of packets, or an aborted packet - and hands the
 descriptors up.
 */
module RxEvents {
  import opened Rings

  const LBITS: nat := 16     // 1 << ESF_DZ_RX_DSC_PTR_LBITS_WIDTH

  datatype RxEvent = RxEvent(lbits: nat, cont: bool, bytes: nat)

  // How a packet is handed up: as received, with its length in the prefix, or dropped.
  datatype Manner = Whole | LengthInPrefix | Discard

  datatype Packet = Packet(index: nat, frags: nat, len: nat, manner: Manner)

  // removed_count (32 bits), scatter_n, scatter_len.
  datatype Queue = Queue(removed: nat, scatterN: nat, scatterLen: nat)

  // The queue afterwards, the packets handed up, the number of packets reported to the
  // event loop, and whether the datapath is to be reset.
  datatype Handled = Handled(queue: Queue, packets: seq<Packet>, count: nat, reset: bool)

  function Add32(a: nat, b: nat): nat {
    Slot(a + b, WRAP)
  }

  // count packets of n fragments each, from a removed count on.
  function Deliver(removed: nat, count: nat, n: nat, len: nat, manner: Manner, ring: nat): seq<Packet>
    requires ring > 0
    decreases count
  {
    if count == 0 then []
    else [Packet(Slot(removed, ring), n, len, manner)] + Deliver(Add32(removed, n), count - 1, n, len, manner, ring)
  }

  function Advanced(removed: nat, count: nat, n: nat): nat
    decreases count
  {
    if count == 0 then removed else Advanced(Add32(removed, n), count - 1, n)
  }

  function Descriptors(q: Queue, ev: RxEvent): (n: nat)
    ensures n < LBITS
  {
    (ev.lbits - q.removed) % LBITS
  }

  // The event, once the number of descriptors is known.
  function Complete(q: Queue, n: nat, cont: bool, bytes: nat, batching: bool, ring: nat): Handled
    requires ring > 0
  {
    if n == q.scatterN + 1 then
      var grown := q.(scatterN := q.scatterN + 1, scatterLen := q.scatterLen + bytes);
      if cont then Handled(grown, [], 0, false)
      else
        Handled(Queue(Add32(q.removed, grown.scatterN), 0, 0),
                [Packet(Slot(q.removed, ring), grown.scatterN, grown.scatterLen, Whole)], 1, false)
    else if n == q.scatterN then
      Handled(Queue(Add32(q.removed, q.scatterN), 0, 0),
              if q.scatterN > 0 then [Packet(Slot(q.removed, ring), q.scatterN, 0, Discard)] else [], 0, false)
    else if !batching || q.scatterN != 0 || cont then Handled(q, [], 0, true)
    else Handled(Queue(Advanced(q.removed, n, 1), 0, 0), Deliver(q.removed, n, 1, 0, LengthInPrefix, ring), n, false)
  }

  function Handle(q: Queue, ev: RxEvent, batching: bool, ring: nat): Handled
    requires ring > 0
  {
    Complete(q, Descriptors(q, ev), ev.cont, ev.bytes, batching, ring)
  }

  datatype Trace = Trace(queue: Queue, packets: seq<Packet>, reset: bool)

  function HandleAll(q: Queue, events: seq<RxEvent>, batching: bool, ring: nat): Trace
    requires ring > 0
    decreases |events|
  {
    if events == [] then Trace(q, [], false)
    else
      var h := Handle(q, events[0], batching, ring);
      var rest := HandleAll(h.queue, events[1..], batching, ring);
      Trace(rest.queue, h.packets + rest.packets, h.reset || rest.reset)
  }

  // ----- one event: exactly when the 4 bits are enough -----

  // What the adapter may report when its pointer is `ahead` descriptors past the first
  // one not yet handed up.
  predicate Plausible(q: Queue, ahead: nat, cont: bool, batching: bool) {
    || ahead == q.scatterN + 1                                        // one more fragment
    || (ahead == q.scatterN && q.scatterN > 0)                        // abort
    || (q.scatterN == 0 && ahead > 1 && !cont && batching)            // merged completions
  }

  lemma DescriptorsAre(q: Queue, p: nat, ahead: nat, ev: RxEvent)
    requires q.removed == Slot(p, WRAP) && ev.lbits == (p + ahead) % LBITS
    ensures Descriptors(q, ev) == ahead % LBITS
  {
    SlotIsMod(p, WRAP);
    var k := p / WRAP;
    assert p == WRAP * k + q.removed;
    assert WRAP * k == LBITS * (WRAP / LBITS * k);
  }

  lemma {:induction false} AdvancedBy(p: nat, count: nat, n: nat)
    ensures n * count >= 0 && Advanced(Slot(p, WRAP), count, n) == Slot(p + n * count, WRAP)
    decreases count
  {
    if count > 0 {
      SlotAdd(p, n, WRAP);
      AdvancedBy(p + n, count - 1, n);
      assert p + n + n * (count - 1) == p + n * count;
    }
  }

  // Two counts less than the counter range apart differ as 32-bit counters.
  lemma CountersDiffer(a: nat, b: nat)
    requires a != b && a < b + WRAP && b < a + WRAP
    ensures Slot(a, WRAP) != Slot(b, WRAP)
  {
    if a < b { SlotsDiffer(a, b, WRAP); } else { SlotsDiffer(b, a, WRAP); }
  }

  // Where removed_count + scatter_n ends up: at the n descriptors made out, or where it
  // was if the event made no sense.
  lemma CompleteMovesTo(q: Queue, p: nat, n: nat, cont: bool, bytes: nat, batching: bool, ring: nat)
    requires ring > 0 && q.removed == Slot(p, WRAP)
    ensures var h := Complete(q, n, cont, bytes, batching, ring);
      Add32(h.queue.removed, h.queue.scatterN) == Slot(p + (if h.reset then q.scatterN else n), WRAP)
  {
    SlotAdd(p, q.scatterN, WRAP);
    SlotAdd(p, q.scatterN + 1, WRAP);
    AdvancedBy(p, n, 1);
    SlotAdd(p + n, 0, WRAP);
  }

  /** After any plausible event, removed_count + scatter_n equals the adapter's pointer as
      a 32-bit number - exactly when the adapter was fewer than 16 descriptors ahead. */
  lemma TracksIff(q: Queue, p: nat, ahead: nat, ev: RxEvent, batching: bool, ring: nat)
    requires ring > 0 && q.removed == Slot(p, WRAP) && q.scatterN < LBITS
    requires Plausible(q, ahead, ev.cont, batching) && ahead < WRAP && ev.lbits == (p + ahead) % LBITS
    ensures var q' := Handle(q, ev, batching, ring).queue;
      Add32(q'.removed, q'.scatterN) == Slot(p + ahead, WRAP) <==> ahead < LBITS
  {
    var n := Descriptors(q, ev);
    DescriptorsAre(q, p, ahead, ev);
    CompleteMovesTo(q, p, n, ev.cont, ev.bytes, batching, ring);
    if ahead >= LBITS {
      CountersDiffer(p + ahead, p + if Handle(q, ev, batching, ring).reset then q.scatterN else n);
    }
  }

  // ----- whole runs -----

  // What the adapter does with its descriptors.
  datatype Item =
    | Received(frags: seq<nat>)       // the bytes of each fragment
    | Batch(count: nat)
    | Aborted(parts: seq<nat>)

  // Fewer than 16 descriptors ahead.
  predicate ItemOk(item: Item) {
    match item
    case Received(frags) => 1 <= |frags| < LBITS
    case Batch(count) => 2 <= count < LBITS
    case Aborted(parts) => 1 <= |parts| < LBITS
  }

  function Used(item: Item): nat {
    match item
    case Received(frags) => |frags|
    case Batch(count) => count
    case Aborted(parts) => |parts|
  }

  function Bits(p: nat): nat {
    p % LBITS
  }

  // The events of a run of fragments, the adapter's pointer being at p before them.
  function FragmentEvents(p: nat, frags: seq<nat>, last: bool): seq<RxEvent>
    decreases |frags|
  {
    if frags == [] then []
    else [RxEvent(Bits(p + 1), !(last && |frags| == 1), frags[0])] + FragmentEvents(p + 1, frags[1..], last)
  }

  function Events(p: nat, item: Item): seq<RxEvent> {
    match item
    case Received(frags) => FragmentEvents(p, frags, true)
    case Batch(count) => [RxEvent(Bits(p + count), false, 0)]
    case Aborted(parts) => FragmentEvents(p, parts, false) + [RxEvent(Bits(p + |parts|), false, 0)]
  }

  function AllEvents(p: nat, items: seq<Item>): seq<RxEvent>
    decreases |items|
  {
    if items == [] then [] else Events(p, items[0]) + AllEvents(p + Used(items[0]), items[1..])
  }

  function Sum(xs: seq<nat>): nat {
    if xs == [] then 0 else xs[0] + Sum(xs[1..])
  }

  // A batch of packets of one descriptor each.
  function Singles(p: nat, count: nat, ring: nat): seq<Packet>
    requires ring > 0
    decreases count
  {
    if count == 0 then [] else [Packet(Slot(p, ring), 1, 0, LengthInPrefix)] + Singles(p + 1, count - 1, ring)
  }

  // What should be handed up.
  function Expected(p: nat, item: Item, ring: nat): seq<Packet>
    requires ring > 0
  {
    match item
    case Received(frags) => [Packet(Slot(p, ring), |frags|, Sum(frags), Whole)]
    case Batch(count) => Singles(p, count, ring)
    case Aborted(parts) => [Packet(Slot(p, ring), |parts|, 0, Discard)]
  }

  function AllExpected(p: nat, items: seq<Item>, ring: nat): seq<Packet>
    requires ring > 0
    decreases |items|
  {
    if items == [] then [] else Expected(p, items[0], ring) + AllExpected(p + Used(items[0]), items[1..], ring)
  }

  function TotalUsed(items: seq<Item>): nat
    decreases |items|
  {
    if items == [] then 0 else Used(items[0]) + TotalUsed(items[1..])
  }

  lemma {:induction false} HandleConcat(q: Queue, a: seq<RxEvent>, b: seq<RxEvent>, batching: bool, ring: nat)
    requires ring > 0
    ensures var first := HandleAll(q, a, batching, ring);
      var second := HandleAll(first.queue, b, batching, ring);
      HandleAll(q, a + b, batching, ring) ==
        Trace(second.queue, first.packets + second.packets, first.reset || second.reset)
    decreases |a|
  {
    if a == [] {
      assert a + b == b;
    } else {
      var h := Handle(q, a[0], batching, ring);
      HandleConcat(h.queue, a[1..], b, batching, ring);
      assert (a + b)[1..] == a[1..] + b;
      var rest := HandleAll(h.queue, a[1..], batching, ring);
      var second := HandleAll(rest.queue, b, batching, ring);
      assert h.packets + (rest.packets + second.packets) == (h.packets + rest.packets) + second.packets;
    }
  }

  lemma HandleOne(q: Queue, ev: RxEvent, batching: bool, ring: nat)
    requires ring > 0
    ensures HandleAll(q, [ev], batching, ring) ==
      var h := Handle(q, ev, batching, ring); Trace(h.queue, h.packets, h.reset)
  {
    var h := Handle(q, ev, batching, ring);
    assert [ev][1..] == [];
    assert HandleAll(h.queue, [], batching, ring) == Trace(h.queue, [], false);
    assert h.packets + [] == h.packets;
  }

  // Each event tells of one fragment more than the n before it; the last may end the packet.
  predicate Follow(removed: nat, n: nat, events: seq<RxEvent>, last: bool)
    decreases |events|
  {
    events != [] ==>
      && Descriptors(Queue(removed, 0, 0), events[0]) == n + 1
      && events[0].cont == !(last && |events| == 1)
      && Follow(removed, n + 1, events[1..], last)
  }

  function Bytes(events: seq<RxEvent>): nat {
    if events == [] then 0 else events[0].bytes + Bytes(events[1..])
  }

  // Where such events leave the queue: one packet up if the last of them ends it.
  function Gathered(q: Queue, n: nat, bytes: nat, ends: bool, ring: nat): Trace
    requires ring > 0
  {
    if ends then
      Trace(Queue(Add32(q.removed, q.scatterN + n), 0, 0), [Packet(Slot(q.removed, ring), q.scatterN + n, q.scatterLen + bytes, Whole)], false)
    else Trace(Queue(q.removed, q.scatterN + n, q.scatterLen + bytes), [], false)
  }

  lemma {:induction false} Accumulate(q: Queue, events: seq<RxEvent>, last: bool, batching: bool, ring: nat)
    requires ring > 0 && Follow(q.removed, q.scatterN, events, last)
    ensures HandleAll(q, events, batching, ring) == Gathered(q, |events|, Bytes(events), last && events != [], ring)
    decreases |events|
  {
    if events != [] {
      var h := Handle(q, events[0], batching, ring);
      if events[0].cont {
        Accumulate(h.queue, events[1..], last, batching, ring);
      } else {
        assert events[1..] == [];
      }
    }
  }

  lemma {:induction false} FragmentsFollow(p: nat, done: nat, frags: seq<nat>, last: bool)
    requires done + |frags| < LBITS
    ensures var events := FragmentEvents(p + done, frags, last);
      && |events| == |frags| && Bytes(events) == Sum(frags) && Follow(Slot(p, WRAP), done, events, last)
    decreases |frags|
  {
    if frags != [] {
      var events := FragmentEvents(p + done, frags, last);
      FragmentsFollow(p, done + 1, frags[1..], last);
      assert events[1..] == FragmentEvents(p + done + 1, frags[1..], last);
      DescriptorsAre(Queue(Slot(p, WRAP), 0, 0), p, done + 1, events[0]);
    }
  }

  // Fragments accumulate; the last one of a packet completes it.
  lemma FragmentsAccumulate(p: nat, frags: seq<nat>, last: bool, batching: bool, ring: nat)
    requires DividesWrap(ring) && |frags| < LBITS
    ensures HandleAll(Queue(Slot(p, WRAP), 0, 0), FragmentEvents(p, frags, last), batching, ring) ==
      if last && frags != [] then
        Trace(Queue(Slot(p + |frags|, WRAP), 0, 0), [Packet(Slot(p, ring), |frags|, Sum(frags), Whole)], false)
      else Trace(Queue(Slot(p, WRAP), |frags|, Sum(frags)), [], false)
  {
    FragmentsFollow(p, 0, frags, last);
    Accumulate(Queue(Slot(p, WRAP), 0, 0), FragmentEvents(p, frags, last), last, batching, ring);
    CounterSlot(p, ring);
    SlotAdd(p, |frags|, WRAP);
  }

  lemma {:induction false} DeliverIs(p: nat, count: nat, ring: nat)
    requires DividesWrap(ring)
    ensures Deliver(Slot(p, WRAP), count, 1, 0, LengthInPrefix, ring) == Singles(p, count, ring)
    decreases count
  {
    if count > 0 {
      SlotAdd(p, 1, WRAP);
      CounterSlot(p, ring);
      DeliverIs(p + 1, count - 1, ring);
    }
  }

  lemma BatchCompletes(p: nat, count: nat, ring: nat)
    requires DividesWrap(ring) && 2 <= count
    ensures Complete(Queue(Slot(p, WRAP), 0, 0), count, false, 0, true, ring) ==
      Handled(Queue(Slot(p + count, WRAP), 0, 0), Singles(p, count, ring), count, false)
  {
    AdvancedBy(p, count, 1);
    DeliverIs(p, count, ring);
  }

  lemma BatchStep(p: nat, count: nat, ring: nat)
    requires DividesWrap(ring) && 2 <= count < LBITS
    ensures Handle(Queue(Slot(p, WRAP), 0, 0), RxEvent(Bits(p + count), false, 0), true, ring) ==
      Handled(Queue(Slot(p + count, WRAP), 0, 0), Singles(p, count, ring), count, false)
  {
    var q, ev := Queue(Slot(p, WRAP), 0, 0), RxEvent(Bits(p + count), false, 0);
    DescriptorsAre(q, p, count, ev);
    assert Descriptors(q, ev) == count;
    BatchCompletes(p, count, ring);
  }

  lemma AbortStep(p: nat, n: nat, len: nat, batching: bool, ring: nat)
    requires DividesWrap(ring) && 1 <= n < LBITS
    ensures Handle(Queue(Slot(p, WRAP), n, len), RxEvent(Bits(p + n), false, 0), batching, ring) ==
      Handled(Queue(Slot(p + n, WRAP), 0, 0), [Packet(Slot(p, ring), n, 0, Discard)], 0, false)
  {
    var q, ev := Queue(Slot(p, WRAP), n, len), RxEvent(Bits(p + n), false, 0);
    DescriptorsAre(q, p, n, ev);
    assert Descriptors(q, ev) == n;
    CounterSlot(p, ring);
    SlotAdd(p, n, WRAP);
  }

  lemma AbortHandled(p: nat, parts: seq<nat>, batching: bool, ring: nat)
    requires DividesWrap(ring) && 1 <= |parts| < LBITS
    ensures HandleAll(Queue(Slot(p, WRAP), 0, 0), Events(p, Aborted(parts)), batching, ring) ==
      Trace(Queue(Slot(p + |parts|, WRAP), 0, 0), [Packet(Slot(p, ring), |parts|, 0, Discard)], false)
  {
    FragmentsAccumulate(p, parts, false, batching, ring);
    var ev := RxEvent(Bits(p + |parts|), false, 0);
    AbortStep(p, |parts|, Sum(parts), batching, ring);
    HandleOne(Queue(Slot(p, WRAP), |parts|, Sum(parts)), ev, batching, ring);
    HandleConcat(Queue(Slot(p, WRAP), 0, 0), FragmentEvents(p, parts, false), [ev], batching, ring);
  }

  // These events, met at a packet boundary, hand up these packets and lead to another.
  predicate HandsUp(p: nat, events: seq<RxEvent>, packets: seq<Packet>, end: nat, batching: bool, ring: nat)
    requires ring > 0
  {
    HandleAll(Queue(Slot(p, WRAP), 0, 0), events, batching, ring) == Trace(Queue(Slot(end, WRAP), 0, 0), packets, false)
  }

  lemma HandsUpBoth(p: nat, a: seq<RxEvent>, first: seq<Packet>, m: nat, b: seq<RxEvent>, second: seq<Packet>, end: nat,
                    batching: bool, ring: nat)
    requires ring > 0 && HandsUp(p, a, first, m, batching, ring) && HandsUp(m, b, second, end, batching, ring)
    ensures HandsUp(p, a + b, first + second, end, batching, ring)
  {
    HandleConcat(Queue(Slot(p, WRAP), 0, 0), a, b, batching, ring);
  }

  lemma ItemHandled(p: nat, item: Item, batching: bool, ring: nat)
    requires DividesWrap(ring) && ItemOk(item) && (item.Batch? ==> batching)
    ensures HandsUp(p, Events(p, item), Expected(p, item, ring), p + Used(item), batching, ring)
  {
    match item
    case Received(frags) =>
      FragmentsAccumulate(p, frags, true, batching, ring);
    case Batch(count) =>
      BatchStep(p, count, ring);
      HandleOne(Queue(Slot(p, WRAP), 0, 0), RxEvent(Bits(p + count), false, 0), batching, ring);
    case Aborted(parts) =>
      AbortHandled(p, parts, batching, ring);
  }

  /** Whatever the adapter does, as long as it stays fewer than 16 descriptors ahead, the
      driver hands up exactly what was received, batched or aborted, in order, for any
      starting count and across the 32-bit wrap, and never asks for a reset. */
  lemma {:induction false} RunIsHandledUp(p: nat, items: seq<Item>, batching: bool, ring: nat)
    requires DividesWrap(ring) && forall k :: 0 <= k < |items| ==> ItemOk(items[k]) && (items[k].Batch? ==> batching)
    ensures HandsUp(p, AllEvents(p, items), AllExpected(p, items, ring), p + TotalUsed(items), batching, ring)
    decreases |items|
  {
    if items != [] {
      var next, rest := p + Used(items[0]), items[1..];
      ItemHandled(p, items[0], batching, ring);
      RunIsHandledUp(next, rest, batching, ring);
      HandsUpBoth(p, Events(p, items[0]), Expected(p, items[0], ring), next,
                  AllEvents(next, rest), AllExpected(next, rest, ring), next + TotalUsed(rest), batching, ring);
    }
  }

  // ----- every descriptor once -----

  // The slots of n descriptors from a position on.
  function Slots(p: nat, n: nat, ring: nat): seq<nat>
    requires ring > 0
    decreases n
  {
    if n == 0 then [] else [Slot(p, ring)] + Slots(p + 1, n - 1, ring)
  }

  lemma {:induction false} SlotsConcat(p: nat, m: nat, n: nat, ring: nat)
    requires ring > 0
    ensures Slots(p, m + n, ring) == Slots(p, m, ring) + Slots(p + m, n, ring)
    decreases m
  {
    if m > 0 { SlotsConcat(p + 1, m - 1, n, ring); }
  }

  function AllSlots(packets: seq<Packet>, ring: nat): seq<nat>
    requires ring > 0
    decreases |packets|
  {
    if packets == [] then [] else Slots(packets[0].index, packets[0].frags, ring) + AllSlots(packets[1..], ring)
  }

  lemma Regroup(a: seq<nat>, b: seq<nat>, c: seq<nat>)
    ensures a + (b + c) == (a + b) + c
  {
  }

  lemma {:induction false} AllSlotsConcat(a: seq<Packet>, b: seq<Packet>, ring: nat)
    requires ring > 0
    ensures AllSlots(a + b, ring) == AllSlots(a, ring) + AllSlots(b, ring)
    decreases |a|
  {
    if a == [] {
      assert a + b == b;
    } else {
      AllSlotsConcat(a[1..], b, ring);
      assert (a + b)[0] == a[0] && (a + b)[1..] == a[1..] + b;
      Regroup(Slots(a[0].index, a[0].frags, ring), AllSlots(a[1..], ring), AllSlots(b, ring));
    }
  }

  lemma {:induction false} SlotsFrom(p: nat, i: nat, n: nat, ring: nat)
    requires ring > 0
    ensures Slots(Slot(p, ring) + i, n, ring) == Slots(p + i, n, ring)
    decreases n
  {
    if n > 0 {
      SlotAdd(p, i, ring);
      SlotsFrom(p, i + 1, n - 1, ring);
    }
  }

  lemma {:induction false} BatchSlots(p: nat, count: nat, ring: nat)
    requires ring > 0
    ensures AllSlots(Singles(p, count, ring), ring) == Slots(p, count, ring)
    decreases count
  {
    if count > 0 {
      BatchSlots(p + 1, count - 1, ring);
      var packets := Singles(p, count, ring);
      assert packets[1..] == Singles(p + 1, count - 1, ring);
      SlotsFrom(p, 0, 1, ring);
      SlotsConcat(p, 1, count - 1, ring);
    }
  }

  lemma ItemSlots(p: nat, item: Item, ring: nat)
    requires ring > 0
    ensures AllSlots(Expected(p, item, ring), ring) == Slots(p, Used(item), ring)
  {
    if item.Batch? {
      BatchSlots(p, item.count, ring);
    } else {
      var packets := Expected(p, item, ring);
      assert packets[1..] == [];
      SlotsFrom(p, 0, Used(item), ring);
      assert AllSlots(packets, ring) == Slots(packets[0].index, packets[0].frags, ring) + [];
    }
  }

  // The descriptors of the expected packets are the ring's, in order.
  lemma {:induction false} ExpectedSlots(p: nat, items: seq<Item>, ring: nat)
    requires ring > 0
    ensures AllSlots(AllExpected(p, items, ring), ring) == Slots(p, TotalUsed(items), ring)
    decreases |items|
  {
    if items != [] {
      var next := p + Used(items[0]);
      ExpectedSlots(next, items[1..], ring);
      AllSlotsConcat(Expected(p, items[0], ring), AllExpected(next, items[1..], ring), ring);
      ItemSlots(p, items[0], ring);
      SlotsConcat(p, Used(items[0]), TotalUsed(items[1..]), ring);
    }
  }

  // All the events of a run that may end inside a packet.
  function RunEvents(p: nat, items: seq<Item>, partial: seq<nat>): seq<RxEvent> {
    AllEvents(p, items) + FragmentEvents(p + TotalUsed(items), partial, false)
  }

  predicate RunOk(items: seq<Item>, partial: seq<nat>, batching: bool) {
    |partial| < LBITS && forall k :: 0 <= k < |items| ==> ItemOk(items[k]) && (items[k].Batch? ==> batching)
  }

  // The fragments of a packet that is not complete, after whatever came before.
  lemma PartialFollows(q: Queue, events: seq<RxEvent>, packets: seq<Packet>, next: nat, partial: seq<nat>, batching: bool, ring: nat)
    requires DividesWrap(ring) && |partial| < LBITS
    requires HandleAll(q, events, batching, ring) == Trace(Queue(Slot(next, WRAP), 0, 0), packets, false)
    ensures HandleAll(q, events + FragmentEvents(next, partial, false), batching, ring) ==
      Trace(Queue(Slot(next, WRAP), |partial|, Sum(partial)), packets, false)
  {
    var more := FragmentEvents(next, partial, false);
    FragmentsAccumulate(next, partial, false, batching, ring);
    HandleConcat(q, events, more, batching, ring);
    assert packets + [] == packets;
  }

  /** Wherever a run has got to, also inside a packet: what is complete has been handed up,
      the fragments since are counted, and `removed_count + scatter_n` is the adapter's
      pointer. */
  lemma EveryRunTracks(p: nat, items: seq<Item>, partial: seq<nat>, batching: bool, ring: nat)
    requires DividesWrap(ring) && RunOk(items, partial, batching)
    ensures var t := HandleAll(Queue(Slot(p, WRAP), 0, 0), RunEvents(p, items, partial), batching, ring);
      && t == Trace(Queue(Slot(p + TotalUsed(items), WRAP), |partial|, Sum(partial)), AllExpected(p, items, ring), false)
      && Add32(t.queue.removed, t.queue.scatterN) == Slot(p + TotalUsed(items) + |partial|, WRAP)
  {
    var q, next := Queue(Slot(p, WRAP), 0, 0), p + TotalUsed(items);
    RunIsHandledUp(p, items, batching, ring);
    PartialFollows(q, AllEvents(p, items), AllExpected(p, items, ring), next, partial, batching, ring);
    SlotAdd(next, |partial|, WRAP);
  }

  /** The descriptors that the handler hands up along a run are the ring's, in order, each
      exactly once, up to those of a packet that is not complete. */
  lemma EveryDescriptorOnce(p: nat, items: seq<Item>, partial: seq<nat>, batching: bool, ring: nat)
    requires DividesWrap(ring) && RunOk(items, partial, batching)
    ensures AllSlots(HandleAll(Queue(Slot(p, WRAP), 0, 0), RunEvents(p, items, partial), batching, ring).packets, ring) ==
      Slots(p, TotalUsed(items), ring)
  {
    EveryRunTracks(p, items, partial, batching, ring);
    ExpectedSlots(p, items, ring);
  }

  // ----- what is reported to the event loop -----

  // Packets handed up to be kept.
  function Delivered(packets: seq<Packet>): nat {
    if packets == [] then 0 else (if packets[0].manner == Discard then 0 else 1) + Delivered(packets[1..])
  }

  lemma {:induction false} DeliveredConcat(a: seq<Packet>, b: seq<Packet>)
    ensures Delivered(a + b) == Delivered(a) + Delivered(b)
    decreases |a|
  {
    if a == [] {
      assert a + b == b;
    } else {
      DeliveredConcat(a[1..], b);
      assert (a + b)[1..] == a[1..] + b;
    }
  }

  lemma {:induction false} DeliverDelivers(removed: nat, count: nat, n: nat, len: nat, manner: Manner, ring: nat)
    requires ring > 0 && manner != Discard
    ensures Delivered(Deliver(removed, count, n, len, manner, ring)) == count
    decreases count
  {
    if count > 0 {
      DeliverDelivers(Add32(removed, n), count - 1, n, len, manner, ring);
      var packets := Deliver(removed, count, n, len, manner, ring);
      assert packets[1..] == Deliver(Add32(removed, n), count - 1, n, len, manner, ring);
    }
  }

  /** Whatever the event, plausible or not: the number reported to the event loop is that of
      the packets handed up to be kept. */
  lemma CountIsDelivered(q: Queue, ev: RxEvent, batching: bool, ring: nat)
    requires ring > 0
    ensures var h := Handle(q, ev, batching, ring); h.count == Delivered(h.packets)
  {
    var n, h := Descriptors(q, ev), Handle(q, ev, batching, ring);
    if n != q.scatterN + 1 && n != q.scatterN && batching && q.scatterN == 0 && !ev.cont {
      DeliverDelivers(q.removed, n, 1, 0, LengthInPrefix, ring);
    } else if |h.packets| == 1 {
      assert h.packets[1..] == [];
    }
  }

  // The numbers reported for these events, added up.
  function Reported(q: Queue, events: seq<RxEvent>, batching: bool, ring: nat): nat
    requires ring > 0
    decreases |events|
  {
    if events == [] then 0
    else
      var h := Handle(q, events[0], batching, ring);
      h.count + Reported(h.queue, events[1..], batching, ring)
  }

  lemma {:induction false} ReportedIsDelivered(q: Queue, events: seq<RxEvent>, batching: bool, ring: nat)
    requires ring > 0
    ensures Reported(q, events, batching, ring) == Delivered(HandleAll(q, events, batching, ring).packets)
    decreases |events|
  {
    if events != [] {
      var h := Handle(q, events[0], batching, ring);
      CountIsDelivered(q, events[0], batching, ring);
      ReportedIsDelivered(h.queue, events[1..], batching, ring);
      DeliveredConcat(h.packets, HandleAll(h.queue, events[1..], batching, ring).packets);
    }
  }

  // Packets that the adapter received whole, alone or merged.
  function Arrived(items: seq<Item>): nat
    decreases |items|
  {
    if items == [] then 0
    else (match items[0] case Received(_) => 1 case Batch(count) => count case Aborted(_) => 0) + Arrived(items[1..])
  }

  lemma {:induction false} SinglesDelivered(p: nat, count: nat, ring: nat)
    requires ring > 0
    ensures Delivered(Singles(p, count, ring)) == count
    decreases count
  {
    if count > 0 {
      SinglesDelivered(p + 1, count - 1, ring);
      assert Singles(p, count, ring)[1..] == Singles(p + 1, count - 1, ring);
    }
  }

  lemma {:induction false} ExpectedDelivered(p: nat, items: seq<Item>, ring: nat)
    requires ring > 0
    ensures Delivered(AllExpected(p, items, ring)) == Arrived(items)
    decreases |items|
  {
    if items != [] {
      var first, next := Expected(p, items[0], ring), p + Used(items[0]);
      ExpectedDelivered(next, items[1..], ring);
      DeliveredConcat(first, AllExpected(next, items[1..], ring));
      match items[0] {
        case Received(_) => assert first[1..] == [];
        case Batch(count) => SinglesDelivered(p, count, ring);
        case Aborted(_) => assert first[1..] == [];
      }
    }
  }

  /** Along a run, which may end inside a packet, the numbers reported add up to the packets
      that arrived whole, alone or merged; aborted ones do not count. */
  lemma EveryPacketReported(p: nat, items: seq<Item>, partial: seq<nat>, batching: bool, ring: nat)
    requires DividesWrap(ring) && RunOk(items, partial, batching)
    ensures Reported(Queue(Slot(p, WRAP), 0, 0), RunEvents(p, items, partial), batching, ring) == Arrived(items)
  {
    EveryRunTracks(p, items, partial, batching, ring);
    ReportedIsDelivered(Queue(Slot(p, WRAP), 0, 0), RunEvents(p, items, partial), batching, ring);
    ExpectedDelivered(p, items, ring);
  }

  /** The datapath is reset exactly for an event that no number of completed descriptors
      explains, and then nothing is handed up and no count moves. */
  lemma ResetIff(q: Queue, ev: RxEvent, batching: bool, ring: nat)
    requires ring > 0
    ensures var n, h := Descriptors(q, ev), Handle(q, ev, batching, ring);
      && (h.reset <==> !Plausible(q, n, ev.cont, batching) && !(n == 0 && q.scatterN == 0))
      && (h.reset ==> h.queue == q)
      && (!Plausible(q, n, ev.cont, batching) ==> h.packets == [] && h.count == 0)
  {
  }

  // One delivery less to make.
  lemma DeliverNext(delivered: seq<Packet>, removed: nat, count: nat, n: nat, len: nat, manner: Manner, ring: nat)
    requires ring > 0 && count > 0
    ensures delivered + Deliver(removed, count, n, len, manner, ring) ==
      (delivered + [Packet(Slot(removed, ring), n, len, manner)]) + Deliver(Add32(removed, n), count - 1, n, len, manner, ring)
  {
  }

  // ----- the code -----

  class RxQueue {
    const ring: nat              // ptr_mask + 1
    var removedCount: nat
    var scatterN: nat
    var scatterLen: nat
    var delivered: seq<Packet>   // what efx_rx_packet was called with

    ghost function State(): Queue
      reads this
    {
      Queue(removedCount, scatterN, scatterLen)
    }

    constructor (entries: nat, removed: nat)
      ensures ring == entries && State() == Queue(removed, 0, 0) && delivered == []
    {
      ring, removedCount, scatterN, scatterLen, delivered := entries, removed, 0, 0, [];
    }

    method Abort()
      requires ring > 0 && removedCount < WRAP
      modifies this
      ensures State() == Queue(Add32(old(removedCount), old(scatterN)), 0, 0)
      ensures delivered == old(delivered) +
        if old(scatterN) > 0 then [Packet(Slot(old(removedCount), ring), old(scatterN), 0, Discard)] else []
    {
      if scatterN > 0 {
        SlotIsMod(removedCount, ring);
        delivered := delivered + [Packet(removedCount % ring, scatterN, 0, Discard)];
      }
      SlotIsMod(removedCount + scatterN, WRAP);
      removedCount := (removedCount + scatterN) % WRAP;
      scatterN, scatterLen := 0, 0;
    }

    method HandleEvent(ev: RxEvent, batching: bool) returns (count: nat, reset: bool)
      requires ring > 0 && removedCount < WRAP
      modifies this
      ensures old(delivered) <= delivered && removedCount < WRAP
      ensures Handled(State(), delivered[|old(delivered)|..], count, reset) == Handle(old(State()), ev, batching, ring)
    {
      var n := (ev.lbits - removedCount) % LBITS;
      var manner := Whole;
      count, reset := 0, false;
      if n != scatterN + 1 {
        if n == scatterN {
          Abort();
          return;
        }
        if !batching || scatterN != 0 || ev.cont {
          return 0, true;
        }
        scatterN, scatterLen, count, manner := 1, 0, n, LengthInPrefix;
      } else {
        scatterN, scatterLen := scatterN + 1, scatterLen + ev.bytes;
        if ev.cont { return; }
        count := 1;
      }
      DeliverAll(count, manner);
      scatterN, scatterLen := 0, 0;
      assert Deliver(old(removedCount), 1, old(scatterN) + 1, old(scatterLen) + ev.bytes, Whole, ring) ==
        [Packet(Slot(old(removedCount), ring), old(scatterN) + 1, old(scatterLen) + ev.bytes, Whole)];
      assert Advanced(old(removedCount), 1, old(scatterN) + 1) == Add32(old(removedCount), old(scatterN) + 1);
    }

    method DeliverAll(count: nat, manner: Manner)
      requires ring > 0 && removedCount < WRAP
      modifies this`removedCount, this`delivered
      ensures removedCount == Advanced(old(removedCount), count, scatterN) && removedCount < WRAP
      ensures delivered == old(delivered) + Deliver(old(removedCount), count, scatterN, scatterLen, manner, ring)
    {
      for i := 0 to count
        invariant removedCount < WRAP
        invariant Advanced(old(removedCount), count, scatterN) == Advanced(removedCount, count - i, scatterN)
        invariant old(delivered) + Deliver(old(removedCount), count, scatterN, scatterLen, manner, ring) ==
          delivered + Deliver(removedCount, count - i, scatterN, scatterLen, manner, ring)
      {
        DeliverNext(delivered, removedCount, count - i, scatterN, scatterLen, manner, ring);
        DeliverOne(manner);
      }
    }

    method DeliverOne(manner: Manner)
      requires ring > 0
      modifies this`removedCount, this`delivered
      ensures removedCount == Add32(old(removedCount), scatterN) && removedCount < WRAP
      ensures delivered == old(delivered) + [Packet(Slot(old(removedCount), ring), scatterN, scatterLen, manner)]
    {
      SlotIsMod(removedCount, ring);
      SlotIsMod(removedCount + scatterN, WRAP);
      delivered := delivered + [Packet(removedCount % ring, scatterN, scatterLen, manner)];
      removedCount := (removedCount + scatterN) % WRAP;
    }
  }
}
