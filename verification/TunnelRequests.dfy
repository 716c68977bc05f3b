/**
 What the tunnel port table is for: the requests of the callers, folded into a map from
 port to type and number of references, are what the table holds along every run, and
 what the firmware holds when a worker has left.
 */
module TunnelRequests {
  import opened UdpTunnels

  // A port that somebody asked for: its type, and how often.
  datatype Held = Held(kind: nat, count: nat)

  // What one request makes of the ports held, if there is room for another one or not.
  function Request(held: map<nat, Held>, step: Step, room: bool): map<nat, Held> {
    match step
    case AddPort(p, kind) =>
      if p !in held then (if room then held[p := Held(kind, 1)] else held)
      else if held[p].kind == kind && held[p].count < COUNT_MAX then held[p := Held(kind, held[p].count + 1)]
      else held
    case DelPort(p, kind) =>
      if p !in held || held[p].kind != kind || held[p].count == COUNT_MAX then held
      else if held[p].count <= 1 then held - {p}
      else held[p := Held(kind, held[p].count - 1)]
    case _ => held
  }

  // Slots that wait for a worker to confirm a removal.
  function Leaving(slots: seq<Slot>): set<nat> {
    set i | 0 <= i < |slots| && slots[i].removing
  }

  predicate Room(slots: seq<Slot>, held: map<nat, Held>) {
    |held| + |Leaving(slots)| < SLOTS
  }

  // The requests along a run, folded; the table itself is asked for nothing but the number
  // of its slots that are not free again yet.
  function Requested(s: State, steps: seq<Step>, held: map<nat, Held>): map<nat, Held>
    decreases |steps|
  {
    if steps == [] || !Enabled(s, steps[0]) then held
    else Requested(Apply(s, steps[0]), steps[1..], Request(held, steps[0], Room(s.slots, held)))
  }

  predicate InUse(slots: seq<Slot>, i: nat) {
    i < |slots| && slots[i].count > 0
  }

  predicate SlotFor(slots: seq<Slot>, p: nat, h: Held) {
    exists i :: 0 <= i < |slots| && slots[i].count == h.count > 0 && slots[i].port == p && slots[i].kind == h.kind
  }

  // The in-use slots are these ports, with type and count.
  predicate Keeps(slots: seq<Slot>, held: map<nat, Held>) {
    && (forall i :: 0 <= i < |slots| && slots[i].count > 0 ==> slots[i].port in held)
    && (forall p :: p in held ==> SlotFor(slots, p, held[p]))
  }

  lemma KeepsAt(slots: seq<Slot>, held: map<nat, Held>, i: nat)
    requires OneSlotPerPort(slots) && Keeps(slots, held) && InUse(slots, i)
    ensures slots[i].port in held && held[slots[i].port] == Held(slots[i].kind, slots[i].count)
  {
    var p := slots[i].port;
    assert SlotFor(slots, p, held[p]);
  }

  // Slots of different ports are as many as the ports.
  lemma {:induction false} AsManyAs(slots: seq<Slot>, taken: set<nat>, ports: set<nat>)
    requires forall i :: i in taken ==> i < |slots| && slots[i].port in ports
    requires forall i, j :: i in taken && j in taken && i != j ==> slots[i].port != slots[j].port
    requires forall p :: p in ports ==> exists i :: i in taken && slots[i].port == p
    ensures |taken| == |ports|
    decreases |taken|
  {
    if taken == {} {
      assert ports == {};
    } else {
      var i :| i in taken;
      forall p | p in ports - {slots[i].port} ensures exists j :: j in taken - {i} && slots[j].port == p {
        var j :| j in taken && slots[j].port == p;
        assert j in taken - {i};
      }
      AsManyAs(slots, taken - {i}, ports - {slots[i].port});
    }
  }

  lemma {:induction false} CountUpTo(n: nat, all: set<nat>)
    requires forall i :: i in all <==> 0 <= i < n
    ensures |all| == n
  {
    if n == 0 {
      assert all == {};
    } else {
      CountUpTo(n - 1, all - {n - 1});
    }
  }

  lemma KeepsSize(slots: seq<Slot>, held: map<nat, Held>, taken: set<nat>)
    requires TableOk(slots) && Keeps(slots, held) && forall i :: i in taken <==> InUse(slots, i)
    ensures |taken| == |held|
  {
    forall p | p in held.Keys ensures exists i :: i in taken && slots[i].port == p {
      assert SlotFor(slots, p, held[p]);
      var i: nat :| 0 <= i < |slots| && slots[i].count == held[p].count > 0 && slots[i].port == p;
      assert i in taken;
    }
    forall i, j | i in taken && j in taken && i != j ensures slots[i].port != slots[j].port {
      if i < j { assert slots[i].port != slots[j].port; } else { assert slots[j].port != slots[i].port; }
    }
    AsManyAs(slots, taken, held.Keys);
    assert |held.Keys| == |held|;
  }

  // Three kinds of slots that share the table.
  lemma ThreeKinds(taken: set<nat>, leaving: set<nat>, free: set<nat>)
    requires taken !! leaving && (taken + leaving) !! free && forall i :: i in taken + leaving + free <==> 0 <= i < SLOTS
    ensures free != {} <==> |taken| + |leaving| < SLOTS
  {
    CountUpTo(SLOTS, taken + leaving + free);
    assert free != {} <==> |free| > 0;
  }

  function Taken(slots: seq<Slot>): set<nat> {
    set i | 0 <= i < |slots| && slots[i].count > 0
  }

  function Free(slots: seq<Slot>): set<nat> {
    set i | 0 <= i < |slots| && Unused(slots[i])
  }

  lemma SlotsAreShared(slots: seq<Slot>)
    requires TableOk(slots)
    ensures Taken(slots) !! Leaving(slots) && (Taken(slots) + Leaving(slots)) !! Free(slots)
    ensures forall i :: i in Taken(slots) + Leaving(slots) + Free(slots) <==> 0 <= i < SLOTS
  {
    forall i | 0 <= i < |slots|
      ensures !(i in Taken(slots) && i in Leaving(slots)) && (i in Free(slots) <==> i !in Taken(slots) && i !in Leaving(slots))
    {
      assert SlotOk(slots[i]);
    }
  }

  // A slot is free exactly while the ports held and the removals that wait do not fill the table.
  lemma RoomIff(slots: seq<Slot>, held: map<nat, Held>)
    requires TableOk(slots) && Keeps(slots, held)
    ensures FindUnused(slots) < |slots| <==> Room(slots, held)
  {
    var taken, free := Taken(slots), Free(slots);
    KeepsSize(slots, held, taken);
    SlotsAreShared(slots);
    ThreeKinds(taken, Leaving(slots), free);
    var f := FindUnused(slots);
    if f < |slots| { assert f in free; }
  }

  lemma NotHeld(slots: seq<Slot>, held: map<nat, Held>, port: nat)
    requires Keeps(slots, held) && Find(slots, port) == |slots|
    ensures port !in held
  {
    assert port in held ==> SlotFor(slots, port, held[port]);
  }

  /** One add: a port that is held gets one reference more if the type is the same, a new
      one gets the type asked for if there is room; every other port keeps its type and
      count, and an add that is turned away changes nothing. */
  lemma AddRequested(slots: seq<Slot>, held: map<nat, Held>, port: nat, kind: nat)
    requires TableOk(slots) && Keeps(slots, held)
    ensures Keeps(Added(slots, port, kind), Request(held, AddPort(port, kind), Room(slots, held)))
    ensures AddAccepted(slots, port, kind) <==> if port in held then held[port].kind == kind else Room(slots, held)
    ensures !AddAccepted(slots, port, kind) ==> Added(slots, port, kind) == slots
  {
    if Find(slots, port) < |slots| {
      AddToHeld(slots, held, port, kind, Room(slots, held));
    } else {
      NotHeld(slots, held, port);
      RoomIff(slots, held);
      AddNew(slots, held, port, kind, Room(slots, held));
    }
  }

  lemma AddToHeld(slots: seq<Slot>, held: map<nat, Held>, port: nat, kind: nat, room: bool)
    requires TableOk(slots) && Keeps(slots, held) && Find(slots, port) < |slots|
    ensures port in held && (AddAccepted(slots, port, kind) <==> held[port].kind == kind)
    ensures Keeps(Added(slots, port, kind), Request(held, AddPort(port, kind), room))
    ensures !AddAccepted(slots, port, kind) ==> Added(slots, port, kind) == slots
  {
    var m := Find(slots, port);
    KeepsAt(slots, held, m);
    if slots[m].kind == kind {
      var slot := Referenced(slots[m]);
      ReplacedKeeps(slots, held, m, slot);
      AddIs(held, port, slots[m].count, slot.count, kind, room);
    }
  }

  // An add of a port that is in the map: the reference put on its count.
  lemma AddIs(held: map<nat, Held>, port: nat, count: nat, after: nat, kind: nat, room: bool)
    requires port in held && held[port] == Held(kind, count)
    requires after == if count < COUNT_MAX then count + 1 else count
    ensures Request(held, AddPort(port, kind), room) == held[port := Held(kind, after)]
  {
    if count >= COUNT_MAX { assert held[port := Held(kind, after)] == held; }
  }

  lemma AddNew(slots: seq<Slot>, held: map<nat, Held>, port: nat, kind: nat, room: bool)
    requires TableOk(slots) && Keeps(slots, held) && Find(slots, port) == |slots| && port !in held
    requires room <==> FindUnused(slots) < |slots|
    ensures Keeps(Added(slots, port, kind), Request(held, AddPort(port, kind), room))
    ensures AddAccepted(slots, port, kind) <==> room
    ensures !room ==> Added(slots, port, kind) == slots
  {
    if room {
      PlacedKeeps(slots, held, FindUnused(slots), Slot(kind, port, true, false, 1));
    }
  }

  /** One delete: the port asked for loses one reference, if it is held with that type and
      its count has not saturated, and is gone with the last; every other port stays. */
  lemma DelRequested(slots: seq<Slot>, held: map<nat, Held>, port: nat, kind: nat, room: bool)
    requires TableOk(slots) && Keeps(slots, held)
    ensures Keeps(Deleted(slots, port, kind), Request(held, DelPort(port, kind), room))
    ensures DelAccepted(slots, port, kind) <==> port in held && held[port].kind == kind
    ensures !DelAccepted(slots, port, kind) ==> Deleted(slots, port, kind) == slots
  {
    if Find(slots, port) < |slots| {
      DelHeld(slots, held, port, kind, room);
    } else {
      NotHeld(slots, held, port);
    }
  }

  lemma DelHeld(slots: seq<Slot>, held: map<nat, Held>, port: nat, kind: nat, room: bool)
    requires TableOk(slots) && Keeps(slots, held) && Find(slots, port) < |slots|
    ensures port in held && (DelAccepted(slots, port, kind) <==> held[port].kind == kind)
    ensures Keeps(Deleted(slots, port, kind), Request(held, DelPort(port, kind), room))
    ensures !DelAccepted(slots, port, kind) ==> Deleted(slots, port, kind) == slots
  {
    var m := Find(slots, port);
    KeepsAt(slots, held, m);
    if slots[m].kind == kind {
      var slot := Unreferenced(slots[m]);
      ReplacedKeeps(slots, held, m, slot);
      DelIs(held, port, slots[m].count, slot.count, kind, room);
    }
  }

  // A delete in the map: the reference taken off its count.
  lemma DelIs(held: map<nat, Held>, port: nat, count: nat, after: nat, kind: nat, room: bool)
    requires port in held && held[port] == Held(kind, count) && count > 0
    requires after == if count == COUNT_MAX then count else count - 1
    ensures Request(held, DelPort(port, kind), room) == if after > 0 then held[port := Held(kind, after)] else held - {port}
  {
    if count == COUNT_MAX { assert held[port := Held(kind, after)] == held; }
  }

  lemma SlotForStays(slots: seq<Slot>, after: seq<Slot>, i: nat, p: nat, h: Held)
    requires |after| == |slots| && i < |slots| && (forall j :: 0 <= j < |slots| && j != i ==> after[j] == slots[j])
    requires SlotFor(slots, p, h) && (slots[i].count == 0 || slots[i].port != p)
    ensures SlotFor(after, p, h)
  {
    var j: nat :| 0 <= j < |slots| && slots[j].count == h.count > 0 && slots[j].port == p && slots[j].kind == h.kind;
    assert after[j] == slots[j];
  }

  // An in-use slot gets another count.
  lemma ReplacedKeeps(slots: seq<Slot>, held: map<nat, Held>, i: nat, slot: Slot)
    requires TableOk(slots) && Keeps(slots, held) && InUse(slots, i) && slot.port == slots[i].port && slot.kind == slots[i].kind
    ensures var p := slot.port;
      Keeps(slots[i := slot], if slot.count > 0 then held[p := Held(slot.kind, slot.count)] else held - {p})
  {
    var p, after := slot.port, slots[i := slot];
    forall j | 0 <= j < |slots| && j != i && slots[j].count > 0 ensures slots[j].port != p {
      if j < i { assert slots[j].port != slots[i].port; } else { assert slots[i].port != slots[j].port; }
    }
    forall q | q in held && q != p ensures SlotFor(after, q, held[q]) {
      SlotForStays(slots, after, i, q, held[q]);
    }
    if slot.count > 0 { assert after[i] == slot; assert SlotFor(after, p, Held(slot.kind, slot.count)); }
  }

  // A free slot is taken into use for a new port.
  lemma PlacedKeeps(slots: seq<Slot>, held: map<nat, Held>, i: nat, slot: Slot)
    requires Keeps(slots, held) && i < |slots| && slots[i].count == 0 && slot.count > 0 && slot.port !in held
    ensures Keeps(slots[i := slot], held[slot.port := Held(slot.kind, slot.count)])
  {
    var after := slots[i := slot];
    forall q | q in held ensures SlotFor(after, q, held[q]) {
      SlotForStays(slots, after, i, q, held[q]);
    }
    assert after[i] == slot;
    assert SlotFor(after, slot.port, Held(slot.kind, slot.count));
  }

  lemma SameSlotsKeep(slots: seq<Slot>, after: seq<Slot>, held: map<nat, Held>)
    requires Keeps(slots, held) && |after| == |slots|
    requires forall i :: 0 <= i < |slots| ==>
      after[i].count == slots[i].count && after[i].port == slots[i].port && after[i].kind == slots[i].kind
    ensures Keeps(after, held)
  {
    forall p | p in held ensures SlotFor(after, p, held[p]) {
      assert SlotFor(slots, p, held[p]);
      var i: nat :| 0 <= i < |slots| && slots[i].count == held[p].count > 0 && slots[i].port == p && slots[i].kind == held[p].kind;
      assert after[i].count == held[p].count;
    }
  }

  lemma FinishSame(s: State, w: nat)
    requires Enabled(s, Finish(w))
    ensures var after := Apply(s, Finish(w)).slots;
      |after| == |s.slots| && forall i :: 0 <= i < |after| ==>
        after[i].count == s.slots[i].count && after[i].port == s.slots[i].port && after[i].kind == s.slots[i].kind
  {
  }

  // The worker changes no port, type or count.
  lemma OtherStepsKeep(s: State, step: Step, held: map<nat, Held>)
    requires Enabled(s, step) && !step.AddPort? && !step.DelPort? && Keeps(s.slots, held)
    ensures Keeps(Apply(s, step).slots, held)
  {
    if step.Finish? {
      FinishSame(s, step.w);
    } else {
      assert Apply(s, step).slots == s.slots;
    }
    SameSlotsKeep(s.slots, Apply(s, step).slots, held);
  }

  lemma StepRequested(s: State, step: Step, held: map<nat, Held>)
    requires Inv(s) && Enabled(s, step) && Keeps(s.slots, held)
    ensures Keeps(Apply(s, step).slots, Request(held, step, Room(s.slots, held)))
  {
    match step
    case AddPort(p, kind) => AddRequested(s.slots, held, p, kind);
    case DelPort(p, kind) => DelRequested(s.slots, held, p, kind, Room(s.slots, held));
    case _ => OtherStepsKeep(s, step, held);
  }

  /** Along every run the in-use slots are exactly the ports asked for and not given back,
      each with the type and the number of references asked for. */
  lemma {:induction false} TableIsRequested(s: State, steps: seq<Step>, t: State, held: map<nat, Held>)
    requires Inv(s) && Run(s, steps, t) && Keeps(s.slots, held)
    ensures Keeps(t.slots, Requested(s, steps, held))
    decreases |steps|
  {
    if steps != [] {
      var room := Room(s.slots, held);
      StepKeeps(s, steps[0]);
      StepRequested(s, steps[0], held);
      TableIsRequested(Apply(s, steps[0]), steps[1..], t, Request(held, steps[0], room));
    }
  }

  lemma QuietIsRequested(slots: seq<Slot>, held: map<nat, Held>)
    requires TableOk(slots) && Keeps(slots, held) && !Pending(slots)
    ensures Wanted(slots) == (set p | p in held :: Entry(p, held[p].kind))
    ensures forall p :: Usable(slots, p) <==> p in held
  {
    forall i | 0 <= i < |slots| && slots[i].count != 0 ensures Entry(slots[i].port, slots[i].kind) in set p | p in held :: Entry(p, held[p].kind) {
      KeepsAt(slots, held, i);
    }
    forall p | p in held ensures Entry(p, held[p].kind) in Wanted(slots) && Usable(slots, p) {
      assert SlotFor(slots, p, held[p]);
      var i: nat :| 0 <= i < |slots| && slots[i].count == held[p].count > 0 && slots[i].port == p && slots[i].kind == held[p].kind;
      assert EntryOf(slots[i]) in Wanted(slots);
      FindUnique(slots, p, i);
      assert !slots[i].adding && !slots[i].removing;
    }
    forall p | Usable(slots, p) ensures p in held {
      KeepsAt(slots, held, Find(slots, p));
    }
  }

  /** So a worker that leaves after success leaves the firmware with exactly the ports asked
      for, each with its type, and transmit may use exactly those. */
  lemma FirmwareIsRequested(s: State, steps: seq<Step>, t: State, w: nat)
    requires Initial(s) && Run(s, steps, t)
    requires Enabled(t, Finish(w)) && t.workers[w].answer == Success && w !in Apply(t, Finish(w)).workers
    ensures var u, held := Apply(t, Finish(w)), Requested(s, steps, map[]);
      && u.firmware == (set p | p in held :: Entry(p, held[p].kind))
      && forall p :: Usable(u.slots, p) <==> p in held
  {
    var u, held := Apply(t, Finish(w)), Requested(s, steps, map[]);
    assert TableOk(u.slots) && Keeps(u.slots, held) by {
      InitialOk(s);
      RunKeeps(s, steps, t);
      TableIsRequested(s, steps, t, map[]);
      OtherStepsKeep(t, Finish(w), held);
      FinishKeeps(t, w);
    }
    WorkerLeavesInSync(s, steps, t, w);
    QuietIsRequested(u.slots, held);
  }

  /** A worker that records a reboot leaves every port asked for waiting to be added again, no
      port usable and no removal waiting; one that was refused leaves the table as it is. */
  lemma ErrorsAreRecorded(s: State, w: nat, held: map<nat, Held>)
    requires Inv(s) && Enabled(s, Finish(w)) && s.workers[w].answer != Success && Keeps(s.slots, held)
    ensures var u := Apply(s, Finish(w));
      && w !in u.workers && u.firmware == s.firmware && Keeps(u.slots, held)
      && if s.workers[w].answer == Rebooted
         then Leaving(u.slots) == {} && (forall p :: !Usable(u.slots, p)) && (held != map[] ==> Pending(u.slots))
         else u.slots == s.slots
  {
    var u := Apply(s, Finish(w));
    OtherStepsKeep(s, Finish(w), held);
    if s.workers[w].answer == Rebooted {
      forall p | p in held ensures Pending(u.slots) {
        assert SlotFor(s.slots, p, held[p]);
        var i: nat :| 0 <= i < |s.slots| && s.slots[i].count == held[p].count > 0 && s.slots[i].port == p;
        assert u.slots[i].adding;
      }
      if held != map[] { var p :| p in held; assert Pending(u.slots); }
    }
  }
}
