/**
 The UDP tunnel port table of the EF10 driver.

 Callers add and delete reference-counted ports under a spinlock.  A worker
 takes a snapshot of the table under the lock, drops the lock, programs the
 firmware, retakes the lock and reconciles the per-slot flags.  Every lock
 section is one atomic step here, and so is the firmware command.
 */
module UdpTunnels {

  const SLOTS: nat := 16
  // Reference counts are 14 bits wide and saturate.
  const COUNT_MAX: nat := 0x3fff

  datatype Slot = Slot(kind: nat, port: nat, adding: bool, removing: bool, count: nat)

  // One row of the firmware command: a port and its tunnel protocol.
  datatype Entry = Entry(port: nat, kind: nat)

  // The firmware's answer: success, -EIO (the controller rebooted), any other error.
  datatype Answer = Success | Rebooted | Refused

  // A worker between dropping the lock and retaking it.
  datatype Phase =
    | Calling(sent: seq<bool>, entries: set<Entry>)
    | Replied(sent: seq<bool>, entries: set<Entry>, answer: Answer)

  datatype State = State(
    slots: seq<Slot>,
    busy: bool,                  // udp_tunnels_busy
    scheduled: bool,             // the work item is queued
    abandoned: bool,             // the last worker to leave did so on an error
    workers: map<nat, Phase>,    // threads inside the update, by thread id
    firmware: set<Entry>,
    attached: bool)              // the net device is attached: transmit may ask HasPort

  datatype Step =
    | AddPort(port: nat, kind: nat)
    | DelPort(port: nat, kind: nat)
    | Start(w: nat)
    | Command(w: nat, answer: Answer, left: set<Entry>)
    | Finish(w: nat)
    | Attach
    | Detach

  // ----- the table operations, as functions of the slots -----

  // Index of the first in-use slot for the port, or |slots|.
  function Find(slots: seq<Slot>, port: nat): (i: nat)
    ensures i <= |slots|
    ensures i < |slots| ==> slots[i].count != 0 && slots[i].port == port
    ensures forall j :: 0 <= j < i ==> slots[j].count == 0 || slots[j].port != port
  {
    if slots == [] then 0
    else if slots[0].count != 0 && slots[0].port == port then 0
    else
      var i := Find(slots[1..], port);
      assert forall j :: 1 <= j < i + 1 ==> slots[j] == slots[1..][j - 1];
      1 + i
  }

  predicate Unused(slot: Slot) {
    slot.count == 0 && !slot.adding && !slot.removing
  }

  // Index of the first unused slot, or |slots|.
  function FindUnused(slots: seq<Slot>): (i: nat)
    ensures i <= |slots|
    ensures i < |slots| ==> Unused(slots[i])
    ensures forall j :: 0 <= j < i ==> !Unused(slots[j])
  {
    if slots == [] then 0
    else if Unused(slots[0]) then 0
    else
      var i := FindUnused(slots[1..]);
      assert forall j :: 1 <= j < i + 1 ==> slots[j] == slots[1..][j - 1];
      1 + i
  }

  function Referenced(slot: Slot): Slot {
    var counted := slot.(count := if slot.count < COUNT_MAX then slot.count + 1 else slot.count);
    if slot.removing then counted.(removing := false, adding := true) else counted
  }

  function Added(slots: seq<Slot>, port: nat, kind: nat): seq<Slot> {
    var m := Find(slots, port);
    if m < |slots| then
      if slots[m].kind == kind then slots[m := Referenced(slots[m])] else slots
    else
      var f := FindUnused(slots);
      if f < |slots| then slots[f := Slot(kind, port, true, false, 1)] else slots
  }

  // The add took a reference (it was not turned away for its type or for lack of room).
  predicate AddAccepted(slots: seq<Slot>, port: nat, kind: nat) {
    var m := Find(slots, port);
    if m < |slots| then slots[m].kind == kind else FindUnused(slots) < |slots|
  }

  predicate AddSchedules(slots: seq<Slot>, port: nat) {
    Find(slots, port) == |slots| && FindUnused(slots) < |slots|
  }

  predicate DelAccepted(slots: seq<Slot>, port: nat, kind: nat) {
    var m := Find(slots, port);
    m < |slots| && slots[m].kind == kind
  }

  function Unreferenced(slot: Slot): Slot
    requires slot.count != 0
  {
    var count := if slot.count != COUNT_MAX then slot.count - 1 else slot.count;
    if count != 0 then slot.(count := count)
    else slot.(count := 0, adding := false, removing := true)
  }

  function Deleted(slots: seq<Slot>, port: nat, kind: nat): seq<Slot> {
    var m := Find(slots, port);
    if m < |slots| && slots[m].kind == kind then slots[m := Unreferenced(slots[m])] else slots
  }

  predicate DelSchedules(slots: seq<Slot>, port: nat, kind: nat) {
    DelAccepted(slots, port, kind) && slots[Find(slots, port)].count == 1
  }

  predicate Usable(slots: seq<Slot>, port: nat) {
    var m := Find(slots, port);
    m < |slots| && !slots[m].adding && !slots[m].removing
  }

  predicate Sendable(slot: Slot) {
    slot.count != 0 && !slot.removing && slot.port != 0
  }

  function SentFlags(slots: seq<Slot>): seq<bool> {
    seq(|slots|, i requires 0 <= i < |slots| => Sendable(slots[i]))
  }

  function EntryOf(slot: Slot): Entry {
    Entry(slot.port, slot.kind)
  }

  function EntriesOf(slots: seq<Slot>, sent: seq<bool>): set<Entry>
    requires |sent| == |slots|
  {
    set i | 0 <= i < |slots| && sent[i] :: EntryOf(slots[i])
  }

  function Settled(slot: Slot, sent: bool): Slot {
    if sent then slot.(adding := false) else slot.(removing := false)
  }

  function Reconciled(slots: seq<Slot>, sent: seq<bool>): seq<Slot> {
    seq(|slots|, i requires 0 <= i < |slots| => Settled(slots[i], i < |sent| && sent[i]))
  }

  function Lost(slot: Slot): Slot {
    slot.(adding := slot.count != 0 || slot.adding, removing := false)
  }

  function AllLost(slots: seq<Slot>): seq<Slot> {
    seq(|slots|, i requires 0 <= i < |slots| => Lost(slots[i]))
  }

  predicate Pending(slots: seq<Slot>) {
    exists i :: 0 <= i < |slots| && (slots[i].adding || slots[i].removing)
  }

  // ----- the protocol -----

  predicate Initial(s: State) {
    && |s.slots| == SLOTS
    && (forall i :: 0 <= i < SLOTS ==> Unused(s.slots[i]))
    && !s.busy && s.workers == map[] && !s.scheduled && !s.abandoned
  }

  predicate Enabled(s: State, step: Step) {
    match step
    case AddPort(_, _) => true
    case DelPort(_, _) => true
    case Start(w) => w !in s.workers
    // The device is detached before the command is issued, and stays so after -EIO.
    case Command(w, answer, _) =>
      w in s.workers && s.workers[w].Calling? && (answer == Rebooted ==> !s.attached)
    case Finish(w) => w in s.workers && s.workers[w].Replied?
    case Attach => forall w :: w in s.workers && s.workers[w].Replied? ==> s.workers[w].answer != Rebooted
    case Detach => true
  }

  function Snapshot(slots: seq<Slot>): Phase {
    Calling(SentFlags(slots), EntriesOf(slots, SentFlags(slots)))
  }

  function Started(s: State, w: nat): State {
    if s.busy then s.(scheduled := false)
    else s.(scheduled := false, abandoned := false, busy := true, workers := s.workers[w := Snapshot(s.slots)])
  }

  function Commanded(s: State, w: nat, answer: Answer, left: set<Entry>): State
    requires w in s.workers
  {
    var phase := s.workers[w];
    s.(workers := s.workers[w := Replied(phase.sent, phase.entries, answer)],
       firmware := match answer
         case Success => phase.entries
         case Rebooted => left
         case Refused => s.firmware)
  }

  function Finished(s: State, w: nat): State
    requires w in s.workers && s.workers[w].Replied?
  {
    var phase := s.workers[w];
    var idle := s.(busy := false, workers := s.workers - {w});
    match phase.answer
    case Rebooted => idle.(slots := AllLost(s.slots), abandoned := true)
    case Refused => idle.(abandoned := true)
    case Success =>
      var slots := Reconciled(s.slots, phase.sent);
      if Pending(slots) then s.(slots := slots, workers := s.workers[w := Snapshot(slots)])
      else idle.(slots := slots, abandoned := false)
  }

  function Apply(s: State, step: Step): State
    requires Enabled(s, step)
  {
    match step
    case AddPort(port, kind) =>
      s.(slots := Added(s.slots, port, kind), scheduled := s.scheduled || AddSchedules(s.slots, port))
    case DelPort(port, kind) =>
      s.(slots := Deleted(s.slots, port, kind), scheduled := s.scheduled || DelSchedules(s.slots, port, kind))
    case Start(w) => Started(s, w)
    case Command(w, answer, left) => Commanded(s, w, answer, left)
    case Finish(w) => Finished(s, w)
    case Attach => s.(attached := true)
    case Detach => s.(attached := false)
  }

  ghost predicate Run(s: State, steps: seq<Step>, t: State)
    decreases |steps|
  {
    if steps == [] then s == t
    else Enabled(s, steps[0]) && Run(Apply(s, steps[0]), steps[1..], t)
  }

  // ----- the invariant -----

  predicate SlotOk(slot: Slot) {
    && slot.count <= COUNT_MAX
    && (slot.adding ==> slot.count > 0)
    && (slot.removing ==> slot.count == 0)
    && (slot.count > 0 && slot.port == 0 ==> slot.adding)
  }

  predicate OneSlotPerPort(slots: seq<Slot>) {
    forall i, j :: 0 <= i < j < |slots| && slots[i].count > 0 && slots[j].count > 0 ==>
      slots[i].port != slots[j].port
  }

  // How the slots relate to a snapshot that a worker still holds.
  predicate Tracks(slots: seq<Slot>, phase: Phase) {
    && |phase.sent| == |slots|
    && phase.entries == EntriesOf(slots, phase.sent)
    && (forall i :: 0 <= i < |slots| && phase.sent[i] ==>
          (slots[i].count > 0 || slots[i].removing) && slots[i].port != 0)
    && (forall i :: 0 <= i < |slots| && !phase.sent[i] && slots[i].count > 0 ==> slots[i].adding)
  }

  predicate Programmed(slots: seq<Slot>, firmware: set<Entry>) {
    forall i :: 0 <= i < |slots| && slots[i].count > 0 && !slots[i].adding ==> EntryOf(slots[i]) in firmware
  }

  predicate FlightOk(s: State, phase: Phase) {
    && Tracks(s.slots, phase)
    && (phase.Calling? || phase.answer == Refused ==> Programmed(s.slots, s.firmware))
    && (phase.Replied? && phase.answer == Success ==> s.firmware == phase.entries)
    && (phase.Replied? && phase.answer == Rebooted ==> !s.attached)
  }

  predicate TableOk(slots: seq<Slot>) {
    && |slots| == SLOTS
    && (forall i :: 0 <= i < |slots| ==> SlotOk(slots[i]))
    && OneSlotPerPort(slots)
  }

  ghost predicate Inv(s: State) {
    && TableOk(s.slots)
    && (forall w, v :: w in s.workers && v in s.workers ==> w == v)
    && (s.busy <==> s.workers.Keys != {})
    && (forall w :: w in s.workers ==> FlightOk(s, s.workers[w]))
    && (!s.busy ==> Programmed(s.slots, s.firmware))
    && (Pending(s.slots) ==> s.scheduled || s.busy || s.abandoned)
  }

  // ----- each step keeps it -----

  lemma AddedKeeps(slots: seq<Slot>, port: nat, kind: nat)
    requires TableOk(slots)
    ensures TableOk(Added(slots, port, kind))
    ensures forall fw :: Programmed(slots, fw) ==> Programmed(Added(slots, port, kind), fw)
    ensures Pending(Added(slots, port, kind)) ==> Pending(slots) || AddSchedules(slots, port)
  {
    var after := Added(slots, port, kind);
    if Pending(after) && !Pending(slots) {
      var i :| 0 <= i < |after| && (after[i].adding || after[i].removing);
      assert !slots[i].adding && !slots[i].removing;
    }
  }

  lemma AddedTracks(slots: seq<Slot>, port: nat, kind: nat, phase: Phase)
    requires TableOk(slots) && Tracks(slots, phase)
    ensures Tracks(Added(slots, port, kind), phase)
  {
    var after := Added(slots, port, kind);
    assert forall i :: 0 <= i < |slots| && phase.sent[i] ==> EntryOf(after[i]) == EntryOf(slots[i]);
    assert EntriesOf(after, phase.sent) == EntriesOf(slots, phase.sent);
  }

  lemma DeletedKeeps(slots: seq<Slot>, port: nat, kind: nat)
    requires TableOk(slots)
    ensures TableOk(Deleted(slots, port, kind))
    ensures forall fw :: Programmed(slots, fw) ==> Programmed(Deleted(slots, port, kind), fw)
    ensures Pending(Deleted(slots, port, kind)) ==> Pending(slots) || DelSchedules(slots, port, kind)
  {
    var after := Deleted(slots, port, kind);
    if Pending(after) && !Pending(slots) {
      var i :| 0 <= i < |after| && (after[i].adding || after[i].removing);
      assert !slots[i].adding && !slots[i].removing;
    }
  }

  lemma DeletedTracks(slots: seq<Slot>, port: nat, kind: nat, phase: Phase)
    requires TableOk(slots) && Tracks(slots, phase)
    ensures Tracks(Deleted(slots, port, kind), phase)
  {
    var after := Deleted(slots, port, kind);
    assert forall i :: 0 <= i < |slots| && phase.sent[i] ==> EntryOf(after[i]) == EntryOf(slots[i]);
    assert EntriesOf(after, phase.sent) == EntriesOf(slots, phase.sent);
  }

  lemma SnapshotTracks(slots: seq<Slot>)
    requires TableOk(slots)
    ensures Tracks(slots, Snapshot(slots))
  {
  }

  lemma ReconciledKeeps(slots: seq<Slot>, phase: Phase)
    requires TableOk(slots) && Tracks(slots, phase)
    ensures TableOk(Reconciled(slots, phase.sent))
    ensures Programmed(Reconciled(slots, phase.sent), phase.entries)
  {
    var after := Reconciled(slots, phase.sent);
    forall i | 0 <= i < |after| && after[i].count > 0 && !after[i].adding
      ensures EntryOf(after[i]) in phase.entries
    {
      assert phase.sent[i];
      assert EntryOf(slots[i]) in EntriesOf(slots, phase.sent);
    }
  }

  lemma FinishKeeps(s: State, w: nat)
    requires Inv(s) && Enabled(s, Finish(w))
    ensures Inv(Apply(s, Finish(w)))
  {
    var t := Apply(s, Finish(w));
    var phase := s.workers[w];
    assert s.workers.Keys == {w};
    match phase.answer
    case Rebooted =>
      assert t.workers.Keys == {};
      assert Programmed(t.slots, t.firmware);
    case Refused =>
      assert t.workers.Keys == {};
    case Success =>
      ReconciledKeeps(s.slots, phase);
      SnapshotTracks(Reconciled(s.slots, phase.sent));
      if Pending(Reconciled(s.slots, phase.sent)) {
        assert t.workers.Keys == {w};
      } else {
        assert t.workers.Keys == {};
      }
  }

  lemma AddStepKeeps(s: State, port: nat, kind: nat)
    requires Inv(s)
    ensures Inv(Apply(s, AddPort(port, kind)))
  {
    var t := Apply(s, AddPort(port, kind));
    AddedKeeps(s.slots, port, kind);
    forall w | w in s.workers ensures FlightOk(t, t.workers[w]) {
      AddedTracks(s.slots, port, kind, s.workers[w]);
    }
  }

  lemma DelStepKeeps(s: State, port: nat, kind: nat)
    requires Inv(s)
    ensures Inv(Apply(s, DelPort(port, kind)))
  {
    var t := Apply(s, DelPort(port, kind));
    DeletedKeeps(s.slots, port, kind);
    forall w | w in s.workers ensures FlightOk(t, t.workers[w]) {
      DeletedTracks(s.slots, port, kind, s.workers[w]);
    }
  }

  lemma StepKeeps(s: State, step: Step)
    requires Inv(s) && Enabled(s, step)
    ensures Inv(Apply(s, step))
  {
    var t := Apply(s, step);
    match step
    case AddPort(port, kind) => AddStepKeeps(s, port, kind);
    case DelPort(port, kind) => DelStepKeeps(s, port, kind);
    case Start(w) =>
      SnapshotTracks(s.slots);
      if !s.busy {
        assert t.workers.Keys == {w};
      }
    case Command(w, answer, left) =>
      assert t.workers.Keys == s.workers.Keys;
    case Finish(w) => FinishKeeps(s, w);
    case Attach =>
    case Detach =>
  }

  lemma InitialOk(s: State)
    requires Initial(s)
    ensures Inv(s)
  {
  }

  lemma {:induction false} RunKeeps(s: State, steps: seq<Step>, t: State)
    requires Inv(s) && Run(s, steps, t)
    ensures Inv(t)
    decreases |steps|
  {
    if steps != [] {
      StepKeeps(s, steps[0]);
      RunKeeps(Apply(s, steps[0]), steps[1..], t);
    }
  }

  // ----- what every run promises -----

  // A worker has been told of a reboot and has not yet marked the ports lost.
  predicate RebootUnseen(s: State) {
    exists w :: w in s.workers && s.workers[w].Replied? && s.workers[w].answer == Rebooted
  }

  /** Safety of every interleaving: at most one worker is in flight, a port has
      at most one in-use slot, the two flags mean what their comments say, and a
      port that transmit is told to use is programmed with its own type, except
      between the answer that tells of a reboot and the lock section that marks the
      ports lost; the device is not attached then. */
  lemma EveryInterleavingIsSafe(s: State, steps: seq<Step>, t: State)
    requires Initial(s) && Run(s, steps, t)
    ensures |t.workers| <= 1 && (t.busy <==> |t.workers| == 1)
    ensures OneSlotPerPort(t.slots)
    ensures forall i :: 0 <= i < |t.slots| ==>
      (t.slots[i].adding ==> t.slots[i].count > 0) && (t.slots[i].removing ==> t.slots[i].count == 0)
    ensures t.attached ==> !RebootUnseen(t)
    ensures forall port :: !RebootUnseen(t) && Usable(t.slots, port) ==>
      Entry(port, t.slots[Find(t.slots, port)].kind) in t.firmware
  {
    InitialOk(s);
    RunKeeps(s, steps, t);
    if t.workers.Keys != {} {
      var w :| w in t.workers;
      assert t.workers.Keys == {w};
      assert |t.workers| == |t.workers.Keys|;
    }
    forall port | !RebootUnseen(t) && Usable(t.slots, port)
      ensures Entry(port, t.slots[Find(t.slots, port)].kind) in t.firmware
    {
      var i := Find(t.slots, port);
      if t.busy {
        var w :| w in t.workers;
        assert FlightOk(t, t.workers[w]);
        assert EntryOf(t.slots[i]) in t.firmware;
      } else {
        assert EntryOf(t.slots[i]) in t.firmware;
      }
    }
  }

  // Inside that window the promise fails: a reboot empties the firmware
  // while the table still calls the port usable, until the worker retakes the lock.
  lemma RebootWindowExample() returns (s: State, steps: seq<Step>, t: State)
    ensures Initial(s) && Run(s, steps, t)
    ensures Usable(t.slots, 4789) && t.firmware == {} && RebootUnseen(t)
  {
    var free := Slot(0, 0, false, false, 0);
    s := State(seq(SLOTS, _ => free), false, false, false, map[], {}, false);
    var s1 := Apply(s, AddPort(4789, 0));
    assert s1.slots[0] == Slot(0, 4789, true, false, 1);
    var s2 := Apply(s1, Start(1));
    assert s2.workers[1].sent[0];
    var s3 := Apply(s2, Command(1, Success, {}));
    var s4 := Apply(s3, Finish(1));
    assert s4.slots[0] == Slot(0, 4789, false, false, 1);
    assert forall i :: 1 <= i < SLOTS ==> s4.slots[i] == free;
    assert !Pending(s4.slots);
    assert s4.workers == map[];
    var s5 := Apply(s4, Start(1));
    t := Apply(s5, Command(1, Rebooted, {}));
    assert Find(t.slots, 4789) == 0;
    var tail5 := [Command(1, Rebooted, {})];
    assert Run(s5, tail5, t) by { assert tail5[1..] == []; }
    var tail4 := [Start(1)] + tail5;
    assert Run(s4, tail4, t) by { assert tail4[1..] == tail5; }
    var tail3 := [Finish(1)] + tail4;
    assert Run(s3, tail3, t) by { assert tail3[1..] == tail4; }
    var tail2 := [Command(1, Success, {})] + tail3;
    assert Run(s2, tail2, t) by { assert tail2[1..] == tail3; }
    var tail1 := [Start(1)] + tail2;
    assert Run(s1, tail1, t) by { assert tail1[1..] == tail2; }
    steps := [AddPort(4789, 0)] + tail1;
    assert Run(s, steps, t) by { assert steps[1..] == tail1; }
  }

  // The ports the table says it wants programmed.
  function Wanted(slots: seq<Slot>): set<Entry> {
    set i | 0 <= i < |slots| && slots[i].count != 0 :: EntryOf(slots[i])
  }

  /** When a worker leaves its loop with success, at the final unlock the firmware
      holds exactly the ports with a non-zero count and nothing is left pending. */
  lemma WorkerLeavesInSync(s: State, steps: seq<Step>, t: State, w: nat)
    requires Initial(s) && Run(s, steps, t)
    requires Enabled(t, Finish(w)) && t.workers[w].answer == Success
    requires w !in Apply(t, Finish(w)).workers
    ensures var u := Apply(t, Finish(w));
      u.firmware == Wanted(u.slots) && !Pending(u.slots) && !u.busy
  {
    InitialOk(s);
    RunKeeps(s, steps, t);
    var phase := t.workers[w];
    var u := Apply(t, Finish(w));
    assert Tracks(t.slots, phase);
    assert u.slots == Reconciled(t.slots, phase.sent) && !Pending(u.slots);
    forall i | 0 <= i < |u.slots|
      ensures EntryOf(u.slots[i]) == EntryOf(t.slots[i])
      ensures phase.sent[i] <==> u.slots[i].count != 0
    {
      assert !u.slots[i].adding && !u.slots[i].removing;
      assert SlotOk(t.slots[i]);
    }
    assert Wanted(u.slots) == EntriesOf(t.slots, phase.sent);
  }

  /** A pending flag is never forgotten: some worker is queued or running, or the
      last one gave up on a firmware error. */
  lemma NoUpdateIsForgotten(s: State, steps: seq<Step>, t: State)
    requires Initial(s) && Run(s, steps, t) && Pending(t.slots)
    ensures t.scheduled || |t.workers| == 1 || t.abandoned
  {
    EveryInterleavingIsSafe(s, steps, t);
    InitialOk(s);
    RunKeeps(s, steps, t);
  }

  // An in-use slot carries port 0.
  predicate HasZero(slots: seq<Slot>) {
    exists i :: 0 <= i < |slots| && ZeroAt(slots, i)
  }

  predicate ZeroAt(slots: seq<Slot>, i: nat) {
    i < |slots| && slots[i].count > 0 && slots[i].port == 0
  }

  /** A successful round that nobody interferes with, be it a worker's first or one begun
      over, is the last one exactly when no in-use slot carries port 0.  Port 0 is counted
      but never sent, so its `adding` flag survives every round. */
  lemma QuietRoundIsLast(s: State, w: nat)
    requires Inv(s) && w in s.workers && s.workers[w] == Snapshot(s.slots)
    ensures Enabled(s, Command(w, Success, {}))
    ensures var t := Apply(s, Command(w, Success, {}));
      Enabled(t, Finish(w)) && (w !in Apply(t, Finish(w)).workers <==> !HasZero(s.slots))
  {
    var t := Apply(s, Command(w, Success, {}));
    var after := Reconciled(s.slots, SentFlags(s.slots));
    if i :| 0 <= i < |s.slots| && ZeroAt(s.slots, i) {
      assert after[i].adding;
      assert w in Apply(t, Finish(w)).workers;
    } else {
      forall i | 0 <= i < |s.slots| ensures !after[i].adding && !after[i].removing {
        assert SlotOk(s.slots[i]) && !ZeroAt(s.slots, i);
      }
      assert !Pending(after);
    }
  }

  /** A worker that starts takes such a snapshot, and so does one that goes round again; one
      that finds another busy only takes its work item off the queue. */
  lemma RoundsBeginWithSnapshot(s: State, w: nat)
    requires Inv(s)
    ensures Enabled(s, Start(w)) ==> !Apply(s, Start(w)).scheduled
    ensures s.busy && Enabled(s, Start(w)) ==> Apply(s, Start(w)) == s.(scheduled := false)
    ensures !s.busy && Enabled(s, Start(w)) ==> w in Apply(s, Start(w)).workers && Apply(s, Start(w)).workers[w] == Snapshot(s.slots)
    ensures Enabled(s, Finish(w)) && w in Apply(s, Finish(w)).workers ==>
      Apply(s, Finish(w)).workers[w] == Snapshot(Apply(s, Finish(w)).slots)
  {
  }

  // A worker with no error answer, in a step that leaves slot i in use with port 0.
  predicate ZeroStep(s: State, step: Step, w: nat, i: nat)
    requires Enabled(s, step)
  {
    && ZeroAt(s.slots, i) && (step.Command? && step.w == w ==> step.answer == Success)
    && ZeroAt(Apply(s, step).slots, i)
  }

  ghost predicate ZeroRun(s: State, steps: seq<Step>, t: State, w: nat, i: nat)
    decreases |steps|
  {
    if steps == [] then s == t
    else Enabled(s, steps[0]) && ZeroStep(s, steps[0], w, i) && ZeroRun(Apply(s, steps[0]), steps[1..], t, w, i)
  }

  predicate AtWork(s: State, w: nat) {
    w in s.workers && (s.workers[w].Replied? ==> s.workers[w].answer == Success)
  }

  lemma ZeroKeepsAtWork(s: State, step: Step, w: nat, i: nat)
    requires Inv(s) && Enabled(s, step) && ZeroStep(s, step, w, i) && AtWork(s, w)
    ensures AtWork(Apply(s, step), w)
  {
    if step == Finish(w) {
      var phase := s.workers[w];
      assert Tracks(s.slots, phase) && SlotOk(s.slots[i]) && !phase.sent[i];
      assert Reconciled(s.slots, phase.sent)[i].adding;
    }
  }

  /** While a slot with port 0 stays in use, a worker whose commands all succeed never
      leaves, whatever the other threads do. */
  lemma {:induction false} PortZeroGoesRoundForEver(s: State, steps: seq<Step>, t: State, w: nat, i: nat)
    requires Inv(s) && AtWork(s, w) && ZeroRun(s, steps, t, w, i)
    ensures w in t.workers
    decreases |steps|
  {
    if steps != [] {
      StepKeeps(s, steps[0]);
      ZeroKeepsAtWork(s, steps[0], w, i);
      PortZeroGoesRoundForEver(Apply(s, steps[0]), steps[1..], t, w, i);
    }
  }

  // ----- reference counts -----

  function CountOf(slots: seq<Slot>, port: nat): nat {
    var m := Find(slots, port);
    if m < |slots| then slots[m].count else 0
  }

  // Accepted adds minus accepted deletes of a port along a run.
  function Balance(s: State, steps: seq<Step>, port: nat): int
    decreases |steps|
  {
    if steps == [] || !Enabled(s, steps[0]) then 0
    else
      var rest := Balance(Apply(s, steps[0]), steps[1..], port);
      match steps[0]
      case AddPort(p, kind) => if p == port && AddAccepted(s.slots, p, kind) then rest + 1 else rest
      case DelPort(p, kind) => if p == port && DelAccepted(s.slots, p, kind) then rest - 1 else rest
      case _ => rest
  }

  lemma FindUnique(slots: seq<Slot>, port: nat, i: nat)
    requires OneSlotPerPort(slots) && i < |slots| && slots[i].count > 0 && slots[i].port == port
    ensures Find(slots, port) == i
  {
    var j := Find(slots, port);
  }

  lemma SameCounts(a: seq<Slot>, b: seq<Slot>, port: nat)
    requires |a| == |b| && OneSlotPerPort(a) && OneSlotPerPort(b)
    requires forall i :: 0 <= i < |a| && a[i].count > 0 && a[i].port == port ==> b[i].count == a[i].count && b[i].port == port
    requires forall i :: 0 <= i < |a| && b[i].count > 0 && b[i].port == port ==> a[i].count == b[i].count && a[i].port == port
    ensures CountOf(a, port) == CountOf(b, port)
  {
    var i, j := Find(a, port), Find(b, port);
    if i < |a| { FindUnique(b, port, i); }
    if j < |b| { FindUnique(a, port, j); }
  }

  lemma AddCounts(slots: seq<Slot>, p: nat, kind: nat, port: nat)
    requires TableOk(slots)
    ensures var before := CountOf(slots, port);
      CountOf(Added(slots, p, kind), port) ==
      if p == port && AddAccepted(slots, p, kind) && before < COUNT_MAX then before + 1 else before
  {
    AddedKeeps(slots, p, kind);
    var after := Added(slots, p, kind);
    if p == port && AddAccepted(slots, p, kind) {
      var m := Find(slots, p);
      FindUnique(after, port, if m < |slots| then m else FindUnused(slots));
    } else {
      SameCounts(slots, after, port);
    }
  }

  lemma DelCounts(slots: seq<Slot>, p: nat, kind: nat, port: nat)
    requires TableOk(slots)
    ensures var before := CountOf(slots, port);
      CountOf(Deleted(slots, p, kind), port) ==
      if p == port && DelAccepted(slots, p, kind) && before < COUNT_MAX then before - 1 else before
  {
    DeletedKeeps(slots, p, kind);
    var after := Deleted(slots, p, kind);
    if p == port && DelAccepted(slots, p, kind) {
      var m := Find(slots, p);
      if after[m].count > 0 { FindUnique(after, port, m); }
    } else {
      SameCounts(slots, after, port);
    }
  }

  // Only adds and deletes move a count.
  lemma OtherStepsKeepCounts(s: State, step: Step, port: nat)
    requires Inv(s) && Enabled(s, step) && !step.AddPort? && !step.DelPort?
    ensures CountOf(Apply(s, step).slots, port) == CountOf(s.slots, port)
  {
    var after := Apply(s, step).slots;
    assert |after| == |s.slots|;
    assert forall i :: 0 <= i < |after| ==> after[i].count == s.slots[i].count && after[i].port == s.slots[i].port;
    SameCounts(s.slots, after, port);
  }

  /** Conservation along any run: unless the count has saturated, it moved by
      exactly the accepted adds minus the accepted deletes.  Saturation is for ever. */
  lemma {:induction false} CountsAreConserved(s: State, steps: seq<Step>, t: State, port: nat)
    requires Inv(s) && Run(s, steps, t)
    ensures CountOf(t.slots, port) < COUNT_MAX ==>
      CountOf(s.slots, port) < COUNT_MAX &&
      CountOf(t.slots, port) == CountOf(s.slots, port) + Balance(s, steps, port)
    decreases |steps|
  {
    if steps != [] {
      StepKeeps(s, steps[0]);
      match steps[0] {
        case AddPort(p, kind) => AddCounts(s.slots, p, kind, port);
        case DelPort(p, kind) => DelCounts(s.slots, p, kind, port);
        case _ => OtherStepsKeepCounts(s, steps[0], port);
      }
      CountsAreConserved(Apply(s, steps[0]), steps[1..], t, port);
    }
  }

  // ----- the code: one object, updated in place under the lock -----

  class Table {
    const slots: array<Slot>
    var busy: bool
    var scheduled: bool

    constructor ()
      ensures fresh(slots) && slots.Length == SLOTS && !busy && !scheduled
      ensures forall i :: 0 <= i < SLOTS ==> Unused(slots[i])
    {
      slots := new Slot[SLOTS](_ => Slot(0, 0, false, false, 0));
      busy, scheduled := false, false;
    }

    method Lookup(port: nat) returns (m: nat)
      ensures m == Find(slots[..], port)
    {
      m := 0;
      while m < slots.Length
        invariant m <= slots.Length
        invariant forall j :: 0 <= j < m ==> slots[j].count == 0 || slots[j].port != port
      {
        if slots[m].count != 0 && slots[m].port == port { break; }
        m := m + 1;
      }
    }

    method Add(port: nat, kind: nat)
      modifies this`scheduled, slots
      ensures slots[..] == Added(old(slots[..]), port, kind)
      ensures scheduled == (old(scheduled) || AddSchedules(old(slots[..]), port))
    {
      var m := Lookup(port);
      if m < slots.Length {
        if slots[m].kind == kind {
          if slots[m].count < COUNT_MAX {
            slots[m] := slots[m].(count := slots[m].count + 1);
          }
          if slots[m].removing {
            slots[m] := slots[m].(removing := false, adding := true);
          }
        }
        return;
      }
      var i := 0;
      while i < slots.Length
        invariant i <= slots.Length
        invariant forall j :: 0 <= j < i ==> !Unused(slots[j])
        invariant slots[..] == old(slots[..]) && scheduled == old(scheduled)
      {
        if Unused(slots[i]) {
          slots[i] := Slot(kind, port, true, false, 1);
          scheduled := true;
          assert FindUnused(old(slots[..])) == i;
          return;
        }
        i := i + 1;
      }
      assert FindUnused(old(slots[..])) == slots.Length;
    }

    method Del(port: nat, kind: nat)
      modifies this`scheduled, slots
      ensures slots[..] == Deleted(old(slots[..]), port, kind)
      ensures scheduled == (old(scheduled) || DelSchedules(old(slots[..]), port, kind))
    {
      var m := Lookup(port);
      if m < slots.Length && slots[m].kind == kind {
        if slots[m].count != COUNT_MAX {
          slots[m] := slots[m].(count := slots[m].count - 1);
        }
        if slots[m].count != 0 { return; }
        if slots[m].adding {
          slots[m] := slots[m].(adding := false);
        }
        slots[m] := slots[m].(removing := true);
        scheduled := true;
      }
    }

    method HasPort(port: nat) returns (usable: bool)
      ensures usable == Usable(slots[..], port)
    {
      var m := Lookup(port);
      usable := m < slots.Length && !slots[m].adding && !slots[m].removing;
    }

    // A worker enters: if another is busy, that one will do it for us.
    method Begin() returns (started: bool, sent: seq<bool>, entries: set<Entry>)
      modifies this`busy, this`scheduled
      ensures started == !old(busy) && busy && !scheduled
      ensures started ==> Calling(sent, entries) == Snapshot(slots[..])
    {
      scheduled := false;
      started, sent, entries := !busy, [], {};
      if started {
        sent, entries := TakeSnapshot();
      }
    }

    // The body of the update under the lock, up to the unlock before the command.
    method TakeSnapshot() returns (sent: seq<bool>, entries: set<Entry>)
      modifies this`busy
      ensures busy
      ensures Calling(sent, entries) == Snapshot(slots[..])
    {
      sent, entries := [], {};
      for i := 0 to slots.Length
        invariant sent == SentFlags(slots[..])[..i]
        invariant entries == set k | 0 <= k < i && Sendable(slots[k]) :: EntryOf(slots[k])
      {
        if slots[i].count != 0 && !slots[i].removing && slots[i].port != 0 {
          sent, entries := sent + [true], entries + {EntryOf(slots[i])};
        } else {
          sent := sent + [false];
        }
      }
      busy := true;
      assert entries == EntriesOf(slots[..], sent);
    }

    method Reconcile(sent: seq<bool>) returns (again: bool)
      requires |sent| == slots.Length
      modifies this`busy, slots
      ensures slots[..] == Reconciled(old(slots[..]), sent)
      ensures again == Pending(slots[..])
      ensures busy == (again && old(busy))
    {
      var done := true;
      for i := 0 to slots.Length
        invariant forall k :: 0 <= k < i ==> slots[k] == Settled(old(slots[k]), sent[k])
        invariant forall k :: i <= k < slots.Length ==> slots[k] == old(slots[k])
        invariant busy == old(busy)
        invariant done <==> forall k :: 0 <= k < i ==> !slots[k].adding && !slots[k].removing
      {
        if sent[i] {
          slots[i] := slots[i].(adding := false);
        } else {
          slots[i] := slots[i].(removing := false);
        }
        if slots[i].adding || slots[i].removing { done := false; }
      }
      again := !done;
      if done { busy := false; }
    }

    method MarkLost()
      modifies this`busy, slots
      ensures slots[..] == AllLost(old(slots[..])) && !busy
    {
      for i := 0 to slots.Length
        invariant forall k :: 0 <= k < i ==> slots[k] == Lost(old(slots[k]))
        invariant forall k :: i <= k < slots.Length ==> slots[k] == old(slots[k])
      {
        if slots[i].count != 0 { slots[i] := slots[i].(adding := true); }
        slots[i] := slots[i].(removing := false);
      }
      busy := false;
    }
  }
}
