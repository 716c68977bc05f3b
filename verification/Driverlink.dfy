/**
 The driverlink registry: client drivers and adapters register in any order, every
 client is probed on every adapter it supports, and clients may block the kernel's
 filters on an adapter, with one count per client and one per adapter.
 */
module Driverlink {
  import opened Options

  const TYPES: nat := 2      // EFX_DL_FILTER_BLOCK_KERNEL_MAX

  datatype Driver = Driver(id: nat, priority: int, checksBufSize: bool, minorOk: bool, medford2: bool)

  // One client on one adapter; the serial number records the order of probing.
  datatype Handle = Handle(serial: nat, driver: Driver, blocks: seq<nat>)

  datatype Port = Port(id: nat, x2: bool, devices: seq<Handle>, counts: seq<int>, blocked: seq<bool>)

  // How a probe ends; a client may have taken blocks while it ran.
  datatype Outcome = NoMemory | Refused(left: seq<nat>) | Accepted(held: seq<nat>)

  datatype Event =
    | DriverIn(driver: nat) | DriverOut(driver: nat)
    | NicIn(nic: nat) | NicOut(nic: nat)
    | Probe(driver: nat, nic: nat) | Skip(driver: nat, nic: nat)
    | Removed(driver: nat, nic: nat)

  predicate Supported(port: Port, driver: Driver) {
    !(port.x2 && !driver.medford2)
  }

  // ----- the list of an adapter -----

  // In the list, a comes properly before b.
  predicate Precedes(a: Handle, b: Handle) {
    a.driver.priority < b.driver.priority || (a.driver.priority == b.driver.priority && a.serial < b.serial)
  }

  // Sorted by priority, and by order of probing within one priority.
  predicate StablySorted(devices: seq<Handle>) {
    forall i, j :: 0 <= i < j < |devices| ==> Precedes(devices[i], devices[j])
  }

  // The end of the new client's priority level.
  function Place(devices: seq<Handle>, priority: int): (k: nat)
    ensures k <= |devices|
    ensures k < |devices| ==> devices[k].driver.priority > priority
    ensures forall i :: 0 <= i < k ==> devices[i].driver.priority <= priority
  {
    if devices == [] then 0
    else if devices[0].driver.priority > priority then 0
    else
      var k := Place(devices[1..], priority);
      assert forall i :: 1 <= i < 1 + k ==> devices[i] == devices[1..][i - 1];
      1 + k
  }

  function Insert(devices: seq<Handle>, h: Handle): seq<Handle> {
    var k := Place(devices, h.driver.priority);
    devices[..k] + [h] + devices[k..]
  }

  lemma InsertKeepsOrder(devices: seq<Handle>, h: Handle)
    requires StablySorted(devices) && forall i :: 0 <= i < |devices| ==> devices[i].serial < h.serial
    ensures StablySorted(Insert(devices, h))
  {
    var k := Place(devices, h.driver.priority);
    var after := Insert(devices, h);
    forall i, j | 0 <= i < j < |after| ensures Precedes(after[i], after[j]) {
      if j < k {
        assert after[i] == devices[i] && after[j] == devices[j];
      } else if j == k {
        assert after[i] == devices[i];
      } else if i == k {
        assert after[j] == devices[j - 1];
        if j - 1 > k { assert Precedes(devices[k], devices[j - 1]); }
      } else {
        assert after[j] == devices[j - 1] && after[i] == devices[if i < k then i else i - 1];
      }
    }
  }

  function Without(devices: seq<Handle>, i: nat): seq<Handle>
    requires i < |devices|
  {
    devices[..i] + devices[i + 1..]
  }

  lemma WithoutKeepsOrder(devices: seq<Handle>, i: nat)
    requires StablySorted(devices) && i < |devices|
    ensures StablySorted(Without(devices, i))
  {
    var after := Without(devices, i);
    forall a, b | 0 <= a < b < |after| ensures Precedes(after[a], after[b]) {
      assert after[a] == devices[if a < i then a else a + 1] && after[b] == devices[if b < i then b else b + 1];
    }
  }

  // ----- block counts -----

  function BlockSum(devices: seq<Handle>, t: nat): nat
    requires t < TYPES && forall i :: 0 <= i < |devices| ==> |devices[i].blocks| == TYPES
  {
    if devices == [] then 0 else devices[0].blocks[t] + BlockSum(devices[1..], t)
  }

  predicate Counted(devices: seq<Handle>) {
    forall i :: 0 <= i < |devices| ==> |devices[i].blocks| == TYPES
  }

  lemma {:induction false} BlockSumConcat(a: seq<Handle>, b: seq<Handle>, t: nat)
    requires t < TYPES && Counted(a) && Counted(b)
    ensures Counted(a + b) && BlockSum(a + b, t) == BlockSum(a, t) + BlockSum(b, t)
    decreases |a|
  {
    if a == [] {
      assert a + b == b;
    } else {
      BlockSumConcat(a[1..], b, t);
      assert (a + b)[1..] == a[1..] + b;
    }
  }

  lemma BlockSumOne(h: Handle, t: nat)
    requires t < TYPES && |h.blocks| == TYPES
    ensures BlockSum([h], t) == h.blocks[t]
  {
    assert [h][1..] == [];
  }

  lemma BlockSumInsert(devices: seq<Handle>, h: Handle, t: nat)
    requires t < TYPES && Counted(devices) && |h.blocks| == TYPES
    ensures Counted(Insert(devices, h)) && BlockSum(Insert(devices, h), t) == BlockSum(devices, t) + h.blocks[t]
  {
    var k := Place(devices, h.driver.priority);
    assert devices == devices[..k] + devices[k..];
    BlockSumConcat(devices[..k], devices[k..], t);
    BlockSumConcat(devices[..k], [h], t);
    BlockSumConcat(devices[..k] + [h], devices[k..], t);
    BlockSumOne(h, t);
  }

  lemma BlockSumSplit(devices: seq<Handle>, i: nat, t: nat)
    requires t < TYPES && Counted(devices) && i < |devices|
    ensures Counted(Without(devices, i)) && BlockSum(devices, t) == BlockSum(Without(devices, i), t) + devices[i].blocks[t]
  {
    assert devices == devices[..i] + ([devices[i]] + devices[i + 1..]);
    BlockSumConcat([devices[i]], devices[i + 1..], t);
    BlockSumConcat(devices[..i], [devices[i]] + devices[i + 1..], t);
    BlockSumConcat(devices[..i], devices[i + 1..], t);
    BlockSumOne(devices[i], t);
  }

  lemma BlockSumUpdate(devices: seq<Handle>, i: nat, h: Handle, t: nat)
    requires t < TYPES && Counted(devices) && i < |devices| && |h.blocks| == TYPES
    ensures Counted(devices[i := h]) && BlockSum(devices[i := h], t) == BlockSum(devices, t) - devices[i].blocks[t] + h.blocks[t]
  {
    BlockSumSplit(devices, i, t);
    BlockSumSplit(devices[i := h], i, t);
    assert Without(devices[i := h], i) == Without(devices, i);
  }

  predicate Shaped(port: Port) {
    Counted(port.devices) && |port.counts| == TYPES && |port.blocked| == TYPES
  }

  // The adapter's counts are the sums of its clients', and it is blocked exactly while
  // its sum is positive.
  predicate CountsOk(port: Port) {
    && Shaped(port)
    && (forall t :: 0 <= t < TYPES ==> port.counts[t] == BlockSum(port.devices, t))
    && (forall t :: 0 <= t < TYPES ==> (port.blocked[t] <==> port.counts[t] > 0))
  }

  // ----- operations on one adapter -----

  function AddCounts(a: seq<int>, b: seq<nat>): (c: seq<int>)
    requires |a| == TYPES && |b| == TYPES
    ensures |c| == TYPES && forall t :: 0 <= t < TYPES ==> c[t] == a[t] + b[t]
  {
    [a[0] + b[0], a[1] + b[1]]
  }

  // The effect of the blocks that a client takes while it is being probed.
  function Taken(port: Port, held: seq<nat>): Port
    requires |port.counts| == TYPES && |port.blocked| == TYPES && |held| == TYPES
  {
    port.(counts := AddCounts(port.counts, held),
          blocked := [port.blocked[0] || held[0] > 0, port.blocked[1] || held[1] > 0])
  }

  predicate OutcomeOk(o: Outcome) {
    match o
    case NoMemory => true
    case Refused(left) => |left| == TYPES
    case Accepted(held) => |held| == TYPES
  }

  // efx_dl_try_add_device
  function TryAdd(port: Port, driver: Driver, serial: nat, outcome: Outcome): (after: Port)
    requires Shaped(port) && OutcomeOk(outcome)
    ensures Shaped(after) && after.id == port.id && after.x2 == port.x2
  {
    if !Supported(port, driver) then port
    else
      match outcome
      case NoMemory => port
      case Refused(left) => Taken(port, left)
      case Accepted(held) => Taken(port, held).(devices := Insert(port.devices, Handle(serial, driver, held)))
  }

  function TryEvents(port: Port, driver: Driver, outcome: Outcome): seq<Event> {
    if !Supported(port, driver) then [] else if outcome.NoMemory? then [Skip(driver.id, port.id)] else [Probe(driver.id, port.id)]
  }

  // efx_dl_del_device
  function Dropped(port: Port, i: nat): (after: Port)
    requires Shaped(port) && i < |port.devices|
    ensures Shaped(after) && after.id == port.id && after.x2 == port.x2
  {
    var h := port.devices[i];
    var counts := [port.counts[0] - h.blocks[0], port.counts[1] - h.blocks[1]];
    port.(devices := Without(port.devices, i),
          counts := counts,
          blocked := [if h.blocks[0] > 0 && counts[0] == 0 then false else port.blocked[0],
                      if h.blocks[1] > 0 && counts[1] == 0 then false else port.blocked[1]])
  }

  // Clients other than those of the registered drivers are never on an adapter, and no
  // client is there twice.
  ghost predicate ClientsOk(port: Port, drivers: seq<Driver>, serial: nat) {
    && (forall i :: 0 <= i < |port.devices| ==> port.devices[i].driver in drivers && port.devices[i].serial < serial)
    && (forall i, j :: 0 <= i < j < |port.devices| ==> port.devices[i].driver.id != port.devices[j].driver.id)
  }

  ghost predicate PortOk(port: Port, drivers: seq<Driver>, serial: nat) {
    CountsOk(port) && StablySorted(port.devices) && ClientsOk(port, drivers, serial)
  }

  lemma TakenCounts(port: Port, held: seq<nat>, devices: seq<Handle>)
    requires CountsOk(port) && |held| == TYPES && Counted(devices)
    requires forall t :: 0 <= t < TYPES ==> BlockSum(devices, t) == BlockSum(port.devices, t) + held[t]
    ensures CountsOk(Taken(port, held).(devices := devices))
  {
  }

  /** A probe keeps the adapter in order - counts, order of the list, one entry per client -
      exactly unless it was refused while the client held a block: such a block is never
      given back. */
  lemma TryAddOkIff(port: Port, drivers: seq<Driver>, driver: Driver, serial: nat, outcome: Outcome)
    requires PortOk(port, drivers, serial) && driver in drivers && OutcomeOk(outcome)
    requires forall i :: 0 <= i < |port.devices| ==> port.devices[i].driver.id != driver.id
    ensures PortOk(TryAdd(port, driver, serial, outcome), drivers, serial + 1) <==>
      (Supported(port, driver) && outcome.Refused? ==> forall t :: 0 <= t < TYPES ==> outcome.left[t] == 0)
  {
    var after := TryAdd(port, driver, serial, outcome);
    if Supported(port, driver) {
      match outcome
      case NoMemory =>
      case Refused(left) =>
        if t :| 0 <= t < TYPES && left[t] != 0 {
          assert after.counts[t] != BlockSum(after.devices, t);
        }
      case Accepted(held) =>
        var h := Handle(serial, driver, held);
        InsertKeepsOrder(port.devices, h);
        BlockSumInsert(port.devices, h, 0);
        BlockSumInsert(port.devices, h, 1);
        TakenCounts(port, held, Insert(port.devices, h));
        InsertedClients(port, drivers, driver, serial, h);
    }
  }

  lemma InsertedClients(port: Port, drivers: seq<Driver>, driver: Driver, serial: nat, h: Handle)
    requires ClientsOk(port, drivers, serial) && driver in drivers && h.driver == driver && h.serial == serial
    requires forall i :: 0 <= i < |port.devices| ==> port.devices[i].driver.id != driver.id
    ensures ClientsOk(port.(devices := Insert(port.devices, h)), drivers, serial + 1)
  {
    var k := Place(port.devices, h.driver.priority);
    var devices, after := port.devices, Insert(port.devices, h);
    forall i | 0 <= i < |after| ensures after[i].driver in drivers && after[i].serial < serial + 1 {
      assert after[i] == if i < k then devices[i] else if i == k then h else devices[i - 1];
    }
    forall i, j | 0 <= i < j < |after| ensures after[i].driver.id != after[j].driver.id {
      assert after[i] == if i < k then devices[i] else if i == k then h else devices[i - 1];
      assert after[j] == if j < k then devices[j] else if j == k then h else devices[j - 1];
    }
  }

  lemma DroppedOk(port: Port, drivers: seq<Driver>, serial: nat, i: nat)
    requires PortOk(port, drivers, serial) && i < |port.devices|
    ensures PortOk(Dropped(port, i), drivers, serial)
    ensures forall j :: 0 <= j < |Dropped(port, i).devices| ==>
      Dropped(port, i).devices[j] == port.devices[if j < i then j else j + 1]
  {
    DroppedCounts(port, i);
    WithoutKeepsOrder(port.devices, i);
    var rest := Without(port.devices, i);
    assert forall j :: 0 <= j < |rest| ==> rest[j] == port.devices[if j < i then j else j + 1];
  }

  lemma DroppedCounts(port: Port, i: nat)
    requires CountsOk(port) && i < |port.devices|
    ensures CountsOk(Dropped(port, i))
  {
    BlockSumSplit(port.devices, i, 0);
    BlockSumSplit(port.devices, i, 1);
  }

  // ----- probed exactly once -----

  // Does the event begin or end the time that client d and adapter n are registered together?
  predicate Separates(e: Event, d: nat, n: nat) {
    e == DriverIn(d) || e == DriverOut(d) || e == NicIn(n) || e == NicOut(n)
  }

  // Probes of client d on adapter n (or probes skipped for lack of memory) since the last
  // time either of them came or went.
  function Tries(log: seq<Event>, d: nat, n: nat): nat {
    if log == [] then 0
    else
      var e := log[|log| - 1];
      if Separates(e, d, n) then 0
      else Tries(log[..|log| - 1], d, n) + if e == Probe(d, n) || e == Skip(d, n) then 1 else 0
  }

  lemma TriesNext(log: seq<Event>, e: Event, d: nat, n: nat)
    ensures Tries(log + [e], d, n) ==
      if Separates(e, d, n) then 0 else Tries(log, d, n) + if e == Probe(d, n) || e == Skip(d, n) then 1 else 0
  {
    assert (log + [e])[..|log|] == log;
  }

  function Expected(port: Port, driver: Driver): nat {
    if Supported(port, driver) then 1 else 0
  }

  // What an attempt to add adds to the tries of a pair.
  lemma TriesOfAttempt(log: seq<Event>, port: Port, driver: Driver, outcome: Outcome, d: nat, n: nat)
    ensures Tries(log + TryEvents(port, driver, outcome), d, n) ==
      Tries(log, d, n) + if d == driver.id && n == port.id then Expected(port, driver) else 0
  {
    var events := TryEvents(port, driver, outcome);
    if events == [] {
      assert log + events == log;
    } else {
      assert events == [events[0]];
      TriesNext(log, events[0], d, n);
    }
  }

  predicate DistinctDrivers(drivers: seq<Driver>) {
    forall i, j :: 0 <= i < j < |drivers| ==> drivers[i].id != drivers[j].id
  }

  predicate DistinctPorts(ports: seq<Port>) {
    forall i, j :: 0 <= i < j < |ports| ==> ports[i].id != ports[j].id
  }

  // Every pair registered together has been tried exactly once if supported, else never.
  ghost predicate ProbedOnce(drivers: seq<Driver>, ports: seq<Port>, log: seq<Event>) {
    forall a, b :: 0 <= a < |drivers| && 0 <= b < |ports| ==>
      Tries(log, drivers[a].id, ports[b].id) == Expected(ports[b], drivers[a])
  }

  lemma PortStaysOk(port: Port, drivers: seq<Driver>, serial: nat, more: seq<Driver>, later: nat)
    requires PortOk(port, drivers, serial) && serial <= later
    requires forall i :: 0 <= i < |port.devices| ==> port.devices[i].driver in more
    ensures PortOk(port, more, later)
  {
  }

  // Outcomes that the registry can cope with: a refused client has taken no block.
  predicate Clean(o: Outcome) {
    OutcomeOk(o) && (o.Refused? ==> o.left == [0, 0])
  }

  // ----- the registry -----

  datatype State = State(drivers: seq<Driver>, ports: seq<Port>, serial: nat, log: seq<Event>)

  predicate AllShaped(ports: seq<Port>) {
    forall b :: 0 <= b < |ports| ==> Shaped(ports[b])
  }

  predicate AllOutcomesOk(outcomes: seq<Outcome>) {
    forall b :: 0 <= b < |outcomes| ==> OutcomeOk(outcomes[b])
  }

  function Attempt(s: State, b: nat, driver: Driver, outcome: Outcome): (after: State)
    requires b < |s.ports| && AllShaped(s.ports) && OutcomeOk(outcome)
    ensures AllShaped(after.ports) && |after.ports| == |s.ports| && after.drivers == s.drivers
  {
    State(s.drivers, s.ports[b := TryAdd(s.ports[b], driver, s.serial, outcome)], s.serial + 1,
          s.log + TryEvents(s.ports[b], driver, outcome))
  }

  // Try the driver on every adapter from b on.
  function OnEveryPort(s: State, driver: Driver, outcomes: seq<Outcome>, b: nat): (after: State)
    requires b <= |s.ports| == |outcomes| && AllShaped(s.ports) && AllOutcomesOk(outcomes)
    ensures AllShaped(after.ports) && |after.ports| == |s.ports| && after.drivers == s.drivers
    decreases |s.ports| - b
  {
    if b == |s.ports| then s else OnEveryPort(Attempt(s, b, driver, outcomes[b]), driver, outcomes, b + 1)
  }

  // Try every driver from a on on adapter b.
  function EveryDriver(s: State, b: nat, outcomes: seq<Outcome>, a: nat): (after: State)
    requires b < |s.ports| && a <= |s.drivers| == |outcomes| && AllShaped(s.ports) && AllOutcomesOk(outcomes)
    ensures AllShaped(after.ports) && |after.ports| == |s.ports| && after.drivers == s.drivers
    decreases |s.drivers| - a
  {
    if a == |s.drivers| then s else EveryDriver(Attempt(s, b, s.drivers[a], outcomes[a]), b, outcomes, a + 1)
  }

  function DriverRegistered(s: State, driver: Driver, outcomes: seq<Outcome>): (after: State)
    requires |s.ports| == |outcomes| && AllShaped(s.ports) && AllOutcomesOk(outcomes)
    ensures AllShaped(after.ports)
  {
    if !driver.checksBufSize || !driver.minorOk then s
    else OnEveryPort(s.(drivers := s.drivers + [driver], log := s.log + [DriverIn(driver.id)]), driver, outcomes, 0)
  }

  function NewPort(id: nat, x2: bool): Port {
    Port(id, x2, [], [0, 0], [false, false])
  }

  function NicRegistered(s: State, id: nat, x2: bool, outcomes: seq<Outcome>): (after: State)
    requires |s.drivers| == |outcomes| && AllShaped(s.ports) && AllOutcomesOk(outcomes)
    ensures AllShaped(after.ports)
  {
    EveryDriver(s.(ports := s.ports + [NewPort(id, x2)], log := s.log + [NicIn(id)]), |s.ports|, outcomes, 0)
  }

  function Delete(s: State, b: nat, i: nat): (after: State)
    requires b < |s.ports| && i < |s.ports[b].devices| && AllShaped(s.ports)
    ensures AllShaped(after.ports) && |after.ports| == |s.ports| && after.drivers == s.drivers
    ensures |after.ports[b].devices| == |s.ports[b].devices| - 1
  {
    s.(ports := s.ports[b := Dropped(s.ports[b], i)],
       log := s.log + [Removed(s.ports[b].devices[i].driver.id, s.ports[b].id)])
  }

  // The place of client d in a list of clients, or the length of the list.
  function Client(devices: seq<Handle>, d: nat): (i: nat)
    ensures i <= |devices| && (i < |devices| ==> devices[i].driver.id == d)
    ensures forall j :: 0 <= j < i ==> devices[j].driver.id != d
  {
    if devices == [] then 0
    else if devices[0].driver.id == d then 0
    else
      var i := Client(devices[1..], d);
      assert forall j :: 1 <= j < 1 + i ==> devices[j] == devices[1..][j - 1];
      1 + i
  }

  // Delete client d from adapter b, if it is there.
  function Detach(s: State, d: nat, b: nat): (after: State)
    requires b < |s.ports| && AllShaped(s.ports)
    ensures AllShaped(after.ports) && |after.ports| == |s.ports| && after.drivers == s.drivers
  {
    var i := Client(s.ports[b].devices, d);
    if i < |s.ports[b].devices| then Delete(s, b, i) else s
  }

  // Delete client d from every adapter from b on. A driver's own list of devices is in
  // the order of the adapters: both grow at the end only.
  function DetachAll(s: State, d: nat, b: nat): (after: State)
    requires b <= |s.ports| && AllShaped(s.ports)
    ensures AllShaped(after.ports) && |after.ports| == |s.ports| && after.drivers == s.drivers
    decreases |s.ports| - b
  {
    if b == |s.ports| then s else DetachAll(Detach(s, d, b), d, b + 1)
  }

  function DriverUnregistered(s: State, a: nat): (after: State)
    requires a < |s.drivers| && AllShaped(s.ports)
    ensures AllShaped(after.ports)
  {
    var d := s.drivers[a].id;
    var t := DetachAll(s, d, 0);
    t.(drivers := s.drivers[..a] + s.drivers[a + 1..], log := t.log + [DriverOut(d)])
  }

  // Delete the clients of adapter b, the last first.
  function Cleared(s: State, b: nat): (after: State)
    requires b < |s.ports| && AllShaped(s.ports)
    ensures AllShaped(after.ports) && |after.ports| == |s.ports| && after.drivers == s.drivers
    decreases |s.ports[b].devices|
  {
    if s.ports[b].devices == [] then s else Cleared(Delete(s, b, |s.ports[b].devices| - 1), b)
  }

  function NicUnregistered(s: State, b: nat): (after: State)
    requires b < |s.ports| && AllShaped(s.ports)
    ensures AllShaped(after.ports)
  {
    var t := Cleared(s, b);
    t.(ports := t.ports[..b] + t.ports[b + 1..], log := t.log + [NicOut(s.ports[b].id)])
  }

  // efx_dl_filter_block_kernel; rc is what the adapter answers when it is asked.
  function Block(port: Port, i: nat, t: nat, rc: int): (after: Port)
    requires Shaped(port) && i < |port.devices| && t < TYPES
    ensures Shaped(after) && after.id == port.id && after.x2 == port.x2
  {
    var h := port.devices[i];
    if port.counts[t] == 0 && rc != 0 then port
    else
      port.(devices := port.devices[i := h.(blocks := h.blocks[t := h.blocks[t] + 1])],
            counts := port.counts[t := port.counts[t] + 1],
            blocked := if port.counts[t] == 0 then port.blocked[t := true] else port.blocked)
  }

  // efx_dl_filter_unblock_kernel
  function Unblock(port: Port, i: nat, t: nat): (after: Port)
    requires Shaped(port) && i < |port.devices| && t < TYPES
    ensures Shaped(after) && after.id == port.id && after.x2 == port.x2
  {
    var h := port.devices[i];
    if h.blocks[t] == 0 then port
    else
      port.(devices := port.devices[i := h.(blocks := h.blocks[t := h.blocks[t] - 1])],
            counts := port.counts[t := port.counts[t] - 1],
            blocked := if port.counts[t] == 1 then port.blocked[t := false] else port.blocked)
  }

  // ----- every operation keeps the registry in order -----

  ghost predicate RegistryOk(s: State) {
    && DistinctDrivers(s.drivers) && DistinctPorts(s.ports)
    && (forall b :: 0 <= b < |s.ports| ==> PortOk(s.ports[b], s.drivers, s.serial))
    && ProbedOnce(s.drivers, s.ports, s.log)
  }

  lemma AttemptOk(s: State, b: nat, driver: Driver, outcome: Outcome)
    requires b < |s.ports| && AllShaped(s.ports) && Clean(outcome) && driver in s.drivers
    requires PortOk(s.ports[b], s.drivers, s.serial)
    requires forall i :: 0 <= i < |s.ports[b].devices| ==> s.ports[b].devices[i].driver.id != driver.id
    ensures PortOk(Attempt(s, b, driver, outcome).ports[b], s.drivers, s.serial + 1)
  {
    TryAddOkIff(s.ports[b], s.drivers, driver, s.serial, outcome);
  }

  predicate AllClean(outcomes: seq<Outcome>) {
    forall c :: 0 <= c < |outcomes| ==> Clean(outcomes[c])
  }

  lemma CleanIsOk(outcomes: seq<Outcome>)
    requires AllClean(outcomes)
    ensures AllOutcomesOk(outcomes)
  {
  }

  ghost predicate DriverAt(s: State, first: seq<Driver>, driver: Driver, before: seq<Port>, b: nat) {
    && s.drivers == first + [driver] && DriverLoop(first, driver, before, s.ports, s.serial, s.log, b)
    && NewDriver(first, driver) && DistinctDrivers(first) && DistinctPorts(before) && AllShaped(s.ports)
  }

  lemma DriverAtNext(s: State, first: seq<Driver>, driver: Driver, before: seq<Port>, outcome: Outcome, b: nat)
    requires DriverAt(s, first, driver, before, b) && b < |s.ports| && Clean(outcome)
    ensures DriverAt(Attempt(s, b, driver, outcome), first, driver, before, b + 1)
  {
    NotOnAny(first, driver, before, s.ports, s.serial, s.log, b);
    AttemptOk(s, b, driver, outcome);
    DriverLoopStep(first, driver, before, s.ports, s.serial, s.log, b, outcome, Attempt(s, b, driver, outcome).ports);
  }

  lemma {:induction false} OnEveryPortOk(s: State, first: seq<Driver>, driver: Driver, before: seq<Port>, outcomes: seq<Outcome>, b: nat)
    requires b <= |s.ports| == |outcomes| && AllClean(outcomes) && AllOutcomesOk(outcomes) && AllShaped(s.ports)
    requires DriverAt(s, first, driver, before, b)
    ensures RegistryOk(OnEveryPort(s, driver, outcomes, b))
    decreases |s.ports| - b
  {
    if b == |s.ports| {
      DriverLoopDone(first, driver, before, s.ports, s.serial, s.log);
    } else {
      DriverAtNext(s, first, driver, before, outcomes[b], b);
      OnEveryPortOk(Attempt(s, b, driver, outcomes[b]), first, driver, before, outcomes, b + 1);
    }
  }

  ghost predicate NicAt(s: State, before: seq<Port>, a: nat) {
    && |s.ports| == |before| + 1 && s.ports[..|before|] == before && AllShaped(s.ports)
    && NicLoop(s.drivers, before, s.ports[|before|], s.serial, s.log, a)
    && DistinctDrivers(s.drivers) && DistinctPorts(s.ports)
  }

  lemma NicAtNext(s: State, before: seq<Port>, outcome: Outcome, a: nat)
    requires NicAt(s, before, a) && a < |s.drivers| && Clean(outcome)
    ensures NicAt(Attempt(s, |before|, s.drivers[a], outcome), before, a + 1)
  {
    var port, driver := s.ports[|before|], s.drivers[a];
    NotYetOn(port, s.drivers, a);
    AttemptOk(s, |before|, driver, outcome);
    AddedClient(port, driver, s.serial, outcome, s.drivers[..a]);
    assert s.drivers[..a] + [driver] == s.drivers[..a + 1];
    assert forall c :: 0 <= c < |before| ==> before[c] == s.ports[c];
    NicLoopStep(s.drivers, before, port, s.serial, s.log, a, outcome, TryAdd(port, driver, s.serial, outcome));
  }

  lemma {:induction false} EveryDriverOk(s: State, before: seq<Port>, outcomes: seq<Outcome>, a: nat)
    requires |before| < |s.ports| && a <= |s.drivers| == |outcomes| && AllClean(outcomes) && AllOutcomesOk(outcomes) && AllShaped(s.ports)
    requires NicAt(s, before, a)
    ensures RegistryOk(EveryDriver(s, |before|, outcomes, a))
    decreases |s.drivers| - a
  {
    if a == |s.drivers| {
      assert s.ports == before + [s.ports[|before|]];
      NicLoopDone(s.drivers, before, s.ports[|before|], s.ports, s.serial, s.log);
    } else {
      NicAtNext(s, before, outcomes[a], a);
      EveryDriverOk(Attempt(s, |before|, s.drivers[a], outcomes[a]), before, outcomes, a + 1);
    }
  }

  /** Registering a driver keeps the registry in order: the driver is tried exactly once on
      every adapter that it supports. */
  lemma RegisterDriverOk(s: State, driver: Driver, outcomes: seq<Outcome>)
    requires RegistryOk(s) && NewDriver(s.drivers, driver) && |outcomes| == |s.ports| && AllClean(outcomes) && AllOutcomesOk(outcomes)
    ensures RegistryOk(DriverRegistered(s, driver, outcomes))
  {
    if driver.checksBufSize && driver.minorOk {
      DriverArrives(s.drivers, driver, s.ports, s.serial, s.log);
      var t := s.(drivers := s.drivers + [driver], log := s.log + [DriverIn(driver.id)]);
      OnEveryPortOk(t, s.drivers, driver, s.ports, outcomes, 0);
    }
  }

  predicate NewNic(ports: seq<Port>, id: nat) {
    forall b :: 0 <= b < |ports| ==> ports[b].id != id
  }

  /** Registering an adapter keeps the registry in order: every registered driver that
      supports it is tried exactly once. */
  lemma RegisterNicOk(s: State, id: nat, x2: bool, outcomes: seq<Outcome>)
    requires RegistryOk(s) && NewNic(s.ports, id) && |outcomes| == |s.drivers| && AllClean(outcomes) && AllOutcomesOk(outcomes)
    ensures RegistryOk(NicRegistered(s, id, x2, outcomes))
  {
    var t := s.(ports := s.ports + [NewPort(id, x2)], log := s.log + [NicIn(id)]);
    NicArrives(s.drivers, s.ports, NewPort(id, x2), s.serial, s.log);
    assert t.ports[..|s.ports|] == s.ports;
    EveryDriverOk(t, s.ports, outcomes, 0);
  }

  // ----- removals -----

  lemma RemovalIsNoTry(drivers: seq<Driver>, ports: seq<Port>, after: seq<Port>, log: seq<Event>, e: Event)
    requires ProbedOnce(drivers, ports, log) && e.Removed? && |after| == |ports|
    requires forall c :: 0 <= c < |ports| ==> after[c].id == ports[c].id && after[c].x2 == ports[c].x2
    ensures ProbedOnce(drivers, after, log + [e])
  {
    forall a, c | 0 <= a < |drivers| && 0 <= c < |after|
      ensures Tries(log + [e], drivers[a].id, after[c].id) == Expected(after[c], drivers[a])
    {
      TriesNext(log, e, drivers[a].id, ports[c].id);
    }
  }

  lemma DeleteOk(s: State, b: nat, i: nat)
    requires RegistryOk(s) && b < |s.ports| && i < |s.ports[b].devices|
    ensures RegistryOk(Delete(s, b, i))
  {
    var after := Delete(s, b, i);
    DroppedOk(s.ports[b], s.drivers, s.serial, i);
    RemovalIsNoTry(s.drivers, s.ports, after.ports, s.log, Removed(s.ports[b].devices[i].driver.id, s.ports[b].id));
  }

  predicate Absent(port: Port, d: nat) {
    forall i :: 0 <= i < |port.devices| ==> port.devices[i].driver.id != d
  }

  lemma DetachOk(s: State, d: nat, b: nat)
    requires RegistryOk(s) && b < |s.ports|
    ensures RegistryOk(Detach(s, d, b)) && Absent(Detach(s, d, b).ports[b], d)
    ensures Detach(s, d, b).ports == s.ports[b := Detach(s, d, b).ports[b]]
  {
    var port := s.ports[b];
    var i := Client(port.devices, d);
    if i < |port.devices| {
      DeleteOk(s, b, i);
      DroppedOk(port, s.drivers, s.serial, i);
      forall j | 0 <= j < |Dropped(port, i).devices| ensures Dropped(port, i).devices[j].driver.id != d {
        assert Dropped(port, i).devices[j] == port.devices[if j < i then j else j + 1];
      }
    }
  }

  predicate AbsentBelow(ports: seq<Port>, d: nat, b: nat) {
    forall c :: 0 <= c < b && c < |ports| ==> Absent(ports[c], d)
  }

  lemma DetachStep(s: State, d: nat, b: nat)
    requires RegistryOk(s) && b < |s.ports| && AbsentBelow(s.ports, d, b)
    ensures RegistryOk(Detach(s, d, b)) && AbsentBelow(Detach(s, d, b).ports, d, b + 1)
  {
    DetachOk(s, d, b);
  }

  lemma {:induction false} DetachAllOk(s: State, d: nat, b: nat)
    requires RegistryOk(s) && b <= |s.ports| && AbsentBelow(s.ports, d, b)
    ensures RegistryOk(DetachAll(s, d, b)) && AbsentBelow(DetachAll(s, d, b).ports, d, |s.ports|)
    decreases |s.ports| - b
  {
    if b < |s.ports| {
      DetachStep(s, d, b);
      var next := Detach(s, d, b);
      DetachAllOk(next, d, b + 1);
      assert DetachAll(s, d, b) == DetachAll(next, d, b + 1);
    }
  }

  /** Unregistering a driver keeps the registry in order, and leaves no client of the driver
      on any adapter. */
  lemma UnregisterDriverOk(s: State, a: nat)
    requires RegistryOk(s) && a < |s.drivers|
    ensures RegistryOk(DriverUnregistered(s, a))
    ensures forall b :: 0 <= b < |DriverUnregistered(s, a).ports| ==> Absent(DriverUnregistered(s, a).ports[b], s.drivers[a].id)
  {
    DetachAllOk(s, s.drivers[a].id, 0);
    DriverLeaves(DetachAll(s, s.drivers[a].id, 0), a);
  }

  lemma DriverLeaves(s: State, a: nat)
    requires RegistryOk(s) && a < |s.drivers| && forall c :: 0 <= c < |s.ports| ==> Absent(s.ports[c], s.drivers[a].id)
    ensures RegistryOk(s.(drivers := s.drivers[..a] + s.drivers[a + 1..], log := s.log + [DriverOut(s.drivers[a].id)]))
  {
    var rest, e := s.drivers[..a] + s.drivers[a + 1..], DriverOut(s.drivers[a].id);
    assert forall c :: 0 <= c < |rest| ==> rest[c] == s.drivers[if c < a then c else c + 1];
    forall b | 0 <= b < |s.ports| ensures PortOk(s.ports[b], rest, s.serial) {
      StillRegistered(s.ports[b], s.drivers, a, s.serial);
      PortStaysOk(s.ports[b], s.drivers, s.serial, rest, s.serial);
    }
    forall c, b | 0 <= c < |rest| && 0 <= b < |s.ports|
      ensures Tries(s.log + [e], rest[c].id, s.ports[b].id) == Expected(s.ports[b], rest[c])
    {
      TriesNext(s.log, e, rest[c].id, s.ports[b].id);
    }
  }

  lemma StillRegistered(port: Port, drivers: seq<Driver>, a: nat, serial: nat)
    requires ClientsOk(port, drivers, serial) && a < |drivers| && Absent(port, drivers[a].id)
    ensures forall i :: 0 <= i < |port.devices| ==> port.devices[i].driver in drivers[..a] + drivers[a + 1..]
  {
    var rest := drivers[..a] + drivers[a + 1..];
    forall i | 0 <= i < |port.devices| ensures port.devices[i].driver in rest {
      var c :| 0 <= c < |drivers| && drivers[c] == port.devices[i].driver;
      assert rest[if c < a then c else c - 1] == drivers[c];
    }
  }

  lemma {:induction false} ClearedOk(s: State, b: nat)
    requires RegistryOk(s) && b < |s.ports|
    ensures RegistryOk(Cleared(s, b)) && Cleared(s, b).ports[b].id == s.ports[b].id
    decreases |s.ports[b].devices|
  {
    if s.ports[b].devices != [] {
      DeleteOk(s, b, |s.ports[b].devices| - 1);
      ClearedOk(Delete(s, b, |s.ports[b].devices| - 1), b);
    }
  }

  /** Unregistering an adapter keeps the registry in order. */
  lemma UnregisterNicOk(s: State, b: nat)
    requires RegistryOk(s) && b < |s.ports|
    ensures RegistryOk(NicUnregistered(s, b))
  {
    ClearedOk(s, b);
    NicLeaves(Cleared(s, b), b);
  }

  lemma NicLeaves(s: State, b: nat)
    requires RegistryOk(s) && b < |s.ports|
    ensures RegistryOk(s.(ports := s.ports[..b] + s.ports[b + 1..], log := s.log + [NicOut(s.ports[b].id)]))
  {
    var rest, e := s.ports[..b] + s.ports[b + 1..], NicOut(s.ports[b].id);
    assert forall c :: 0 <= c < |rest| ==> rest[c] == s.ports[if c < b then c else c + 1];
    forall a, c | 0 <= a < |s.drivers| && 0 <= c < |rest|
      ensures Tries(s.log + [e], s.drivers[a].id, rest[c].id) == Expected(rest[c], s.drivers[a])
    {
      TriesNext(s.log, e, s.drivers[a].id, rest[c].id);
    }
  }

  /** An adapter that leaves takes its clients off in the reverse of the order of its list. */
  lemma {:induction false} RemovedInReverse(s: State, b: nat, k: nat)
    requires b < |s.ports| && AllShaped(s.ports) && k < |s.ports[b].devices|
    ensures |Cleared(s, b).log| == |s.log| + |s.ports[b].devices| && s.log <= Cleared(s, b).log
    ensures Cleared(s, b).log[|s.log| + k] == Removed(s.ports[b].devices[|s.ports[b].devices| - 1 - k].driver.id, s.ports[b].id)
    decreases |s.ports[b].devices|
  {
    var n := |s.ports[b].devices|;
    var next := Delete(s, b, n - 1);
    assert next.ports[b].devices == s.ports[b].devices[..n - 1];
    if n > 1 {
      RemovedInReverse(next, b, if k == 0 then 0 else k - 1);
      assert next.log <= Cleared(s, b).log && next.log[|s.log|] == Cleared(s, b).log[|s.log|];
    } else {
      assert Cleared(next, b) == next;
    }
  }

  // ----- blocking the kernel's filters -----

  lemma BlockOk(port: Port, drivers: seq<Driver>, serial: nat, i: nat, t: nat, rc: int)
    requires PortOk(port, drivers, serial) && i < |port.devices| && t < TYPES
    ensures PortOk(Block(port, i, t, rc), drivers, serial)
  {
    var h := port.devices[i];
    var more := h.(blocks := h.blocks[t := h.blocks[t] + 1]);
    BlockCounts(port, i, t, rc, more);
    SameClients(port, drivers, serial, i, more);
  }

  lemma BlockCounts(port: Port, i: nat, t: nat, rc: int, more: Handle)
    requires CountsOk(port) && i < |port.devices| && t < TYPES
    requires more == port.devices[i].(blocks := port.devices[i].blocks[t := port.devices[i].blocks[t] + 1])
    ensures CountsOk(Block(port, i, t, rc))
  {
    BlockSumUpdate(port.devices, i, more, 0);
    BlockSumUpdate(port.devices, i, more, 1);
  }

  lemma UnblockOk(port: Port, drivers: seq<Driver>, serial: nat, i: nat, t: nat)
    requires PortOk(port, drivers, serial) && i < |port.devices| && t < TYPES
    ensures PortOk(Unblock(port, i, t), drivers, serial)
  {
    var h := port.devices[i];
    if h.blocks[t] > 0 {
      var less := h.(blocks := h.blocks[t := h.blocks[t] - 1]);
      UnblockCounts(port, i, t, less);
      SameClients(port, drivers, serial, i, less);
    }
  }

  lemma UnblockCounts(port: Port, i: nat, t: nat, less: Handle)
    requires CountsOk(port) && i < |port.devices| && t < TYPES && port.devices[i].blocks[t] > 0
    requires less == port.devices[i].(blocks := port.devices[i].blocks[t := port.devices[i].blocks[t] - 1])
    ensures CountsOk(Unblock(port, i, t))
  {
    BlockSumUpdate(port.devices, i, less, 0);
    BlockSumUpdate(port.devices, i, less, 1);
  }

  lemma SameClients(port: Port, drivers: seq<Driver>, serial: nat, i: nat, h: Handle)
    requires StablySorted(port.devices) && ClientsOk(port, drivers, serial) && i < |port.devices|
    requires h.driver == port.devices[i].driver && h.serial == port.devices[i].serial
    ensures StablySorted(port.devices[i := h]) && ClientsOk(port.(devices := port.devices[i := h]), drivers, serial)
  {
  }

  // ----- whole runs -----

  datatype Op =
    | AddDriver(driver: Driver, outcomes: seq<Outcome>) | RemoveDriver(a: nat)
    | AddNic(id: nat, x2: bool, outcomes: seq<Outcome>) | RemoveNic(b: nat)
    | BlockKernel(b: nat, i: nat, t: nat, rc: int) | UnblockKernel(b: nat, i: nat, t: nat)

  // What callers see to: no driver or adapter registers twice, only what is registered is
  // named, and a client gives its blocks back before it refuses a probe.
  predicate Allowed(s: State, op: Op) {
    match op
    case AddDriver(driver, outcomes) => NewDriver(s.drivers, driver) && |outcomes| == |s.ports| && AllClean(outcomes)
    case RemoveDriver(a) => a < |s.drivers|
    case AddNic(id, _, outcomes) => NewNic(s.ports, id) && |outcomes| == |s.drivers| && AllClean(outcomes)
    case RemoveNic(b) => b < |s.ports|
    case BlockKernel(b, i, t, _) => b < |s.ports| && i < |s.ports[b].devices| && t < TYPES
    case UnblockKernel(b, i, t) => b < |s.ports| && i < |s.ports[b].devices| && t < TYPES
  }

  function Apply(s: State, op: Op): (after: State)
    requires AllShaped(s.ports)
    ensures AllShaped(after.ports)
  {
    if !Allowed(s, op) then s
    else
      match op
      case AddDriver(driver, outcomes) => CleanIsOk(outcomes); DriverRegistered(s, driver, outcomes)
      case RemoveDriver(a) => DriverUnregistered(s, a)
      case AddNic(id, x2, outcomes) => CleanIsOk(outcomes); NicRegistered(s, id, x2, outcomes)
      case RemoveNic(b) => NicUnregistered(s, b)
      case BlockKernel(b, i, t, rc) => s.(ports := s.ports[b := Block(s.ports[b], i, t, rc)])
      case UnblockKernel(b, i, t) => s.(ports := s.ports[b := Unblock(s.ports[b], i, t)])
  }

  function Run(s: State, ops: seq<Op>): (after: State)
    requires AllShaped(s.ports)
    ensures AllShaped(after.ports)
    decreases |ops|
  {
    if ops == [] then s else Run(Apply(s, ops[0]), ops[1..])
  }

  lemma OpKeeps(s: State, op: Op)
    requires RegistryOk(s)
    ensures RegistryOk(Apply(s, op))
  {
    if Allowed(s, op) {
      match op
      case AddDriver(driver, outcomes) =>
        CleanIsOk(outcomes);
        RegisterDriverOk(s, driver, outcomes);
      case RemoveDriver(a) => UnregisterDriverOk(s, a);
      case AddNic(id, x2, outcomes) =>
        CleanIsOk(outcomes);
        RegisterNicOk(s, id, x2, outcomes);
      case RemoveNic(b) => UnregisterNicOk(s, b);
      case BlockKernel(b, i, t, rc) =>
        BlockOk(s.ports[b], s.drivers, s.serial, i, t, rc);
        PortReplaced(s, b, Block(s.ports[b], i, t, rc));
      case UnblockKernel(b, i, t) =>
        UnblockOk(s.ports[b], s.drivers, s.serial, i, t);
        PortReplaced(s, b, Unblock(s.ports[b], i, t));
    }
  }

  lemma PortReplaced(s: State, b: nat, port: Port)
    requires RegistryOk(s) && b < |s.ports| && port.id == s.ports[b].id && port.x2 == s.ports[b].x2
    requires PortOk(port, s.drivers, s.serial)
    ensures RegistryOk(s.(ports := s.ports[b := port]))
  {
    assert forall a :: 0 <= a < |s.drivers| ==> Expected(port, s.drivers[a]) == Expected(s.ports[b], s.drivers[a]);
  }

  /** Whatever the drivers and adapters do, in any order: every driver and adapter that are
      registered together have been tried together exactly once, every list is sorted by
      priority and then by order of probing, and every adapter's block counts are the sums
      of its clients', blocked exactly while positive. */
  lemma {:induction false} EveryRunKeeps(s: State, ops: seq<Op>)
    requires RegistryOk(s)
    ensures RegistryOk(Run(s, ops))
    decreases |ops|
  {
    if ops != [] {
      OpKeeps(s, ops[0]);
      EveryRunKeeps(Apply(s, ops[0]), ops[1..]);
    }
  }

  // ----- the two registration loops -----

  predicate NewDriver(drivers: seq<Driver>, driver: Driver) {
    forall a :: 0 <= a < |drivers| ==> drivers[a].id != driver.id
  }

  // Driver registration has reached port b.
  ghost predicate DriverLoop(first: seq<Driver>, driver: Driver, before: seq<Port>, ports: seq<Port>, serial: nat, log: seq<Event>, b: nat) {
    && |ports| == |before| && b <= |ports|
    && (forall c :: 0 <= c < |ports| ==> ports[c].id == before[c].id && ports[c].x2 == before[c].x2)
    && (forall c :: 0 <= c < b ==> PortOk(ports[c], first + [driver], serial))
    && (forall c :: b <= c < |ports| ==> ports[c] == before[c] && PortOk(ports[c], first, serial))
    && ProbedOnce(first, ports, log)
    && (forall c :: 0 <= c < |ports| ==>
          Tries(log, driver.id, ports[c].id) == if c < b then Expected(ports[c], driver) else 0)
  }

  lemma DriverArrives(first: seq<Driver>, driver: Driver, ports: seq<Port>, serial: nat, log: seq<Event>)
    requires RegistryOk(State(first, ports, serial, log)) && NewDriver(first, driver)
    ensures DriverLoop(first, driver, ports, ports, serial, log + [DriverIn(driver.id)], 0)
  {
    AfterArrival(first, ports, log, driver);
  }

  lemma NotOnAny(first: seq<Driver>, driver: Driver, before: seq<Port>, ports: seq<Port>, serial: nat, log: seq<Event>, b: nat)
    requires DriverLoop(first, driver, before, ports, serial, log, b) && b < |ports|
    requires NewDriver(first, driver)
    ensures PortOk(ports[b], first + [driver], serial)
    ensures forall i :: 0 <= i < |ports[b].devices| ==> ports[b].devices[i].driver.id != driver.id
  {
    forall i | 0 <= i < |ports[b].devices| ensures ports[b].devices[i].driver in first {
    }
    PortStaysOk(ports[b], first, serial, first + [driver], serial);
  }

  lemma DriverLoopStep(first: seq<Driver>, driver: Driver, before: seq<Port>, ports: seq<Port>, serial: nat, log: seq<Event>,
                       b: nat, outcome: Outcome, after: seq<Port>)
    requires DriverLoop(first, driver, before, ports, serial, log, b) && b < |ports| && DistinctPorts(before)
    requires NewDriver(first, driver)
    requires |after| == |ports| && forall c :: 0 <= c < |ports| && c != b ==> after[c] == ports[c]
    requires PortOk(after[b], first + [driver], serial + 1) && after[b].id == ports[b].id && after[b].x2 == ports[b].x2
    ensures DriverLoop(first, driver, before, after, serial + 1, log + TryEvents(ports[b], driver, outcome), b + 1)
  {
    forall c | 0 <= c < b + 1 ensures PortOk(after[c], first + [driver], serial + 1) {
      if c < b { PortStaysOk(ports[c], first + [driver], serial, first + [driver], serial + 1); }
    }
    forall c | b + 1 <= c < |ports| ensures PortOk(after[c], first, serial + 1) {
      PortStaysOk(ports[c], first, serial, first, serial + 1);
    }
    ProbeOfNewDriver(first, driver, ports, log, b, outcome, after);
  }

  lemma DriverLoopDone(first: seq<Driver>, driver: Driver, before: seq<Port>, ports: seq<Port>, serial: nat, log: seq<Event>)
    requires DriverLoop(first, driver, before, ports, serial, log, |ports|) && DistinctPorts(before)
    requires DistinctDrivers(first) && NewDriver(first, driver)
    ensures RegistryOk(State(first + [driver], ports, serial, log))
  {
    var drivers := first + [driver];
    forall a, c | 0 <= a < |drivers| && 0 <= c < |ports|
      ensures Tries(log, drivers[a].id, ports[c].id) == Expected(ports[c], drivers[a])
    {
      if a < |first| { assert drivers[a] == first[a]; }
    }
  }

  // The registration of a port has reached driver a.
  ghost predicate NicLoop(drivers: seq<Driver>, before: seq<Port>, port: Port, serial: nat, log: seq<Event>, a: nat) {
    && a <= |drivers| && PortOk(port, drivers, serial)
    && (forall c :: 0 <= c < |before| ==> PortOk(before[c], drivers, serial))
    && (forall i :: 0 <= i < |port.devices| ==> port.devices[i].driver in drivers[..a])
    && ProbedOnce(drivers, before, log)
    && (forall c :: 0 <= c < |drivers| ==>
          Tries(log, drivers[c].id, port.id) == if c < a then Expected(port, drivers[c]) else 0)
  }

  lemma NicArrives(drivers: seq<Driver>, before: seq<Port>, port: Port, serial: nat, log: seq<Event>)
    requires ProbedOnce(drivers, before, log) && forall b :: 0 <= b < |before| ==> before[b].id != port.id
    requires forall c :: 0 <= c < |before| ==> PortOk(before[c], drivers, serial)
    requires port.devices == [] && port.counts == [0, 0] && port.blocked == [false, false]
    ensures NicLoop(drivers, before, port, serial, log + [NicIn(port.id)], 0)
  {
    AfterNic(drivers, before, log, port);
  }

  lemma NicLoopStep(drivers: seq<Driver>, before: seq<Port>, port: Port, serial: nat, log: seq<Event>, a: nat, outcome: Outcome, after: Port)
    requires NicLoop(drivers, before, port, serial, log, a) && a < |drivers| && DistinctDrivers(drivers)
    requires forall b :: 0 <= b < |before| ==> before[b].id != port.id
    requires PortOk(after, drivers, serial + 1) && after.id == port.id && after.x2 == port.x2
    requires forall i :: 0 <= i < |after.devices| ==> after.devices[i].driver in drivers[..a + 1]
    ensures NicLoop(drivers, before, after, serial + 1, log + TryEvents(port, drivers[a], outcome), a + 1)
  {
    forall c | 0 <= c < |before| ensures PortOk(before[c], drivers, serial + 1) {
      PortStaysOk(before[c], drivers, serial, drivers, serial + 1);
    }
    ProbeOnNewNic(drivers, before, log, port, a, outcome);
  }

  lemma NicLoopDone(drivers: seq<Driver>, before: seq<Port>, port: Port, ports: seq<Port>, serial: nat, log: seq<Event>)
    requires NicLoop(drivers, before, port, serial, log, |drivers|) && ports == before + [port]
    requires DistinctDrivers(drivers) && DistinctPorts(ports)
    ensures RegistryOk(State(drivers, ports, serial, log))
  {
  }

  // ----- what arrivals and probes do to the tries -----

  lemma AfterArrival(drivers: seq<Driver>, ports: seq<Port>, log: seq<Event>, driver: Driver)
    requires ProbedOnce(drivers, ports, log) && forall a :: 0 <= a < |drivers| ==> drivers[a].id != driver.id
    ensures ProbedOnce(drivers, ports, log + [DriverIn(driver.id)])
    ensures forall b :: 0 <= b < |ports| ==> Tries(log + [DriverIn(driver.id)], driver.id, ports[b].id) == 0
  {
    var e := DriverIn(driver.id);
    forall a, b | 0 <= a < |drivers| && 0 <= b < |ports|
      ensures Tries(log + [e], drivers[a].id, ports[b].id) == Expected(ports[b], drivers[a])
    {
      TriesNext(log, e, drivers[a].id, ports[b].id);
    }
    forall b | 0 <= b < |ports| ensures Tries(log + [e], driver.id, ports[b].id) == 0 {
      TriesNext(log, e, driver.id, ports[b].id);
    }
  }

  lemma AfterNic(drivers: seq<Driver>, ports: seq<Port>, log: seq<Event>, port: Port)
    requires ProbedOnce(drivers, ports, log) && forall b :: 0 <= b < |ports| ==> ports[b].id != port.id
    ensures ProbedOnce(drivers, ports, log + [NicIn(port.id)])
    ensures forall a :: 0 <= a < |drivers| ==> Tries(log + [NicIn(port.id)], drivers[a].id, port.id) == 0
  {
    var e := NicIn(port.id);
    forall a, b | 0 <= a < |drivers| && 0 <= b < |ports|
      ensures Tries(log + [e], drivers[a].id, ports[b].id) == Expected(ports[b], drivers[a])
    {
      TriesNext(log, e, drivers[a].id, ports[b].id);
    }
    forall a | 0 <= a < |drivers| ensures Tries(log + [e], drivers[a].id, port.id) == 0 {
      TriesNext(log, e, drivers[a].id, port.id);
    }
  }

  lemma ProbeOfNewDriver(drivers: seq<Driver>, driver: Driver, ports: seq<Port>, log: seq<Event>, b: nat, outcome: Outcome, after: seq<Port>)
    requires ProbedOnce(drivers, ports, log) && b < |ports| && DistinctPorts(ports) && |after| == |ports|
    requires forall a :: 0 <= a < |drivers| ==> drivers[a].id != driver.id
    requires forall c :: 0 <= c < |ports| ==> after[c].id == ports[c].id && after[c].x2 == ports[c].x2
    requires forall c :: 0 <= c < |ports| ==>
      Tries(log, driver.id, ports[c].id) == if c < b then Expected(ports[c], driver) else 0
    ensures var events := TryEvents(ports[b], driver, outcome);
      && ProbedOnce(drivers, after, log + events)
      && forall c :: 0 <= c < |ports| ==>
           Tries(log + events, driver.id, after[c].id) == if c < b + 1 then Expected(after[c], driver) else 0
  {
    var events := TryEvents(ports[b], driver, outcome);
    forall a, c | 0 <= a < |drivers| && 0 <= c < |ports|
      ensures Tries(log + events, drivers[a].id, after[c].id) == Expected(after[c], drivers[a])
    {
      TriesOfAttempt(log, ports[b], driver, outcome, drivers[a].id, ports[c].id);
    }
    forall c | 0 <= c < |ports|
      ensures Tries(log + events, driver.id, after[c].id) == if c < b + 1 then Expected(after[c], driver) else 0
    {
      TriesOfAttempt(log, ports[b], driver, outcome, driver.id, ports[c].id);
      if c < b { assert ports[c].id != ports[b].id; } else if c > b { assert ports[b].id != ports[c].id; }
    }
  }

  lemma ProbeOnNewNic(drivers: seq<Driver>, ports: seq<Port>, log: seq<Event>, port: Port, a: nat, outcome: Outcome)
    requires ProbedOnce(drivers, ports, log) && a < |drivers| && DistinctDrivers(drivers)
    requires forall b :: 0 <= b < |ports| ==> ports[b].id != port.id
    requires forall c :: 0 <= c < |drivers| ==>
      Tries(log, drivers[c].id, port.id) == if c < a then Expected(port, drivers[c]) else 0
    ensures var events := TryEvents(port, drivers[a], outcome);
      && ProbedOnce(drivers, ports, log + events)
      && forall c :: 0 <= c < |drivers| ==>
           Tries(log + events, drivers[c].id, port.id) == if c < a + 1 then Expected(port, drivers[c]) else 0
  {
    var events := TryEvents(port, drivers[a], outcome);
    forall c, b | 0 <= c < |drivers| && 0 <= b < |ports|
      ensures Tries(log + events, drivers[c].id, ports[b].id) == Expected(ports[b], drivers[c])
    {
      TriesOfAttempt(log, port, drivers[a], outcome, drivers[c].id, ports[b].id);
    }
    forall c | 0 <= c < |drivers|
      ensures Tries(log + events, drivers[c].id, port.id) == if c < a + 1 then Expected(port, drivers[c]) else 0
    {
      TriesOfAttempt(log, port, drivers[a], outcome, drivers[c].id, port.id);
      if c < a { assert drivers[c].id != drivers[a].id; } else if c > a { assert drivers[a].id != drivers[c].id; }
    }
  }

  lemma NotYetOn(port: Port, drivers: seq<Driver>, a: nat)
    requires a < |drivers| && DistinctDrivers(drivers)
    requires forall i :: 0 <= i < |port.devices| ==> port.devices[i].driver in drivers[..a]
    ensures forall i :: 0 <= i < |port.devices| ==> port.devices[i].driver.id != drivers[a].id
  {
    forall i | 0 <= i < |port.devices| ensures port.devices[i].driver.id != drivers[a].id {
      var c :| 0 <= c < a && drivers[..a][c] == port.devices[i].driver;
    }
  }

  lemma AddedClient(port: Port, driver: Driver, serial: nat, outcome: Outcome, before: seq<Driver>)
    requires Shaped(port) && OutcomeOk(outcome)
    requires forall i :: 0 <= i < |port.devices| ==> port.devices[i].driver in before
    ensures var after := TryAdd(port, driver, serial, outcome).devices;
      forall i :: 0 <= i < |after| ==> after[i].driver in before + [driver]
  {
    var after := TryAdd(port, driver, serial, outcome).devices;
    if after != port.devices {
      var k := Place(port.devices, driver.priority);
      forall i | 0 <= i < |after| ensures after[i].driver in before + [driver] {
        if i != k { assert after[i] == port.devices[if i < k then i else i - 1]; }
      }
    }
  }

  // ----- the code -----

  class Registry {
    var drivers: seq<Driver>
    var ports: seq<Port>
    var serial: nat
    var log: seq<Event>

    function Value(): State
      reads this
    {
      State(drivers, ports, serial, log)
    }

    ghost predicate Valid()
      reads this
    {
      RegistryOk(Value())
    }

    constructor ()
      ensures Valid() && Value() == State([], [], 0, [])
    {
      drivers, ports, serial, log := [], [], 0, [];
    }

    // The list is searched for the end of the driver's priority level.
    method TryAddDevice(b: nat, driver: Driver, outcome: Outcome)
      requires b < |ports| && AllShaped(ports) && OutcomeOk(outcome)
      modifies this
      ensures Value() == Attempt(old(Value()), b, driver, outcome)
    {
      var port := ports[b];
      log := log + TryEvents(port, driver, outcome);
      serial := serial + 1;
      if !Supported(port, driver) || outcome.NoMemory? { return; }
      var held := if outcome.Refused? then outcome.left else outcome.held;
      port := Taken(port, held);
      if outcome.Accepted? {
        var k := 0;
        while k < |port.devices| && port.devices[k].driver.priority <= driver.priority
          invariant k <= |port.devices|
          invariant forall i :: 0 <= i < k ==> port.devices[i].driver.priority <= driver.priority
        {
          k := k + 1;
        }
        assert k == Place(port.devices, driver.priority);
        port := port.(devices := port.devices[..k] + [Handle(serial - 1, driver, held)] + port.devices[k..]);
      }
      ports := ports[b := port];
    }

    method RegisterDriver(driver: Driver, outcomes: seq<Outcome>) returns (ok: bool)
      requires Valid() && |outcomes| == |ports| && AllOutcomesOk(outcomes) && NewDriver(drivers, driver)
      modifies this
      ensures Value() == DriverRegistered(old(Value()), driver, outcomes)
      ensures AllClean(outcomes) ==> Valid()
      ensures ok == (driver.checksBufSize && driver.minorOk)
    {
      if AllClean(outcomes) { RegisterDriverOk(Value(), driver, outcomes); }
      if !driver.checksBufSize || !driver.minorOk { return false; }
      drivers := drivers + [driver];
      log := log + [DriverIn(driver.id)];
      ProbeOnEveryPort(driver, outcomes);
      return true;
    }

    method ProbeOnEveryPort(driver: Driver, outcomes: seq<Outcome>)
      requires |outcomes| == |ports| && AllShaped(ports) && AllOutcomesOk(outcomes)
      modifies this
      ensures Value() == OnEveryPort(old(Value()), driver, outcomes, 0)
    {
      for b := 0 to |ports|
        invariant |ports| == |outcomes| && AllShaped(ports)
        invariant OnEveryPort(Value(), driver, outcomes, b) == OnEveryPort(old(Value()), driver, outcomes, 0)
      {
        TryAddDevice(b, driver, outcomes[b]);
      }
    }

    method RegisterNic(id: nat, x2: bool, outcomes: seq<Outcome>)
      requires Valid() && |outcomes| == |drivers| && AllOutcomesOk(outcomes) && NewNic(ports, id)
      modifies this
      ensures Value() == NicRegistered(old(Value()), id, x2, outcomes)
      ensures AllClean(outcomes) ==> Valid()
    {
      if AllClean(outcomes) { RegisterNicOk(Value(), id, x2, outcomes); }
      ports := ports + [NewPort(id, x2)];
      log := log + [NicIn(id)];
      ProbeEveryDriver(|ports| - 1, outcomes);
    }

    method ProbeEveryDriver(b: nat, outcomes: seq<Outcome>)
      requires b < |ports| && |outcomes| == |drivers| && AllShaped(ports) && AllOutcomesOk(outcomes)
      modifies this
      ensures Value() == EveryDriver(old(Value()), b, outcomes, 0)
    {
      for a := 0 to |drivers|
        invariant b < |ports| && |drivers| == |outcomes| && AllShaped(ports)
        invariant EveryDriver(Value(), b, outcomes, a) == EveryDriver(old(Value()), b, outcomes, 0)
      {
        TryAddDevice(b, drivers[a], outcomes[a]);
      }
    }

    method DelDevice(b: nat, i: nat)
      requires b < |ports| && i < |ports[b].devices| && AllShaped(ports)
      modifies this
      ensures Value() == Delete(old(Value()), b, i)
    {
      var port := ports[b];
      var h := port.devices[i];
      log := log + [Removed(h.driver.id, port.id)];
      var devices, counts, blocked := port.devices[..i] + port.devices[i + 1..], port.counts, port.blocked;
      for t := 0 to TYPES
        invariant |counts| == |blocked| == TYPES
        invariant forall u :: 0 <= u < TYPES ==> counts[u] == if u < t then port.counts[u] - h.blocks[u] else port.counts[u]
        invariant forall u :: 0 <= u < TYPES ==>
                    blocked[u] == if u < t && h.blocks[u] > 0 && counts[u] == 0 then false else port.blocked[u]
      {
        if h.blocks[t] != 0 {
          counts := counts[t := counts[t] - h.blocks[t]];
          if counts[t] == 0 { blocked := blocked[t := false]; }
        }
      }
      assert counts == Dropped(port, i).counts && blocked == Dropped(port, i).blocked;
      ports := ports[b := port.(devices := devices, counts := counts, blocked := blocked)];
    }

    method UnregisterDriver(a: nat)
      requires Valid() && a < |drivers|
      modifies this
      ensures Value() == DriverUnregistered(old(Value()), a) && Valid()
    {
      UnregisterDriverOk(Value(), a);
      var d := drivers[a].id;
      DetachEverywhere(d);
      drivers := drivers[..a] + drivers[a + 1..];
      log := log + [DriverOut(d)];
    }

    method DetachEverywhere(d: nat)
      requires AllShaped(ports)
      modifies this
      ensures Value() == DetachAll(old(Value()), d, 0)
    {
      for b := 0 to |ports|
        invariant |ports| == |old(ports)| && AllShaped(ports)
        invariant DetachAll(Value(), d, b) == DetachAll(old(Value()), d, 0)
      {
        var i := Client(ports[b].devices, d);
        if i < |ports[b].devices| { DelDevice(b, i); }
      }
    }

    method UnregisterNic(b: nat)
      requires Valid() && b < |ports|
      modifies this
      ensures Value() == NicUnregistered(old(Value()), b) && Valid()
    {
      UnregisterNicOk(Value(), b);
      ghost var start := Value();
      var id := ports[b].id;
      while ports[b].devices != []
        invariant b < |ports| && AllShaped(ports)
        invariant Cleared(Value(), b) == Cleared(start, b)
        decreases |ports[b].devices|
      {
        DelDevice(b, |ports[b].devices| - 1);
      }
      ports := ports[..b] + ports[b + 1..];
      log := log + [NicOut(id)];
    }

    // Returns whether the client now holds one block more.
    method FilterBlockKernel(b: nat, i: nat, t: nat, rc: int) returns (held: bool)
      requires Valid() && b < |ports| && i < |ports[b].devices| && t < TYPES
      modifies this
      ensures Value() == Apply(old(Value()), BlockKernel(b, i, t, rc)) && Valid()
      ensures ports[b].devices[i].blocks[t] == old(ports)[b].devices[i].blocks[t] + if held then 1 else 0
      ensures held || !ports[b].blocked[t]
    {
      OpKeeps(Value(), BlockKernel(b, i, t, rc));
      var port := ports[b];
      if port.counts[t] == 0 {
        if rc != 0 { return false; }
        port := port.(blocked := port.blocked[t := true]);
      }
      var h := port.devices[i];
      port := port.(devices := port.devices[i := h.(blocks := h.blocks[t := h.blocks[t] + 1])]);
      port := port.(counts := port.counts[t := port.counts[t] + 1]);
      ports := ports[b := port];
      return true;
    }

    method FilterUnblockKernel(b: nat, i: nat, t: nat)
      requires Valid() && b < |ports| && i < |ports[b].devices| && t < TYPES
      modifies this
      ensures Value() == Apply(old(Value()), UnblockKernel(b, i, t)) && Valid()
    {
      OpKeeps(Value(), UnblockKernel(b, i, t));
      var port := ports[b];
      var h := port.devices[i];
      if h.blocks[t] == 0 { return; }
      port := port.(devices := port.devices[i := h.(blocks := h.blocks[t := h.blocks[t] - 1])]);
      port := port.(counts := port.counts[t := port.counts[t] - 1]);
      if port.counts[t] == 0 { port := port.(blocked := port.blocked[t := false]); }
      ports := ports[b := port];
    }
  }
}
