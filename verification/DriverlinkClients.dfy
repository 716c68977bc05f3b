/**
 Who is a client where: the calls of drivers and adapters, folded into a map from driver
 and adapter to the blocks that the client holds there, are what the registry's lists say
 after every run.
 */
module DriverlinkClients {
  import opened Driverlink

  // ----- one probe -----

  /** A probe that is accepted on a supported adapter puts the client, with the blocks it
      took, on the adapter's list and its blocks on the adapter's counts; any other leaves
      the list alone, and one that never came about leaves everything. */
  lemma TryAddAdds(port: Port, driver: Driver, serial: nat, outcome: Outcome)
    requires Shaped(port) && OutcomeOk(outcome)
    ensures var after := TryAdd(port, driver, serial, outcome);
      if port.x2 && !driver.medford2 then after == port
      else match outcome
        case NoMemory => after == port
        case Refused(left) => after.devices == port.devices && Raised(port, after, left)
        case Accepted(held) =>
          multiset(after.devices) == multiset(port.devices) + multiset{Handle(serial, driver, held)} && Raised(port, after, held)
  {
    if outcome.Accepted? {
      var k := Place(port.devices, driver.priority);
      assert port.devices == port.devices[..k] + port.devices[k..];
    }
  }

  // The counts of the adapter are up by these blocks.
  predicate Raised(port: Port, after: Port, blocks: seq<nat>)
    requires Shaped(port) && Shaped(after) && |blocks| == TYPES
  {
    forall t :: 0 <= t < TYPES ==>
      after.counts[t] == port.counts[t] + blocks[t] && (after.blocked[t] <==> port.blocked[t] || blocks[t] > 0)
  }

  // ----- the clients of an adapter and of all -----

  // Blocks held, by driver and adapter.
  type Clients = map<(nat, nat), seq<nat>>

  predicate Here(port: Port, d: nat) {
    exists i :: 0 <= i < |port.devices| && port.devices[i].driver.id == d
  }

  predicate Lists(port: Port, i: nat, clients: Clients)
    requires i < |port.devices|
  {
    var key := (port.devices[i].driver.id, port.id);
    key in clients && clients[key] == port.devices[i].blocks
  }

  // The adapter's list is its part of the map.
  ghost predicate PortKeeps(port: Port, clients: Clients) {
    && (forall i :: 0 <= i < |port.devices| ==> Lists(port, i, clients))
    && (forall d: nat :: (d, port.id) in clients ==> Here(port, d))
  }

  predicate IsNic(ports: seq<Port>, n: nat) {
    exists b :: 0 <= b < |ports| && ports[b].id == n
  }

  ghost predicate Kept(ports: seq<Port>, clients: Clients) {
    && (forall b :: 0 <= b < |ports| ==> PortKeeps(ports[b], clients))
    && (forall key :: key in clients ==> IsNic(ports, key.1))
  }

  ghost predicate SameElsewhere(clients: Clients, more: Clients, n: nat) {
    && (forall key :: key in clients && key.1 != n ==> key in more && more[key] == clients[key])
    && (forall key :: key in more && key.1 != n ==> key in clients)
  }

  lemma PortStays(port: Port, clients: Clients, more: Clients, n: nat)
    requires PortKeeps(port, clients) && SameElsewhere(clients, more, n) && port.id != n
    ensures PortKeeps(port, more)
  {
    forall i | 0 <= i < |port.devices| ensures Lists(port, i, more) {
      assert Lists(port, i, clients);
    }
  }

  lemma ReplacePort(ports: seq<Port>, b: nat, after: Port, clients: Clients, more: Clients)
    requires DistinctPorts(ports) && Kept(ports, clients) && b < |ports| && after.id == ports[b].id
    requires PortKeeps(after, more) && SameElsewhere(clients, more, after.id)
    ensures Kept(ports[b := after], more)
  {
    var changed := ports[b := after];
    forall c | 0 <= c < |changed| ensures PortKeeps(changed[c], more) {
      if c != b {
        assert ports[c].id != after.id by {
          if c < b { assert ports[c].id != ports[b].id; } else { assert ports[b].id != ports[c].id; }
        }
        PortStays(ports[c], clients, more, after.id);
      }
    }
    forall key | key in more ensures IsNic(changed, key.1) {
      if key.1 == after.id {
        assert changed[b].id == key.1;
      } else {
        assert IsNic(ports, key.1);
        var c :| 0 <= c < |ports| && ports[c].id == key.1;
        assert changed[c].id == key.1;
      }
    }
  }

  // ----- a client comes -----

  predicate Fits(x2: bool, driver: Driver) {
    x2 ==> driver.medford2
  }

  // A probe, in the map.
  function Probed(clients: Clients, n: nat, x2: bool, driver: Driver, outcome: Outcome): Clients {
    if Fits(x2, driver) && outcome.Accepted? then clients[(driver.id, n) := outcome.held] else clients
  }

  lemma TryAddKeeps(port: Port, driver: Driver, serial: nat, outcome: Outcome, clients: Clients)
    requires Shaped(port) && OutcomeOk(outcome) && PortKeeps(port, clients) && !Here(port, driver.id)
    ensures PortKeeps(TryAdd(port, driver, serial, outcome), Probed(clients, port.id, port.x2, driver, outcome))
  {
    var after, more := TryAdd(port, driver, serial, outcome), Probed(clients, port.id, port.x2, driver, outcome);
    TryAddAdds(port, driver, serial, outcome);
    if Fits(port.x2, driver) && outcome.Accepted? {
      var h := Handle(serial, driver, outcome.held);
      GainsClient(port, after, h, clients);
    }
    if after.devices == port.devices && more == clients {
      forall i | 0 <= i < |after.devices| ensures Lists(after, i, more) {
        assert Lists(port, i, clients);
      }
      forall d: nat | (d, after.id) in more ensures Here(after, d) {
        assert Here(port, d);
      }
    }
  }

  lemma GainsClient(port: Port, after: Port, h: Handle, clients: Clients)
    requires PortKeeps(port, clients) && !Here(port, h.driver.id) && after.id == port.id
    requires multiset(after.devices) == multiset(port.devices) + multiset{h}
    ensures PortKeeps(after, clients[(h.driver.id, port.id) := h.blocks])
  {
    var more := clients[(h.driver.id, port.id) := h.blocks];
    forall i | 0 <= i < |after.devices| ensures Lists(after, i, more) {
      assert after.devices[i] in multiset(after.devices);
      if after.devices[i] != h {
        assert after.devices[i] in port.devices;
        var j :| 0 <= j < |port.devices| && port.devices[j] == after.devices[i];
        assert Lists(port, j, clients);
      }
    }
    forall d: nat | (d, after.id) in more ensures Here(after, d) {
      var g := h;
      if d != h.driver.id {
        assert Here(port, d);
        var j :| 0 <= j < |port.devices| && port.devices[j].driver.id == d;
        g := port.devices[j];
        assert g in multiset(port.devices);
      }
      assert g in multiset(after.devices);
      var i :| 0 <= i < |after.devices| && after.devices[i] == g;
    }
  }

  lemma AttemptKeeps(s: State, b: nat, driver: Driver, outcome: Outcome, clients: Clients)
    requires b < |s.ports| && AllShaped(s.ports) && OutcomeOk(outcome) && DistinctPorts(s.ports)
    requires Kept(s.ports, clients) && !Here(s.ports[b], driver.id)
    ensures Kept(Attempt(s, b, driver, outcome).ports, Probed(clients, s.ports[b].id, s.ports[b].x2, driver, outcome))
  {
    var port := s.ports[b];
    TryAddKeeps(port, driver, s.serial, outcome, clients);
    ReplacePort(s.ports, b, TryAdd(port, driver, s.serial, outcome), clients, Probed(clients, port.id, port.x2, driver, outcome));
  }

  // ----- registrations -----

  datatype Nic = Nic(id: nat, x2: bool)

  predicate NicsAre(ports: seq<Port>, nics: seq<Nic>) {
    |ports| == |nics| && forall b :: 0 <= b < |ports| ==> nics[b] == Nic(ports[b].id, ports[b].x2)
  }

  // The driver is probed on every adapter from b on.
  function OnNics(clients: Clients, nics: seq<Nic>, driver: Driver, outcomes: seq<Outcome>, b: nat): Clients
    requires |nics| == |outcomes|
    decreases |nics| - b
  {
    if b >= |nics| then clients
    else OnNics(Probed(clients, nics[b].id, nics[b].x2, driver, outcomes[b]), nics, driver, outcomes, b + 1)
  }

  // The registration of a driver has reached adapter b.
  ghost predicate AtPort(s: State, nics: seq<Nic>, d: nat, b: nat, clients: Clients) {
    && b <= |s.ports| && AllShaped(s.ports) && DistinctPorts(s.ports) && Kept(s.ports, clients) && NicsAre(s.ports, nics)
    && forall c :: b <= c < |s.ports| ==> !Here(s.ports[c], d)
  }

  lemma AtNextPort(s: State, nics: seq<Nic>, driver: Driver, outcome: Outcome, b: nat, clients: Clients)
    requires AtPort(s, nics, driver.id, b, clients) && b < |s.ports| && OutcomeOk(outcome)
    ensures AtPort(Attempt(s, b, driver, outcome), nics, driver.id, b + 1, Probed(clients, nics[b].id, nics[b].x2, driver, outcome))
  {
    AttemptKeeps(s, b, driver, outcome, clients);
  }

  lemma {:induction false} OnEveryPortKeeps(s: State, nics: seq<Nic>, driver: Driver, outcomes: seq<Outcome>, b: nat, clients: Clients)
    requires AtPort(s, nics, driver.id, b, clients) && |s.ports| == |outcomes| && AllOutcomesOk(outcomes)
    ensures Kept(OnEveryPort(s, driver, outcomes, b).ports, OnNics(clients, nics, driver, outcomes, b))
    ensures NicsAre(OnEveryPort(s, driver, outcomes, b).ports, nics)
    decreases |s.ports| - b
  {
    if b < |s.ports| {
      AtNextPort(s, nics, driver, outcomes[b], b, clients);
      OnEveryPortKeeps(Attempt(s, b, driver, outcomes[b]), nics, driver, outcomes, b + 1,
                       Probed(clients, nics[b].id, nics[b].x2, driver, outcomes[b]));
    }
  }

  // Every driver from a on is probed on the adapter.
  function OfDrivers(clients: Clients, nic: Nic, drivers: seq<Driver>, outcomes: seq<Outcome>, a: nat): Clients
    requires |drivers| == |outcomes|
    decreases |drivers| - a
  {
    if a >= |drivers| then clients
    else OfDrivers(Probed(clients, nic.id, nic.x2, drivers[a], outcomes[a]), nic, drivers, outcomes, a + 1)
  }

  lemma {:induction false} EveryDriverKeeps(s: State, b: nat, outcomes: seq<Outcome>, a: nat, clients: Clients)
    requires b < |s.ports| && a <= |s.drivers| == |outcomes| && AllShaped(s.ports) && AllOutcomesOk(outcomes)
    requires DistinctPorts(s.ports) && DistinctDrivers(s.drivers) && Kept(s.ports, clients)
    requires forall c :: a <= c < |s.drivers| ==> !Here(s.ports[b], s.drivers[c].id)
    ensures Kept(EveryDriver(s, b, outcomes, a).ports, OfDrivers(clients, Nic(s.ports[b].id, s.ports[b].x2), s.drivers, outcomes, a))
    ensures forall nics :: NicsAre(s.ports, nics) ==> NicsAre(EveryDriver(s, b, outcomes, a).ports, nics)
    decreases |s.drivers| - a
  {
    if a < |s.drivers| {
      var next, port := Attempt(s, b, s.drivers[a], outcomes[a]), s.ports[b];
      AttemptKeeps(s, b, s.drivers[a], outcomes[a], clients);
      forall c | a + 1 <= c < |s.drivers| ensures !Here(next.ports[b], s.drivers[c].id) {
        StillNotHere(port, s.drivers[a], s.serial, outcomes[a], s.drivers[c].id);
      }
      EveryDriverKeeps(next, b, outcomes, a + 1, Probed(clients, port.id, port.x2, s.drivers[a], outcomes[a]));
    }
  }

  lemma StillNotHere(port: Port, driver: Driver, serial: nat, outcome: Outcome, d: nat)
    requires Shaped(port) && OutcomeOk(outcome) && !Here(port, d) && driver.id != d
    ensures !Here(TryAdd(port, driver, serial, outcome), d)
  {
    var after := TryAdd(port, driver, serial, outcome);
    TryAddAdds(port, driver, serial, outcome);
    forall i | 0 <= i < |after.devices| ensures after.devices[i].driver.id != d {
      assert after.devices[i] in multiset(after.devices);
      if after.devices[i] in multiset(port.devices) {
        var j :| 0 <= j < |port.devices| && port.devices[j] == after.devices[i];
      }
    }
  }

  // ----- a client goes -----

  lemma DroppedKeeps(port: Port, i: nat, clients: Clients)
    requires Shaped(port) && i < |port.devices| && PortKeeps(port, clients)
    requires forall j, k :: 0 <= j < k < |port.devices| ==> port.devices[j].driver.id != port.devices[k].driver.id
    ensures PortKeeps(Dropped(port, i), clients - {(port.devices[i].driver.id, port.id)})
  {
    var after, less := Dropped(port, i), clients - {(port.devices[i].driver.id, port.id)};
    forall j | 0 <= j < |after.devices| ensures Lists(after, j, less) {
      var k := if j < i then j else j + 1;
      assert after.devices[j] == port.devices[k] && Lists(port, k, clients);
    }
    forall d: nat | (d, port.id) in less ensures Here(after, d) {
      assert Here(port, d);
      var k :| 0 <= k < |port.devices| && port.devices[k].driver.id == d;
      assert after.devices[if k < i then k else k - 1] == port.devices[k];
    }
  }

  lemma DeleteKeeps(s: State, b: nat, i: nat, clients: Clients)
    requires RegistryOk(s) && b < |s.ports| && i < |s.ports[b].devices| && Kept(s.ports, clients)
    ensures Kept(Delete(s, b, i).ports, clients - {(s.ports[b].devices[i].driver.id, s.ports[b].id)})
  {
    DroppedKeeps(s.ports[b], i, clients);
    ReplacePort(s.ports, b, Dropped(s.ports[b], i), clients, clients - {(s.ports[b].devices[i].driver.id, s.ports[b].id)});
  }

  // Some clients are gone, but only those of the driver, or of the adapter.
  ghost predicate LessDriver(clients: Clients, less: Clients, d: nat) {
    && (forall key :: key in less ==> key in clients && less[key] == clients[key])
    && (forall key :: key in clients && key.0 != d ==> key in less)
  }

  ghost predicate LessNic(clients: Clients, less: Clients, n: nat) {
    && (forall key :: key in less ==> key in clients && less[key] == clients[key])
    && (forall key :: key in clients && key.1 != n ==> key in less)
  }

  predicate SameNics(before: seq<Port>, after: seq<Port>) {
    |after| == |before| && forall c :: 0 <= c < |before| ==> after[c].id == before[c].id && after[c].x2 == before[c].x2
  }

  lemma DetachKeeps(s: State, d: nat, b: nat, clients: Clients) returns (less: Clients)
    requires RegistryOk(s) && b < |s.ports| && Kept(s.ports, clients)
    ensures Kept(Detach(s, d, b).ports, less) && LessDriver(clients, less, d) && SameNics(s.ports, Detach(s, d, b).ports)
  {
    less := clients;
    var i := Client(s.ports[b].devices, d);
    if i < |s.ports[b].devices| {
      DeleteKeeps(s, b, i, clients);
      less := clients - {(d, s.ports[b].id)};
    }
  }

  lemma LessInTurn(clients: Clients, less: Clients, least: Clients, d: nat)
    requires LessDriver(clients, less, d) && LessDriver(less, least, d)
    ensures LessDriver(clients, least, d)
  {
  }

  lemma {:induction false} DetachAllKeeps(s: State, d: nat, b: nat, clients: Clients) returns (less: Clients)
    requires RegistryOk(s) && b <= |s.ports| && Kept(s.ports, clients)
    ensures Kept(DetachAll(s, d, b).ports, less) && LessDriver(clients, less, d) && SameNics(s.ports, DetachAll(s, d, b).ports)
    decreases |s.ports| - b
  {
    if b == |s.ports| {
      less := clients;
    } else {
      var first := DetachKeeps(s, d, b, clients);
      DetachOk(s, d, b);
      less := DetachAllKeeps(Detach(s, d, b), d, b + 1, first);
      LessInTurn(clients, first, less, d);
    }
  }

  // The map without the clients of a driver, or of an adapter.
  function WithoutDriver(clients: Clients, d: nat): Clients {
    map key | key in clients && key.0 != d :: clients[key]
  }

  function WithoutNic(clients: Clients, n: nat): Clients {
    map key | key in clients && key.1 != n :: clients[key]
  }

  lemma NoneLeft(ports: seq<Port>, less: Clients, d: nat)
    requires Kept(ports, less) && forall b :: 0 <= b < |ports| ==> Absent(ports[b], d)
    ensures forall key :: key in less ==> key.0 != d
  {
    forall key | key in less ensures key.0 != d {
      assert IsNic(ports, key.1);
      var b :| 0 <= b < |ports| && ports[b].id == key.1;
      assert PortKeeps(ports[b], less) && Absent(ports[b], d);
      assert (key.0, ports[b].id) in less;
      assert Here(ports[b], key.0);
    }
  }

  lemma UnregisterDriverKeeps(s: State, a: nat, clients: Clients)
    requires RegistryOk(s) && a < |s.drivers| && Kept(s.ports, clients)
    ensures Kept(DriverUnregistered(s, a).ports, WithoutDriver(clients, s.drivers[a].id))
    ensures SameNics(s.ports, DriverUnregistered(s, a).ports)
  {
    var d, after := s.drivers[a].id, DriverUnregistered(s, a).ports;
    var less := DetachAllKeeps(s, d, 0, clients);
    assert after == DetachAll(s, d, 0).ports;
    assert forall key :: key in less ==> key.0 != d by {
      UnregisterDriverOk(s, a);
      NoneLeft(after, less, d);
    }
    LessIs(clients, less, d);
  }

  lemma LessIs(clients: Clients, less: Clients, d: nat)
    requires LessDriver(clients, less, d) && forall key :: key in less ==> key.0 != d
    ensures less == WithoutDriver(clients, d)
  {
  }

  lemma LessNicInTurn(clients: Clients, d: nat, n: nat, least: Clients)
    requires LessNic(clients - {(d, n)}, least, n)
    ensures LessNic(clients, least, n)
  {
  }

  lemma {:induction false} ClearedKeeps(s: State, b: nat, clients: Clients) returns (less: Clients)
    requires RegistryOk(s) && b < |s.ports| && Kept(s.ports, clients)
    ensures Kept(Cleared(s, b).ports, less) && LessNic(clients, less, s.ports[b].id) && SameNics(s.ports, Cleared(s, b).ports)
    ensures Cleared(s, b).ports[b].devices == []
    decreases |s.ports[b].devices|
  {
    less := clients;
    if s.ports[b].devices != [] {
      var i := |s.ports[b].devices| - 1;
      var d, n, next := s.ports[b].devices[i].driver.id, s.ports[b].id, Delete(s, b, i);
      DeleteKeeps(s, b, i, clients);
      DeleteOk(s, b, i);
      assert SameNics(s.ports, next.ports);
      less := ClearedKeeps(next, b, clients - {(d, n)});
      LessNicInTurn(clients, d, n, less);
      assert Cleared(s, b) == Cleared(next, b);
    }
  }

  lemma PortGone(ports: seq<Port>, b: nat, clients: Clients)
    requires Kept(ports, clients) && b < |ports| && ports[b].devices == []
    ensures Kept(ports[..b] + ports[b + 1..], clients) && forall key :: key in clients ==> key.1 != ports[b].id
  {
    var rest := ports[..b] + ports[b + 1..];
    assert forall c :: 0 <= c < |rest| ==> rest[c] == ports[if c < b then c else c + 1];
    forall key | key in clients ensures key.1 != ports[b].id && IsNic(rest, key.1) {
      assert PortKeeps(ports[b], clients);
      assert IsNic(ports, key.1);
      var c :| 0 <= c < |ports| && ports[c].id == key.1;
      assert rest[if c < b then c else c - 1] == ports[c];
    }
  }

  lemma LessNicIs(clients: Clients, less: Clients, n: nat)
    requires LessNic(clients, less, n) && forall key :: key in less ==> key.1 != n
    ensures less == WithoutNic(clients, n)
  {
  }

  lemma SameWithout(before: seq<Port>, after: seq<Port>, b: nat)
    requires SameNics(before, after) && b < |before|
    ensures SameNics(before[..b] + before[b + 1..], after[..b] + after[b + 1..])
  {
  }

  lemma UnregisterNicKeeps(s: State, b: nat, clients: Clients)
    requires RegistryOk(s) && b < |s.ports| && Kept(s.ports, clients)
    ensures Kept(NicUnregistered(s, b).ports, WithoutNic(clients, s.ports[b].id))
    ensures SameNics(s.ports[..b] + s.ports[b + 1..], NicUnregistered(s, b).ports)
  {
    var t := Cleared(s, b);
    var less := ClearedKeeps(s, b, clients);
    PortGone(t.ports, b, less);
    LessNicIs(clients, less, s.ports[b].id);
    SameWithout(s.ports, t.ports, b);
  }

  // ----- blocks -----

  // A client of the adapter holds other blocks.
  lemma ClientChanges(ports: seq<Port>, b: nat, i: nat, after: Port, blocks: seq<nat>, clients: Clients)
    requires DistinctPorts(ports) && Kept(ports, clients) && b < |ports| && i < |ports[b].devices| && after.id == ports[b].id
    requires after.devices == ports[b].devices[i := ports[b].devices[i].(blocks := blocks)]
    requires forall j, k :: 0 <= j < k < |ports[b].devices| ==> ports[b].devices[j].driver.id != ports[b].devices[k].driver.id
    ensures Kept(ports[b := after], clients[(ports[b].devices[i].driver.id, ports[b].id) := blocks])
  {
    var port, more := ports[b], clients[(ports[b].devices[i].driver.id, ports[b].id) := blocks];
    forall j | 0 <= j < |after.devices| ensures Lists(after, j, more) {
      assert Lists(port, j, clients);
    }
    forall d: nat | (d, after.id) in more ensures Here(after, d) {
      assert (d, port.id) in clients by { assert Lists(port, i, clients); }
      assert Here(port, d);
      var j :| 0 <= j < |port.devices| && port.devices[j].driver.id == d;
      assert after.devices[j].driver.id == d;
    }
    ReplacePort(ports, b, after, clients, more);
  }

  // Nobody blocks this type on the adapter.
  predicate Quiet(clients: Clients, n: nat, t: nat) {
    forall key :: key in clients && key.1 == n ==> t >= |clients[key]| || clients[key][t] == 0
  }

  lemma {:induction false} SumIsZeroIff(devices: seq<Handle>, t: nat)
    requires t < TYPES && Counted(devices)
    ensures BlockSum(devices, t) == 0 <==> forall i :: 0 <= i < |devices| ==> devices[i].blocks[t] == 0
    decreases |devices|
  {
    if devices != [] {
      SumIsZeroIff(devices[1..], t);
      assert forall i :: 1 <= i < |devices| ==> devices[i] == devices[1..][i - 1];
      assert forall i :: 0 <= i < |devices| - 1 ==> devices[1..][i] == devices[i + 1];
    }
  }

  lemma QuietIff(port: Port, clients: Clients, t: nat)
    requires CountsOk(port) && PortKeeps(port, clients) && t < TYPES
    ensures port.counts[t] == 0 <==> Quiet(clients, port.id, t)
  {
    SumIsZeroIff(port.devices, t);
    forall i | 0 <= i < |port.devices| && Quiet(clients, port.id, t) ensures port.devices[i].blocks[t] == 0 {
      assert Lists(port, i, clients);
    }
    if port.counts[t] == 0 {
      forall key | key in clients && key.1 == port.id ensures t < |clients[key]| ==> clients[key][t] == 0 {
        assert (key.0, port.id) in clients;
        assert Here(port, key.0);
        var i :| 0 <= i < |port.devices| && port.devices[i].driver.id == key.0;
        assert Lists(port, i, clients);
      }
    }
  }

  // ----- the fold -----

  datatype Books = Books(drivers: seq<Driver>, nics: seq<Nic>, clients: Clients)

  ghost predicate InBooks(s: State, books: Books) {
    s.drivers == books.drivers && NicsAre(s.ports, books.nics) && Kept(s.ports, books.clients)
  }

  // What a call makes of the books; `d` is the driver whose client a block call comes from.
  function Booked(books: Books, op: Op, d: nat): Books {
    match op
    case AddDriver(driver, outcomes) =>
      if !driver.checksBufSize || !driver.minorOk || |outcomes| != |books.nics| then books
      else Books(books.drivers + [driver], books.nics, OnNics(books.clients, books.nics, driver, outcomes, 0))
    case RemoveDriver(a) =>
      if a >= |books.drivers| then books
      else Books(books.drivers[..a] + books.drivers[a + 1..], books.nics, WithoutDriver(books.clients, books.drivers[a].id))
    case AddNic(id, x2, outcomes) =>
      if |outcomes| != |books.drivers| then books
      else Books(books.drivers, books.nics + [Nic(id, x2)], OfDrivers(books.clients, Nic(id, x2), books.drivers, outcomes, 0))
    case RemoveNic(b) =>
      if b >= |books.nics| then books
      else Books(books.drivers, books.nics[..b] + books.nics[b + 1..], WithoutNic(books.clients, books.nics[b].id))
    case BlockKernel(b, _, t, rc) =>
      if b >= |books.nics| || (Quiet(books.clients, books.nics[b].id, t) && rc != 0) then books
      else books.(clients := Moved(books.clients, (d, books.nics[b].id), t, 1))
    case UnblockKernel(b, _, t) =>
      if b >= |books.nics| then books else books.(clients := Moved(books.clients, (d, books.nics[b].id), t, -1))
  }

  // One block more or less, but never less than none.
  function Moved(clients: Clients, key: (nat, nat), t: nat, more: int): Clients {
    if key !in clients || t >= |clients[key]| || clients[key][t] + more < 0 then clients
    else clients[key := Changed(clients[key], t, clients[key][t] + more)]
  }

  function Changed(held: seq<nat>, t: nat, count: nat): seq<nat>
    requires t < |held|
  {
    held[..t] + [count] + held[t + 1..]
  }

  // The driver whose client makes a block call.
  function Caller(s: State, op: Op): nat {
    match op
    case BlockKernel(b, i, _, _) => if b < |s.ports| && i < |s.ports[b].devices| then s.ports[b].devices[i].driver.id else 0
    case UnblockKernel(b, i, _) => if b < |s.ports| && i < |s.ports[b].devices| then s.ports[b].devices[i].driver.id else 0
    case _ => 0
  }

  // One block more for the client, unless the adapter is asked and refuses.
  lemma BlockIs(port: Port, i: nat, t: nat, rc: int)
    requires Shaped(port) && i < |port.devices| && t < TYPES
    ensures var after, h := Block(port, i, t, rc), port.devices[i];
      if port.counts[t] == 0 && rc != 0 then after == port
      else after.devices == port.devices[i := h.(blocks := Changed(h.blocks, t, h.blocks[t] + 1))]
  {
    var h := port.devices[i];
    assert h.blocks[t := h.blocks[t] + 1] == Changed(h.blocks, t, h.blocks[t] + 1);
  }

  // One block less for the client, unless it holds none.
  lemma UnblockIs(port: Port, i: nat, t: nat)
    requires Shaped(port) && i < |port.devices| && t < TYPES
    ensures var after, h := Unblock(port, i, t), port.devices[i];
      if h.blocks[t] == 0 then after == port
      else after.devices == port.devices[i := h.(blocks := Changed(h.blocks, t, h.blocks[t] - 1))]
  {
    var h := port.devices[i];
    if h.blocks[t] > 0 { assert h.blocks[t := h.blocks[t] - 1] == Changed(h.blocks, t, h.blocks[t] - 1); }
  }

  lemma PortBooked(s: State, b: nat, i: nat, after: Port, blocks: seq<nat>, books: Books)
    requires RegistryOk(s) && InBooks(s, books) && b < |s.ports| && i < |s.ports[b].devices|
    requires after.id == s.ports[b].id && after.x2 == s.ports[b].x2
    requires after.devices == s.ports[b].devices[i := s.ports[b].devices[i].(blocks := blocks)]
    ensures InBooks(s.(ports := s.ports[b := after]),
                    books.(clients := books.clients[(s.ports[b].devices[i].driver.id, s.ports[b].id) := blocks]))
  {
    assert PortOk(s.ports[b], s.drivers, s.serial);
    ClientChanges(s.ports, b, i, after, blocks, books.clients);
  }

  // The same calls in the books.
  lemma BlockInBooks(books: Books, b: nat, i: nat, t: nat, rc: int, d: nat, held: seq<nat>)
    requires b < |books.nics| && t < |held| && (d, books.nics[b].id) in books.clients && books.clients[(d, books.nics[b].id)] == held
    ensures Booked(books, BlockKernel(b, i, t, rc), d) ==
      if Quiet(books.clients, books.nics[b].id, t) && rc != 0 then books
      else books.(clients := books.clients[(d, books.nics[b].id) := Changed(held, t, held[t] + 1)])
  {
  }

  lemma UnblockInBooks(books: Books, b: nat, i: nat, t: nat, d: nat, held: seq<nat>)
    requires b < |books.nics| && t < |held| && (d, books.nics[b].id) in books.clients && books.clients[(d, books.nics[b].id)] == held
    ensures Booked(books, UnblockKernel(b, i, t), d) ==
      if held[t] == 0 then books
      else books.(clients := books.clients[(d, books.nics[b].id) := Changed(held, t, held[t] - 1)])
  {
  }

  // What the books say of one client.
  predicate BooksSay(books: Books, b: nat, d: nat, held: seq<nat>, t: nat, quiet: bool) {
    && b < |books.nics| && t < |held|
    && (d, books.nics[b].id) in books.clients && books.clients[(d, books.nics[b].id)] == held
    && quiet == Quiet(books.clients, books.nics[b].id, t)
  }

  lemma ClientInBooks(s: State, b: nat, i: nat, t: nat, books: Books)
    requires RegistryOk(s) && InBooks(s, books) && b < |s.ports| && i < |s.ports[b].devices| && t < TYPES && Shaped(s.ports[b])
    ensures BooksSay(books, b, s.ports[b].devices[i].driver.id, s.ports[b].devices[i].blocks, t, s.ports[b].counts[t] == 0)
  {
    assert PortOk(s.ports[b], s.drivers, s.serial) && PortKeeps(s.ports[b], books.clients);
    assert Lists(s.ports[b], i, books.clients);
    QuietIff(s.ports[b], books.clients, t);
  }

  // The same call on the list and in the books.
  lemma BlockAlike(port: Port, b: nat, i: nat, t: nat, rc: int, books: Books)
    requires Shaped(port) && i < |port.devices| && t < TYPES
    requires BooksSay(books, b, port.devices[i].driver.id, port.devices[i].blocks, t, port.counts[t] == 0)
    ensures var h := port.devices[i];
      Alike(port, Block(port, i, t, rc), i, port.counts[t] == 0 && rc != 0, Changed(h.blocks, t, h.blocks[t] + 1),
            b, books, Booked(books, BlockKernel(b, i, t, rc), h.driver.id))
  {
    var h := port.devices[i];
    BlockIs(port, i, t, rc);
    BlockInBooks(books, b, i, t, rc, h.driver.id, h.blocks);
  }

  lemma UnblockAlike(port: Port, b: nat, i: nat, t: nat, books: Books)
    requires Shaped(port) && i < |port.devices| && t < TYPES
    requires BooksSay(books, b, port.devices[i].driver.id, port.devices[i].blocks, t, port.counts[t] == 0)
    ensures var h := port.devices[i];
      Alike(port, Unblock(port, i, t), i, h.blocks[t] == 0, Changed(h.blocks, t, if h.blocks[t] == 0 then 0 else h.blocks[t] - 1),
            b, books, Booked(books, UnblockKernel(b, i, t), h.driver.id))
  {
    var h := port.devices[i];
    UnblockIs(port, i, t);
    UnblockInBooks(books, b, i, t, h.driver.id, h.blocks);
  }

  // A client's blocks change, or nothing does, on the list and in the books alike.
  predicate Alike(port: Port, after: Port, i: nat, same: bool, blocks: seq<nat>, b: nat, books: Books, next: Books)
    requires i < |port.devices|
  {
    && after.id == port.id && after.x2 == port.x2 && b < |books.nics|
    && if same then after == port && next == books
       else
         && after.devices == port.devices[i := port.devices[i].(blocks := blocks)]
         && next == books.(clients := books.clients[(port.devices[i].driver.id, books.nics[b].id) := blocks])
  }

  lemma Rebooked(s: State, b: nat, i: nat, same: bool, after: Port, blocks: seq<nat>, books: Books, next: Books)
    requires RegistryOk(s) && InBooks(s, books) && b < |s.ports| && i < |s.ports[b].devices|
    requires Alike(s.ports[b], after, i, same, blocks, b, books, next)
    ensures InBooks(s.(ports := s.ports[b := after]), next)
  {
    if same {
      assert s.ports[b := after] == s.ports;
    } else {
      PortBooked(s, b, i, after, blocks, books);
    }
  }

  lemma BlockBooked(s: State, b: nat, i: nat, t: nat, rc: int, books: Books)
    requires RegistryOk(s) && InBooks(s, books) && b < |s.ports| && i < |s.ports[b].devices| && t < TYPES && Shaped(s.ports[b])
    ensures InBooks(s.(ports := s.ports[b := Block(s.ports[b], i, t, rc)]),
                    Booked(books, BlockKernel(b, i, t, rc), s.ports[b].devices[i].driver.id))
  {
    var port, h := s.ports[b], s.ports[b].devices[i];
    ClientInBooks(s, b, i, t, books);
    BlockAlike(port, b, i, t, rc, books);
    Rebooked(s, b, i, port.counts[t] == 0 && rc != 0, Block(port, i, t, rc), Changed(h.blocks, t, h.blocks[t] + 1), books,
             Booked(books, BlockKernel(b, i, t, rc), h.driver.id));
  }

  lemma UnblockBooked(s: State, b: nat, i: nat, t: nat, books: Books)
    requires RegistryOk(s) && InBooks(s, books) && b < |s.ports| && i < |s.ports[b].devices| && t < TYPES && Shaped(s.ports[b])
    ensures InBooks(s.(ports := s.ports[b := Unblock(s.ports[b], i, t)]),
                    Booked(books, UnblockKernel(b, i, t), s.ports[b].devices[i].driver.id))
  {
    var port, h := s.ports[b], s.ports[b].devices[i];
    ClientInBooks(s, b, i, t, books);
    UnblockAlike(port, b, i, t, books);
    Rebooked(s, b, i, h.blocks[t] == 0, Unblock(port, i, t), Changed(h.blocks, t, if h.blocks[t] == 0 then 0 else h.blocks[t] - 1),
             books, Booked(books, UnblockKernel(b, i, t), h.driver.id));
  }

  lemma AddDriverBooked(s: State, driver: Driver, outcomes: seq<Outcome>, books: Books)
    requires RegistryOk(s) && InBooks(s, books) && NewDriver(s.drivers, driver) && |outcomes| == |s.ports| && AllOutcomesOk(outcomes)
    ensures InBooks(DriverRegistered(s, driver, outcomes), Booked(books, AddDriver(driver, outcomes), 0))
  {
    if driver.checksBufSize && driver.minorOk {
      forall c | 0 <= c < |s.ports| ensures !Here(s.ports[c], driver.id) {
        assert PortOk(s.ports[c], s.drivers, s.serial);
      }
      var t := s.(drivers := s.drivers + [driver], log := s.log + [DriverIn(driver.id)]);
      OnEveryPortKeeps(t, books.nics, driver, outcomes, 0, books.clients);
    }
  }

  lemma AddNicBooked(s: State, id: nat, x2: bool, outcomes: seq<Outcome>, books: Books)
    requires RegistryOk(s) && InBooks(s, books) && NewNic(s.ports, id) && |outcomes| == |s.drivers| && AllOutcomesOk(outcomes)
    ensures InBooks(NicRegistered(s, id, x2, outcomes), Booked(books, AddNic(id, x2, outcomes), 0))
  {
    var port := NewPort(id, x2);
    var t := s.(ports := s.ports + [port], log := s.log + [NicIn(id)]);
    NewPortKept(s.ports, port, books.clients);
    assert NicsAre(t.ports, books.nics + [Nic(id, x2)]);
    EveryDriverKeeps(t, |s.ports|, outcomes, 0, books.clients);
  }

  lemma NewPortKept(ports: seq<Port>, port: Port, clients: Clients)
    requires Kept(ports, clients) && NewNic(ports, port.id) && port.devices == []
    ensures Kept(ports + [port], clients)
  {
    var after := ports + [port];
    forall key | key in clients ensures IsNic(after, key.1) && key.1 != port.id {
      assert IsNic(ports, key.1);
      var b :| 0 <= b < |ports| && ports[b].id == key.1;
      assert after[b].id == key.1;
    }
    forall b | 0 <= b < |after| ensures PortKeeps(after[b], clients) {
      if b < |ports| { assert PortKeeps(ports[b], clients); }
    }
  }

  lemma RemoveDriverBooked(s: State, a: nat, books: Books)
    requires RegistryOk(s) && InBooks(s, books) && a < |s.drivers|
    ensures InBooks(DriverUnregistered(s, a), Booked(books, RemoveDriver(a), 0))
  {
    UnregisterDriverKeeps(s, a, books.clients);
  }

  lemma RemoveNicBooked(s: State, b: nat, books: Books)
    requires RegistryOk(s) && InBooks(s, books) && b < |s.ports|
    ensures InBooks(NicUnregistered(s, b), Booked(books, RemoveNic(b), 0))
  {
    UnregisterNicKeeps(s, b, books.clients);
    var nics, ports := books.nics[..b] + books.nics[b + 1..], s.ports[..b] + s.ports[b + 1..];
    forall c | 0 <= c < |nics| ensures nics[c] == Nic(ports[c].id, ports[c].x2) {
      assert nics[c] == books.nics[if c < b then c else c + 1] && ports[c] == s.ports[if c < b then c else c + 1];
    }
  }

  lemma OpBooked(s: State, op: Op, books: Books)
    requires RegistryOk(s) && InBooks(s, books) && Allowed(s, op)
    ensures InBooks(Apply(s, op), Booked(books, op, Caller(s, op)))
  {
    match op
    case AddDriver(driver, outcomes) =>
      CleanIsOk(outcomes);
      AddDriverBooked(s, driver, outcomes, books);
    case RemoveDriver(a) => RemoveDriverBooked(s, a, books);
    case AddNic(id, x2, outcomes) =>
      CleanIsOk(outcomes);
      AddNicBooked(s, id, x2, outcomes, books);
    case RemoveNic(b) => RemoveNicBooked(s, b, books);
    case BlockKernel(b, i, t, rc) => BlockBooked(s, b, i, t, rc, books);
    case UnblockKernel(b, i, t) => UnblockBooked(s, b, i, t, books);
  }

  // The calls of a run, folded; the registry is asked only who a call comes from.
  function RunBooked(s: State, ops: seq<Op>, books: Books): Books
    requires AllShaped(s.ports)
    decreases |ops|
  {
    if ops == [] then books
    else RunBooked(Apply(s, ops[0]), ops[1..], if Allowed(s, ops[0]) then Booked(books, ops[0], Caller(s, ops[0])) else books)
  }

  /** After every run the drivers and adapters are those that came and have not gone, and the
      clients on the adapters' lists are exactly the accepted ones that were not removed
      since, each with the blocks it took and has not given back. */
  lemma {:induction false} EveryRunIsBooked(s: State, ops: seq<Op>, books: Books)
    requires RegistryOk(s) && InBooks(s, books)
    ensures InBooks(Run(s, ops), RunBooked(s, ops, books))
    decreases |ops|
  {
    if ops != [] {
      OpKeeps(s, ops[0]);
      if Allowed(s, ops[0]) { OpBooked(s, ops[0], books); }
      EveryRunIsBooked(Apply(s, ops[0]), ops[1..], if Allowed(s, ops[0]) then Booked(books, ops[0], Caller(s, ops[0])) else books);
    }
  }
}
