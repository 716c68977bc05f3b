/**
 The EF10 software filter table and the write-only firmware table it mirrors.

 The driver keeps an 8192-row hash table of filter specifications, each with the
 64-bit handle of the firmware filter it stands for.  A row is found by probing
 199 rows from the hash of the match.  Every operation here is a function of the
 rows, the firmware's filters and the firmware's answers.
 */
module Filters {
  import opened Options

  const ROWS: nat := 8192
  const SEARCH_LIMIT: nat := 200

  const EPERM: int := 1
  const ENOENT: int := 2
  const EIO: int := 5
  const ENOMEM: int := 12
  const EBUSY: int := 16
  const EEXIST: int := 17
  const EINVAL: int := 22
  const ENOSPC: int := 28
  const EPROTONOSUPPORT: int := 93
  const EOPNOTSUPP: int := 95

  const HINT: nat := 1
  const AUTO: nat := 2
  const MANUAL: nat := 3
  const REQUIRED: nat := 4

  // A class of filter specifications that compare equal: equality is an
  // equivalence that the hash, the recipient kind and the match mask respect.
  type Key = int

  datatype Flags = Flags(rss: bool, scatter: bool, overAuto: bool, rx: bool, tx: bool,
                         stackId: bool, vportId: bool, loopback: bool)

  datatype Spec = Spec(key: Key, priority: nat, flags: Flags, queue: nat, rss: nat, stack: nat, vport: nat)

  // One table row: the specification, the AUTO_OLD mark, the firmware handle.
  datatype Row = Row(spec: Option<Spec>, stale: bool, handle: nat)

  // What the firmware holds for a handle: the match, the queue, the RSS context.
  datatype FwFilter = FwFilter(key: Key, queue: nat, rss: Option<nat>)

  datatype World = World(rows: seq<Row>, fw: map<nat, FwFilter>)

  // The firmware's answer to a push.
  datatype Reply = Accepted(handle: nat) | Failed(rc: int)

  datatype Outcome = Outcome(world: World, rc: int)

  // What the table operations read of the adapter and its tables.
  datatype Nic = Nic(
    hash: Key -> nat,
    multi: Key -> bool,              // delivered to several recipients
    sane: Key -> bool,               // protocol and port fields are consistent
    mask: Key -> nat,                // firmware match mask
    masks: seq<nat>,                 // supported match masks, by match priority
    rssContexts: map<nat, bool>,     // known contexts; true when created in firmware
    vports: map<nat, bool>,
    blockedUnicast: bool,
    blockedMulticast: bool)

  // ----- checks made before the table is searched -----

  // Position of a mask in the supported list, or |masks|.
  function MatchPri(masks: seq<nat>, mask: nat): (p: nat)
    ensures p <= |masks|
    ensures p < |masks| ==> masks[p] == mask
    ensures forall q :: 0 <= q < p ==> masks[q] != mask
  {
    if masks == [] then 0
    else if masks[0] == mask then 0
    else
      var p := MatchPri(masks[1..], mask);
      assert forall q :: 1 <= q < 1 + p ==> masks[q] == masks[1..][q - 1];
      1 + p
  }

  // The driver knows the RSS context or virtual port, and has created it in firmware.
  predicate Known(contexts: map<nat, bool>, id: nat) {
    id in contexts && contexts[id]
  }

  function Lookup(contexts: map<nat, bool>, id: nat): int {
    if id !in contexts then -ENOENT else if !contexts[id] then -EOPNOTSUPP else 0
  }

  // 0, or the error the insert is turned away with before the search.
  function Admit(nic: Nic, spec: Spec): (rc: int)
    ensures rc <= 0
  {
    if !spec.flags.rx then -EINVAL
    else if spec.flags.tx && spec.flags.loopback then -EINVAL
    else if !nic.sane(spec.key) then -EINVAL
    else if MatchPri(nic.masks, nic.mask(spec.key)) == |nic.masks| then -EPROTONOSUPPORT
    else if spec.flags.vportId && Lookup(nic.vports, spec.vport) != 0 then Lookup(nic.vports, spec.vport)
    else if spec.flags.rss && Lookup(nic.rssContexts, spec.rss) != 0 then Lookup(nic.rssContexts, spec.rss)
    else if spec.priority <= AUTO && (if nic.multi(spec.key) then nic.blockedMulticast else nic.blockedUnicast) then -EPERM
    else 0
  }

  // ----- the search -----

  function Probe(nic: Nic, key: Key, depth: nat): (i: nat)
    ensures i < ROWS
  {
    (nic.hash(key) + depth) % ROWS
  }

  // How the search treats one row on its way.
  datatype Verdict = Free | Other | Reject(rc: int) | Take | Want | Peer

  function Judge(nic: Nic, row: Row, spec: Spec, replaceEqual: bool): Verdict {
    match row.spec
    case None => Free
    case Some(saved) =>
      if saved.key != spec.key then Other
      else if spec.priority < saved.priority && spec.priority != AUTO then Reject(-EPERM)
      else if !nic.multi(spec.key) then
        if spec.priority == saved.priority && !replaceEqual then Reject(-EEXIST) else Take
      else if spec.priority > saved.priority || (spec.priority == saved.priority && replaceEqual) || spec.priority == AUTO
      then Want
      else Peer
  }

  datatype Scan = Refuse(rc: int) | Place(ins: nat, doomed: seq<nat>)

  // Continue the search at a depth, with the insertion row chosen so far and the
  // multicast rows so far marked for removal.
  function Search(nic: Nic, rows: seq<Row>, spec: Spec, replaceEqual: bool,
                  depth: nat, ins: Option<nat>, doomed: seq<nat>): (r: Scan)
    requires |rows| == ROWS && depth <= SEARCH_LIMIT
    requires ins.Some? ==> ins.value < ROWS
    requires forall k :: 0 <= k < |doomed| ==> doomed[k] < ROWS
    ensures r.Place? ==> r.ins < ROWS && forall k :: 0 <= k < |r.doomed| ==> r.doomed[k] < ROWS
    ensures r.Refuse? ==> r.rc == -EPERM || r.rc == -EEXIST || r.rc == -EBUSY
    decreases |rows| - depth
  {
    if depth == SEARCH_LIMIT then
      if ins.None? then Refuse(-EBUSY) else Place(ins.value, doomed)
    else
      var i := Probe(nic, spec.key, depth);
      match Judge(nic, rows[i], spec, replaceEqual)
      case Free => Search(nic, rows, spec, replaceEqual, depth + 1, if ins.None? then Some(i) else ins, doomed)
      case Reject(rc) => Refuse(rc)
      case Take => Place(i, [])
      case Want =>
        if ins.None? then Search(nic, rows, spec, replaceEqual, depth + 1, Some(i), doomed)
        else Search(nic, rows, spec, replaceEqual, depth + 1, ins, doomed + [i])
      case Other => Search(nic, rows, spec, replaceEqual, depth + 1, ins, doomed)
      case Peer => Search(nic, rows, spec, replaceEqual, depth + 1, ins, doomed)
  }

  function SearchAll(nic: Nic, rows: seq<Row>, spec: Spec, replaceEqual: bool): (r: Scan)
    requires |rows| == ROWS
    ensures r.Place? ==> r.ins < ROWS && forall k :: 0 <= k < |r.doomed| ==> r.doomed[k] < ROWS
    ensures r.Refuse? ==> r.rc == -EPERM || r.rc == -EEXIST || r.rc == -EBUSY
  {
    Search(nic, rows, spec, replaceEqual, 1, None, [])
  }

  // ----- firmware commands -----

  function FwOf(spec: Spec): FwFilter {
    FwFilter(spec.key, spec.queue, if spec.flags.rss then Some(spec.rss) else None)
  }

  // Replacing keeps the match of the old handle and changes where it delivers.
  function FwReplace(fw: map<nat, FwFilter>, h0: nat, spec: Spec, h: nat): map<nat, FwFilter> {
    if h0 in fw then (fw - {h0})[h := FwFilter(fw[h0].key, spec.queue, FwOf(spec).rss)] else fw
  }

  function PushRc(reply: Reply): int {
    match reply
    case Accepted(_) => 0
    case Failed(rc) => if rc == -ENOSPC then -EBUSY else rc
  }

  // ----- insert -----

  // The saved specification after a successful replacement.
  function Merged(saved: Spec, spec: Spec): Spec {
    saved.(priority := spec.priority,
           flags := spec.flags.(overAuto := saved.priority == AUTO || saved.flags.overAuto || spec.flags.overAuto),
           rss := spec.rss,
           queue := spec.queue)
  }

  function Renewed(row: Row, saved: Spec): Row {
    row.(spec := Some(if saved.priority > AUTO then saved.(flags := saved.flags.(overAuto := true)) else saved),
         stale := false)
  }

  function Create(w: World, ins: nat, spec: Spec, push: Reply): World
    requires |w.rows| == ROWS && ins < ROWS
  {
    match push
    case Accepted(h) => World(w.rows[ins := Row(Some(spec), false, h)], w.fw[h := FwOf(spec)])
    case Failed(_) => w.(rows := w.rows[ins := w.rows[ins].(spec := None, stale := false)])
  }

  function Replace(w: World, ins: nat, saved: Spec, spec: Spec, push: Reply): World
    requires |w.rows| == ROWS && ins < ROWS
  {
    match push
    case Accepted(h) =>
      World(w.rows[ins := w.rows[ins].(spec := Some(Merged(saved, spec)), handle := h)],
            FwReplace(w.fw, w.rows[ins].handle, spec, h))
    case Failed(_) => w
  }

  function Drop(w: World, i: nat): World
    requires |w.rows| == ROWS && i < ROWS
  {
    World(w.rows[i := w.rows[i].(spec := None, stale := false)], w.fw - {w.rows[i].handle})
  }

  // Unsubscribe the lower-priority multicast rows, stopping at the first failure.
  function Tidy(w: World, doomed: seq<nat>, rc: int, unsub: nat -> int): (out: Outcome)
    requires |w.rows| == ROWS && forall k :: 0 <= k < |doomed| ==> doomed[k] < ROWS
    ensures |out.world.rows| == ROWS
    decreases |doomed|
  {
    if doomed == [] || rc != 0 then Outcome(w, rc)
    else if unsub(doomed[0]) == 0 then Tidy(Drop(w, doomed[0]), doomed[1..], 0, unsub)
    else Outcome(w, unsub(doomed[0]))
  }

  function FilterId(pri: nat, i: nat): nat {
    pri * ROWS * 2 + i
  }

  // The environment of one insert: does the allocation succeed, how does the
  // firmware answer the push, and how an unsubscribe of each row.
  datatype InsertEnv = InsertEnv(memory: bool, push: Reply, unsub: nat -> int)

  // The chosen row and the firmware after the push.
  function Placed(w: World, ins: nat, spec: Spec, push: Reply): (placed: World)
    requires |w.rows| == ROWS && ins < ROWS
    ensures |placed.rows| == ROWS && forall j :: 0 <= j < ROWS && j != ins ==> placed.rows[j] == w.rows[j]
  {
    match w.rows[ins].spec
    case None => Create(w, ins, spec, push)
    case Some(saved) => Replace(w, ins, saved, spec, push)
  }

  // An automatic insert that meets an automatic or higher filter only renews it.
  predicate Renews(row: Row, spec: Spec) {
    row.spec.Some? && spec.priority == AUTO && row.spec.value.priority >= AUTO
  }

  // The insert once the search has settled on a row.
  function InsertAt(nic: Nic, w: World, spec: Spec, env: InsertEnv, ins: nat, doomed: seq<nat>): (out: Outcome)
    requires |w.rows| == ROWS && ins < ROWS && forall k :: 0 <= k < |doomed| ==> doomed[k] < ROWS
    ensures |out.world.rows| == ROWS
  {
    if Renews(w.rows[ins], spec) then
      Outcome(w.(rows := w.rows[ins := Renewed(w.rows[ins], w.rows[ins].spec.value)]), ins)
    else if w.rows[ins].spec.None? && !env.memory then Outcome(w, -ENOMEM)
    else Complete(nic, Tidy(Placed(w, ins, spec, env.push), doomed, PushRc(env.push), env.unsub), spec, ins)
  }

  function Insert(nic: Nic, w: World, spec: Spec, replaceEqual: bool, env: InsertEnv): (out: Outcome)
    requires |w.rows| == ROWS
    ensures |out.world.rows| == ROWS
  {
    if Admit(nic, spec) != 0 then Outcome(w, Admit(nic, spec))
    else
      match SearchAll(nic, w.rows, spec, replaceEqual)
      case Refuse(rc) => Outcome(w, rc)
      case Place(ins, doomed) => InsertAt(nic, w, spec, env, ins, doomed)
  }

  function Complete(nic: Nic, out: Outcome, spec: Spec, ins: nat): Outcome {
    if out.rc == 0 then out.(rc := FilterId(MatchPri(nic.masks, nic.mask(spec.key)), ins)) else out
  }

  // ----- remove, clear, redirect -----

  function AutoReset(nic: Nic, spec: Spec): Spec {
    spec.(priority := AUTO,
          flags := Flags(0 in nic.rssContexts && nic.rssContexts[0], false, false, true, false, false, false, false),
          queue := 0, rss := 0, vport := 0)
  }

  // How the firmware answers a removal: the push that restores an automatic
  // filter, or the removal itself; and whether a reset is pending.
  datatype RemoveEnv = RemoveEnv(push: Reply, remove: int, resetPending: bool)

  function Remove(nic: Nic, w: World, mask: set<nat>, i: nat, env: RemoveEnv): (out: Outcome)
    requires |w.rows| == ROWS && i < ROWS
    ensures |out.world.rows| == ROWS
  {
    match w.rows[i].spec
    case None => Outcome(w, -ENOENT)
    case Some(spec) =>
      if spec.flags.overAuto && mask == {AUTO} then
        Outcome(w.(rows := w.rows[i := w.rows[i].(spec := Some(spec.(flags := spec.flags.(overAuto := false))), stale := false)]), 0)
      else if spec.priority !in mask then Outcome(w, -ENOENT)
      else if spec.flags.overAuto then
        var reset := AutoReset(nic, spec);
        match env.push
        case Accepted(h) =>
          Outcome(World(w.rows[i := w.rows[i].(spec := Some(reset), handle := h)],
                        FwReplace(w.fw, w.rows[i].handle, reset, h)), 0)
        case Failed(_) => Outcome(w, PushRc(env.push))
      else if env.remove == 0 then Outcome(Drop(w, i), 0)
      else if env.remove == -ENOENT || env.remove == -EIO || env.resetPending then
        Outcome(w.(rows := w.rows[i := w.rows[i].(spec := None, stale := false)]), env.remove)
      else Outcome(w, env.remove)
  }

  predicate IssuedFor(nic: Nic, spec: Spec, id: nat) {
    var pri := MatchPri(nic.masks, nic.mask(spec.key));
    pri < |nic.masks| && pri == id / (ROWS * 2)
  }

  // Removal by filter id: the id also names the match priority it was issued for.
  function RemoveById(nic: Nic, w: World, priority: nat, id: nat, env: RemoveEnv): Outcome
    requires |w.rows| == ROWS
  {
    var i := id % ROWS;
    if w.rows[i].spec.Some? && !IssuedFor(nic, w.rows[i].spec.value, id) then Outcome(w, -ENOENT)
    else Remove(nic, w, {priority}, i, env)
  }

  predicate OfUser(priority: nat) {
    priority != AUTO
  }

  // The priorities a clear removes: up to the given one, automatic filters excepted.
  function ClearMask(priority: nat): set<nat> {
    set p: nat | p <= priority && OfUser(p)
  }

  function Clear(nic: Nic, w: World, mask: set<nat>, from: nat, env: nat -> RemoveEnv): (out: Outcome)
    requires |w.rows| == ROWS && from <= ROWS
    ensures |out.world.rows| == ROWS
    decreases |w.rows| - from
  {
    if from == ROWS then Outcome(w, 0)
    else
      var out := Remove(nic, w, mask, from, env(from));
      if out.rc != 0 && out.rc != -ENOENT then out
      else Clear(nic, out.world, mask, from + 1, env)
  }

  function Redirect(nic: Nic, w: World, id: nat, rss: Option<nat>, queue: nat, stack: nat, push: Reply): (out: Outcome)
    requires |w.rows| == ROWS
    ensures |out.world.rows| == ROWS
  {
    var i := id % ROWS;
    match w.rows[i].spec
    case None => Outcome(w, -ENOENT)
    case Some(spec) =>
      var moved := spec.(queue := queue, stack := stack,
                         rss := if rss.Some? then rss.value else spec.rss,
                         flags := spec.flags.(rss := rss.Some?));
      if moved.flags.rss && Lookup(nic.rssContexts, moved.rss) != 0 then Outcome(w, Lookup(nic.rssContexts, moved.rss))
      else if moved.flags.vportId && Lookup(nic.vports, moved.vport) != 0 then Outcome(w, Lookup(nic.vports, moved.vport))
      else
        match push
        case Accepted(h) =>
          Outcome(World(w.rows[i := w.rows[i].(spec := Some(moved), handle := h)],
                        FwReplace(w.fw, w.rows[i].handle, moved, h)), 0)
        case Failed(_) => Outcome(w, PushRc(push))
  }

  // ----- mark and sweep -----

  function Mark(rows: seq<Row>, i: nat): seq<Row>
    requires |rows| == ROWS && i < ROWS
  {
    rows[i := rows[i].(stale := true)]
  }

  function Sweep(nic: Nic, w: World, from: nat, env: nat -> RemoveEnv): (out: World)
    requires |w.rows| == ROWS && from <= ROWS
    ensures |out.rows| == ROWS
    decreases |w.rows| - from
  {
    if from == ROWS then w
    else if w.rows[from].stale then Sweep(nic, Remove(nic, w, {AUTO}, from, env(from)).world, from + 1, env)
    else Sweep(nic, w, from + 1, env)
  }
}
