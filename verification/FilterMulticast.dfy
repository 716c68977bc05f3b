/**
 Inserts of multi-recipient matches: several rows may hold one match, and a
 successful insert also removes the lower-priority ones.
 */
module FilterMulticast {
  import opened Options
  import opened Filters
  import opened FilterShape

  lemma ProbeInjective(nic: Nic, key: Key, d: nat, e: nat)
    requires d < ROWS && e < ROWS && Probe(nic, key, d) == Probe(nic, key, e)
    ensures d == e
  {
    var h := nic.hash(key);
    assert h + d == (h + d) / ROWS * ROWS + (h + d) % ROWS;
    assert h + e == (h + e) / ROWS * ROWS + (h + e) % ROWS;
    assert d - e == ((h + d) / ROWS - (h + e) / ROWS) * ROWS;
  }

  predicate Visited(nic: Nic, key: Key, depth: nat, i: nat) {
    exists d :: 1 <= d < depth && Probe(nic, key, d) == i
  }

  // What the search has gathered from the rows before a depth.
  predicate Gathered(nic: Nic, rows: seq<Row>, spec: Spec, replaceEqual: bool,
                     depth: nat, ins: Option<nat>, doomed: seq<nat>)
    requires |rows| == ROWS
  {
    && (ins.Some? ==>
          ins.value < ROWS && Visited(nic, spec.key, depth, ins.value) &&
          Judge(nic, rows[ins.value], spec, replaceEqual) in {Free, Want})
    && (forall k :: 0 <= k < |doomed| ==>
          doomed[k] < ROWS && Visited(nic, spec.key, depth, doomed[k]) && Some(doomed[k]) != ins &&
          Judge(nic, rows[doomed[k]], spec, replaceEqual) == Want)
    && (forall k, l :: 0 <= k < l < |doomed| ==> doomed[k] != doomed[l])
    && (forall d :: 1 <= d < depth ==>
          var i := Probe(nic, spec.key, d);
          !Judge(nic, rows[i], spec, replaceEqual).Reject? &&
          (Judge(nic, rows[i], spec, replaceEqual) == Want ==> Some(i) == ins || i in doomed))
  }

  lemma GatherOne(nic: Nic, rows: seq<Row>, spec: Spec, replaceEqual: bool,
                  depth: nat, ins: Option<nat>, doomed: seq<nat>, ins': Option<nat>, doomed': seq<nat>)
    requires |rows| == ROWS && 1 <= depth < SEARCH_LIMIT
    requires Gathered(nic, rows, spec, replaceEqual, depth, ins, doomed)
    requires var i := Probe(nic, spec.key, depth);
      match Judge(nic, rows[i], spec, replaceEqual)
      case Free => ins' == (if ins.None? then Some(i) else ins) && doomed' == doomed
      case Want => if ins.None? then ins' == Some(i) && doomed' == doomed else ins' == ins && doomed' == doomed + [i]
      case Other => ins' == ins && doomed' == doomed
      case Peer => ins' == ins && doomed' == doomed
      case _ => false
    requires ins.None? ==> doomed == []
    ensures Gathered(nic, rows, spec, replaceEqual, depth + 1, ins', doomed')
  {
    var i := Probe(nic, spec.key, depth);
    assert Visited(nic, spec.key, depth + 1, i);
    forall j | Visited(nic, spec.key, depth, j) ensures j != i && Visited(nic, spec.key, depth + 1, j) {
      var d :| 1 <= d < depth && Probe(nic, spec.key, d) == j;
      if j == i { ProbeInjective(nic, spec.key, d, depth); }
      assert Visited(nic, spec.key, depth + 1, j);
    }
    assert forall k :: 0 <= k < |doomed| ==> doomed[k] in doomed';
  }

  lemma {:induction false} SearchMulti(nic: Nic, rows: seq<Row>, spec: Spec, replaceEqual: bool,
                                       depth: nat, ins: Option<nat>, doomed: seq<nat>)
    requires |rows| == ROWS && nic.multi(spec.key) && 1 <= depth <= SEARCH_LIMIT
    requires Gathered(nic, rows, spec, replaceEqual, depth, ins, doomed) && (ins.None? ==> doomed == [])
    ensures match Search(nic, rows, spec, replaceEqual, depth, ins, doomed)
      case Place(i, d) => Gathered(nic, rows, spec, replaceEqual, SEARCH_LIMIT, Some(i), d)
      case Refuse(_) => true
    decreases SEARCH_LIMIT - depth
  {
    if depth < SEARCH_LIMIT {
      var i := Probe(nic, spec.key, depth);
      var verdict := Judge(nic, rows[i], spec, replaceEqual);
      if !verdict.Reject? {
        var ins' := if verdict in {Free, Want} && ins.None? then Some(i) else ins;
        var doomed' := if verdict == Want && ins.Some? then doomed + [i] else doomed;
        GatherOne(nic, rows, spec, replaceEqual, depth, ins, doomed, ins', doomed');
        SearchMulti(nic, rows, spec, replaceEqual, depth + 1, ins', doomed');
      }
    }
  }

  // Tidying only empties doomed rows, and all of them when it succeeds.
  lemma {:induction false} TidyRows(w: World, doomed: seq<nat>, rc: int, unsub: nat -> int)
    requires |w.rows| == ROWS && forall k :: 0 <= k < |doomed| ==> doomed[k] < ROWS
    ensures var out := Tidy(w, doomed, rc, unsub);
      && (forall j :: 0 <= j < ROWS && j !in doomed ==> out.world.rows[j] == w.rows[j])
      && (forall j :: 0 <= j < ROWS && j in doomed ==> out.world.rows[j] == w.rows[j] || out.world.rows[j].spec.None?)
      && (out.rc == 0 ==> forall k :: 0 <= k < |doomed| ==> out.world.rows[doomed[k]].spec.None?)
    decreases |doomed|
  {
    if doomed != [] && rc == 0 && unsub(doomed[0]) == 0 {
      TidyRows(Drop(w, doomed[0]), doomed[1..], 0, unsub);
      assert doomed == [doomed[0]] + doomed[1..];
      var out := Tidy(w, doomed, rc, unsub);
      forall k | out.rc == 0 && 0 <= k < |doomed| ensures out.world.rows[doomed[k]].spec.None? {
        if k > 0 { assert doomed[k] == doomed[1..][k - 1]; }
      }
    }
  }

  lemma TidyOk(nic: Nic, w: World, doomed: seq<nat>, rc: int, unsub: nat -> int)
    requires TableOk(nic, w.rows) && forall k :: 0 <= k < |doomed| ==> doomed[k] < ROWS
    ensures TableOk(nic, Tidy(w, doomed, rc, unsub).world.rows)
  {
    TidyRows(w, doomed, rc, unsub);
    var after := Tidy(w, doomed, rc, unsub).world.rows;
    assert forall j :: 0 <= j < ROWS && after[j].spec.Some? ==> after[j] == w.rows[j];
  }

  // The row the insert writes keeps the table in shape.
  lemma PlacedRowOk(nic: Nic, w: World, spec: Spec, replaceEqual: bool, ins: nat, push: Reply)
    requires TableOk(nic, w.rows) && ins < ROWS && nic.multi(spec.key) && !spec.flags.overAuto
    requires InWindow(nic, spec.key, ins) && Judge(nic, w.rows[ins], spec, replaceEqual) in {Free, Want}
    ensures Renews(w.rows[ins], spec) ==> TableOk(nic, w.rows[ins := Renewed(w.rows[ins], w.rows[ins].spec.value)])
    ensures !Renews(w.rows[ins], spec) ==> TableOk(nic, Placed(w, ins, spec, push).rows)
  {
    if Renews(w.rows[ins], spec) {
      SetRowOk(nic, w.rows, ins, Renewed(w.rows[ins], w.rows[ins].spec.value));
    } else {
      var after := Placed(w, ins, spec, push).rows;
      SetRowOk(nic, w.rows, ins, after[ins]);
      assert after == w.rows[ins := after[ins]];
    }
  }

  lemma InsertMultiOk(nic: Nic, w: World, spec: Spec, replaceEqual: bool, env: InsertEnv)
    requires TableOk(nic, w.rows) && nic.multi(spec.key) && !spec.flags.overAuto
    ensures TableOk(nic, Insert(nic, w, spec, replaceEqual, env).world.rows)
  {
    assert Gathered(nic, w.rows, spec, replaceEqual, 1, None, []);
    SearchMulti(nic, w.rows, spec, replaceEqual, 1, None, []);
    var scan := SearchAll(nic, w.rows, spec, replaceEqual);
    if Admit(nic, spec) == 0 && scan.Place? {
      PlacedRowOk(nic, w, spec, replaceEqual, scan.ins, env.push);
      if !Renews(w.rows[scan.ins], spec) {
        TidyOk(nic, Placed(w, scan.ins, spec, env.push), scan.doomed, PushRc(env.push), env.unsub);
      }
    }
  }

  /** Every insert keeps the table in shape: rows stay in their probe window and a
      single-recipient match stays in one row. */
  lemma InsertOk(nic: Nic, w: World, spec: Spec, replaceEqual: bool, env: InsertEnv)
    requires TableOk(nic, w.rows) && !spec.flags.overAuto
    requires env.push.Failed? ==> env.push.rc < 0
    ensures TableOk(nic, Insert(nic, w, spec, replaceEqual, env).world.rows)
  {
    if nic.multi(spec.key) {
      InsertMultiOk(nic, w, spec, replaceEqual, env);
    } else {
      InsertSingle(nic, w, spec, replaceEqual, env);
    }
  }

  // Rows of the match other than the one written and the doomed ones are peers.
  lemma OthersArePeers(nic: Nic, rows: seq<Row>, spec: Spec, replaceEqual: bool, ins: nat, doomed: seq<nat>, j: nat)
    requires TableOk(nic, rows) && nic.multi(spec.key) && spec.priority != AUTO
    requires Gathered(nic, rows, spec, replaceEqual, SEARCH_LIMIT, Some(ins), doomed)
    requires j < ROWS && j != ins && j !in doomed && Holds(rows[j], spec.key)
    ensures rows[j].spec.value.priority == spec.priority && !replaceEqual
  {
    var d :| 1 <= d < SEARCH_LIMIT && Probe(nic, spec.key, d) == j;
    assert !Judge(nic, rows[j], spec, replaceEqual).Reject?;
  }

  /** A successful insert above or below the automatic priority leaves every row of
      its match with exactly the new priority, and leaves one row only when equal
      priorities may be replaced. */
  lemma InsertSetsPriority(nic: Nic, w: World, spec: Spec, replaceEqual: bool, env: InsertEnv)
    requires TableOk(nic, w.rows) && !spec.flags.overAuto && spec.priority != AUTO
    requires env.push.Failed? ==> env.push.rc < 0
    requires forall i :: env.unsub(i) <= 0
    requires Insert(nic, w, spec, replaceEqual, env).rc >= 0
    ensures var rows := Insert(nic, w, spec, replaceEqual, env).world.rows;
      && (exists i :: 0 <= i < ROWS && Holds(rows[i], spec.key))
      && (forall i :: 0 <= i < ROWS && Holds(rows[i], spec.key) ==> rows[i].spec.value.priority == spec.priority)
      && (replaceEqual ==> forall i, j :: 0 <= i < ROWS && 0 <= j < ROWS && Holds(rows[i], spec.key) && Holds(rows[j], spec.key) ==> i == j)
  {
    var out := Insert(nic, w, spec, replaceEqual, env);
    if !nic.multi(spec.key) {
      InsertSingle(nic, w, spec, replaceEqual, env);
      var i := FindKey(out.world.rows, spec.key);
      forall j | 0 <= j < ROWS && Holds(out.world.rows[j], spec.key) ensures j == i {
        FindKeyIs(nic, out.world.rows, spec.key, j);
      }
    } else {
      InsertMultiPriority(nic, w, spec, replaceEqual, env);
    }
  }

  lemma InsertMultiPriority(nic: Nic, w: World, spec: Spec, replaceEqual: bool, env: InsertEnv)
    requires TableOk(nic, w.rows) && !spec.flags.overAuto && spec.priority != AUTO && nic.multi(spec.key)
    requires env.push.Failed? ==> env.push.rc < 0
    requires forall i :: env.unsub(i) <= 0
    requires Insert(nic, w, spec, replaceEqual, env).rc >= 0
    ensures var rows := Insert(nic, w, spec, replaceEqual, env).world.rows;
      exists ins :: 0 <= ins < ROWS && Holds(rows[ins], spec.key) && rows[ins].spec.value.priority == spec.priority &&
        forall j :: 0 <= j < ROWS && j != ins && Holds(rows[j], spec.key) ==>
          rows[j].spec.value.priority == spec.priority && !replaceEqual
  {
    assert Gathered(nic, w.rows, spec, replaceEqual, 1, None, []);
    SearchMulti(nic, w.rows, spec, replaceEqual, 1, None, []);
    var scan := SearchAll(nic, w.rows, spec, replaceEqual);
    var ins := scan.ins;
    var placed := Placed(w, ins, spec, env.push);
    TidyRc(placed, scan.doomed, PushRc(env.push), env.unsub);
    TidiedPriorities(nic, w.rows, placed, spec, replaceEqual, ins, scan.doomed, env.unsub);
  }

  lemma TidiedPriorities(nic: Nic, rows: seq<Row>, placed: World, spec: Spec, replaceEqual: bool,
                         ins: nat, doomed: seq<nat>, unsub: nat -> int)
    requires TableOk(nic, rows) && nic.multi(spec.key) && spec.priority != AUTO
    requires Gathered(nic, rows, spec, replaceEqual, SEARCH_LIMIT, Some(ins), doomed)
    requires |placed.rows| == ROWS && Holds(placed.rows[ins], spec.key)
    requires placed.rows[ins].spec.value.priority == spec.priority
    requires forall j :: 0 <= j < ROWS && j != ins ==> placed.rows[j] == rows[j]
    requires Tidy(placed, doomed, 0, unsub).rc == 0
    ensures var after := Tidy(placed, doomed, 0, unsub).world.rows;
      Holds(after[ins], spec.key) && after[ins].spec.value.priority == spec.priority &&
      forall j :: 0 <= j < ROWS && j != ins && Holds(after[j], spec.key) ==>
        after[j].spec.value.priority == spec.priority && !replaceEqual
  {
    var after := Tidy(placed, doomed, 0, unsub).world.rows;
    TidyRows(placed, doomed, 0, unsub);
    assert ins !in doomed;
    forall j | 0 <= j < ROWS && j != ins && Holds(after[j], spec.key)
      ensures after[j].spec.value.priority == spec.priority && !replaceEqual
    {
      assert j !in doomed;
      OthersArePeers(nic, rows, spec, replaceEqual, ins, doomed, j);
    }
  }

  lemma {:induction false} TidyRc(w: World, doomed: seq<nat>, rc: int, unsub: nat -> int)
    requires |w.rows| == ROWS && forall k :: 0 <= k < |doomed| ==> doomed[k] < ROWS
    requires rc <= 0 && forall i :: unsub(i) <= 0
    ensures Tidy(w, doomed, rc, unsub).rc <= 0
    ensures rc != 0 ==> Tidy(w, doomed, rc, unsub) == Outcome(w, rc)
    decreases |doomed|
  {
    if doomed != [] && rc == 0 && unsub(doomed[0]) == 0 {
      TidyRc(Drop(w, doomed[0]), doomed[1..], 0, unsub);
    }
  }

  // Nothing visible changed: same filters, same handles, same firmware.
  ghost predicate Untouched(a: World, b: World) {
    && a.fw == b.fw && |a.rows| == |b.rows|
    && forall i :: 0 <= i < |a.rows| ==> a.rows[i].spec == b.rows[i].spec && a.rows[i].handle == b.rows[i].handle
  }

  // The multicast rows that an insert would unsubscribe.
  function DoomedRows(nic: Nic, w: World, spec: Spec, replaceEqual: bool): seq<nat>
    requires |w.rows| == ROWS
  {
    match SearchAll(nic, w.rows, spec, replaceEqual)
    case Refuse(_) => []
    case Place(_, doomed) => doomed
  }

  // ----- a refused unsubscribe -----

  // The insert gets as far as a push, and the firmware takes the filter.
  predicate Installs(nic: Nic, w: World, spec: Spec, replaceEqual: bool, env: InsertEnv)
    requires |w.rows| == ROWS
  {
    Admit(nic, spec) == 0 && env.push.Accepted? &&
    match SearchAll(nic, w.rows, spec, replaceEqual)
    case Refuse(_) => false
    case Place(ins, _) => !Renews(w.rows[ins], spec) && (w.rows[ins].spec.Some? || env.memory)
  }

  // Of the rows to unsubscribe, the one at k is the first that the firmware refuses.
  predicate FirstRefusal(doomed: seq<nat>, unsub: nat -> int, k: nat) {
    k < |doomed| && unsub(doomed[k]) != 0 && forall j :: 0 <= j < k ==> unsub(doomed[j]) == 0
  }

  lemma {:induction false} TidyStops(w: World, doomed: seq<nat>, unsub: nat -> int, k: nat)
    requires |w.rows| == ROWS && (forall j :: 0 <= j < |doomed| ==> doomed[j] < ROWS) && FirstRefusal(doomed, unsub, k)
    requires forall i, j :: 0 <= i < j < |doomed| ==> doomed[i] != doomed[j]
    ensures var out := Tidy(w, doomed, 0, unsub);
      && out.rc == unsub(doomed[k]) && (k == 0 ==> out.world == w)
      && (forall j :: 0 <= j < ROWS && j !in doomed[..k] ==> out.world.rows[j] == w.rows[j])
      && (forall j :: 0 <= j < k ==> out.world.rows[doomed[j]].spec.None?)
    decreases k
  {
    if k > 0 {
      var rest, next := doomed[1..], Drop(w, doomed[0]);
      TidyStops(next, rest, unsub, k - 1);
      assert doomed[..k] == [doomed[0]] + rest[..k - 1];
      var out := Tidy(w, doomed, 0, unsub);
      assert out == Tidy(next, rest, 0, unsub);
      forall j | 0 <= j < k ensures out.world.rows[doomed[j]].spec.None? {
        if j == 0 {
          var others := rest[..k - 1];
          forall i | 0 <= i < |others| ensures others[i] != doomed[0] {
            assert doomed[0] != doomed[i + 1];
          }
          assert next.rows[doomed[0]].spec.None?;
        } else {
          assert rest[j - 1] == doomed[j];
        }
      }
    }
  }

  lemma {:induction false} SomeRefusal(w: World, doomed: seq<nat>, unsub: nat -> int) returns (k: nat)
    requires |w.rows| == ROWS && (forall j :: 0 <= j < |doomed| ==> doomed[j] < ROWS) && Tidy(w, doomed, 0, unsub).rc != 0
    ensures FirstRefusal(doomed, unsub, k)
    decreases |doomed|
  {
    if unsub(doomed[0]) != 0 {
      k := 0;
    } else {
      var rest := SomeRefusal(Drop(w, doomed[0]), doomed[1..], unsub);
      k := rest + 1;
      forall j | 0 <= j < k ensures unsub(doomed[j]) == 0 {
        if j > 0 { assert doomed[j] == doomed[1..][j - 1]; }
      }
    }
  }

  // What the search has found, whatever kind of match.
  lemma Targets(nic: Nic, rows: seq<Row>, spec: Spec, replaceEqual: bool)
    requires TableOk(nic, rows)
    ensures var scan := SearchAll(nic, rows, spec, replaceEqual);
      scan.Place? ==>
        && (rows[scan.ins].spec.Some? ==> Holds(rows[scan.ins], spec.key)) && scan.ins !in scan.doomed
        && (forall k :: 0 <= k < |scan.doomed| ==> rows[scan.doomed[k]].spec.Some?)
        && (forall k, l :: 0 <= k < l < |scan.doomed| ==> scan.doomed[k] != scan.doomed[l])
  {
    if nic.multi(spec.key) {
      assert Gathered(nic, rows, spec, replaceEqual, 1, None, []);
      SearchMulti(nic, rows, spec, replaceEqual, 1, None, []);
    } else {
      SearchSingle(nic, rows, spec, replaceEqual, 1, None);
    }
  }

  /** The exception is real: with the push accepted and the k-th unsubscribe refused, the
      insert returns the firmware's error and yet the new filter is in the table, with the
      k rows before it gone and the others left. */
  lemma RefusedUnsubscribe(nic: Nic, w: World, spec: Spec, replaceEqual: bool, env: InsertEnv, k: nat)
    requires TableOk(nic, w.rows) && Installs(nic, w, spec, replaceEqual, env)
    requires FirstRefusal(DoomedRows(nic, w, spec, replaceEqual), env.unsub, k)
    ensures var out, doomed := Insert(nic, w, spec, replaceEqual, env), DoomedRows(nic, w, spec, replaceEqual);
      var ins := SearchAll(nic, w.rows, spec, replaceEqual).ins;
      && out.rc == env.unsub(doomed[k])
      && out.world.rows[ins] == Placed(w, ins, spec, env.push).rows[ins] && Holds(out.world.rows[ins], spec.key)
      && out.world.rows[ins].spec.value.priority == spec.priority && out.world.rows[ins].spec.value.queue == spec.queue
      && (forall j :: 0 <= j < k ==> out.world.rows[doomed[j]].spec.None?)
      && (forall j :: k <= j < |doomed| ==> out.world.rows[doomed[j]] == w.rows[doomed[j]])
      && (k == 0 ==> out.world == Placed(w, ins, spec, env.push))
  {
    Targets(nic, w.rows, spec, replaceEqual);
    var scan := SearchAll(nic, w.rows, spec, replaceEqual);
    var placed := Placed(w, scan.ins, spec, env.push);
    TidyStops(placed, scan.doomed, env.unsub, k);
    assert Holds(placed.rows[scan.ins], spec.key);
    assert forall j :: 0 <= j < k ==> scan.doomed[..k][j] == scan.doomed[j];
    forall j | k <= j < |scan.doomed| ensures scan.doomed[j] !in scan.doomed[..k] {
    }
  }

  // The row already held what the insert would make of it, under the handle that the
  // firmware answers with, and the firmware already delivered it so.
  predicate AlreadySo(w: World, ins: nat, spec: Spec, h: nat)
    requires |w.rows| == ROWS && ins < ROWS
  {
    var row := w.rows[ins];
    row.spec.Some? && Merged(row.spec.value, spec) == row.spec.value && row.handle == h && FwReplace(w.fw, h, spec, h) == w.fw
  }

  /** A failed insert leaves every filter, handle and firmware filter as it was exactly when
      it did not get as far as an accepted push, or the accepted push changed nothing and
      the very first unsubscribe was refused. */
  lemma FailedInsertUntouchedIff(nic: Nic, w: World, spec: Spec, replaceEqual: bool, env: InsertEnv)
    requires TableOk(nic, w.rows) && (env.push.Failed? ==> env.push.rc < 0)
    requires Insert(nic, w, spec, replaceEqual, env).rc < 0
    ensures Untouched(w, Insert(nic, w, spec, replaceEqual, env).world) <==>
      !Installs(nic, w, spec, replaceEqual, env) ||
      (FirstRefusal(DoomedRows(nic, w, spec, replaceEqual), env.unsub, 0) &&
       AlreadySo(w, SearchAll(nic, w.rows, spec, replaceEqual).ins, spec, env.push.handle))
  {
    var scan := SearchAll(nic, w.rows, spec, replaceEqual);
    if Installs(nic, w, spec, replaceEqual, env) {
      var placed := Placed(w, scan.ins, spec, env.push);
      var k := SomeRefusal(placed, scan.doomed, env.unsub);
      RefusedUnsubscribe(nic, w, spec, replaceEqual, env, k);
      if k > 0 {
        Targets(nic, w.rows, spec, replaceEqual);
        assert !Untouched(w, Insert(nic, w, spec, replaceEqual, env).world);
      } else {
        PlacedUntouchedIff(w, scan.ins, spec, env.push);
      }
    }
  }

  /** So a failed insert changes nothing if the push failed or no unsubscribe is refused. */
  lemma FailedInsertChangesNothing(nic: Nic, w: World, spec: Spec, replaceEqual: bool, env: InsertEnv)
    requires TableOk(nic, w.rows)
    requires env.push.Failed? ==> env.push.rc < 0
    requires env.push.Failed? || forall k :: 0 <= k < |DoomedRows(nic, w, spec, replaceEqual)| ==>
      env.unsub(DoomedRows(nic, w, spec, replaceEqual)[k]) == 0
    requires Insert(nic, w, spec, replaceEqual, env).rc < 0
    ensures Untouched(w, Insert(nic, w, spec, replaceEqual, env).world)
  {
    FailedInsertUntouchedIff(nic, w, spec, replaceEqual, env);
    if Installs(nic, w, spec, replaceEqual, env) {
      var scan := SearchAll(nic, w.rows, spec, replaceEqual);
      var _ := SomeRefusal(Placed(w, scan.ins, spec, env.push), scan.doomed, env.unsub);
    }
  }

  lemma PlacedUntouchedIff(w: World, ins: nat, spec: Spec, push: Reply)
    requires |w.rows| == ROWS && ins < ROWS && push.Accepted?
    ensures Untouched(w, Placed(w, ins, spec, push)) <==> AlreadySo(w, ins, spec, push.handle)
  {
    var placed := Placed(w, ins, spec, push);
    if Untouched(w, placed) {
      assert w.rows[ins].spec == placed.rows[ins].spec && w.rows[ins].handle == placed.rows[ins].handle;
    }
  }
}
