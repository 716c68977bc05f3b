/**
 Software and firmware agree: occupied rows and live firmware filters match one to
 one, with the same match, queue and RSS context, along every run of the table's
 operations in which the firmware loses nothing behind the driver's back.
 */
module FilterAgreement {
  import opened Options
  import opened Filters
  import opened FilterShape
  import opened FilterMulticast

  predicate Owned(rows: seq<Row>, h: nat) {
    exists i :: 0 <= i < |rows| && rows[i].spec.Some? && rows[i].handle == h
  }

  predicate Agree(w: World) {
    && |w.rows| == ROWS
    && (forall i :: 0 <= i < ROWS && w.rows[i].spec.Some? ==>
          w.rows[i].handle in w.fw && w.fw[w.rows[i].handle] == FwOf(w.rows[i].spec.value))
    && (forall i, j :: 0 <= i < j < ROWS && w.rows[i].spec.Some? && w.rows[j].spec.Some? ==>
          w.rows[i].handle != w.rows[j].handle)
    && (forall h :: h in w.fw ==> Owned(w.rows, h))
  }

  // ----- the four ways a row changes -----

  lemma Created(w: World, i: nat, spec: Spec, h: nat)
    requires Agree(w) && i < ROWS && w.rows[i].spec.None? && h !in w.fw
    ensures Agree(Create(w, i, spec, Accepted(h)))
  {
    var out := Create(w, i, spec, Accepted(h));
    assert out.rows[i].handle == h;
    forall g | g in out.fw ensures Owned(out.rows, g) {
      if g != h {
        var k :| 0 <= k < ROWS && w.rows[k].spec.Some? && w.rows[k].handle == g;
        assert out.rows[k] == w.rows[k];
      }
    }
  }

  // A replace command that leaves the match as it is.
  lemma Moved(w: World, i: nat, spec: Spec, h: nat, stale: bool)
    requires Agree(w) && i < ROWS && Holds(w.rows[i], spec.key)
    requires h == w.rows[i].handle || h !in w.fw
    ensures Agree(World(w.rows[i := Row(Some(spec), stale, h)], FwReplace(w.fw, w.rows[i].handle, spec, h)))
  {
    var out := World(w.rows[i := Row(Some(spec), stale, h)], FwReplace(w.fw, w.rows[i].handle, spec, h));
    assert out.rows[i].handle == h;
    forall g | g in out.fw ensures Owned(out.rows, g) {
      if g != h {
        var k :| 0 <= k < ROWS && w.rows[k].spec.Some? && w.rows[k].handle == g;
        assert out.rows[k] == w.rows[k];
      }
    }
    forall k | 0 <= k < ROWS && k != i && w.rows[k].spec.Some?
      ensures w.rows[k].handle != h && w.rows[k].handle != w.rows[i].handle
    {
      if k < i { assert w.rows[k].handle != w.rows[i].handle; }
    }
  }

  lemma Dropped(w: World, i: nat)
    requires Agree(w) && i < ROWS && w.rows[i].spec.Some?
    ensures Agree(Drop(w, i))
  {
    var out := Drop(w, i);
    forall g | g in out.fw ensures Owned(out.rows, g) {
      var k :| 0 <= k < ROWS && w.rows[k].spec.Some? && w.rows[k].handle == g;
      assert out.rows[k] == w.rows[k];
    }
  }

  // Anything the firmware does not see.
  lemma Edited(w: World, i: nat, row: Row)
    requires Agree(w) && i < ROWS && row.handle == w.rows[i].handle && row.spec.Some? == w.rows[i].spec.Some?
    requires row.spec.Some? ==> FwOf(row.spec.value) == FwOf(w.rows[i].spec.value)
    ensures Agree(w.(rows := w.rows[i := row]))
  {
    var out := w.(rows := w.rows[i := row]);
    forall g | g in out.fw ensures Owned(out.rows, g) {
      var k :| 0 <= k < ROWS && w.rows[k].spec.Some? && w.rows[k].handle == g;
      assert out.rows[k].spec.Some? && out.rows[k].handle == g;
    }
  }

  // ----- insert -----

  // Firmware never hands out a handle that is in use by another filter.
  predicate Fresh(w: World, i: nat, push: Reply)
    requires |w.rows| == ROWS && i < ROWS
  {
    push.Accepted? ==> push.handle !in w.fw || (w.rows[i].spec.Some? && push.handle == w.rows[i].handle)
  }

  lemma {:induction false} TidyAgrees(w: World, doomed: seq<nat>, rc: int, unsub: nat -> int)
    requires Agree(w) && forall k :: 0 <= k < |doomed| ==> doomed[k] < ROWS && w.rows[doomed[k]].spec.Some?
    requires forall k, l :: 0 <= k < l < |doomed| ==> doomed[k] != doomed[l]
    ensures Agree(Tidy(w, doomed, rc, unsub).world)
    decreases |doomed|
  {
    if doomed != [] && rc == 0 && unsub(doomed[0]) == 0 {
      Dropped(w, doomed[0]);
      assert forall k :: 0 <= k < |doomed[1..]| ==> doomed[1..][k] == doomed[k + 1];
      TidyAgrees(Drop(w, doomed[0]), doomed[1..], 0, unsub);
    }
  }

  lemma PlacedAgrees(w: World, ins: nat, spec: Spec, push: Reply)
    requires Agree(w) && ins < ROWS && Fresh(w, ins, push)
    requires w.rows[ins].spec.Some? ==> Holds(w.rows[ins], spec.key)
    ensures Agree(Placed(w, ins, spec, push))
  {
    match push
    case Accepted(h) =>
      match w.rows[ins].spec {
        case None => Created(w, ins, spec, h);
        case Some(saved) =>
          Moved(w, ins, Merged(saved, spec), h, w.rows[ins].stale);
          assert FwReplace(w.fw, w.rows[ins].handle, spec, h) == FwReplace(w.fw, w.rows[ins].handle, Merged(saved, spec), h);
      }
    case Failed(_) =>
      if w.rows[ins].spec.None? { Edited(w, ins, w.rows[ins].(spec := None, stale := false)); }
  }

  lemma InsertAgrees(nic: Nic, w: World, spec: Spec, replaceEqual: bool, env: InsertEnv)
    requires Agree(w) && TableOk(nic, w.rows)
    requires var scan := SearchAll(nic, w.rows, spec, replaceEqual);
      scan.Place? ==> Fresh(w, scan.ins, env.push)
    ensures Agree(Insert(nic, w, spec, replaceEqual, env).world)
  {
    var scan := SearchAll(nic, w.rows, spec, replaceEqual);
    if Admit(nic, spec) == 0 && scan.Place? {
      var ins := scan.ins;
      ScanTargets(nic, w.rows, spec, replaceEqual);
      if Renews(w.rows[ins], spec) {
        Edited(w, ins, Renewed(w.rows[ins], w.rows[ins].spec.value));
      } else if w.rows[ins].spec.Some? || env.memory {
        PlacedAgrees(w, ins, spec, env.push);
        TidyAgrees(Placed(w, ins, spec, env.push), scan.doomed, PushRc(env.push), env.unsub);
      }
    }
  }

  // The search picks a free row or one of the match, and dooms other rows of it.
  lemma ScanTargets(nic: Nic, rows: seq<Row>, spec: Spec, replaceEqual: bool)
    requires TableOk(nic, rows)
    ensures match SearchAll(nic, rows, spec, replaceEqual)
      case Refuse(_) => true
      case Place(ins, doomed) =>
        && (rows[ins].spec.Some? ==> Holds(rows[ins], spec.key))
        && (forall k :: 0 <= k < |doomed| ==> Holds(rows[doomed[k]], spec.key) && doomed[k] != ins)
        && (forall k, l :: 0 <= k < l < |doomed| ==> doomed[k] != doomed[l])
  {
    if nic.multi(spec.key) {
      assert Gathered(nic, rows, spec, replaceEqual, 1, None, []);
      SearchMulti(nic, rows, spec, replaceEqual, 1, None, []);
    } else {
      SearchSingle(nic, rows, spec, replaceEqual, 1, None);
    }
  }

  // ----- remove -----

  // The driver forgets a filter that the firmware did not confirm removed.
  predicate Loses(w: World, mask: set<nat>, i: nat, env: RemoveEnv)
    requires |w.rows| == ROWS && i < ROWS
  {
    && w.rows[i].spec.Some? && !w.rows[i].spec.value.flags.overAuto && w.rows[i].spec.value.priority in mask
    && env.remove != 0 && (env.remove == -ENOENT || env.remove == -EIO || env.resetPending)
  }

  /** A removal keeps the agreement exactly when it does not drop the row of a filter
      that the firmware still has: on -ENOENT, -EIO or a pending reset it does. */
  lemma RemoveAgreesIff(nic: Nic, w: World, mask: set<nat>, i: nat, env: RemoveEnv)
    requires Agree(w) && i < ROWS && Fresh(w, i, env.push)
    ensures Agree(Remove(nic, w, mask, i, env).world) <==> !Loses(w, mask, i, env)
  {
    if w.rows[i].spec.Some? {
      var spec := w.rows[i].spec.value;
      if spec.flags.overAuto && mask == {AUTO} {
        Edited(w, i, w.rows[i].(spec := Some(spec.(flags := spec.flags.(overAuto := false))), stale := false));
      } else if spec.priority in mask {
        if spec.flags.overAuto {
          if env.push.Accepted? { Moved(w, i, AutoReset(nic, spec), env.push.handle, w.rows[i].stale); }
        } else if env.remove == 0 {
          Dropped(w, i);
        } else if Loses(w, mask, i, env) {
          LostIsNotAgreed(w, i, w.rows[i].(spec := None, stale := false));
        }
      }
    }
  }

  lemma LostIsNotAgreed(w: World, i: nat, row: Row)
    requires Agree(w) && i < ROWS && w.rows[i].spec.Some? && row.spec.None?
    ensures !Agree(w.(rows := w.rows[i := row]))
  {
    var out := w.(rows := w.rows[i := row]);
    forall k | 0 <= k < ROWS && out.rows[k].spec.Some? ensures out.rows[k].handle != w.rows[i].handle {
      assert k != i && w.rows[k].spec.Some?;
    }
    assert !Owned(out.rows, w.rows[i].handle);
  }

  lemma RemoveOk(nic: Nic, w: World, mask: set<nat>, i: nat, env: RemoveEnv)
    requires TableOk(nic, w.rows) && i < ROWS
    ensures TableOk(nic, Remove(nic, w, mask, i, env).world.rows)
  {
    var out := Remove(nic, w, mask, i, env).world;
    SameKeyOk(nic, w.rows, i, out.rows[i]);
    assert out.rows == w.rows[i := out.rows[i]];
  }

  lemma SameKeyOk(nic: Nic, rows: seq<Row>, i: nat, row: Row)
    requires TableOk(nic, rows) && i < ROWS
    requires row.spec.Some? ==> rows[i].spec.Some? && row.spec.value.key == rows[i].spec.value.key
    requires row.spec.Some? && row.spec.value.flags.overAuto ==> row.spec.value.priority > AUTO
    ensures TableOk(nic, rows[i := row])
  {
    if row.spec.Some? && !nic.multi(row.spec.value.key) {
      forall j | 0 <= j < ROWS && j != i ensures !Holds(rows[j], row.spec.value.key) {
        assert Holds(rows[i], row.spec.value.key);
      }
    }
    SetRowOk(nic, rows, i, row);
  }

  // ----- clear and sweep: removals row by row -----

  ghost predicate ClearLegal(nic: Nic, w: World, mask: set<nat>, from: nat, env: nat -> RemoveEnv)
    requires |w.rows| == ROWS && from <= ROWS
    decreases ROWS - from
  {
    from < ROWS ==>
      Fresh(w, from, env(from).push) && !Loses(w, mask, from, env(from)) &&
      ClearLegal(nic, Remove(nic, w, mask, from, env(from)).world, mask, from + 1, env)
  }

  lemma {:induction false} ClearAgrees(nic: Nic, w: World, mask: set<nat>, from: nat, env: nat -> RemoveEnv)
    requires Agree(w) && TableOk(nic, w.rows) && from <= ROWS && ClearLegal(nic, w, mask, from, env)
    ensures var out := Clear(nic, w, mask, from, env).world; Agree(out) && TableOk(nic, out.rows)
    decreases ROWS - from
  {
    if from < ROWS {
      RemoveAgreesIff(nic, w, mask, from, env(from));
      RemoveOk(nic, w, mask, from, env(from));
      ClearAgrees(nic, Remove(nic, w, mask, from, env(from)).world, mask, from + 1, env);
    }
  }

  ghost predicate SweepLegal(nic: Nic, w: World, from: nat, env: nat -> RemoveEnv)
    requires |w.rows| == ROWS && from <= ROWS
    decreases ROWS - from
  {
    from < ROWS ==>
      if w.rows[from].stale then
        Fresh(w, from, env(from).push) && !Loses(w, {AUTO}, from, env(from)) &&
        SweepLegal(nic, Remove(nic, w, {AUTO}, from, env(from)).world, from + 1, env)
      else SweepLegal(nic, w, from + 1, env)
  }

  lemma {:induction false} SweepAgrees(nic: Nic, w: World, from: nat, env: nat -> RemoveEnv)
    requires Agree(w) && TableOk(nic, w.rows) && from <= ROWS && SweepLegal(nic, w, from, env)
    ensures var out := Sweep(nic, w, from, env); Agree(out) && TableOk(nic, out.rows)
    decreases ROWS - from
  {
    if from < ROWS {
      if w.rows[from].stale {
        RemoveAgreesIff(nic, w, {AUTO}, from, env(from));
        RemoveOk(nic, w, {AUTO}, from, env(from));
        SweepAgrees(nic, Remove(nic, w, {AUTO}, from, env(from)).world, from + 1, env);
      } else {
        SweepAgrees(nic, w, from + 1, env);
      }
    }
  }

  // ----- redirect -----

  lemma RedirectAgrees(nic: Nic, w: World, id: nat, rss: Option<nat>, queue: nat, stack: nat, push: Reply)
    requires Agree(w) && TableOk(nic, w.rows) && Fresh(w, id % ROWS, push)
    ensures var out := Redirect(nic, w, id, rss, queue, stack, push).world; Agree(out) && TableOk(nic, out.rows)
  {
    var i := id % ROWS;
    var out := Redirect(nic, w, id, rss, queue, stack, push).world;
    if out != w {
      Moved(w, i, out.rows[i].spec.value, push.handle, w.rows[i].stale);
      assert out.rows == w.rows[i := out.rows[i]];
      SameKeyOk(nic, w.rows, i, out.rows[i]);
    }
  }

  // ----- runs -----

  datatype Op =
    | InsertOp(spec: Spec, replaceEqual: bool, env: InsertEnv)
    | RemoveOp(mask: set<nat>, row: nat, answers: RemoveEnv)
    | ClearOp(priority: nat, each: nat -> RemoveEnv)
    | RedirectOp(id: nat, rss: Option<nat>, queue: nat, stack: nat, push: Reply)
    | MarkOp(marked: nat)
    | SweepOp(swept: nat -> RemoveEnv)

  ghost predicate Legal(nic: Nic, w: World, op: Op)
    requires |w.rows| == ROWS
  {
    match op
    case InsertOp(spec, replaceEqual, env) =>
      && !spec.flags.overAuto && (env.push.Failed? ==> env.push.rc < 0)
      && var scan := SearchAll(nic, w.rows, spec, replaceEqual);
         scan.Place? ==> Fresh(w, scan.ins, env.push)
    case RemoveOp(mask, i, env) => i < ROWS && Fresh(w, i, env.push) && !Loses(w, mask, i, env)
    case ClearOp(priority, env) => ClearLegal(nic, w, ClearMask(priority), 0, env)
    case RedirectOp(id, _, _, _, push) => Fresh(w, id % ROWS, push)
    case MarkOp(i) => i < ROWS
    case SweepOp(env) => SweepLegal(nic, w, 0, env)
  }

  ghost function Apply(nic: Nic, w: World, op: Op): (out: World)
    requires |w.rows| == ROWS && Legal(nic, w, op)
    ensures |out.rows| == ROWS
  {
    match op
    case InsertOp(spec, replaceEqual, env) => Insert(nic, w, spec, replaceEqual, env).world
    case RemoveOp(mask, i, env) => Remove(nic, w, mask, i, env).world
    case ClearOp(priority, env) => Clear(nic, w, ClearMask(priority), 0, env).world
    case RedirectOp(id, rss, queue, stack, push) => Redirect(nic, w, id, rss, queue, stack, push).world
    case MarkOp(i) => w.(rows := Mark(w.rows, i))
    case SweepOp(env) => Sweep(nic, w, 0, env)
  }

  ghost predicate Run(nic: Nic, w: World, ops: seq<Op>, end: World)
    requires |w.rows| == ROWS
    decreases |ops|
  {
    if ops == [] then w == end
    else Legal(nic, w, ops[0]) && Run(nic, Apply(nic, w, ops[0]), ops[1..], end)
  }

  lemma OpAgrees(nic: Nic, w: World, op: Op)
    requires Agree(w) && TableOk(nic, w.rows) && Legal(nic, w, op)
    ensures Agree(Apply(nic, w, op)) && TableOk(nic, Apply(nic, w, op).rows)
  {
    match op
    case InsertOp(spec, replaceEqual, env) =>
      InsertAgrees(nic, w, spec, replaceEqual, env);
      InsertOk(nic, w, spec, replaceEqual, env);
    case RemoveOp(mask, i, env) =>
      RemoveAgreesIff(nic, w, mask, i, env);
      RemoveOk(nic, w, mask, i, env);
    case ClearOp(priority, env) => ClearAgrees(nic, w, ClearMask(priority), 0, env);
    case RedirectOp(id, rss, queue, stack, push) => RedirectAgrees(nic, w, id, rss, queue, stack, push);
    case MarkOp(i) =>
      Edited(w, i, w.rows[i].(stale := true));
      SameKeyOk(nic, w.rows, i, w.rows[i].(stale := true));
    case SweepOp(env) => SweepAgrees(nic, w, 0, env);
  }

  /** Along every run, occupied rows and live firmware filters stay matched one to one,
      every row stays in its probe window, and a single-recipient match in one row. */
  lemma {:induction false} EveryRunAgrees(nic: Nic, w: World, ops: seq<Op>, end: World)
    requires Agree(w) && TableOk(nic, w.rows) && Run(nic, w, ops, end)
    ensures Agree(end) && TableOk(nic, end.rows)
    decreases |ops|
  {
    if ops != [] {
      OpAgrees(nic, w, ops[0]);
      EveryRunAgrees(nic, Apply(nic, w, ops[0]), ops[1..], end);
    }
  }
}
