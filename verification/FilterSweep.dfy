/**
 Mark and sweep of the automatic filters: rows are marked old, the filters that are
 still wanted are inserted again, users come and go meanwhile, and the sweep removes
 what was not renewed.
 */
module FilterSweep {
  import opened Options
  import opened Filters
  import opened FilterShape
  import opened FilterLayers

  // ----- marking -----

  function MarkAll(rows: seq<Row>, ids: seq<nat>): (marked: seq<Row>)
    requires |rows| == ROWS && forall k :: 0 <= k < |ids| ==> ids[k] < ROWS
    ensures |marked| == ROWS
    ensures forall i :: 0 <= i < ROWS ==> marked[i] == rows[i].(stale := rows[i].stale || i in ids)
    decreases |ids|
  {
    if ids == [] then rows
    else
      var marked := MarkAll(Mark(rows, ids[0]), ids[1..]);
      assert forall i :: i in ids <==> i == ids[0] || i in ids[1..];
      marked
  }

  lemma SameSpecsOk(nic: Nic, rows: seq<Row>, after: seq<Row>)
    requires TableOk(nic, rows) && |after| == ROWS && forall i :: 0 <= i < ROWS ==> after[i].spec == rows[i].spec
    ensures TableOk(nic, after)
  {
  }

  lemma SameSpecsFind(rows: seq<Row>, after: seq<Row>, key: Key)
    requires |rows| == |after| && forall i :: 0 <= i < |rows| ==> after[i].spec == rows[i].spec
    ensures FindKey(after, key) == FindKey(rows, key)
  {
    var i, j := FindKey(rows, key), FindKey(after, key);
    if i < |rows| { assert Holds(after[i], key); }
    if j < |rows| { assert Holds(rows[j], key); }
  }

  lemma MarkedCell(nic: Nic, rows: seq<Row>, ids: seq<nat>, key: Key)
    requires TableOk(nic, rows) && forall k :: 0 <= k < |ids| ==> ids[k] < ROWS
    ensures TableOk(nic, MarkAll(rows, ids))
    ensures var i := FindKey(rows, key);
      CellOf(MarkAll(rows, ids), key) ==
      if i < ROWS then Some(Cell(rows[i].spec.value, rows[i].stale || i in ids)) else None
  {
    var marked := MarkAll(rows, ids);
    SameSpecsOk(nic, rows, marked);
    SameSpecsFind(rows, marked, key);
  }

  // ----- the mix of renewals and user activity -----

  datatype Step =
    | Put(spec: Spec, replaceEqual: bool, env: InsertEnv)
    | Take(mask: set<nat>, row: nat, answers: RemoveEnv)

  ghost predicate Legal(nic: Nic, w: World, step: Step) {
    |w.rows| == ROWS &&
    match step
    case Put(spec, _, env) =>
      !nic.multi(spec.key) && !spec.flags.overAuto && spec.priority >= HINT && (env.push.Failed? ==> env.push.rc < 0)
    case Take(mask, i, env) =>
      i < ROWS && AUTO !in mask && env.push.Accepted? && env.remove == 0 &&
      (w.rows[i].spec.Some? ==> !nic.multi(w.rows[i].spec.value.key))
  }

  function Apply(nic: Nic, w: World, step: Step): Outcome
    requires |w.rows| == ROWS && (step.Take? ==> step.row < ROWS)
  {
    match step
    case Put(spec, replaceEqual, env) => Insert(nic, w, spec, replaceEqual, env)
    case Take(mask, i, env) => Remove(nic, w, mask, i, env)
  }

  ghost predicate Run(nic: Nic, w: World, steps: seq<Step>, end: World)
    decreases |steps|
  {
    |end.rows| == ROWS &&
    if steps == [] then w == end
    else Legal(nic, w, steps[0]) && Run(nic, Apply(nic, w, steps[0]).world, steps[1..], end)
  }

  predicate Renewal(nic: Nic, w: World, step: Step, key: Key)
    requires |w.rows| == ROWS && (step.Take? ==> step.row < ROWS)
  {
    step.Put? && step.spec.key == key && step.spec.priority == AUTO && Apply(nic, w, step).rc >= 0
  }

  // Was the automatic filter of a key inserted again along the run?
  ghost predicate WasRenewed(nic: Nic, w: World, steps: seq<Step>, key: Key)
    decreases |steps|
  {
    steps != [] && Legal(nic, w, steps[0]) &&
    (Renewal(nic, w, steps[0], key) || WasRenewed(nic, Apply(nic, w, steps[0]).world, steps[1..], key))
  }

  // A renewal that leaves the row unmarked: any but one that replaces a marked hint.
  ghost predicate Freshens(nic: Nic, w: World, step: Step, key: Key)
    requires |w.rows| == ROWS && (step.Take? ==> step.row < ROWS)
  {
    Renewal(nic, w, step, key) && !StaleHint(CellOf(w.rows, key))
  }

  ghost predicate WasFreshened(nic: Nic, w: World, steps: seq<Step>, key: Key)
    decreases |steps|
  {
    steps != [] && Legal(nic, w, steps[0]) &&
    (Freshens(nic, w, steps[0], key) || WasFreshened(nic, Apply(nic, w, steps[0]).world, steps[1..], key))
  }

  // ----- what the mix keeps of one key -----

  predicate HasAuto(cell: Option<Cell>) {
    LayersOf(cell).auto
  }

  predicate StaleHint(cell: Option<Cell>) {
    cell.Some? && cell.value.spec.priority < AUTO && cell.value.stale
  }

  // An automatic layer that the sweep will leave alone.
  predicate Safe(cell: Option<Cell>) {
    HasAuto(cell) && !cell.value.stale
  }

  // How a cell relates to the one at the start of the mix.
  predicate Tracks(start: Option<Cell>, cell: Option<Cell>, kept: bool) {
    && (Safe(cell) <==> Safe(start) || kept)
    && (StaleHint(cell) ==> StaleHint(start))
    && (cell.Some? && cell.value.spec.flags.overAuto ==> cell.value.spec.priority > AUTO)
  }

  lemma PutTracks(start: Option<Cell>, cell: Option<Cell>, kept: bool, spec: Spec)
    requires Tracks(start, cell, kept) && !spec.flags.overAuto && spec.priority >= HINT
    requires cell.Some? ==> spec.priority >= cell.value.spec.priority || spec.priority == AUTO
    ensures Tracks(start, Some(InsertedCell(cell, spec)), kept || (spec.priority == AUTO && !StaleHint(cell)))
  {
    InsertedLayers(cell, spec);
  }

  lemma TakeTracks(nic: Nic, start: Option<Cell>, cell: Cell, kept: bool, mask: set<nat>)
    requires Tracks(start, Some(cell), kept) && AUTO !in mask
    ensures Tracks(start, RemovedCell(nic, cell, mask), kept)
  {
  }

  lemma StepTracks(nic: Nic, w: World, step: Step, key: Key, start: Option<Cell>, kept: bool)
    requires TableOk(nic, w.rows) && Legal(nic, w, step) && !nic.multi(key)
    requires Tracks(start, CellOf(w.rows, key), kept)
    ensures var after := Apply(nic, w, step).world.rows;
      TableOk(nic, after) && Tracks(start, CellOf(after, key), kept || Freshens(nic, w, step, key))
  {
    match step
    case Put(spec, replaceEqual, env) =>
      InsertSingle(nic, w, spec, replaceEqual, env);
      if spec.key == key && Apply(nic, w, step).rc >= 0 {
        SuccessIsNotBelow(nic, w, spec, replaceEqual, env);
        PutTracks(start, CellOf(w.rows, key), kept, spec);
      }
    case Take(mask, i, env) =>
      if w.rows[i].spec.Some? {
        RemoveSingle(nic, w, mask, i, env);
        if w.rows[i].spec.value.key == key {
          TakeTracks(nic, start, CellOf(w.rows, key).value, kept, mask);
        }
      }
  }

  lemma {:induction false} RunTracks(nic: Nic, w: World, steps: seq<Step>, end: World, key: Key, start: Option<Cell>, kept: bool)
    requires TableOk(nic, w.rows) && Run(nic, w, steps, end) && !nic.multi(key)
    requires Tracks(start, CellOf(w.rows, key), kept)
    ensures TableOk(nic, end.rows)
    ensures Tracks(start, CellOf(end.rows, key), kept || WasFreshened(nic, w, steps, key))
    ensures !StaleHint(start) ==> (WasFreshened(nic, w, steps, key) <==> WasRenewed(nic, w, steps, key))
    decreases |steps|
  {
    if steps != [] {
      StepTracks(nic, w, steps[0], key, start, kept);
      RunTracks(nic, Apply(nic, w, steps[0]).world, steps[1..], end, key, start, kept || Freshens(nic, w, steps[0], key));
    }
  }

  // ----- the sweep -----

  function SweptCell(nic: Nic, cell: Option<Cell>): Option<Cell> {
    if cell.Some? && cell.value.stale then RemovedCell(nic, cell.value, {AUTO}) else cell
  }

  // Removing row i leaves the other single-recipient keys where they are.
  lemma RemoveFrame(nic: Nic, w: World, i: nat, env: RemoveEnv)
    requires TableOk(nic, w.rows) && i < ROWS && env.push.Accepted? && env.remove == 0
    ensures var out := Remove(nic, w, {AUTO}, i, env).world;
      && TableOk(nic, out.rows)
      && (forall j :: 0 <= j < ROWS && j != i ==> out.rows[j] == w.rows[j])
      && (out.rows[i].spec.Some? ==> w.rows[i].spec.Some? && out.rows[i].spec.value.key == w.rows[i].spec.value.key)
  {
    var out := Remove(nic, w, {AUTO}, i, env).world;
    if w.rows[i].spec.Some? {
      forall j | 0 <= j < ROWS && j != i && out.rows[i].spec.Some? && !nic.multi(out.rows[i].spec.value.key)
        ensures !Holds(w.rows[j], out.rows[i].spec.value.key)
      {
        assert Holds(w.rows[i], out.rows[i].spec.value.key);
      }
      SetRowOk(nic, w.rows, i, out.rows[i]);
      assert out.rows == w.rows[i := out.rows[i]];
    }
  }

  lemma {:induction false} SweepCell(nic: Nic, w: World, from: nat, env: nat -> RemoveEnv, key: Key)
    requires TableOk(nic, w.rows) && from <= ROWS && !nic.multi(key)
    requires forall i :: env(i).push.Accepted? && env(i).remove == 0
    ensures var out := Sweep(nic, w, from, env);
      TableOk(nic, out.rows) &&
      CellOf(out.rows, key) == if FindKey(w.rows, key) < from then CellOf(w.rows, key) else SweptCell(nic, CellOf(w.rows, key))
    decreases ROWS - from
  {
    if from < ROWS {
      if w.rows[from].stale {
        var next := Remove(nic, w, {AUTO}, from, env(from)).world;
        RemoveFrame(nic, w, from, env(from));
        SweepCell(nic, next, from + 1, env, key);
        var i, j := FindKey(w.rows, key), FindKey(next.rows, key);
        if i == from {
          RemoveSingle(nic, w, {AUTO}, from, env(from));
          if j < ROWS {
            assert Holds(next.rows[from], key);
            FindKeyIs(nic, next.rows, key, from);
          }
        } else {
          if i < ROWS { FindKeyIs(nic, next.rows, key, i); }
          if j < ROWS && j != from { FindKeyIs(nic, w.rows, key, j); }
        }
      } else {
        SweepCell(nic, w, from + 1, env, key);
      }
    }
  }

  // What the sweep makes of a cell.
  lemma SweptIs(nic: Nic, cell: Option<Cell>)
    requires cell.Some? && cell.value.spec.flags.overAuto ==> cell.value.spec.priority > AUTO
    ensures HasAuto(SweptCell(nic, cell)) <==> Safe(cell)
    ensures LayersOf(SweptCell(nic, cell)).user == LayersOf(cell).user
  {
  }

  /** After marking, any mix of renewals and user activity, and a sweep: a
      single-recipient match has an automatic layer exactly if it had one that was not
      marked, or was renewed other than over a marked hint; unless the row held a hint
      when it was marked, every renewal will do. And the sweep takes nobody's user filter. */
  lemma MarkRenewSweep(nic: Nic, w: World, ids: seq<nat>, steps: seq<Step>, end: World, env: nat -> RemoveEnv, key: Key)
    requires TableOk(nic, w.rows) && !nic.multi(key)
    requires forall k :: 0 <= k < |ids| ==> ids[k] < ROWS
    requires Run(nic, w.(rows := MarkAll(w.rows, ids)), steps, end)
    requires forall i :: env(i).push.Accepted? && env(i).remove == 0
    ensures var marked := w.(rows := MarkAll(w.rows, ids));
      var i := FindKey(w.rows, key);
      var swept := Sweep(nic, end, 0, env);
      && (LayersAt(swept.rows, key).auto <==>
           WasFreshened(nic, marked, steps, key) ||
           (LayersAt(w.rows, key).auto && !w.rows[i].stale && i !in ids))
      && (!StaleHint(CellOf(marked.rows, key)) ==>
           (WasFreshened(nic, marked, steps, key) <==> WasRenewed(nic, marked, steps, key)))
      && LayersAt(swept.rows, key).user == LayersAt(end.rows, key).user
  {
    MarkedCell(nic, w.rows, ids, key);
    var marked := w.(rows := MarkAll(w.rows, ids));
    var start := CellOf(marked.rows, key);
    assert HasAuto(start) <==> LayersAt(w.rows, key).auto;
    assert start.Some? && start.value.spec.flags.overAuto ==> start.value.spec.priority > AUTO;
    RunTracks(nic, marked, steps, end, key, start, false);
    SweepCell(nic, end, 0, env, key);
    SweptIs(nic, CellOf(end.rows, key));
  }

  /** A single renewal survives the next sweep exactly when it did not replace a hint whose
      row was marked. */
  lemma RenewalSurvives(nic: Nic, w: World, spec: Spec, replaceEqual: bool, env: InsertEnv, sweepEnv: nat -> RemoveEnv)
    requires TableOk(nic, w.rows) && Legal(nic, w, Put(spec, replaceEqual, env))
    requires spec.priority == AUTO && Insert(nic, w, spec, replaceEqual, env).rc >= 0
    requires forall i :: sweepEnv(i).push.Accepted? && sweepEnv(i).remove == 0
    ensures var after := Insert(nic, w, spec, replaceEqual, env).world;
      LayersAt(after.rows, spec.key).auto &&
      (LayersAt(Sweep(nic, after, 0, sweepEnv).rows, spec.key).auto <==> !StaleHint(CellOf(w.rows, spec.key)))
  {
    var after := Insert(nic, w, spec, replaceEqual, env).world;
    InsertSingle(nic, w, spec, replaceEqual, env);
    InsertRefines(nic, w, spec, replaceEqual, env);
    SweepCell(nic, after, 0, sweepEnv, spec.key);
  }

  // A table with one hint, in a marked row.
  lemma MarkedHint() returns (nic: Nic, w: World, hint: Spec)
    ensures TableOk(nic, w.rows) && !nic.multi(hint.key) && Admit(nic, hint.(priority := AUTO)) == 0
    ensures hint.priority == HINT && !hint.flags.overAuto && CellOf(w.rows, hint.key) == Some(Cell(hint, true))
  {
    nic := Nic(_ => 0, _ => false, _ => true, _ => 1, [1], map[], map[], false, false);
    var flags := Flags(false, false, false, true, false, false, false, false);
    hint := Spec(7, HINT, flags, 0, 0, 0, 0);
    var rows := seq(ROWS, i => if i == 1 then Row(Some(hint), true, 5) else Row(None, false, 0));
    w := World(rows, map[5 := FwOf(hint)]);
    assert Probe(nic, 7, 1) == 1 && InWindow(nic, 7, 1);
    assert Holds(rows[1], 7);
    assert TableOk(nic, rows);
    FindKeyIs(nic, rows, 7, 1);
  }

  /** The case is real: an automatic filter is inserted successfully over the hint, and the
      sweep removes it. */
  lemma RenewalLostExample() returns (nic: Nic, w: World, spec: Spec, env: InsertEnv, sweepEnv: nat -> RemoveEnv)
    ensures TableOk(nic, w.rows) && spec.priority == AUTO && Insert(nic, w, spec, false, env).rc >= 0
    ensures forall i :: sweepEnv(i).push.Accepted? && sweepEnv(i).remove == 0
    ensures var after := Insert(nic, w, spec, false, env).world;
      LayersAt(after.rows, spec.key).auto && !LayersAt(Sweep(nic, after, 0, sweepEnv).rows, spec.key).auto
  {
    var hint;
    nic, w, hint := MarkedHint();
    spec := hint.(priority := AUTO);
    env := InsertEnv(true, Accepted(6), _ => 0);
    sweepEnv := _ => RemoveEnv(Accepted(8), 0, false);
    InsertSingleRc(nic, w, spec, false, env);
    RenewalSurvives(nic, w, spec, false, env, sweepEnv);
  }
}
