/**
 One row as two layers: an automatic filter underneath and a user filter on top.
 The driver stores a single specification and one flag; this module proves that
 the flag is all it takes.
 */
module FilterLayers {
  import opened Options
  import opened Filters
  import opened FilterShape

  // What a user asked for, without the driver's own override flag.
  datatype Filter = Filter(priority: nat, flags: Flags, queue: nat, rss: nat)

  datatype Layers = Layers(auto: bool, user: Option<Filter>)

  function FilterOf(spec: Spec): Filter {
    Filter(spec.priority, spec.flags.(overAuto := false), spec.queue, spec.rss)
  }

  function LayersOf(cell: Option<Cell>): Layers {
    match cell
    case None => Layers(false, None)
    case Some(c) =>
      if c.spec.priority == AUTO then Layers(true, None)
      else Layers(c.spec.flags.overAuto, Some(FilterOf(c.spec)))
  }

  function LayersAt(rows: seq<Row>, key: Key): Layers {
    LayersOf(CellOf(rows, key))
  }

  // ----- the two-layer machine -----

  function PutUser(l: Layers, f: Filter): Layers {
    l.(user := Some(f))
  }

  // An automatic filter goes underneath, except that it replaces a mere hint.
  function PutAuto(l: Layers): Layers {
    Layers(true, if l.user.Some? && l.user.value.priority < AUTO then None else l.user)
  }

  function TakeUser(l: Layers, mask: set<nat>): Layers {
    if l.user.Some? && l.user.value.priority in mask then l.(user := None) else l
  }

  function TakeAuto(l: Layers): Layers {
    l.(auto := false)
  }

  // The priority a new filter has to reach: that of the topmost layer.
  function Top(l: Layers): nat {
    if l.user.Some? then l.user.value.priority else if l.auto then AUTO else 0
  }

  /** An insert of a single-recipient match refines the two-layer machine: on success
      its key gets the new layer and every other key keeps both; on failure all keep
      theirs.  With a willing firmware it fails with -EPERM exactly below the top
      layer and with -EEXIST exactly at it, unless told to replace. */
  lemma InsertRefines(nic: Nic, w: World, spec: Spec, replaceEqual: bool, env: InsertEnv)
    requires TableOk(nic, w.rows) && !nic.multi(spec.key) && !spec.flags.overAuto
    requires spec.priority >= HINT && (env.push.Failed? ==> env.push.rc < 0)
    ensures var out := Insert(nic, w, spec, replaceEqual, env);
      forall k :: LayersAt(out.world.rows, k) ==
        if k != spec.key || out.rc < 0 then LayersAt(w.rows, k)
        else if spec.priority == AUTO then PutAuto(LayersAt(w.rows, k))
        else PutUser(LayersAt(w.rows, k), FilterOf(spec))
    ensures var rc := Insert(nic, w, spec, replaceEqual, env).rc;
      var top := Top(LayersAt(w.rows, spec.key));
      Admit(nic, spec) == 0 && env.memory && env.push.Accepted? && CellOf(w.rows, spec.key).Some? ==>
        && (rc == -EPERM <==> spec.priority < top && spec.priority != AUTO)
        && (rc == -EEXIST <==> spec.priority == top && !replaceEqual)
        && (rc >= 0 <==> rc != -EPERM && rc != -EEXIST)
  {
    InsertSingle(nic, w, spec, replaceEqual, env);
    if Admit(nic, spec) == 0 && env.memory && env.push.Accepted? {
      InsertSingleRc(nic, w, spec, replaceEqual, env);
    }
    var out := Insert(nic, w, spec, replaceEqual, env);
    if out.rc >= 0 {
      SuccessIsNotBelow(nic, w, spec, replaceEqual, env);
      InsertedLayers(CellOf(w.rows, spec.key), spec);
    }
  }

  // An insert that succeeds was not below what it found.
  lemma SuccessIsNotBelow(nic: Nic, w: World, spec: Spec, replaceEqual: bool, env: InsertEnv)
    requires TableOk(nic, w.rows) && !nic.multi(spec.key) && Insert(nic, w, spec, replaceEqual, env).rc >= 0
    ensures var cell := CellOf(w.rows, spec.key);
      cell.Some? ==> spec.priority >= cell.value.spec.priority || spec.priority == AUTO
  {
    SearchSingle(nic, w.rows, spec, replaceEqual, 1, None);
  }

  lemma InsertedLayers(cell: Option<Cell>, spec: Spec)
    requires !spec.flags.overAuto
    requires cell.Some? ==> spec.priority >= cell.value.spec.priority || spec.priority == AUTO
    requires cell.Some? && cell.value.spec.flags.overAuto ==> cell.value.spec.priority > AUTO
    ensures LayersOf(Some(InsertedCell(cell, spec))) ==
      if spec.priority == AUTO then PutAuto(LayersOf(cell)) else PutUser(LayersOf(cell), FilterOf(spec))
  {
  }

  /** A removal refines the two-layer machine: asking for the automatic priority takes
      the automatic layer and never the user's; any other request takes the user
      layer and leaves the automatic one. */
  lemma RemoveRefines(nic: Nic, w: World, mask: set<nat>, i: nat, env: RemoveEnv)
    requires TableOk(nic, w.rows) && i < ROWS && w.rows[i].spec.Some? && !nic.multi(w.rows[i].spec.value.key)
    requires mask == {AUTO} || AUTO !in mask
    requires env.push.Accepted? && env.remove == 0
    ensures var out := Remove(nic, w, mask, i, env);
      forall k :: LayersAt(out.world.rows, k) ==
        if k != w.rows[i].spec.value.key then LayersAt(w.rows, k)
        else if mask == {AUTO} then TakeAuto(LayersAt(w.rows, k))
        else TakeUser(LayersAt(w.rows, k), mask)
  {
    RemoveSingle(nic, w, mask, i, env);
  }

  // ----- override and restore -----

  // The form in which a removal gives an automatic filter back.
  predicate Default(nic: Nic, spec: Spec) {
    spec == AutoReset(nic, spec)
  }

  lemma FilterIdParts(pri: nat, i: nat)
    requires i < ROWS
    ensures FilterId(pri, i) % ROWS == i && FilterId(pri, i) / (ROWS * 2) == pri
  {
  }

  /** A successful insert returns the id of the row that now holds the match; only an
      automatic one that finds an automatic or higher filter there returns the bare row. */
  lemma InsertReturnsId(nic: Nic, w: World, spec: Spec, replaceEqual: bool, env: InsertEnv)
    requires TableOk(nic, w.rows) && !nic.multi(spec.key) && !spec.flags.overAuto
    requires env.push.Failed? ==> env.push.rc < 0
    requires Insert(nic, w, spec, replaceEqual, env).rc >= 0
    ensures var out := Insert(nic, w, spec, replaceEqual, env);
      var i := FindKey(out.world.rows, spec.key);
      i < ROWS && out.rc == if Renews(w.rows[i], spec) then i else FilterId(MatchPri(nic.masks, nic.mask(spec.key)), i)
  {
    SearchSingle(nic, w.rows, spec, replaceEqual, 1, None);
    InsertSingle(nic, w, spec, replaceEqual, env);
    var out := Insert(nic, w, spec, replaceEqual, env);
    var ins := SearchAll(nic, w.rows, spec, replaceEqual).ins;
    FindKeyIs(nic, out.world.rows, spec.key, ins);
  }

  /** Insert over an automatic filter, then remove by the id returned: the automatic
      filter is back in its row with its mark, and it is the very same specification
      exactly when it had the default form that the driver gives its own filters. */
  lemma OverrideRoundTrip(nic: Nic, w: World, spec: Spec, replaceEqual: bool, env: InsertEnv, env2: RemoveEnv)
    requires TableOk(nic, w.rows) && !nic.multi(spec.key) && !spec.flags.overAuto && spec.priority > AUTO
    requires CellOf(w.rows, spec.key).Some? && CellOf(w.rows, spec.key).value.spec.priority == AUTO
    requires env.push.Accepted? && env2.push.Accepted? && env2.remove == 0
    requires Insert(nic, w, spec, replaceEqual, env).rc >= 0
    ensures var mid := Insert(nic, w, spec, replaceEqual, env);
      var out := RemoveById(nic, mid.world, spec.priority, mid.rc, env2);
      var before := CellOf(w.rows, spec.key).value;
      out.rc == 0 &&
      CellOf(out.world.rows, spec.key) == Some(Cell(AutoReset(nic, before.spec), before.stale)) &&
      (CellOf(out.world.rows, spec.key) == CellOf(w.rows, spec.key) <==> Default(nic, before.spec)) &&
      (forall k :: k != spec.key ==> CellOf(out.world.rows, k) == CellOf(w.rows, k))
  {
    var mid := Insert(nic, w, spec, replaceEqual, env);
    InsertSingle(nic, w, spec, replaceEqual, env);
    InsertReturnsId(nic, w, spec, replaceEqual, env);
    var i := FindKey(mid.world.rows, spec.key);
    FilterIdParts(MatchPri(nic.masks, nic.mask(spec.key)), i);
    RemoveSingle(nic, mid.world, {spec.priority}, i, env2);
  }
}
