/**
 Where filters sit in the table: every row stays inside the probe window of its
 hash, so a single-recipient match is held by one row at most and the whole table
 behaves as a map from matches to cells.
 */
module FilterShape {
  import opened Options
  import opened Filters

  predicate Holds(row: Row, key: Key) {
    row.spec.Some? && row.spec.value.key == key
  }

  predicate InWindow(nic: Nic, key: Key, i: nat) {
    exists d :: 1 <= d < SEARCH_LIMIT && Probe(nic, key, d) == i
  }

  predicate Windowed(nic: Nic, rows: seq<Row>) {
    forall i :: 0 <= i < |rows| && rows[i].spec.Some? ==> InWindow(nic, rows[i].spec.value.key, i)
  }

  predicate SingleRows(nic: Nic, rows: seq<Row>) {
    forall i, j :: 0 <= i < j < |rows| && rows[i].spec.Some? && Holds(rows[j], rows[i].spec.value.key) ==>
      nic.multi(rows[i].spec.value.key)
  }

  // Only a filter above the automatic priority can be overriding one.
  predicate OverridesOk(rows: seq<Row>) {
    forall i :: 0 <= i < |rows| && rows[i].spec.Some? && rows[i].spec.value.flags.overAuto ==>
      rows[i].spec.value.priority > AUTO
  }

  predicate TableOk(nic: Nic, rows: seq<Row>) {
    |rows| == ROWS && Windowed(nic, rows) && SingleRows(nic, rows) && OverridesOk(rows)
  }

  // ----- the row that holds a key -----

  // Index of the first row that holds the key, or |rows|.
  function FindKey(rows: seq<Row>, key: Key): (i: nat)
    ensures i <= |rows|
    ensures i < |rows| ==> Holds(rows[i], key)
    ensures forall j :: 0 <= j < i ==> !Holds(rows[j], key)
  {
    if rows == [] then 0
    else if Holds(rows[0], key) then 0
    else
      var i := FindKey(rows[1..], key);
      assert forall j :: 1 <= j < 1 + i ==> rows[j] == rows[1..][j - 1];
      1 + i
  }

  lemma FindKeyIs(nic: Nic, rows: seq<Row>, key: Key, i: nat)
    requires SingleRows(nic, rows) && !nic.multi(key) && i < |rows| && Holds(rows[i], key)
    ensures FindKey(rows, key) == i
  {
    var j := FindKey(rows, key);
    assert Holds(rows[i], rows[j].spec.value.key);
  }

  // The contents of a row: the specification and the AUTO_OLD mark.
  datatype Cell = Cell(spec: Spec, stale: bool)

  function CellOf(rows: seq<Row>, key: Key): Option<Cell> {
    var i := FindKey(rows, key);
    if i < |rows| then Some(Cell(rows[i].spec.value, rows[i].stale)) else None
  }

  // Changing one row leaves the cells of all other keys alone.
  lemma CellFrame(rows: seq<Row>, i: nat, row: Row, key: Key)
    requires i < |rows| && !Holds(rows[i], key) && !Holds(row, key)
    ensures CellOf(rows[i := row], key) == CellOf(rows, key)
  {
    var after := rows[i := row];
    var a, b := FindKey(rows, key), FindKey(after, key);
    if a < |rows| { assert Holds(after[a], key); }
    if b < |rows| { assert Holds(rows[b], key); }
  }

  // ----- the search for a single-recipient match -----

  lemma {:induction false} SearchSingle(nic: Nic, rows: seq<Row>, spec: Spec, replaceEqual: bool, depth: nat, ins: Option<nat>)
    requires TableOk(nic, rows) && !nic.multi(spec.key) && 1 <= depth <= SEARCH_LIMIT
    requires forall d :: 1 <= d < depth ==> !Holds(rows[Probe(nic, spec.key, d)], spec.key)
    requires ins.Some? ==> ins.value < ROWS && rows[ins.value].spec.None? && InWindow(nic, spec.key, ins.value)
    requires ins.None? ==> forall d :: 1 <= d < depth ==> rows[Probe(nic, spec.key, d)].spec.Some?
    ensures var found := FindKey(rows, spec.key);
      match Search(nic, rows, spec, replaceEqual, depth, ins, [])
      case Refuse(rc) =>
        if found < ROWS then Judge(nic, rows[found], spec, replaceEqual) == Reject(rc)
        else rc == -EBUSY && forall d :: 1 <= d < SEARCH_LIMIT ==> rows[Probe(nic, spec.key, d)].spec.Some?
      case Place(i, doomed) =>
        doomed == [] &&
        if found < ROWS then i == found && Judge(nic, rows[found], spec, replaceEqual) == Take
        else rows[i].spec.None? && InWindow(nic, spec.key, i)
    decreases SEARCH_LIMIT - depth
  {
    var found := FindKey(rows, spec.key);
    if depth < SEARCH_LIMIT {
      var i := Probe(nic, spec.key, depth);
      if Holds(rows[i], spec.key) {
        FindKeyIs(nic, rows, spec.key, i);
      } else {
        SearchSingle(nic, rows, spec, replaceEqual, depth + 1,
                     if rows[i].spec.None? && ins.None? then Some(i) else ins);
      }
    }
  }

  // ----- what one insert of a single-recipient match does to the cells -----

  function InsertedCell(cell: Option<Cell>, spec: Spec): Cell {
    match cell
    case None => Cell(spec, false)
    case Some(c) =>
      if spec.priority == AUTO && c.spec.priority >= AUTO then
        Cell(if c.spec.priority > AUTO then c.spec.(flags := c.spec.flags.(overAuto := true)) else c.spec, false)
      else Cell(Merged(c.spec, spec), c.stale)
  }

  lemma SetRowOk(nic: Nic, rows: seq<Row>, i: nat, row: Row)
    requires TableOk(nic, rows) && i < ROWS
    requires row.spec.Some? ==>
      var key := row.spec.value.key;
      InWindow(nic, key, i) && (row.spec.value.flags.overAuto ==> row.spec.value.priority > AUTO) &&
      (nic.multi(key) || forall j :: 0 <= j < ROWS && j != i ==> !Holds(rows[j], key))
    ensures TableOk(nic, rows[i := row])
  {
  }

  // Put a cell into row i, where its key already is or where there is room.
  lemma PutCell(nic: Nic, rows: seq<Row>, i: nat, row: Row)
    requires TableOk(nic, rows) && i < ROWS && row.spec.Some? && !nic.multi(row.spec.value.key)
    requires rows[i].spec.None? || rows[i].spec.value.key == row.spec.value.key
    requires rows[i].spec.None? ==> FindKey(rows, row.spec.value.key) == ROWS
    requires InWindow(nic, row.spec.value.key, i)
    requires row.spec.value.flags.overAuto ==> row.spec.value.priority > AUTO
    ensures TableOk(nic, rows[i := row])
    ensures CellOf(rows[i := row], row.spec.value.key) == Some(Cell(row.spec.value, row.stale))
    ensures forall k :: k != row.spec.value.key ==> CellOf(rows[i := row], k) == CellOf(rows, k)
  {
    var key := row.spec.value.key;
    if rows[i].spec.Some? { FindKeyIs(nic, rows, key, i); }
    assert forall j :: 0 <= j < ROWS && j != i ==> !Holds(rows[j], key);
    SetRowOk(nic, rows, i, row);
    FindKeyIs(nic, rows[i := row], key, i);
    forall k | k != key ensures CellOf(rows[i := row], k) == CellOf(rows, k) {
      CellFrame(rows, i, row, k);
    }
  }

  // Empty row i.
  lemma EmptyCell(nic: Nic, rows: seq<Row>, i: nat, row: Row)
    requires TableOk(nic, rows) && i < ROWS && row.spec.None?
    ensures TableOk(nic, rows[i := row])
    ensures rows[i].spec.Some? && !nic.multi(rows[i].spec.value.key) ==>
      CellOf(rows[i := row], rows[i].spec.value.key) == None
    ensures forall k :: !Holds(rows[i], k) ==> CellOf(rows[i := row], k) == CellOf(rows, k)
  {
    SetRowOk(nic, rows, i, row);
    if rows[i].spec.Some? && !nic.multi(rows[i].spec.value.key) {
      var key := rows[i].spec.value.key;
      FindKeyIs(nic, rows, key, i);
      var j := FindKey(rows[i := row], key);
      if j < ROWS { FindKeyIs(nic, rows, key, j); }
    }
    forall k | !Holds(rows[i], k) ensures CellOf(rows[i := row], k) == CellOf(rows, k) {
      CellFrame(rows, i, row, k);
    }
  }

  ghost predicate InsertsCell(rows: seq<Row>, out: Outcome, spec: Spec) {
    && (forall k :: k != spec.key || out.rc < 0 ==> CellOf(out.world.rows, k) == CellOf(rows, k))
    && (out.rc >= 0 ==> CellOf(out.world.rows, spec.key) == Some(InsertedCell(CellOf(rows, spec.key), spec)))
  }

  lemma InsertAtRenewed(nic: Nic, w: World, spec: Spec, env: InsertEnv, ins: nat)
    requires TableOk(nic, w.rows) && !nic.multi(spec.key) && ins < ROWS
    requires Holds(w.rows[ins], spec.key) && spec.priority == AUTO && w.rows[ins].spec.value.priority >= AUTO
    ensures var out := InsertAt(nic, w, spec, env, ins, []);
      TableOk(nic, out.world.rows) && InsertsCell(w.rows, out, spec) && out.rc >= 0
  {
    FindKeyIs(nic, w.rows, spec.key, ins);
    PutCell(nic, w.rows, ins, Renewed(w.rows[ins], w.rows[ins].spec.value));
  }

  lemma InsertAtReplaced(nic: Nic, w: World, spec: Spec, env: InsertEnv, ins: nat)
    requires TableOk(nic, w.rows) && !nic.multi(spec.key) && !spec.flags.overAuto && ins < ROWS
    requires Holds(w.rows[ins], spec.key) && spec.priority >= w.rows[ins].spec.value.priority
    requires !(spec.priority == AUTO && w.rows[ins].spec.value.priority >= AUTO)
    requires env.push.Accepted?
    ensures var out := InsertAt(nic, w, spec, env, ins, []);
      TableOk(nic, out.world.rows) && InsertsCell(w.rows, out, spec) && out.rc >= 0
  {
    FindKeyIs(nic, w.rows, spec.key, ins);
    PutCell(nic, w.rows, ins,
            w.rows[ins].(spec := Some(Merged(w.rows[ins].spec.value, spec)), handle := env.push.handle));
  }

  lemma InsertAtHeld(nic: Nic, w: World, spec: Spec, env: InsertEnv, ins: nat)
    requires TableOk(nic, w.rows) && !nic.multi(spec.key) && !spec.flags.overAuto && ins < ROWS
    requires env.push.Failed? ==> env.push.rc < 0
    requires Holds(w.rows[ins], spec.key)
    requires spec.priority >= w.rows[ins].spec.value.priority || spec.priority == AUTO
    ensures var out := InsertAt(nic, w, spec, env, ins, []);
      TableOk(nic, out.world.rows) && InsertsCell(w.rows, out, spec) && (out.rc < 0 ==> out.world.fw == w.fw)
  {
    if spec.priority == AUTO && w.rows[ins].spec.value.priority >= AUTO {
      InsertAtRenewed(nic, w, spec, env, ins);
    } else if env.push.Accepted? {
      InsertAtReplaced(nic, w, spec, env, ins);
    }
  }

  lemma InsertAtFree(nic: Nic, w: World, spec: Spec, env: InsertEnv, ins: nat)
    requires TableOk(nic, w.rows) && !nic.multi(spec.key) && !spec.flags.overAuto && ins < ROWS
    requires env.push.Failed? ==> env.push.rc < 0
    requires InWindow(nic, spec.key, ins) && w.rows[ins].spec.None? && FindKey(w.rows, spec.key) == ROWS
    ensures var out := InsertAt(nic, w, spec, env, ins, []);
      TableOk(nic, out.world.rows) && InsertsCell(w.rows, out, spec) && (out.rc < 0 ==> out.world.fw == w.fw)
  {
    var out := InsertAt(nic, w, spec, env, ins, []);
    if !env.memory {
      assert out.world == w && out.rc < 0;
    } else if env.push.Accepted? {
      var row := Row(Some(spec), false, env.push.handle);
      assert out.world.rows == w.rows[ins := row];
      PutCell(nic, w.rows, ins, row);
    } else {
      var row := w.rows[ins].(spec := None, stale := false);
      assert out.world.rows == w.rows[ins := row] && out.rc < 0;
      EmptyCell(nic, w.rows, ins, row);
    }
  }

  /** For a single-recipient match the table is a map: an insert that succeeds
      updates the cell of its own key, as InsertedCell says, and no other; one that
      fails changes no cell and no firmware filter. */
  lemma InsertSingle(nic: Nic, w: World, spec: Spec, replaceEqual: bool, env: InsertEnv)
    requires TableOk(nic, w.rows) && !nic.multi(spec.key) && !spec.flags.overAuto
    requires env.push.Failed? ==> env.push.rc < 0
    ensures var out := Insert(nic, w, spec, replaceEqual, env);
      TableOk(nic, out.world.rows) && InsertsCell(w.rows, out, spec) && (out.rc < 0 ==> out.world.fw == w.fw)
  {
    SearchSingle(nic, w.rows, spec, replaceEqual, 1, None);
    if Admit(nic, spec) == 0 {
      var scan := SearchAll(nic, w.rows, spec, replaceEqual);
      if scan.Place? {
        if w.rows[scan.ins].spec.Some? {
          InsertAtHeld(nic, w, spec, env, scan.ins);
        } else {
          InsertAtFree(nic, w, spec, env, scan.ins);
        }
      }
    }
  }

  /** When an insert of a single-recipient match succeeds: the cell it meets decides
      -EPERM and -EEXIST, and -EBUSY means that all 199 rows of the window are taken. */
  lemma InsertSingleRc(nic: Nic, w: World, spec: Spec, replaceEqual: bool, env: InsertEnv)
    requires TableOk(nic, w.rows) && !nic.multi(spec.key) && Admit(nic, spec) == 0
    requires env.memory && env.push.Accepted?
    ensures var rc := Insert(nic, w, spec, replaceEqual, env).rc;
      match CellOf(w.rows, spec.key)
      case Some(c) =>
        if spec.priority < c.spec.priority && spec.priority != AUTO then rc == -EPERM
        else if spec.priority == c.spec.priority && !replaceEqual then rc == -EEXIST
        else rc >= 0
      case None =>
        rc >= 0 || (rc == -EBUSY && forall d :: 1 <= d < SEARCH_LIMIT ==> w.rows[Probe(nic, spec.key, d)].spec.Some?)
  {
    SearchSingle(nic, w.rows, spec, replaceEqual, 1, None);
  }

  // ----- what one removal of a single-recipient match does to the cells -----

  function RemovedCell(nic: Nic, c: Cell, mask: set<nat>): Option<Cell> {
    if c.spec.flags.overAuto && mask == {AUTO} then
      Some(Cell(c.spec.(flags := c.spec.flags.(overAuto := false)), false))
    else if c.spec.priority !in mask then Some(c)
    else if c.spec.flags.overAuto then Some(Cell(AutoReset(nic, c.spec), c.stale))
    else None
  }

  /** A removal with a willing firmware updates the cell of the row's own key, as
      RemovedCell says, and no other cell. */
  lemma RemoveSingle(nic: Nic, w: World, mask: set<nat>, i: nat, env: RemoveEnv)
    requires TableOk(nic, w.rows) && i < ROWS && w.rows[i].spec.Some? && !nic.multi(w.rows[i].spec.value.key)
    requires env.push.Accepted? && env.remove == 0
    ensures var out := Remove(nic, w, mask, i, env);
      var key := w.rows[i].spec.value.key;
      && TableOk(nic, out.world.rows)
      && CellOf(w.rows, key) == Some(Cell(w.rows[i].spec.value, w.rows[i].stale))
      && CellOf(out.world.rows, key) == RemovedCell(nic, CellOf(w.rows, key).value, mask)
      && (forall k :: k != key ==> CellOf(out.world.rows, k) == CellOf(w.rows, k))
      && (forall j :: 0 <= j < ROWS && j != i ==> out.world.rows[j] == w.rows[j])
  {
    var key := w.rows[i].spec.value.key;
    var spec := w.rows[i].spec.value;
    FindKeyIs(nic, w.rows, key, i);
    if spec.flags.overAuto && mask == {AUTO} {
      PutCell(nic, w.rows, i, w.rows[i].(spec := Some(spec.(flags := spec.flags.(overAuto := false))), stale := false));
    } else if spec.priority in mask {
      if spec.flags.overAuto {
        PutCell(nic, w.rows, i, w.rows[i].(spec := Some(AutoReset(nic, spec)), handle := env.push.handle));
      } else {
        EmptyCell(nic, w.rows, i, w.rows[i].(spec := None, stale := false));
      }
    }
  }
}
