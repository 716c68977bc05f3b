/**
 What the table operations do for the caller who asked, in terms of the arguments: what
 the row and the firmware hold afterwards, which other rows change, and the answer.
 */
module FilterAnswers {
  import opened Options
  import opened Filters
  import opened FilterShape
  import opened FilterMulticast
  import opened FilterLayers
  import opened FilterAgreement

  // ----- the checks before the search -----

  predicate Blocked(nic: Nic, key: Key) {
    if nic.multi(key) then nic.blockedMulticast else nic.blockedUnicast
  }

  predicate WellFormed(nic: Nic, spec: Spec) {
    && spec.flags.rx && !(spec.flags.tx && spec.flags.loopback) && nic.sane(spec.key) && nic.mask(spec.key) in nic.masks
    && (spec.flags.vportId ==> Known(nic.vports, spec.vport))
    && (spec.flags.rss ==> Known(nic.rssContexts, spec.rss))
  }

  /** An insert is turned away before the search exactly if the filter is not well formed, or
      if it is automatic or a hint while its kind is blocked; only the latter is -EPERM. */
  lemma AdmittedIff(nic: Nic, spec: Spec)
    ensures Admit(nic, spec) == 0 <==> WellFormed(nic, spec) && !(spec.priority <= AUTO && Blocked(nic, spec.key))
    ensures Admit(nic, spec) == -EPERM <==> WellFormed(nic, spec) && spec.priority <= AUTO && Blocked(nic, spec.key)
  {
  }

  /** Blocking a kind of filter turns away every insert of that kind at automatic priority or
      below, changing nothing; one above is answered as if nothing were blocked. */
  lemma BlockedInsert(nic: Nic, w: World, spec: Spec, replaceEqual: bool, env: InsertEnv)
    requires |w.rows| == ROWS && Blocked(nic, spec.key)
    ensures var out := Insert(nic, w, spec, replaceEqual, env);
      if spec.priority <= AUTO then out.world == w && out.rc < 0
      else Admit(nic, spec) == Admit(nic.(blockedUnicast := false, blockedMulticast := false), spec)
  {
  }

  // ----- one row as two layers -----

  function CellIn(row: Row): Option<Cell> {
    if row.spec.Some? then Some(Cell(row.spec.value, row.stale)) else None
  }

  function RowLayers(row: Row): Layers {
    LayersOf(CellIn(row))
  }

  predicate RowOk(row: Row) {
    row.spec.Some? && row.spec.value.flags.overAuto ==> row.spec.value.priority > AUTO
  }

  // ----- remove -----

  // The layer that a removal asks for is there.
  predicate Asked(l: Layers, mask: set<nat>) {
    if mask == {AUTO} then l.auto else l.user.Some? && l.user.value.priority in mask
  }

  function Mapped(rc: int): int {
    if rc == -ENOSPC then -EBUSY else rc
  }

  /** A removal that asks for a layer which is not there answers -ENOENT and changes nothing;
      and whatever it does, it does to its own row. */
  lemma RemoveFindsNothing(nic: Nic, w: World, mask: set<nat>, i: nat, env: RemoveEnv)
    requires |w.rows| == ROWS && i < ROWS && RowOk(w.rows[i]) && (mask == {AUTO} || AUTO !in mask)
    ensures !Asked(RowLayers(w.rows[i]), mask) ==> Remove(nic, w, mask, i, env) == Outcome(w, -ENOENT)
    ensures forall j :: 0 <= j < ROWS && j != i ==> Remove(nic, w, mask, i, env).world.rows[j] == w.rows[j]
  {
  }

  /** Taking the user layer off an automatic filter gives the automatic filter back: to queue 0,
      spread over the default RSS context exactly if that exists. A firmware that refuses
      leaves everything as it was and its error is the answer. */
  lemma RemoveUncovers(nic: Nic, w: World, mask: set<nat>, i: nat, env: RemoveEnv)
    requires |w.rows| == ROWS && i < ROWS && RowOk(w.rows[i]) && AUTO !in mask
    requires RowLayers(w.rows[i]).auto && Asked(RowLayers(w.rows[i]), mask)
    ensures var out, row := Remove(nic, w, mask, i, env), w.rows[i];
      match env.push
      case Failed(rc) => out == Outcome(w, Mapped(rc))
      case Accepted(h) =>
        && out.rc == 0 && RowLayers(out.world.rows[i]) == Layers(true, None)
        && Holds(out.world.rows[i], row.spec.value.key) && out.world.rows[i].handle == h && out.world.rows[i].stale == row.stale
        && (row.handle in w.fw ==>
              out.world.fw == (w.fw - {row.handle})[h :=
                FwFilter(w.fw[row.handle].key, 0, if Known(nic.rssContexts, 0) then Some(0) else None)])
  {
  }

  /** Taking the automatic layer from under a user filter leaves that filter and the firmware
      as they are. */
  lemma RemoveUndermines(nic: Nic, w: World, i: nat, env: RemoveEnv)
    requires |w.rows| == ROWS && i < ROWS && RowOk(w.rows[i])
    requires RowLayers(w.rows[i]).auto && RowLayers(w.rows[i]).user.Some?
    ensures var out, row := Remove(nic, w, {AUTO}, i, env), w.rows[i];
      && out.rc == 0 && out.world.fw == w.fw && RowLayers(out.world.rows[i]) == RowLayers(row).(auto := false)
      && Holds(out.world.rows[i], row.spec.value.key) && out.world.rows[i].handle == row.handle && !out.world.rows[i].stale
  {
  }

  /** Taking the only layer empties the row if the firmware has removed the filter, does not
      know it or is being reset, and leaves it otherwise; its answer is passed on. */
  lemma RemoveEmpties(nic: Nic, w: World, mask: set<nat>, i: nat, env: RemoveEnv)
    requires |w.rows| == ROWS && i < ROWS && RowOk(w.rows[i]) && (mask == {AUTO} || AUTO !in mask)
    requires Asked(RowLayers(w.rows[i]), mask) && !(RowLayers(w.rows[i]).auto && RowLayers(w.rows[i]).user.Some?)
    ensures var out := Remove(nic, w, mask, i, env);
      && out.rc == env.remove
      && out.world.fw == (if env.remove == 0 then w.fw - {w.rows[i].handle} else w.fw)
      && if env.remove in {0, -ENOENT, -EIO} || env.resetPending
         then out.world.rows[i].spec.None? && !out.world.rows[i].stale
         else out.world.rows == w.rows
  {
  }

  // ----- clear -----

  predicate Clears(row: Row, priority: nat) {
    RowLayers(row).user.Some? && RowLayers(row).user.value.priority <= priority
  }

  // The answer to the removal of a user filter: that of the push if there is an automatic
  // one underneath.
  function AnswerFor(row: Row, env: RemoveEnv): int {
    if !RowLayers(row).auto then env.remove
    else match env.push case Accepted(_) => 0 case Failed(rc) => Mapped(rc)
  }

  // The clear ends at this row.
  predicate Stops(row: Row, priority: nat, env: RemoveEnv) {
    Clears(row, priority) && AnswerFor(row, env) !in {0, -ENOENT}
  }

  // What the clear makes of a row that it gets past.
  predicate ClearedRow(before: Row, after: Row, priority: nat, env: RemoveEnv) {
    if Clears(before, priority) && (env.push.Accepted? || !RowLayers(before).auto)
    then RowLayers(after) == RowLayers(before).(user := None) && (after.spec.Some? ==> Holds(after, before.spec.value.key))
    else after == before
  }

  lemma ClearOne(nic: Nic, w: World, priority: nat, i: nat, env: RemoveEnv)
    requires |w.rows| == ROWS && i < ROWS && RowOk(w.rows[i])
    ensures var out, row := Remove(nic, w, ClearMask(priority), i, env), w.rows[i];
      && RowOk(out.world.rows[i]) && (forall j :: 0 <= j < ROWS && j != i ==> out.world.rows[j] == w.rows[j])
      && (Stops(row, priority, env) ==> out.rc == AnswerFor(row, env))
      && (!Stops(row, priority, env) ==> out.rc in {0, -ENOENT} && ClearedRow(row, out.world.rows[i], priority, env))
  {
    var mask, row := ClearMask(priority), w.rows[i];
    assert AUTO !in mask && mask != {AUTO};
    RemoveFindsNothing(nic, w, mask, i, env);
    if Clears(row, priority) {
      assert Asked(RowLayers(row), mask);
      if RowLayers(row).auto {
        RemoveUncovers(nic, w, mask, i, env);
      } else {
        RemoveEmpties(nic, w, mask, i, env);
      }
    }
  }

  /** A clear takes, row by row, every user filter of at most the given priority and leaves
      the others and all automatic filters; it ends with the firmware's error at the first
      row where there is one, and the rows after that are as they were. */
  lemma {:induction false} ClearGoesTo(nic: Nic, w: World, priority: nat, from: nat, env: nat -> RemoveEnv, end: nat)
    requires |w.rows| == ROWS && from <= end <= ROWS && RowsOk(w.rows) && EndsAt(w.rows, priority, from, env, end)
    ensures var out := Clear(nic, w, ClearMask(priority), from, env);
      && out.rc == (if end < ROWS then AnswerFor(w.rows[end], env(end)) else 0)
      && (forall j :: 0 <= j < ROWS && (j < from || end < j) ==> out.world.rows[j] == w.rows[j])
      && (forall j :: from <= j < end ==> ClearedRow(w.rows[j], out.world.rows[j], priority, env(j)))
    decreases ROWS - from
  {
    if from < ROWS {
      ClearOne(nic, w, priority, from, env(from));
      if from < end {
        var next := Remove(nic, w, ClearMask(priority), from, env(from)).world;
        ClearNext(w.rows, next.rows, priority, from, env, end);
        ClearGoesTo(nic, next, priority, from + 1, env, end);
      }
    }
  }

  predicate RowsOk(rows: seq<Row>) {
    forall j :: 0 <= j < |rows| ==> RowOk(rows[j])
  }

  // The first row from which the clear does not go on.
  predicate EndsAt(rows: seq<Row>, priority: nat, from: nat, env: nat -> RemoveEnv, end: nat)
    requires |rows| == ROWS && end <= ROWS
  {
    && (forall j :: from <= j < end ==> !Stops(rows[j], priority, env(j)))
    && (end < ROWS ==> Stops(rows[end], priority, env(end)))
  }

  lemma ClearNext(rows: seq<Row>, next: seq<Row>, priority: nat, from: nat, env: nat -> RemoveEnv, end: nat)
    requires |rows| == ROWS && |next| == ROWS && from < end <= ROWS && RowsOk(rows) && EndsAt(rows, priority, from, env, end)
    requires forall j :: 0 <= j < ROWS && j != from ==> next[j] == rows[j]
    requires RowOk(next[from])
    ensures RowsOk(next) && EndsAt(next, priority, from + 1, env, end)
  {
  }

  /** With a willing firmware a clear answers 0 and takes exactly the user filters of at most
      the given priority: in every row, and so for every single-recipient match. */
  lemma ClearTakes(nic: Nic, w: World, priority: nat, env: nat -> RemoveEnv)
    requires TableOk(nic, w.rows) && forall i :: env(i).push.Accepted? && env(i).remove == 0
    ensures var out := Clear(nic, w, ClearMask(priority), 0, env);
      && out.rc == 0
      && (forall j :: 0 <= j < ROWS ==> ClearedTo(w.rows[j], out.world.rows[j], priority))
      && (forall k :: !nic.multi(k) ==> LayersAt(out.world.rows, k) == WithoutUser(LayersAt(w.rows, k), priority))
  {
    var out := Clear(nic, w, ClearMask(priority), 0, env);
    ClearGoesTo(nic, w, priority, 0, env, ROWS);
    forall j | 0 <= j < ROWS ensures ClearedTo(w.rows[j], out.world.rows[j], priority) {
      assert ClearedRow(w.rows[j], out.world.rows[j], priority, env(j));
    }
    forall k | !nic.multi(k) ensures LayersAt(out.world.rows, k) == WithoutUser(LayersAt(w.rows, k), priority) {
      ClearedKey(nic, w.rows, out.world.rows, priority, k);
    }
  }

  function WithoutUser(l: Layers, priority: nat): Layers {
    if l.user.Some? && l.user.value.priority <= priority then Layers(l.auto, None) else l
  }

  predicate ClearedTo(before: Row, after: Row, priority: nat) {
    && RowLayers(after) == WithoutUser(RowLayers(before), priority)
    && (after.spec.Some? ==> before.spec.Some? && after.spec.value.key == before.spec.value.key)
    && (!Clears(before, priority) ==> after == before)
  }

  lemma ClearedKey(nic: Nic, rows: seq<Row>, after: seq<Row>, priority: nat, key: Key)
    requires TableOk(nic, rows) && !nic.multi(key) && |after| == ROWS
    requires forall j :: 0 <= j < ROWS ==> ClearedTo(rows[j], after[j], priority)
    ensures LayersAt(after, key) == WithoutUser(LayersAt(rows, key), priority)
  {
    var i, j := FindKey(rows, key), FindKey(after, key);
    if j < ROWS {
      assert ClearedTo(rows[j], after[j], priority);
      FindKeyIs(nic, rows, key, j);
    } else if i < ROWS {
      assert ClearedTo(rows[i], after[i], priority);
      assert !Holds(after[i], key);
    }
  }

  // ----- redirect -----

  // What stays of a filter that is sent elsewhere.
  predicate SameButTarget(before: Spec, after: Spec) {
    && after.key == before.key && after.priority == before.priority && after.vport == before.vport
    && after.flags.(rss := before.flags.rss) == before.flags
  }

  // The filter to redirect is there, and so are the contexts that its new form names.
  predicate CanMove(nic: Nic, row: Row, rss: Option<nat>) {
    && row.spec.Some? && (rss.Some? ==> Known(nic.rssContexts, rss.value))
    && (row.spec.value.flags.vportId ==> Known(nic.vports, row.spec.value.vport))
  }

  predicate SentTo(spec: Spec, rss: Option<nat>, queue: nat, stack: nat) {
    spec.queue == queue && spec.stack == stack && spec.flags.rss == rss.Some? && (rss.Some? ==> spec.rss == rss.value)
  }

  /** A redirect whose push is accepted sends the filter, in the row and in the firmware, to
      the given queue and stack and over the given RSS context, or over none; match, priority,
      flags, mark and every other row stay. */
  lemma RedirectSends(nic: Nic, w: World, id: nat, rss: Option<nat>, queue: nat, stack: nat, push: Reply)
    requires Agree(w) && CanMove(nic, w.rows[id % ROWS], rss) && push.Accepted?
    ensures var out, i := Redirect(nic, w, id, rss, queue, stack, push), id % ROWS;
      var before, after := w.rows[i].spec.value, out.world.rows[i].spec;
      && out.rc == 0 && after.Some? && SameButTarget(before, after.value) && SentTo(after.value, rss, queue, stack)
      && out.world.rows == w.rows[i := Row(after, w.rows[i].stale, push.handle)]
      && out.world.fw == (w.fw - {w.rows[i].handle})[push.handle := FwFilter(before.key, queue, rss)]
  {
  }

  // The error for a context or port that is not there.
  function Missing(contexts: map<nat, bool>, id: nat): int {
    if id in contexts then -EOPNOTSUPP else -ENOENT
  }

  /** Every error of a redirect leaves table and firmware as they were: -ENOENT for an empty row,
      -ENOENT or -EOPNOTSUPP for a context or port that is unknown or not created, or what the
      push was answered. */
  lemma RedirectFails(nic: Nic, w: World, id: nat, rss: Option<nat>, queue: nat, stack: nat, push: Reply)
    requires |w.rows| == ROWS && !(CanMove(nic, w.rows[id % ROWS], rss) && push.Accepted?)
    ensures var row := w.rows[id % ROWS];
      Redirect(nic, w, id, rss, queue, stack, push) == Outcome(w,
        if row.spec.None? then -ENOENT
        else if CanMove(nic, row, rss) then Mapped(push.rc)
        else if rss.Some? && !Known(nic.rssContexts, rss.value) then Missing(nic.rssContexts, rss.value)
        else Missing(nic.vports, row.spec.value.vport))
  {
  }

  /** For a single-recipient match: both layers stay, and a user filter goes to the queue. */
  lemma RedirectLayers(nic: Nic, w: World, id: nat, rss: Option<nat>, queue: nat, stack: nat, push: Reply)
    requires Agree(w) && TableOk(nic, w.rows) && CanMove(nic, w.rows[id % ROWS], rss) && push.Accepted?
    requires !nic.multi(w.rows[id % ROWS].spec.value.key)
    ensures var out, key := Redirect(nic, w, id, rss, queue, stack, push).world, w.rows[id % ROWS].spec.value.key;
      && MovedLayers(LayersAt(w.rows, key), LayersAt(out.rows, key), rss, queue)
      && forall k :: k != key ==> LayersAt(out.rows, k) == LayersAt(w.rows, k)
  {
    var i, out := id % ROWS, Redirect(nic, w, id, rss, queue, stack, push).world;
    RedirectSends(nic, w, id, rss, queue, stack, push);
    MovedRow(nic, w.rows, i, out.rows[i], rss, queue, stack);
  }

  predicate MovedLayers(before: Layers, after: Layers, rss: Option<nat>, queue: nat) {
    && after.auto == before.auto && after.user.Some? == before.user.Some?
    && (after.user.Some? ==>
          && after.user.value.priority == before.user.value.priority && after.user.value.queue == queue
          && after.user.value.flags.rss == rss.Some? && (rss.Some? ==> after.user.value.rss == rss.value))
  }

  lemma MovedRow(nic: Nic, rows: seq<Row>, i: nat, row: Row, rss: Option<nat>, queue: nat, stack: nat)
    requires TableOk(nic, rows) && i < ROWS && rows[i].spec.Some? && !nic.multi(rows[i].spec.value.key) && row.spec.Some?
    requires SameButTarget(rows[i].spec.value, row.spec.value) && SentTo(row.spec.value, rss, queue, stack)
    ensures MovedLayers(LayersAt(rows, row.spec.value.key), LayersAt(rows[i := row], row.spec.value.key), rss, queue)
    ensures forall k :: k != row.spec.value.key ==> LayersAt(rows[i := row], k) == LayersAt(rows, k)
  {
    var key, cell, moved := row.spec.value.key, Cell(rows[i].spec.value, rows[i].stale), Cell(row.spec.value, row.stale);
    assert CellOf(rows, key) == Some(cell) by { FindKeyIs(nic, rows, key, i); }
    assert CellOf(rows[i := row], key) == Some(moved) && forall k :: k != key ==> CellOf(rows[i := row], k) == CellOf(rows, k) by {
      PutCell(nic, rows, i, row);
    }
    MovedCell(cell, moved, rss, queue, stack);
  }

  lemma MovedCell(cell: Cell, moved: Cell, rss: Option<nat>, queue: nat, stack: nat)
    requires SameButTarget(cell.spec, moved.spec) && SentTo(moved.spec, rss, queue, stack)
    ensures MovedLayers(LayersOf(Some(cell)), LayersOf(Some(moved)), rss, queue)
  {
  }

  // ----- insert -----

  // A row of the match that an insert at this priority replaces.
  predicate Yields(row: Row, spec: Spec, replaceEqual: bool) {
    && Holds(row, spec.key)
    && (row.spec.value.priority < spec.priority || (row.spec.value.priority == spec.priority && replaceEqual) || spec.priority == AUTO)
  }

  // The row has the filter that was asked for, over an automatic one exactly if there was one.
  predicate Installed(before: Row, after: Row, spec: Spec, h: nat) {
    && after.spec.Some? && after.handle == h
    && after.spec.value.key == spec.key && after.spec.value.priority == spec.priority
    && after.spec.value.queue == spec.queue && after.spec.value.rss == spec.rss
    && after.spec.value.flags == spec.flags.(overAuto := RowLayers(before).auto)
    && after.stale == (before.spec.Some? && before.stale)
  }

  lemma PlacedInstalls(w: World, ins: nat, spec: Spec, h: nat)
    requires |w.rows| == ROWS && ins < ROWS && !spec.flags.overAuto
    requires w.rows[ins].spec.Some? ==> Holds(w.rows[ins], spec.key)
    ensures Installed(w.rows[ins], Placed(w, ins, spec, Accepted(h)).rows[ins], spec, h)
  {
  }

  // The rows that the search dooms are those that yield, but for the one it settles on.
  lemma DoomedYield(nic: Nic, rows: seq<Row>, spec: Spec, replaceEqual: bool)
    requires TableOk(nic, rows) && SearchAll(nic, rows, spec, replaceEqual).Place?
    ensures var scan := SearchAll(nic, rows, spec, replaceEqual);
      && (rows[scan.ins].spec.Some? ==> Holds(rows[scan.ins], spec.key))
      && forall j :: 0 <= j < ROWS && j != scan.ins ==> (j in scan.doomed <==> Yields(rows[j], spec, replaceEqual))
  {
    var scan := SearchAll(nic, rows, spec, replaceEqual);
    if nic.multi(spec.key) {
      assert Gathered(nic, rows, spec, replaceEqual, 1, None, []);
      SearchMulti(nic, rows, spec, replaceEqual, 1, None, []);
      forall j | 0 <= j < ROWS && j != scan.ins ensures j in scan.doomed <==> Yields(rows[j], spec, replaceEqual) {
        if Holds(rows[j], spec.key) {
          var d :| 1 <= d < SEARCH_LIMIT && Probe(nic, spec.key, d) == j;
          assert !Judge(nic, rows[j], spec, replaceEqual).Reject?;
        }
      }
    } else {
      SearchSingle(nic, rows, spec, replaceEqual, 1, None);
      forall j | 0 <= j < ROWS && j != scan.ins ensures !Holds(rows[j], spec.key) {
        if Holds(rows[j], spec.key) { FindKeyIs(nic, rows, spec.key, j); }
      }
    }
  }

  // What the caller may rely on: the flag is the driver's own, and errors are negative.
  predicate Proper(spec: Spec, env: InsertEnv) {
    !spec.flags.overAuto && (env.push.Failed? ==> env.push.rc < 0)
  }

  // The insert finds an automatic or higher filter in the row, and only keeps that.
  predicate Keeps(row: Row, spec: Spec) {
    Holds(row, spec.key) && spec.priority == AUTO && row.spec.value.priority >= AUTO
  }

  // What an automatic insert that keeps a filter does: it gets an automatic layer and loses
  // its mark, and nothing else changes.
  predicate OnlyRenewed(w: World, after: World, i: nat)
    requires |w.rows| == ROWS && |after.rows| == ROWS && i < ROWS
  {
    && after.fw == w.fw && RowLayers(after.rows[i]) == RowLayers(w.rows[i]).(auto := true)
    && after.rows[i].handle == w.rows[i].handle && !after.rows[i].stale
    && forall j :: 0 <= j < ROWS && j != i ==> after.rows[j] == w.rows[j]
  }

  lemma InsertRenews(nic: Nic, w: World, spec: Spec, replaceEqual: bool, env: InsertEnv)
    requires TableOk(nic, w.rows) && Insert(nic, w, spec, replaceEqual, env).rc >= 0
    requires Keeps(w.rows[SearchAll(nic, w.rows, spec, replaceEqual).ins], spec)
    ensures var out, ins := Insert(nic, w, spec, replaceEqual, env), SearchAll(nic, w.rows, spec, replaceEqual).ins;
      out.rc == ins && OnlyRenewed(w, out.world, ins) && Holds(out.world.rows[ins], spec.key)
  {
  }

  // The filter is in the row, the rows of its match that yield to it are empty, no other changes.
  predicate OnlyInstalled(w: World, after: World, i: nat, spec: Spec, replaceEqual: bool, h: nat)
    requires |w.rows| == ROWS && |after.rows| == ROWS && i < ROWS
  {
    && Installed(w.rows[i], after.rows[i], spec, h)
    && forall j :: 0 <= j < ROWS && j != i ==>
         if Yields(w.rows[j], spec, replaceEqual) then after.rows[j].spec.None? else after.rows[j] == w.rows[j]
  }

  lemma InsertInstalls(nic: Nic, w: World, spec: Spec, replaceEqual: bool, env: InsertEnv)
    requires TableOk(nic, w.rows) && Proper(spec, env) && (forall i :: env.unsub(i) <= 0)
    requires Insert(nic, w, spec, replaceEqual, env).rc >= 0
    requires !Keeps(w.rows[SearchAll(nic, w.rows, spec, replaceEqual).ins], spec)
    ensures var out, ins := Insert(nic, w, spec, replaceEqual, env), SearchAll(nic, w.rows, spec, replaceEqual).ins;
      && env.push.Accepted? && OnlyInstalled(w, out.world, ins, spec, replaceEqual, env.push.handle)
      && out.rc == FilterId(MatchPri(nic.masks, nic.mask(spec.key)), ins)
  {
    var scan := SearchAll(nic, w.rows, spec, replaceEqual);
    var ins, placed := scan.ins, Placed(w, scan.ins, spec, env.push);
    DoomedYield(nic, w.rows, spec, replaceEqual);
    Targets(nic, w.rows, spec, replaceEqual);
    TidyRc(placed, scan.doomed, PushRc(env.push), env.unsub);
    TidyRows(placed, scan.doomed, PushRc(env.push), env.unsub);
    PlacedInstalls(w, ins, spec, env.push.handle);
  }

  /** What a successful insert has done, for any kind of match. The id it answers with names a
      row. If that held an automatic or higher filter and the insert is automatic, it only got
      an automatic layer. Otherwise the firmware has accepted the filter, the row has the filter
      that was asked for, over an automatic one exactly if there was one, the id also names the
      position of its mask among the supported ones, and the other rows of the match are empty
      exactly if they yield to it. */
  lemma InsertAnswers(nic: Nic, w: World, spec: Spec, replaceEqual: bool, env: InsertEnv)
    requires TableOk(nic, w.rows) && Proper(spec, env) && (forall i :: env.unsub(i) <= 0)
    requires Insert(nic, w, spec, replaceEqual, env).rc >= 0
    ensures var out := Insert(nic, w, spec, replaceEqual, env);
      var i, p := out.rc % ROWS, out.rc / (ROWS * 2);
      && Holds(out.world.rows[i], spec.key)
      && if Keeps(w.rows[i], spec) then out.rc == i && OnlyRenewed(w, out.world, i)
         else
           && env.push.Accepted? && OnlyInstalled(w, out.world, i, spec, replaceEqual, env.push.handle)
           && p < |nic.masks| && nic.masks[p] == nic.mask(spec.key)
  {
    var ins := SearchAll(nic, w.rows, spec, replaceEqual).ins;
    if Keeps(w.rows[ins], spec) {
      InsertRenews(nic, w, spec, replaceEqual, env);
    } else {
      InsertInstalls(nic, w, spec, replaceEqual, env);
      FilterIdParts(MatchPri(nic.masks, nic.mask(spec.key)), ins);
    }
  }

  /** And the firmware delivers it to the queue that was asked for, over the RSS context that
      was asked for or none. */
  lemma InsertDelivers(nic: Nic, w: World, spec: Spec, replaceEqual: bool, env: InsertEnv)
    requires Agree(w) && TableOk(nic, w.rows) && Proper(spec, env) && (forall i :: env.unsub(i) <= 0)
    requires var scan := SearchAll(nic, w.rows, spec, replaceEqual); scan.Place? ==> Fresh(w, scan.ins, env.push)
    requires Insert(nic, w, spec, replaceEqual, env).rc >= 0
    ensures var out := Insert(nic, w, spec, replaceEqual, env);
      !Keeps(w.rows[out.rc % ROWS], spec) ==>
        env.push.Accepted? && env.push.handle in out.world.fw &&
        out.world.fw[env.push.handle] == FwFilter(spec.key, spec.queue, if spec.flags.rss then Some(spec.rss) else None)
  {
    InsertAnswers(nic, w, spec, replaceEqual, env);
    InsertAgrees(nic, w, spec, replaceEqual, env);
  }

  // ----- when a multicast insert is refused -----

  predicate Above(row: Row, spec: Spec) {
    Holds(row, spec.key) && row.spec.value.priority > spec.priority && spec.priority != AUTO
  }

  // A row that an insert could be written to.
  predicate Takes(row: Row, spec: Spec, replaceEqual: bool) {
    row.spec.None? || Yields(row, spec, replaceEqual)
  }

  lemma {:induction false} MultiSearch(nic: Nic, rows: seq<Row>, spec: Spec, replaceEqual: bool,
                                       depth: nat, ins: Option<nat>, doomed: seq<nat>)
    requires |rows| == ROWS && nic.multi(spec.key) && depth <= SEARCH_LIMIT
    requires (ins.Some? ==> ins.value < ROWS) && forall k :: 0 <= k < |doomed| ==> doomed[k] < ROWS
    ensures var r := Search(nic, rows, spec, replaceEqual, depth, ins, doomed);
      && (r == Refuse(-EPERM) <==> exists d :: depth <= d < SEARCH_LIMIT && Above(rows[Probe(nic, spec.key, d)], spec))
      && (r == Refuse(-EBUSY) <==>
            && r != Refuse(-EPERM) && ins.None?
            && forall d :: depth <= d < SEARCH_LIMIT ==> !Takes(rows[Probe(nic, spec.key, d)], spec, replaceEqual))
      && (r.Refuse? ==> r == Refuse(-EPERM) || r == Refuse(-EBUSY))
    decreases SEARCH_LIMIT - depth
  {
    if depth < SEARCH_LIMIT {
      var i := Probe(nic, spec.key, depth);
      var verdict := Judge(nic, rows[i], spec, replaceEqual);
      assert verdict.Reject? <==> Above(rows[i], spec);
      if !verdict.Reject? {
        var ins' := if verdict in {Free, Want} && ins.None? then Some(i) else ins;
        var doomed' := if verdict == Want && ins.Some? then doomed + [i] else doomed;
        assert verdict in {Free, Want} <==> Takes(rows[i], spec, replaceEqual);
        MultiSearch(nic, rows, spec, replaceEqual, depth + 1, ins', doomed');
      }
    }
  }

  /** With a willing firmware a multicast insert is refused with -EPERM exactly if some row of
      its match is above it, with -EBUSY exactly if no row of its window is free or yields, and
      succeeds otherwise. */
  lemma InsertMultiRc(nic: Nic, w: World, spec: Spec, replaceEqual: bool, env: InsertEnv)
    requires TableOk(nic, w.rows) && nic.multi(spec.key) && Admit(nic, spec) == 0
    requires env.memory && env.push.Accepted? && forall i :: env.unsub(i) == 0
    ensures var rc := Insert(nic, w, spec, replaceEqual, env).rc;
      && (rc == -EPERM <==> exists i :: 0 <= i < ROWS && Above(w.rows[i], spec))
      && (rc == -EBUSY <==>
            && rc != -EPERM
            && forall i :: 0 <= i < ROWS && InWindow(nic, spec.key, i) ==> !Takes(w.rows[i], spec, replaceEqual))
      && (rc >= 0 <==> rc != -EPERM && rc != -EBUSY)
  {
    MultiSearch(nic, w.rows, spec, replaceEqual, 1, None, []);
    MultiWindow(nic, w.rows, spec, replaceEqual);
    var scan := SearchAll(nic, w.rows, spec, replaceEqual);
    if scan.Place? {
      TidyAll(Placed(w, scan.ins, spec, env.push), scan.doomed, env.unsub);
    }
  }

  lemma MultiWindow(nic: Nic, rows: seq<Row>, spec: Spec, replaceEqual: bool)
    requires TableOk(nic, rows)
    ensures (exists d :: 1 <= d < SEARCH_LIMIT && Above(rows[Probe(nic, spec.key, d)], spec)) <==>
            (exists i :: 0 <= i < ROWS && Above(rows[i], spec))
    ensures (forall d :: 1 <= d < SEARCH_LIMIT ==> !Takes(rows[Probe(nic, spec.key, d)], spec, replaceEqual)) <==>
            (forall i :: 0 <= i < ROWS && InWindow(nic, spec.key, i) ==> !Takes(rows[i], spec, replaceEqual))
  {
    forall i | 0 <= i < ROWS && Above(rows[i], spec) ensures exists d :: 1 <= d < SEARCH_LIMIT && Above(rows[Probe(nic, spec.key, d)], spec) {
      var d :| 1 <= d < SEARCH_LIMIT && Probe(nic, spec.key, d) == i;
    }
    forall d | 1 <= d < SEARCH_LIMIT ensures InWindow(nic, spec.key, Probe(nic, spec.key, d)) {
    }
  }

  lemma {:induction false} TidyAll(w: World, doomed: seq<nat>, unsub: nat -> int)
    requires |w.rows| == ROWS && (forall k :: 0 <= k < |doomed| ==> doomed[k] < ROWS) && forall i :: unsub(i) == 0
    ensures Tidy(w, doomed, 0, unsub).rc == 0
    decreases |doomed|
  {
    if doomed != [] { TidyAll(Drop(w, doomed[0]), doomed[1..], unsub); }
  }

  lemma {:induction false} FirstChoiceStays(nic: Nic, rows: seq<Row>, spec: Spec, replaceEqual: bool,
                                            depth: nat, ins: nat, doomed: seq<nat>)
    requires |rows| == ROWS && nic.multi(spec.key) && depth <= SEARCH_LIMIT
    requires ins < ROWS && forall k :: 0 <= k < |doomed| ==> doomed[k] < ROWS
    ensures var r := Search(nic, rows, spec, replaceEqual, depth, Some(ins), doomed); r.Place? ==> r.ins == ins
    decreases SEARCH_LIMIT - depth
  {
    if depth < SEARCH_LIMIT {
      var i := Probe(nic, spec.key, depth);
      var verdict := Judge(nic, rows[i], spec, replaceEqual);
      FirstChoiceStays(nic, rows, spec, replaceEqual, depth + 1, ins, if verdict == Want then doomed + [i] else doomed);
    }
  }

  /** An automatic insert of a multicast match whose first row is free goes there, and takes
      away every other filter of the match, users' filters of higher priority included. */
  lemma AutomaticTakesUsers(nic: Nic, w: World, spec: Spec, replaceEqual: bool, env: InsertEnv)
    requires TableOk(nic, w.rows) && nic.multi(spec.key) && Proper(spec, env) && Admit(nic, spec) == 0 && spec.priority == AUTO
    requires env.memory && env.push.Accepted? && forall i :: env.unsub(i) == 0
    requires w.rows[Probe(nic, spec.key, 1)].spec.None?
    ensures var out := Insert(nic, w, spec, replaceEqual, env);
      && out.rc >= 0 && Holds(out.world.rows[Probe(nic, spec.key, 1)], spec.key)
      && forall j :: 0 <= j < ROWS && Holds(w.rows[j], spec.key) ==> out.world.rows[j].spec.None?
  {
    var i := Probe(nic, spec.key, 1);
    InsertMultiRc(nic, w, spec, replaceEqual, env);
    assert InWindow(nic, spec.key, i) && Takes(w.rows[i], spec, replaceEqual);
    FirstChoiceStays(nic, w.rows, spec, replaceEqual, 2, i, []);
    assert SearchAll(nic, w.rows, spec, replaceEqual).ins == i;
    InsertInstalls(nic, w, spec, replaceEqual, env);
  }

  // ----- removal by id, and the sweep -----

  /** An id is good only for the mask it was issued for. */
  lemma StaleIdIsRefused(nic: Nic, w: World, priority: nat, id: nat, env: RemoveEnv)
    requires |w.rows| == ROWS && w.rows[id % ROWS].spec.Some?
    requires var p := id / (ROWS * 2); p >= |nic.masks| || nic.masks[p] != nic.mask(w.rows[id % ROWS].spec.value.key)
    ensures RemoveById(nic, w, priority, id, env) == Outcome(w, -ENOENT)
  {
  }

  predicate SweptRow(before: Row, after: Row) {
    && RowLayers(after) == (if before.stale then RowLayers(before).(auto := false) else RowLayers(before))
    && (after.spec.Some? ==> before.spec.Some? && after.spec.value.key == before.spec.value.key)
    && (!(before.stale && RowLayers(before).auto) ==> after == before)
  }

  /** A sweep takes the automatic layer of every marked row, multicast rows too, and touches
      nothing else. */
  lemma {:induction false} SweepTakes(nic: Nic, w: World, from: nat, env: nat -> RemoveEnv)
    requires |w.rows| == ROWS && from <= ROWS && forall j :: 0 <= j < ROWS ==> RowOk(w.rows[j])
    requires forall i :: env(i).push.Accepted? && env(i).remove == 0
    ensures var after := Sweep(nic, w, from, env).rows;
      && (forall j :: 0 <= j < from ==> after[j] == w.rows[j])
      && (forall j :: from <= j < ROWS ==> SweptRow(w.rows[j], after[j]))
    decreases ROWS - from
  {
    if from < ROWS {
      var next := if w.rows[from].stale then Remove(nic, w, {AUTO}, from, env(from)).world else w;
      SweepOne(nic, w, from, env(from));
      SweepTakes(nic, next, from + 1, env);
    }
  }

  lemma SweepOne(nic: Nic, w: World, i: nat, env: RemoveEnv)
    requires |w.rows| == ROWS && i < ROWS && RowOk(w.rows[i]) && env.push.Accepted? && env.remove == 0
    ensures var next := if w.rows[i].stale then Remove(nic, w, {AUTO}, i, env).world else w;
      && SweptRow(w.rows[i], next.rows[i]) && RowOk(next.rows[i])
      && forall j :: 0 <= j < ROWS && j != i ==> next.rows[j] == w.rows[j]
  {
    RemoveFindsNothing(nic, w, {AUTO}, i, env);
    if RowLayers(w.rows[i]).auto {
      if RowLayers(w.rows[i]).user.Some? {
        RemoveUndermines(nic, w, i, env);
      } else {
        RemoveEmpties(nic, w, {AUTO}, i, env);
      }
    }
  }
}
