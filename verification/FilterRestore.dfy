/**
 Restoring the filters after the controller has rebooted with an empty table: first
 the filters whose match is no longer supported are dropped, then the rest are pushed
 again, level by level of match priority.
 */
module FilterRestore {
  import opened Options
  import opened Filters
  import opened FilterShape
  import opened FilterAgreement

  // The pass so far: the table and firmware, the pushes made, whether any row failed.
  datatype Pass = Pass(world: World, pushes: seq<(nat, nat)>, failed: bool)

  function Forget(row: Row): Row {
    row.(spec := None, stale := false)
  }

  predicate Supported(nic: Nic, row: Row) {
    row.spec.Some? ==> MatchPri(nic.masks, nic.mask(row.spec.value.key)) < |nic.masks|
  }

  function DropUnsupported(nic: Nic, rows: seq<Row>): (kept: seq<Row>)
    ensures |kept| == |rows|
    ensures forall i :: 0 <= i < |rows| ==>
      Supported(nic, kept[i]) && kept[i] == if Supported(nic, rows[i]) then rows[i] else Forget(rows[i])
  {
    seq(|rows|, i requires 0 <= i < |rows| => if Supported(nic, rows[i]) then rows[i] else Forget(rows[i]))
  }

  // Do the RSS context and the virtual port of the filter still exist?
  predicate Ready(nic: Nic, spec: Spec) {
    && (spec.flags.rss ==> Lookup(nic.rssContexts, spec.rss) == 0)
    && (spec.flags.vportId ==> Lookup(nic.vports, spec.vport) == 0)
  }

  function RestoreRow(nic: Nic, s: Pass, p: nat, i: nat, answer: Reply): (t: Pass)
    requires |s.world.rows| == ROWS && i < ROWS && p < |nic.masks|
    ensures |t.world.rows| == ROWS
  {
    var row := s.world.rows[i];
    if row.spec.None? || nic.mask(row.spec.value.key) != nic.masks[p] then s
    else if !Ready(nic, row.spec.value) then
      s.(world := s.world.(rows := s.world.rows[i := Forget(row)]), failed := true)
    else
      match answer
      case Accepted(h) =>
        s.(world := World(s.world.rows[i := row.(handle := h)], s.world.fw[h := FwOf(row.spec.value)]),
           pushes := s.pushes + [(p, i)])
      case Failed(_) =>
        Pass(s.world.(rows := s.world.rows[i := Forget(row)]), s.pushes + [(p, i)], true)
  }

  function RestoreLevel(nic: Nic, s: Pass, p: nat, from: nat, answers: (nat, nat) -> Reply): (t: Pass)
    requires |s.world.rows| == ROWS && from <= ROWS && p < |nic.masks|
    ensures |t.world.rows| == ROWS
    decreases |s.world.rows| - from
  {
    if from == ROWS then s
    else RestoreLevel(nic, RestoreRow(nic, s, p, from, answers(p, from)), p, from + 1, answers)
  }

  // The levels below a bound, highest first.
  function RestoreLevels(nic: Nic, s: Pass, bound: nat, answers: (nat, nat) -> Reply): (t: Pass)
    requires |s.world.rows| == ROWS && bound <= |nic.masks|
    ensures |t.world.rows| == ROWS
    decreases bound
  {
    if bound == 0 then s
    else RestoreLevels(nic, RestoreLevel(nic, s, bound - 1, 0, answers), bound - 1, answers)
  }

  function Restore(nic: Nic, w: World, answers: (nat, nat) -> Reply): (t: Pass)
    requires |w.rows| == ROWS
    ensures |t.world.rows| == ROWS
  {
    RestoreLevels(nic, Pass(w.(rows := DropUnsupported(nic, w.rows)), [], false), |nic.masks|, answers)
  }

  // ----- what the pass is for -----

  ghost predicate FreshAnswers(answers: (nat, nat) -> Reply) {
    forall p: nat, i: nat, q: nat, j: nat :: answers(p, i).Accepted? && answers(q, j) == answers(p, i) ==> p == q && i == j
  }

  // Row i belongs to level p.
  predicate AtLevel(nic: Nic, row: Row, p: nat) {
    row.spec.Some? && p < |nic.masks| && nic.masks[p] == nic.mask(row.spec.value.key)
  }

  // The row's mask is listed at most once, as it is when the masks are distinct.
  ghost predicate OneLevel(nic: Nic, row: Row) {
    forall p: nat, q: nat :: AtLevel(nic, row, p) && AtLevel(nic, row, q) ==> p == q
  }

  lemma DistinctMasks(nic: Nic, row: Row)
    requires forall p, q :: 0 <= p < q < |nic.masks| ==> nic.masks[p] != nic.masks[q]
    ensures OneLevel(nic, row)
  {
  }

  predicate Before(q: nat, j: nat, p: nat, i: nat) {
    q > p || (q == p && j < i)
  }

  // Row j is pushed at level q.
  predicate Due(nic: Nic, rows: seq<Row>, q: nat, j: nat)
    requires |rows| == ROWS
  {
    j < ROWS && AtLevel(nic, rows[j], q) && Ready(nic, rows[j].spec.value)
  }

  // Before position (p, i), the firmware took row j at level q under handle h.
  predicate Took(nic: Nic, rows: seq<Row>, p: nat, i: nat, answers: (nat, nat) -> Reply, q: nat, j: nat, h: nat)
    requires |rows| == ROWS
  {
    Due(nic, rows, q, j) && Before(q, j, p, i) && answers(q, j) == Accepted(h)
  }

  function RestoredRow(nic: Nic, row: Row, answer: Reply): Row
    requires row.spec.Some?
  {
    if Ready(nic, row.spec.value) && answer.Accepted? then row.(handle := answer.handle) else Forget(row)
  }

  // ----- the invariant of the pass -----

  ghost predicate RowsDone(nic: Nic, rows: seq<Row>, s: Pass, p: nat, i: nat, answers: (nat, nat) -> Reply)
    requires |rows| == ROWS && |s.world.rows| == ROWS
  {
    && (forall j :: 0 <= j < ROWS && rows[j].spec.None? ==> s.world.rows[j] == rows[j])
    && (forall j: nat, q: nat :: j < ROWS && AtLevel(nic, rows[j], q) ==>
          s.world.rows[j] == if Before(q, j, p, i) then RestoredRow(nic, rows[j], answers(q, j)) else rows[j])
  }

  ghost predicate FirmwareDone(nic: Nic, rows: seq<Row>, s: Pass, p: nat, i: nat, answers: (nat, nat) -> Reply)
    requires |rows| == ROWS
  {
    && (forall q: nat, j: nat, h: nat :: Took(nic, rows, p, i, answers, q, j, h) ==>
          h in s.world.fw && s.world.fw[h] == FwOf(rows[j].spec.value))
    && (forall h: nat :: h in s.world.fw ==> exists q: nat, j: nat :: Took(nic, rows, p, i, answers, q, j, h))
  }

  ghost predicate PushesDone(nic: Nic, rows: seq<Row>, s: Pass, p: nat, i: nat)
    requires |rows| == ROWS
  {
    && (forall q: nat, j: nat :: (q, j) in s.pushes <==> Due(nic, rows, q, j) && Before(q, j, p, i))
    && Ordered(s.pushes)
  }

  predicate Ordered(pushes: seq<(nat, nat)>) {
    forall k, l :: 0 <= k < l < |pushes| ==> Before(pushes[k].0, pushes[k].1, pushes[l].0, pushes[l].1)
  }

  ghost predicate Done(nic: Nic, rows: seq<Row>, s: Pass, p: nat, i: nat, answers: (nat, nat) -> Reply)
    requires |rows| == ROWS
  {
    && |s.world.rows| == ROWS
    && (forall j :: 0 <= j < ROWS ==> Supported(nic, rows[j]) && OneLevel(nic, rows[j]))
    && RowsDone(nic, rows, s, p, i, answers)
    && FirmwareDone(nic, rows, s, p, i, answers)
    && PushesDone(nic, rows, s, p, i)
  }

  lemma RowStep(nic: Nic, rows: seq<Row>, s: Pass, p: nat, i: nat, answers: (nat, nat) -> Reply)
    requires |rows| == ROWS && |s.world.rows| == ROWS && i < ROWS && p < |nic.masks| && OneLevel(nic, rows[i])
    requires RowsDone(nic, rows, s, p, i, answers)
    ensures RowsDone(nic, rows, RestoreRow(nic, s, p, i, answers(p, i)), p, i + 1, answers)
  {
    var t := RestoreRow(nic, s, p, i, answers(p, i));
    forall j: nat, q: nat | j < ROWS && AtLevel(nic, rows[j], q)
      ensures t.world.rows[j] == if Before(q, j, p, i + 1) then RestoredRow(nic, rows[j], answers(q, j)) else rows[j]
    {
      if j == i {
        assert AtLevel(nic, rows[i], p) ==> q == p;
        assert q == p ==> s.world.rows[i] == rows[i];
      }
    }
  }

  // What one row does to the firmware and to the record of pushes.
  lemma RowEffect(nic: Nic, rows: seq<Row>, s: Pass, p: nat, i: nat, answers: (nat, nat) -> Reply)
    requires |rows| == ROWS && |s.world.rows| == ROWS && i < ROWS && p < |nic.masks| && OneLevel(nic, rows[i])
    requires RowsDone(nic, rows, s, p, i, answers) && Supported(nic, rows[i])
    ensures var t := RestoreRow(nic, s, p, i, answers(p, i));
      && t.pushes == (if Due(nic, rows, p, i) then s.pushes + [(p, i)] else s.pushes)
      && t.world.fw == (if Due(nic, rows, p, i) && answers(p, i).Accepted?
                        then s.world.fw[answers(p, i).handle := FwOf(rows[i].spec.value)] else s.world.fw)
  {
    if rows[i].spec.Some? {
      assert AtLevel(nic, rows[i], MatchPri(nic.masks, nic.mask(rows[i].spec.value.key)));
    }
  }

  lemma FirmwareStep(nic: Nic, rows: seq<Row>, s: Pass, p: nat, i: nat, answers: (nat, nat) -> Reply)
    requires |rows| == ROWS && |s.world.rows| == ROWS && i < ROWS && p < |nic.masks| && OneLevel(nic, rows[i])
    requires RowsDone(nic, rows, s, p, i, answers) && FirmwareDone(nic, rows, s, p, i, answers)
    requires FreshAnswers(answers) && Supported(nic, rows[i])
    ensures FirmwareDone(nic, rows, RestoreRow(nic, s, p, i, answers(p, i)), p, i + 1, answers)
  {
    var t := RestoreRow(nic, s, p, i, answers(p, i));
    RowEffect(nic, rows, s, p, i, answers);
    var next := i + 1;
    forall q: nat, j: nat, h: nat | Took(nic, rows, p, next, answers, q, j, h)
      ensures h in t.world.fw && t.world.fw[h] == FwOf(rows[j].spec.value)
    {
      if q != p || j != i {
        assert Took(nic, rows, p, i, answers, q, j, h);
        assert answers(p, i) != answers(q, j);
      }
    }
    forall h: nat | h in t.world.fw ensures exists q: nat, j: nat :: Took(nic, rows, p, next, answers, q, j, h) {
      if Due(nic, rows, p, i) && answers(p, i) == Accepted(h) {
        assert Took(nic, rows, p, next, answers, p, i, h);
      } else {
        var q: nat, j: nat :| Took(nic, rows, p, i, answers, q, j, h);
        assert Took(nic, rows, p, next, answers, q, j, h);
      }
    }
  }

  lemma PushStep(nic: Nic, rows: seq<Row>, s: Pass, p: nat, i: nat, answers: (nat, nat) -> Reply)
    requires |rows| == ROWS && |s.world.rows| == ROWS && i < ROWS && p < |nic.masks| && OneLevel(nic, rows[i])
    requires RowsDone(nic, rows, s, p, i, answers) && PushesDone(nic, rows, s, p, i) && Supported(nic, rows[i])
    ensures PushesDone(nic, rows, RestoreRow(nic, s, p, i, answers(p, i)), p, i + 1)
  {
    RowEffect(nic, rows, s, p, i, answers);
    if Due(nic, rows, p, i) {
      forall k | 0 <= k < |s.pushes| ensures Before(s.pushes[k].0, s.pushes[k].1, p, i) {
        assert (s.pushes[k].0, s.pushes[k].1) in s.pushes;
      }
      AppendPush(s.pushes, p, i);
    }
  }

  lemma AppendPush(pushes: seq<(nat, nat)>, p: nat, i: nat)
    requires Ordered(pushes) && forall k :: 0 <= k < |pushes| ==> Before(pushes[k].0, pushes[k].1, p, i)
    ensures Ordered(pushes + [(p, i)])
    ensures forall q: nat, j: nat :: (q, j) in pushes + [(p, i)] <==> (q, j) in pushes || (q == p && j == i)
  {
  }

  lemma {:induction false} LevelDone(nic: Nic, rows: seq<Row>, s: Pass, p: nat, from: nat, answers: (nat, nat) -> Reply)
    requires |rows| == ROWS && FreshAnswers(answers) && p < |nic.masks| && from <= ROWS
    requires Done(nic, rows, s, p, from, answers)
    ensures Done(nic, rows, RestoreLevel(nic, s, p, from, answers), p, ROWS, answers)
    decreases ROWS - from
  {
    if from < ROWS {
      RowStep(nic, rows, s, p, from, answers);
      FirmwareStep(nic, rows, s, p, from, answers);
      PushStep(nic, rows, s, p, from, answers);
      LevelDone(nic, rows, RestoreRow(nic, s, p, from, answers(p, from)), p, from + 1, answers);
    }
  }

  lemma NextLevel(nic: Nic, rows: seq<Row>, s: Pass, p: nat, next: nat, answers: (nat, nat) -> Reply)
    requires |rows| == ROWS && p == next + 1 && Done(nic, rows, s, p, ROWS, answers)
    ensures Done(nic, rows, s, next, 0, answers)
  {
    assert forall q: nat, j: nat :: Due(nic, rows, q, j) ==> (Before(q, j, p, ROWS) <==> Before(q, j, next, 0));
    assert forall q: nat, j: nat :: j < ROWS && AtLevel(nic, rows[j], q) ==> (Before(q, j, p, ROWS) <==> Before(q, j, next, 0));
    assert forall q: nat, j: nat, h: nat :: Took(nic, rows, next, 0, answers, q, j, h) ==> Took(nic, rows, p, ROWS, answers, q, j, h);
    forall h: nat | h in s.world.fw ensures exists q: nat, j: nat :: Took(nic, rows, next, 0, answers, q, j, h) {
      var q: nat, j: nat :| Took(nic, rows, p, ROWS, answers, q, j, h);
      assert Took(nic, rows, next, 0, answers, q, j, h);
    }
  }

  lemma {:induction false} LevelsDone(nic: Nic, rows: seq<Row>, s: Pass, bound: nat, answers: (nat, nat) -> Reply)
    requires |rows| == ROWS && FreshAnswers(answers) && 0 < bound <= |nic.masks|
    requires Done(nic, rows, s, bound - 1, 0, answers)
    ensures Done(nic, rows, RestoreLevels(nic, s, bound, answers), 0, ROWS, answers)
    decreases bound
  {
    LevelDone(nic, rows, s, bound - 1, 0, answers);
    if bound > 1 {
      var t := RestoreLevel(nic, s, bound - 1, 0, answers);
      NextLevel(nic, rows, t, bound - 1, bound - 2, answers);
      LevelsDone(nic, rows, t, bound - 1, answers);
    }
  }

  // ----- the theorem -----

  lemma RestoreDone(nic: Nic, w: World, answers: (nat, nat) -> Reply)
    requires |w.rows| == ROWS && w.fw == map[] && nic.masks != [] && FreshAnswers(answers)
    requires forall i :: 0 <= i < ROWS ==> OneLevel(nic, w.rows[i])
    ensures Done(nic, DropUnsupported(nic, w.rows), Restore(nic, w, answers), 0, ROWS, answers)
  {
    var rows := DropUnsupported(nic, w.rows);
    var s := Pass(w.(rows := rows), [], false);
    assert Done(nic, rows, s, |nic.masks| - 1, 0, answers);
    LevelsDone(nic, rows, s, |nic.masks|, answers);
  }

  // Does row i come through the pass?
  predicate Survives(nic: Nic, row: Row, i: nat, answers: (nat, nat) -> Reply) {
    && row.spec.Some?
    && (row.spec.value.flags.rss ==> Known(nic.rssContexts, row.spec.value.rss))
    && (row.spec.value.flags.vportId ==> Known(nic.vports, row.spec.value.vport)) &&
    var p := MatchPri(nic.masks, nic.mask(row.spec.value.key));
    p < |nic.masks| && answers(p, i).Accepted?
  }

  // Every row that has its filter had it before, and none was lost exactly if the pass is
  // not marked failed.
  ghost predicate Recorded(s: Pass, t: Pass) {
    && |t.world.rows| == |s.world.rows|
    && (forall j :: 0 <= j < |t.world.rows| && t.world.rows[j].spec.Some? ==> t.world.rows[j].spec == s.world.rows[j].spec)
    && (t.failed <==> s.failed || exists j :: 0 <= j < |t.world.rows| && s.world.rows[j].spec.Some? && t.world.rows[j].spec.None?)
  }

  lemma RecordedInTurn(s: Pass, t: Pass, u: Pass)
    requires Recorded(s, t) && Recorded(t, u)
    ensures Recorded(s, u)
  {
    if j :| 0 <= j < |t.world.rows| && s.world.rows[j].spec.Some? && t.world.rows[j].spec.None? {
      assert u.world.rows[j].spec.None?;
    }
    if j :| 0 <= j < |u.world.rows| && t.world.rows[j].spec.Some? && u.world.rows[j].spec.None? {
      assert s.world.rows[j].spec.Some?;
    }
  }

  lemma RowRecorded(nic: Nic, s: Pass, p: nat, i: nat, answer: Reply)
    requires |s.world.rows| == ROWS && i < ROWS && p < |nic.masks|
    ensures Recorded(s, RestoreRow(nic, s, p, i, answer))
  {
    var t := RestoreRow(nic, s, p, i, answer);
    assert t.failed && !s.failed ==> s.world.rows[i].spec.Some? && t.world.rows[i].spec.None?;
  }

  lemma {:induction false} LevelRecorded(nic: Nic, s: Pass, p: nat, from: nat, answers: (nat, nat) -> Reply)
    requires |s.world.rows| == ROWS && from <= ROWS && p < |nic.masks|
    ensures Recorded(s, RestoreLevel(nic, s, p, from, answers))
    decreases ROWS - from
  {
    if from < ROWS {
      var t := RestoreRow(nic, s, p, from, answers(p, from));
      RowRecorded(nic, s, p, from, answers(p, from));
      LevelRecorded(nic, t, p, from + 1, answers);
      RecordedInTurn(s, t, RestoreLevel(nic, t, p, from + 1, answers));
    }
  }

  lemma {:induction false} LevelsRecorded(nic: Nic, s: Pass, bound: nat, answers: (nat, nat) -> Reply)
    requires |s.world.rows| == ROWS && bound <= |nic.masks|
    ensures Recorded(s, RestoreLevels(nic, s, bound, answers))
    decreases bound
  {
    if bound > 0 {
      var t := RestoreLevel(nic, s, bound - 1, 0, answers);
      LevelRecorded(nic, s, bound - 1, 0, answers);
      LevelsRecorded(nic, t, bound - 1, answers);
      RecordedInTurn(s, t, RestoreLevels(nic, t, bound - 1, answers));
    }
  }

  // The row had a filter whose mask is supported, and has none any more.
  predicate LostIn(nic: Nic, before: Row, after: Row) {
    before.spec.Some? && nic.mask(before.spec.value.key) in nic.masks && after.spec.None?
  }

  /** The pass is marked failed, and will be tried again, exactly if a filter whose mask is
      supported has been lost in it. */
  lemma FailedIff(nic: Nic, w: World, answers: (nat, nat) -> Reply)
    requires |w.rows| == ROWS
    ensures var t := Restore(nic, w, answers);
      t.failed <==> exists i :: 0 <= i < ROWS && LostIn(nic, w.rows[i], t.world.rows[i])
  {
    var t, rows := Restore(nic, w, answers), DropUnsupported(nic, w.rows);
    LevelsRecorded(nic, Pass(w.(rows := rows), [], false), |nic.masks|, answers);
    forall i | 0 <= i < ROWS ensures LostIn(nic, w.rows[i], t.world.rows[i]) <==> rows[i].spec.Some? && t.world.rows[i].spec.None? {
    }
  }

  /** One pass over an empty firmware re-establishes the agreement.  A row survives
      exactly if its match is supported, its contexts exist and the firmware takes it;
      and each row that is fit to be pushed is pushed once, in decreasing order of match
      priority index and then in row order. */
  lemma RestoreAgrees(nic: Nic, w: World, answers: (nat, nat) -> Reply)
    requires |w.rows| == ROWS && w.fw == map[] && FreshAnswers(answers)
    requires forall i :: 0 <= i < ROWS ==> OneLevel(nic, w.rows[i])
    ensures var t := Restore(nic, w, answers);
      && Agree(t.world)
      && (forall i :: 0 <= i < ROWS ==>
           if Survives(nic, w.rows[i], i, answers)
           then t.world.rows[i].spec == w.rows[i].spec && t.world.rows[i].stale == w.rows[i].stale
           else t.world.rows[i].spec == None)
      && Ordered(t.pushes)
      && (forall p: nat, i: nat :: (p, i) in t.pushes <==> Due(nic, w.rows, p, i))
      && (TableOk(nic, w.rows) ==> TableOk(nic, t.world.rows))
  {
    var t := Restore(nic, w, answers);
    var rows := DropUnsupported(nic, w.rows);
    forall p: nat, i: nat | i < ROWS ensures AtLevel(nic, rows[i], p) <==> AtLevel(nic, w.rows[i], p) {
    }
    assert forall p: nat, i: nat :: Due(nic, rows, p, i) <==> Due(nic, w.rows, p, i);
    if nic.masks == [] {
      assert forall i :: 0 <= i < ROWS ==> rows[i].spec == None;
    } else {
      RestoreDone(nic, w, answers);
      RestoredRows(nic, w, t, answers);
      RestoredWorldAgrees(nic, rows, t, answers);
    }
    if TableOk(nic, w.rows) { SurvivorsOk(nic, w.rows, t.world.rows); }
  }

  lemma SurvivorsOk(nic: Nic, rows: seq<Row>, after: seq<Row>)
    requires TableOk(nic, rows) && |after| == ROWS
    requires forall i :: 0 <= i < ROWS ==> after[i].spec == rows[i].spec || after[i].spec == None
    ensures TableOk(nic, after)
  {
  }

  /** The life of a table over a reset: any run, a reset that empties the firmware, one
      pass, and any further run leave rows and firmware matched one to one. */
  lemma AgreesAcrossReset(nic: Nic, start: World, ops: seq<Op>, mid: World, answers: (nat, nat) -> Reply, more: seq<Op>, end: World)
    requires Agree(start) && TableOk(nic, start.rows) && Run(nic, start, ops, mid) && FreshAnswers(answers)
    requires |mid.rows| == ROWS && forall i :: 0 <= i < ROWS ==> OneLevel(nic, mid.rows[i])
    requires var again := Restore(nic, mid.(fw := map[]), answers).world; Run(nic, again, more, end)
    ensures Agree(end) && TableOk(nic, end.rows)
  {
    EveryRunAgrees(nic, start, ops, mid);
    RestoreAgrees(nic, mid.(fw := map[]), answers);
    EveryRunAgrees(nic, Restore(nic, mid.(fw := map[]), answers).world, more, end);
  }

  lemma RestoredRows(nic: Nic, w: World, t: Pass, answers: (nat, nat) -> Reply)
    requires |w.rows| == ROWS && |t.world.rows| == ROWS
    requires RowsDone(nic, DropUnsupported(nic, w.rows), t, 0, ROWS, answers)
    ensures forall i :: 0 <= i < ROWS ==>
      if Survives(nic, w.rows[i], i, answers)
      then t.world.rows[i].spec == w.rows[i].spec && t.world.rows[i].stale == w.rows[i].stale &&
        t.world.rows[i].handle == answers(MatchPri(nic.masks, nic.mask(w.rows[i].spec.value.key)), i).handle
      else t.world.rows[i].spec == None
  {
    var rows := DropUnsupported(nic, w.rows);
    forall i | 0 <= i < ROWS && rows[i].spec.Some?
      ensures AtLevel(nic, rows[i], MatchPri(nic.masks, nic.mask(rows[i].spec.value.key)))
    {
    }
  }

  lemma RestoredRowTook(nic: Nic, rows: seq<Row>, t: Pass, answers: (nat, nat) -> Reply, i: nat)
    requires |rows| == ROWS && |t.world.rows| == ROWS && i < ROWS && t.world.rows[i].spec.Some?
    requires RowsDone(nic, rows, t, 0, ROWS, answers) && Supported(nic, rows[i])
    ensures t.world.rows[i].spec == rows[i].spec
    ensures Took(nic, rows, 0, ROWS, answers, MatchPri(nic.masks, nic.mask(rows[i].spec.value.key)), i, t.world.rows[i].handle)
  {
    assert AtLevel(nic, rows[i], MatchPri(nic.masks, nic.mask(rows[i].spec.value.key)));
  }

  lemma RestoredWorldAgrees(nic: Nic, rows: seq<Row>, t: Pass, answers: (nat, nat) -> Reply)
    requires |rows| == ROWS && Done(nic, rows, t, 0, ROWS, answers) && FreshAnswers(answers)
    ensures Agree(t.world)
  {
    forall i | 0 <= i < ROWS && t.world.rows[i].spec.Some?
      ensures t.world.rows[i].spec == rows[i].spec
      ensures Took(nic, rows, 0, ROWS, answers, MatchPri(nic.masks, nic.mask(rows[i].spec.value.key)), i, t.world.rows[i].handle)
    {
      RestoredRowTook(nic, rows, t, answers, i);
    }
    forall h: nat | h in t.world.fw ensures Owned(t.world.rows, h) {
      var q: nat, j: nat :| Took(nic, rows, 0, ROWS, answers, q, j, h);
      assert t.world.rows[j] == RestoredRow(nic, rows[j], answers(q, j));
    }
  }

  // ----- a mask that is listed twice -----

  ghost predicate Willing(nic: Nic, rows: seq<Row>, answers: (nat, nat) -> Reply) {
    && (forall j :: 0 <= j < |rows| && rows[j].spec.Some? ==> Ready(nic, rows[j].spec.value))
    && (forall p: nat, j: nat :: answers(p, j).Accepted?)
  }

  // What a willing firmware makes of the rows from one on, at one level.
  ghost predicate LevelPushed(nic: Nic, s: World, t: World, p: nat, from: nat, answers: (nat, nat) -> Reply)
    requires |s.rows| == ROWS && |t.rows| == ROWS && forall q: nat, j: nat :: answers(q, j).Accepted?
  {
    && (forall j :: 0 <= j < ROWS ==>
          t.rows[j] == if from <= j && AtLevel(nic, s.rows[j], p) then s.rows[j].(handle := answers(p, j).handle) else s.rows[j])
    && s.fw.Keys <= t.fw.Keys
    && (forall j :: from <= j < ROWS && AtLevel(nic, s.rows[j], p) ==> answers(p, j).handle in t.fw)
  }

  lemma {:induction false} LevelPushes(nic: Nic, s: Pass, p: nat, from: nat, answers: (nat, nat) -> Reply)
    requires |s.world.rows| == ROWS && from <= ROWS && p < |nic.masks| && Willing(nic, s.world.rows, answers)
    ensures LevelPushed(nic, s.world, RestoreLevel(nic, s, p, from, answers).world, p, from, answers)
    decreases ROWS - from
  {
    if from < ROWS {
      LevelPushes(nic, RestoreRow(nic, s, p, from, answers(p, from)), p, from + 1, answers);
    }
  }

  // After the levels below a bound, a row carries the handle of its lowest level.
  ghost predicate LevelsPushed(nic: Nic, s: World, t: World, bound: nat, answers: (nat, nat) -> Reply)
    requires |s.rows| == ROWS && |t.rows| == ROWS && forall q: nat, j: nat :: answers(q, j).Accepted?
  {
    && (forall j :: 0 <= j < ROWS ==> t.rows[j].spec == s.rows[j].spec)
    && s.fw.Keys <= t.fw.Keys
    && (forall j :: 0 <= j < ROWS && s.rows[j].spec.Some? ==>
          var low := MatchPri(nic.masks, nic.mask(s.rows[j].spec.value.key));
          t.rows[j].handle == if low < bound then answers(low, j).handle else s.rows[j].handle)
    && (forall q: nat, j: nat :: q < bound && j < ROWS && AtLevel(nic, s.rows[j], q) ==> answers(q, j).handle in t.fw)
  }

  lemma NextLevelPushed(nic: Nic, s: World, m: World, t: World, p: nat, bound: nat, answers: (nat, nat) -> Reply)
    requires |s.rows| == ROWS && |m.rows| == ROWS && |t.rows| == ROWS && bound == p + 1 <= |nic.masks|
    requires forall q: nat, j: nat :: answers(q, j).Accepted?
    requires LevelPushed(nic, s, m, p, 0, answers) && LevelsPushed(nic, m, t, p, answers)
    ensures LevelsPushed(nic, s, t, bound, answers)
  {
    forall j | 0 <= j < ROWS && s.rows[j].spec.Some?
      ensures var low := MatchPri(nic.masks, nic.mask(s.rows[j].spec.value.key));
        t.rows[j].handle == if low < bound then answers(low, j).handle else s.rows[j].handle
    {
      assert m.rows[j].spec == s.rows[j].spec;
    }
    forall q: nat, j: nat | q < bound && j < ROWS && AtLevel(nic, s.rows[j], q) ensures answers(q, j).handle in t.fw {
      assert m.rows[j].spec == s.rows[j].spec;
      if q < p { assert AtLevel(nic, m.rows[j], q); } else { assert answers(p, j).handle in m.fw.Keys; }
    }
  }

  lemma {:induction false} LevelsPush(nic: Nic, s: Pass, bound: nat, answers: (nat, nat) -> Reply)
    requires |s.world.rows| == ROWS && bound <= |nic.masks| && Willing(nic, s.world.rows, answers)
    ensures LevelsPushed(nic, s.world, RestoreLevels(nic, s, bound, answers).world, bound, answers)
    decreases bound
  {
    if bound == 0 {
      NoLevelPushed(nic, s.world, answers);
    } else {
      var p := bound - 1;
      var m := LevelStep(nic, s, p, answers);
      LevelsPush(nic, m, p, answers);
      NextLevelPushed(nic, s.world, m.world, RestoreLevels(nic, m, p, answers).world, p, bound, answers);
    }
  }

  lemma NoLevelPushed(nic: Nic, w: World, answers: (nat, nat) -> Reply)
    requires |w.rows| == ROWS && forall q: nat, j: nat :: answers(q, j).Accepted?
    ensures LevelsPushed(nic, w, w, 0, answers)
  {
  }

  lemma LevelStep(nic: Nic, s: Pass, p: nat, answers: (nat, nat) -> Reply) returns (m: Pass)
    requires |s.world.rows| == ROWS && p < |nic.masks| && Willing(nic, s.world.rows, answers)
    ensures m == RestoreLevel(nic, s, p, 0, answers) && Willing(nic, m.world.rows, answers)
    ensures LevelPushed(nic, s.world, m.world, p, 0, answers)
  {
    m := RestoreLevel(nic, s, p, 0, answers);
    LevelPushes(nic, s, p, 0, answers);
    StillWilling(nic, s.world, m.world, p, answers);
  }

  lemma StillWilling(nic: Nic, s: World, m: World, p: nat, answers: (nat, nat) -> Reply)
    requires |s.rows| == ROWS && |m.rows| == ROWS && Willing(nic, s.rows, answers) && LevelPushed(nic, s, m, p, 0, answers)
    ensures Willing(nic, m.rows, answers)
  {
    forall j | 0 <= j < ROWS && m.rows[j].spec.Some? ensures Ready(nic, m.rows[j].spec.value) {
      assert m.rows[j].spec == s.rows[j].spec;
    }
  }

  /** With a willing firmware the agreement is re-established exactly when no filter's
      mask is listed twice: such a filter is pushed twice, and all but the last of its
      firmware filters are left without an owner. */
  lemma RestoreAgreesIff(nic: Nic, w: World, answers: (nat, nat) -> Reply)
    requires |w.rows| == ROWS && w.fw == map[] && FreshAnswers(answers) && Willing(nic, w.rows, answers)
    ensures Agree(Restore(nic, w, answers).world) <==> forall i :: 0 <= i < ROWS ==> OneLevel(nic, w.rows[i])
  {
    if forall i :: 0 <= i < ROWS ==> OneLevel(nic, w.rows[i]) {
      RestoreAgrees(nic, w, answers);
    } else {
      var i: nat :| i < ROWS && !OneLevel(nic, w.rows[i]);
      var p: nat, q: nat :| AtLevel(nic, w.rows[i], p) && AtLevel(nic, w.rows[i], q) && p < q;
      LeftBehind(nic, w, answers, i, p, q);
    }
  }

  // The firmware filter of the higher of two levels of a row is left without an owner.
  lemma LeftBehind(nic: Nic, w: World, answers: (nat, nat) -> Reply, i: nat, p: nat, q: nat)
    requires |w.rows| == ROWS && w.fw == map[] && FreshAnswers(answers) && Willing(nic, w.rows, answers)
    requires i < ROWS && AtLevel(nic, w.rows[i], p) && AtLevel(nic, w.rows[i], q) && p < q
    ensures !Agree(Restore(nic, w, answers).world)
  {
    var rows := DropUnsupported(nic, w.rows);
    var t := Restore(nic, w, answers).world;
    LevelsPush(nic, Pass(w.(rows := rows), [], false), |nic.masks|, answers);
    assert AtLevel(nic, rows[i], q);
    var h := answers(q, i).handle;
    forall j | 0 <= j < ROWS && t.rows[j].spec.Some? ensures t.rows[j].handle != h {
      var low := MatchPri(nic.masks, nic.mask(rows[j].spec.value.key));
      assert answers(low, j) != answers(q, i);
    }
    assert h in t.fw && !Owned(t.rows, h);
  }
}
