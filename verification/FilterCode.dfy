/**
 The filter table as the driver runs it: rows updated in place, one firmware command
 at a time.  Each method is proved to compute the function that the other filter
 modules reason about.
 */
module FilterCode {
  import opened Options
  import F = Filters
  import opened Filters
  import FilterRestore

  class FilterTable {
    const rows: array<Row>
    ghost var fw: map<nat, FwFilter>

    ghost predicate Valid()
      reads this
    {
      rows.Length == ROWS
    }

    ghost function State(): (w: World)
      reads this, rows
      requires Valid()
      ensures |w.rows| == ROWS
    {
      World(rows[..], fw)
    }

    constructor ()
      ensures Valid() && fresh(rows)
      ensures State().fw == map[] && forall i :: 0 <= i < ROWS ==> rows[i].spec.None?
    {
      rows := new Row[ROWS](_ => Row(None, false, 0));
      fw := map[];
    }

    // Push a filter for row i; on success store the handle.
    method Push(i: nat, spec: Spec, push: Reply, replacing: bool) returns (rc: int)
      requires Valid() && i < ROWS
      modifies this`fw, rows
      ensures rc == PushRc(push)
      ensures push.Failed? ==> rows[..] == old(rows[..]) && fw == old(fw)
      ensures push.Accepted? ==>
        rows[..] == old(rows[..])[i := old(rows[i]).(handle := push.handle)] &&
        fw == if replacing then FwReplace(old(fw), old(rows[i].handle), spec, push.handle)
              else old(fw)[push.handle := FwOf(spec)]
    {
      match push
      case Accepted(h) =>
        fw := if replacing then FwReplace(fw, rows[i].handle, spec, h) else fw[h := FwOf(spec)];
        rows[i] := rows[i].(handle := h);
        rc := 0;
      case Failed(e) =>
        rc := if e == -ENOSPC then -EBUSY else e;
    }

    // The probe loop: a row to insert at, and the multicast rows to remove.
    method FindRow(nic: Nic, spec: Spec, replaceEqual: bool) returns (scan: Scan)
      requires Valid()
      ensures scan == SearchAll(nic, rows[..], spec, replaceEqual)
    {
      var ins: Option<nat> := None;
      var doomed: seq<nat> := [];
      var multi := nic.multi(spec.key);
      var depth := 1;
      while depth < SEARCH_LIMIT
        invariant 1 <= depth <= SEARCH_LIMIT
        invariant ins.Some? ==> ins.value < ROWS
        invariant forall k :: 0 <= k < |doomed| ==> doomed[k] < ROWS
        invariant SearchAll(nic, rows[..], spec, replaceEqual) == Search(nic, rows[..], spec, replaceEqual, depth, ins, doomed)
      {
        var i := (nic.hash(spec.key) + depth) % ROWS;
        var saved := rows[i].spec;
        if saved.None? {
          if ins.None? { ins := Some(i); }
        } else if spec.key == saved.value.key {
          if spec.priority < saved.value.priority && spec.priority != AUTO {
            return Refuse(-EPERM);
          }
          if !multi {
            if spec.priority == saved.value.priority && !replaceEqual {
              return Refuse(-EEXIST);
            }
            return Place(i, []);
          } else if spec.priority > saved.value.priority || (spec.priority == saved.value.priority && replaceEqual) ||
                    spec.priority == AUTO {
            if ins.None? { ins := Some(i); } else { doomed := doomed + [i]; }
          }
        }
        depth := depth + 1;
      }
      scan := if ins.None? then Refuse(-EBUSY) else Place(ins.value, doomed);
    }

    // Unsubscribe lower-priority multicast rows until one fails.
    method RemoveDoomed(doomed: seq<nat>, pushed: int, unsub: nat -> int) returns (rc: int)
      requires Valid() && forall k :: 0 <= k < |doomed| ==> doomed[k] < ROWS
      modifies this`fw, rows
      ensures Outcome(State(), rc) == Tidy(old(State()), doomed, pushed, unsub)
    {
      rc := pushed;
      for k := 0 to |doomed|
        invariant Tidy(old(State()), doomed, pushed, unsub) == Tidy(State(), doomed[k..], rc, unsub)
      {
        var i := doomed[k];
        assert doomed[k..][0] == i && doomed[k..][1..] == doomed[k + 1..];
        if rc == 0 {
          rc := unsub(i);
          if rc == 0 {
            fw := fw - {rows[i].handle};
            rows[i] := rows[i].(spec := None, stale := false);
          }
        }
      }
    }

    method Insert(nic: Nic, spec: Spec, replaceEqual: bool, env: InsertEnv) returns (rc: int)
      requires Valid()
      modifies this`fw, rows
      ensures Outcome(State(), rc) == F.Insert(nic, old(State()), spec, replaceEqual, env)
    {
      rc := Admit(nic, spec);
      if rc != 0 { return; }
      var scan := FindRow(nic, spec, replaceEqual);
      if scan.Refuse? { return scan.rc; }
      var ins := scan.ins;
      var replacing := rows[ins].spec.Some?;
      if replacing {
        var saved := rows[ins].spec.value;
        if spec.priority == AUTO && saved.priority >= AUTO {
          if saved.priority > AUTO { saved := saved.(flags := saved.flags.(overAuto := true)); }
          rows[ins] := rows[ins].(spec := Some(saved), stale := false);
          return ins;
        }
        rc := Push(ins, spec, env.push, true);
        if rc == 0 && env.push.Accepted? {
          rows[ins] := rows[ins].(spec := Some(Merged(saved, spec)));
        }
      } else {
        if !env.memory { return -ENOMEM; }
        rows[ins] := rows[ins].(spec := Some(spec), stale := false);
        rc := Push(ins, spec, env.push, false);
        if env.push.Failed? {
          rows[ins] := rows[ins].(spec := None);
        }
      }
      assert State() == Placed(old(State()), ins, spec, env.push);
      rc := RemoveDoomed(scan.doomed, rc, env.unsub);
      if rc == 0 {
        rc := FilterId(MatchPri(nic.masks, nic.mask(spec.key)), ins);
      }
    }

    method Remove(nic: Nic, mask: set<nat>, i: nat, env: RemoveEnv) returns (rc: int)
      requires Valid() && i < ROWS
      modifies this`fw, rows
      ensures Outcome(State(), rc) == F.Remove(nic, old(State()), mask, i, env)
    {
      if rows[i].spec.None? { return -ENOENT; }
      var spec := rows[i].spec.value;
      if spec.flags.overAuto && mask == {AUTO} {
        rows[i] := rows[i].(spec := Some(spec.(flags := spec.flags.(overAuto := false))), stale := false);
        return 0;
      }
      if spec.priority !in mask { return -ENOENT; }
      if spec.flags.overAuto {
        var reset := AutoReset(nic, spec);
        rc := Push(i, reset, env.push, true);
        if env.push.Accepted? {
          rows[i] := rows[i].(spec := Some(reset));
        }
      } else {
        rc := env.remove;
        if rc == 0 { fw := fw - {rows[i].handle}; }
        if rc == 0 || rc == -ENOENT || rc == -EIO || env.resetPending {
          rows[i] := rows[i].(spec := None, stale := false);
        }
      }
    }

    method Clear(nic: Nic, priority: nat, env: nat -> RemoveEnv) returns (rc: int)
      requires Valid()
      modifies this`fw, rows
      ensures Outcome(State(), rc) == F.Clear(nic, old(State()), ClearMask(priority), 0, env)
    {
      var mask := ClearMask(priority);
      rc := 0;
      for i := 0 to ROWS
        invariant rc == 0
        invariant F.Clear(nic, old(State()), mask, 0, env) == F.Clear(nic, State(), mask, i, env)
      {
        rc := Remove(nic, mask, i, env(i));
        if rc != 0 && rc != -ENOENT { return; }
        rc := 0;
      }
    }

    method Redirect(nic: Nic, id: nat, rss: Option<nat>, queue: nat, stack: nat, push: Reply) returns (rc: int)
      requires Valid()
      modifies this`fw, rows
      ensures Outcome(State(), rc) == F.Redirect(nic, old(State()), id, rss, queue, stack, push)
    {
      var i := id % ROWS;
      if rows[i].spec.None? { return -ENOENT; }
      var moved := rows[i].spec.value.(queue := queue, stack := stack);
      if rss.Some? {
        moved := moved.(rss := rss.value, flags := moved.flags.(rss := true));
      } else {
        moved := moved.(flags := moved.flags.(rss := false));
      }
      if moved.flags.rss && Lookup(nic.rssContexts, moved.rss) != 0 { return Lookup(nic.rssContexts, moved.rss); }
      if moved.flags.vportId && Lookup(nic.vports, moved.vport) != 0 { return Lookup(nic.vports, moved.vport); }
      rc := Push(i, moved, push, true);
      if push.Accepted? {
        rows[i] := rows[i].(spec := Some(moved));
      }
    }

    method MarkOneOld(i: nat)
      requires Valid() && i < ROWS
      modifies rows
      ensures rows[..] == Mark(old(rows[..]), i)
    {
      rows[i] := rows[i].(stale := true);
    }

    method RemoveOld(nic: Nic, env: nat -> RemoveEnv)
      requires Valid()
      modifies this`fw, rows
      ensures State() == Sweep(nic, old(State()), 0, env)
    {
      for i := 0 to ROWS
        invariant Sweep(nic, old(State()), 0, env) == Sweep(nic, State(), i, env)
      {
        if rows[i].stale {
          var _ := Remove(nic, {AUTO}, i, env(i));
        }
      }
    }

    method Restore(nic: Nic, answers: (nat, nat) -> Reply) returns (failed: bool, ghost pushes: seq<(nat, nat)>)
      requires Valid()
      modifies this`fw, rows
      ensures FilterRestore.Pass(State(), pushes, failed) == FilterRestore.Restore(nic, old(State()), answers)
    {
      ForgetUnsupported(nic);
      failed, pushes := false, [];
      ghost var goal := FilterRestore.Restore(nic, old(State()), answers);
      var p := |nic.masks|;
      while p > 0
        invariant 0 <= p <= |nic.masks|
        invariant goal == FilterRestore.RestoreLevels(nic, FilterRestore.Pass(State(), pushes, failed), p, answers)
      {
        p := p - 1;
        failed, pushes := RestoreLevel(nic, p, answers, failed, pushes);
      }
    }

    method ForgetUnsupported(nic: Nic)
      requires Valid()
      modifies rows
      ensures rows[..] == FilterRestore.DropUnsupported(nic, old(rows[..]))
    {
      ghost var kept := FilterRestore.DropUnsupported(nic, rows[..]);
      for i := 0 to ROWS
        invariant forall j :: 0 <= j < i ==> rows[j] == kept[j]
        invariant forall j :: i <= j < ROWS ==> rows[j] == old(rows[j])
      {
        if rows[i].spec.Some? && MatchPri(nic.masks, nic.mask(rows[i].spec.value.key)) == |nic.masks| {
          rows[i] := rows[i].(spec := None, stale := false);
        }
      }
    }

    method RestoreLevel(nic: Nic, p: nat, answers: (nat, nat) -> Reply, wasFailed: bool, ghost before: seq<(nat, nat)>)
      returns (failed: bool, ghost pushes: seq<(nat, nat)>)
      requires Valid() && p < |nic.masks|
      modifies this`fw, rows
      ensures FilterRestore.Pass(State(), pushes, failed) ==
        FilterRestore.RestoreLevel(nic, FilterRestore.Pass(old(State()), before, wasFailed), p, 0, answers)
    {
      failed, pushes := wasFailed, before;
      ghost var level := FilterRestore.RestoreLevel(nic, FilterRestore.Pass(State(), pushes, failed), p, 0, answers);
      for i := 0 to ROWS
        invariant level == FilterRestore.RestoreLevel(nic, FilterRestore.Pass(State(), pushes, failed), p, i, answers)
      {
        failed, pushes := RestoreOne(nic, p, i, answers(p, i), failed, pushes);
      }
    }

    method RestoreOne(nic: Nic, p: nat, i: nat, answer: Reply, wasFailed: bool, ghost before: seq<(nat, nat)>)
      returns (failed: bool, ghost pushes: seq<(nat, nat)>)
      requires Valid() && i < ROWS && p < |nic.masks|
      modifies this`fw, rows
      ensures FilterRestore.Pass(State(), pushes, failed) ==
        FilterRestore.RestoreRow(nic, FilterRestore.Pass(old(State()), before, wasFailed), p, i, answer)
    {
      failed, pushes := wasFailed, before;
      if rows[i].spec.None? || nic.mask(rows[i].spec.value.key) != nic.masks[p] { return; }
      var spec := rows[i].spec.value;
      var usable := FilterRestore.Ready(nic, spec);
      if usable {
        var rc := Push(i, spec, answer, false);
        pushes := pushes + [(p, i)];
        usable := answer.Accepted?;
      }
      if !usable {
        failed := true;
        rows[i] := rows[i].(spec := None, stale := false);
      }
    }
  }
}
