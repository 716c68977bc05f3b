/**
 What the callers of the lock-free resource table are told: how an allocation can end,
 when it is refused, and what a lookup finds.
 */
module ResourceAnswers {
  import opened Options
  import opened ResourceTable

  predicate Allocating(pc: Pc) {
    !pc.AtHighwater? && !pc.AtPointer? && !pc.AtSlot?
  }

  // The thread's own index, once it has one.
  function Index(pc: Pc): Option<nat> {
    match pc
    case AtWrite(_, index, _) => Some(index)
    case AtCompare(_, index, _) => Some(index)
    case AtRewrite(_, index) => Some(index)
    case _ => None
  }

  // The step by which an allocation ends, and what it has come to.
  predicate Ends(s: State, step: Step, t: nat)
    requires Enabled(s, step) && t in s.threads && Allocating(s.threads[t])
  {
    step.t == t &&
    if step.StartGrow? then s.size == LARGE || !step.memory
    else
      && step in {Compare(t), Rewrite(t)} && Index(s.threads[t]).Some?
      && var i := Index(s.threads[t]).value;
         i in s.issued && s.issued[i] == s.threads[t].rs && Found(Apply(s, step), i, Current(s)) == Some(s.threads[t].rs)
  }

  lemma EndsSo(s: State, step: Step, t: nat)
    requires Enabled(s, step) && t in s.threads && Allocating(s.threads[t]) && t !in Apply(s, step).threads
    requires PcOk(s, s.threads[t]) && (s.large.Some? ==> |s.large.value| == LARGE)
    ensures Ends(s, step, t)
  {
  }

  /** An allocation ends in two ways only: it is refused when it asks to grow, because the
      size is the largest or there is no memory; or it has an index that was issued to its
      resource, and a lookup would find it there. */
  lemma AllocationEnds(s: State, step: Step, t: nat)
    requires Inv(s) && Enabled(s, step) && t in s.threads && Allocating(s.threads[t]) && t !in Apply(s, step).threads
    ensures Ends(s, step, t)
  {
    EndsSo(s, step, t);
  }

  /** A request to grow is refused exactly if the size is the largest or there is no memory. */
  lemma GrowRefusedIff(s: State, t: nat, memory: bool)
    requires Enabled(s, StartGrow(t, memory))
    ensures t !in Apply(s, StartGrow(t, memory)).threads <==> s.size == LARGE || !memory
  {
  }

  /** So an allocation may be refused although most of the table is free: one that found the
      small table full asks to grow after another thread has done so. */
  lemma FullTooSoonExample() returns (steps: seq<Step>, end: State)
    ensures Initial(Start()) && Run(Start(), steps, end)
    ensures Enabled(end, StartGrow(1, true)) && 1 !in Apply(end, StartGrow(1, true)).threads && end.highwater == SMALL < end.size
  {
    var a, s0 := TwoSetOut(SMALL);
    var b, s1 := UpToSize(s0, 1);
    Join(Start(), a, s0, b, s1);
    var s2 := Apply(s1, ReadSize(1));
    Extend(Start(), a + b, s1, ReadSize(1));
    steps := a + b + [ReadSize(1)];
    var c, s3, large := GrowTo(s2, 2, SMALL);
    Join(Start(), steps, s2, c, s3);
    end := Apply(s3, RaiseSize(2));
    Extend(Start(), steps + c, s3, RaiseSize(2));
    steps := steps + c + [RaiseSize(2)];
  }

  /** A lookup of an id that was issued reads the slot of that id in the current table, and one
      of any other id is turned away at the first check. */
  lemma LookupReads(s: State, t: nat, id: nat)
    requires t !in s.threads
    ensures var a := Apply(s, Lookup(t, id));
      && Enabled(a, CheckId(t))
      && var b := Apply(a, CheckId(t));
         if id >= s.highwater then b.threads == s.threads
         else
           && Enabled(b, ReadPointer(t))
           && Apply(b, ReadPointer(t)) == Goto(s, t, AtSlot(id, Current(s)))
  {
    var a := Apply(s, Lookup(t, id));
    var b := Apply(a, CheckId(t));
    if id < s.highwater {
      assert Apply(b, ReadPointer(t)).threads == s.threads[t := AtSlot(id, Current(s))];
    } else {
      assert b.threads == s.threads;
    }
  }

  /** After any run that has come to rest, a lookup finds the resource that was issued its id,
      unless the second copy has erased it; and there is no third answer. */
  lemma LookupFinds(s: State, steps: seq<Step>, end: State, t: nat, id: nat)
    requires Initial(s) && Run(s, steps, end) && end.threads == map[] && id < end.highwater
    ensures var u := Apply(Apply(Apply(end, Lookup(t, id)), CheckId(t)), ReadPointer(t));
      && u.threads == map[t := AtSlot(id, Current(end))] && id in end.issued
      && Found(u, id, u.threads[t].table) == if ErasedAlong(s, steps, id) then None else Some(end.issued[id])
  {
    LookupReads(end, t, id);
    AtRestHeldIff(s, steps, end, id);
  }
}
