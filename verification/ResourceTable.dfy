/**
 The lock-free table of resources of one open file.

 An allocation claims the next index by compare-and-swap on the highwater mark and
 then stores its resource.  The table starts in a small inline array and may be
 replaced once, by compare-and-swap, with a larger copy; the grower copies the inline
 array twice, since others may still be storing into it.  Every load, store and
 compare-and-swap on shared memory is one atomic step, of any number of threads; only
 the second store of an allocation reads the table pointer in the same step, a pointer
 that has changed once and cannot change again.
 */
module ResourceTable {
  import opened Options

  const SMALL: nat := 5     // CI_DEFAULT_RESOURCE_TABLE_SIZE
  const LARGE: nat := 512   // EFRM_RESOURCE_MAX_PER_FD

  type Resource = nat
  type Slots = seq<Option<Resource>>

  // Which array a table pointer points at.
  datatype Pointer = Inline | Grown

  // Where a thread is: the next access it will make, and its locals.
  datatype Pc =
    | AtIndex(rs: Resource)
    | AtTable(rs: Resource, index: nat)
    | AtSize(rs: Resource, index: nat, table: Pointer)
    | AtGrow(rs: Resource)
    | AtCopy(rs: Resource, k: nat, copy: Slots)
    | AtCopyAgain(rs: Resource, k: nat)
    | AtStoreAgain(rs: Resource, k: nat, word: Option<Resource>)
    | AtClaim(rs: Resource, index: nat, table: Pointer)
    | AtWrite(rs: Resource, index: nat, table: Pointer)
    | AtCompare(rs: Resource, index: nat, table: Pointer)
    | AtRewrite(rs: Resource, index: nat)
    | AtHighwater(id: nat)
    | AtPointer(id: nat)
    | AtSlot(id: nat, table: Pointer)

  datatype State = State(
    small: Slots,
    large: Option<Slots>,          // the grown array, once installed
    size: nat,
    highwater: nat,
    threads: map<nat, Pc>,
    issued: map<nat, Resource>,    // who was given each index
    erased: set<nat>)              // where the second copy stored nothing over a resource

  datatype Step =
    | Allocate(t: nat, rs: Resource)
    | ReadIndex(t: nat)
    | ReadTable(t: nat)
    | ReadSize(t: nat)
    | StartGrow(t: nat, memory: bool)
    | CopyWord(t: nat)
    | Swap(t: nat)
    | LoadAgain(t: nat)
    | StoreAgain(t: nat)
    | RaiseSize(t: nat)
    | Claim(t: nat)
    | Write(t: nat)
    | Compare(t: nat)
    | Rewrite(t: nat)
    | Lookup(t: nat, id: nat)
    | CheckId(t: nat)
    | ReadPointer(t: nat)
    | ReadSlot(t: nat)

  function Current(s: State): Pointer {
    if s.large.Some? then Grown else Inline
  }

  function Length(p: Pointer): nat {
    if p.Inline? then SMALL else LARGE
  }

  predicate Initial(s: State) {
    && s.small == seq(SMALL, _ => None) && s.large == None
    && s.size == SMALL && s.highwater == 0 && s.threads == map[] && s.issued == map[] && s.erased == {}
  }

  predicate Enabled(s: State, step: Step) {
    match step
    case Allocate(t, _) => t !in s.threads
    case Lookup(t, _) => t !in s.threads
    case ReadIndex(t) => t in s.threads && s.threads[t].AtIndex?
    case ReadTable(t) => t in s.threads && s.threads[t].AtTable?
    case ReadSize(t) => t in s.threads && s.threads[t].AtSize?
    case StartGrow(t, _) => t in s.threads && s.threads[t].AtGrow?
    case CopyWord(t) => t in s.threads && s.threads[t].AtCopy? && s.threads[t].k < SMALL
    case Swap(t) => t in s.threads && s.threads[t].AtCopy? && s.threads[t].k == SMALL
    case LoadAgain(t) => t in s.threads && s.threads[t].AtCopyAgain? && s.threads[t].k < SMALL
    case StoreAgain(t) => t in s.threads && s.threads[t].AtStoreAgain?
    case RaiseSize(t) => t in s.threads && s.threads[t].AtCopyAgain? && s.threads[t].k == SMALL
    case Claim(t) => t in s.threads && s.threads[t].AtClaim?
    case Write(t) => t in s.threads && s.threads[t].AtWrite?
    case Compare(t) => t in s.threads && s.threads[t].AtCompare?
    case Rewrite(t) => t in s.threads && s.threads[t].AtRewrite?
    case CheckId(t) => t in s.threads && s.threads[t].AtHighwater?
    case ReadPointer(t) => t in s.threads && s.threads[t].AtPointer?
    case ReadSlot(t) => t in s.threads && s.threads[t].AtSlot?
  }

  // A store through a table pointer; out of bounds it lands in memory that is not
  // part of this model.
  function Store(s: State, table: Pointer, i: nat, rs: Resource): State {
    if table.Inline? then
      if i < |s.small| then s.(small := s.small[i := Some(rs)]) else s
    else
      if s.large.Some? && i < |s.large.value| then s.(large := Some(s.large.value[i := Some(rs)])) else s
  }

  function Goto(s: State, t: nat, pc: Pc): State {
    s.(threads := s.threads[t := pc])
  }

  function Leave(s: State, t: nat): State {
    s.(threads := s.threads - {t})
  }

  // A store of the second copy puts nothing where a resource already is.
  predicate Erases(s: State, pc: Pc) {
    pc.AtStoreAgain? && pc.word.None? && s.large.Some? && pc.k < |s.large.value| && s.large.value[pc.k].Some?
  }

  function Erased(s: State, pc: Pc): set<nat> {
    if Erases(s, pc) then {pc.k} else {}
  }

  function Apply(s: State, step: Step): State
    requires Enabled(s, step)
  {
    match step
    case Allocate(t, rs) => Goto(s, t, AtIndex(rs))
    case ReadIndex(t) => Goto(s, t, AtTable(s.threads[t].rs, s.highwater))
    case ReadTable(t) => Goto(s, t, AtSize(s.threads[t].rs, s.threads[t].index, Current(s)))
    case ReadSize(t) =>
      var pc := s.threads[t];
      if pc.index >= s.size then Goto(s, t, AtGrow(pc.rs)) else Goto(s, t, AtClaim(pc.rs, pc.index, pc.table))
    case StartGrow(t, memory) =>
      if s.size == LARGE || !memory then Leave(s, t)      // -ENOSPC, -ENOMEM
      else Goto(s, t, AtCopy(s.threads[t].rs, 0, seq(LARGE, _ => None)))
    case CopyWord(t) =>
      var pc := s.threads[t];
      if pc.k < |s.small| && pc.k < |pc.copy| then Goto(s, t, AtCopy(pc.rs, pc.k + 1, pc.copy[pc.k := s.small[pc.k]])) else s
    case Swap(t) =>
      var pc := s.threads[t];
      if s.large.None? then Goto(s.(large := Some(pc.copy)), t, AtCopyAgain(pc.rs, 0))
      else Goto(s, t, AtIndex(pc.rs))
    case LoadAgain(t) =>
      var pc := s.threads[t];
      if pc.k < |s.small| then Goto(s, t, AtStoreAgain(pc.rs, pc.k, s.small[pc.k])) else s
    case StoreAgain(t) =>
      var pc := s.threads[t];
      if s.large.Some? && pc.k < |s.large.value| then
        Goto(s.(large := Some(s.large.value[pc.k := pc.word]), erased := s.erased + Erased(s, pc)), t, AtCopyAgain(pc.rs, pc.k + 1))
      else s
    case RaiseSize(t) => Goto(s.(size := LARGE), t, AtIndex(s.threads[t].rs))
    case Claim(t) =>
      var pc := s.threads[t];
      if s.highwater == pc.index then
        Goto(s.(highwater := pc.index + 1, issued := s.issued[pc.index := pc.rs]), t, AtWrite(pc.rs, pc.index, pc.table))
      else Goto(s, t, AtIndex(pc.rs))
    case Write(t) =>
      var pc := s.threads[t];
      Goto(Store(s, pc.table, pc.index, pc.rs), t, AtCompare(pc.rs, pc.index, pc.table))
    case Compare(t) =>
      var pc := s.threads[t];
      if pc.table == Current(s) then Leave(s, t) else Goto(s, t, AtRewrite(pc.rs, pc.index))
    case Rewrite(t) =>
      var pc := s.threads[t];
      Leave(Store(s, Current(s), pc.index, pc.rs), t)
    case Lookup(t, id) => Goto(s, t, AtHighwater(id))
    case CheckId(t) =>
      if s.threads[t].id >= s.highwater then Leave(s, t) else Goto(s, t, AtPointer(s.threads[t].id))
    case ReadPointer(t) => Goto(s, t, AtSlot(s.threads[t].id, Current(s)))
    case ReadSlot(t) => Leave(s, t)
  }

  // The steps one after the other, with no assumption.
  ghost predicate Path(s: State, steps: seq<Step>, end: State)
    decreases |steps|
  {
    if steps == [] then s == end
    else Enabled(s, steps[0]) && Path(Apply(s, steps[0]), steps[1..], end)
  }

  // The explicit assumption: a claim that goes through lies inside the table that the
  // thread read before it.
  predicate Guarded(s: State, step: Step)
    requires Enabled(s, step)
  {
    step.Claim? ==>
      var pc := s.threads[step.t];
      s.highwater == pc.index ==> pc.index < Length(pc.table)
  }

  ghost predicate Run(s: State, steps: seq<Step>, end: State)
    decreases |steps|
  {
    if steps == [] then s == end
    else Enabled(s, steps[0]) && Guarded(s, steps[0]) && Run(Apply(s, steps[0]), steps[1..], end)
  }

  // ----- the invariant -----

  // The index a thread has claimed and not yet finished storing.
  predicate Owns(pc: Pc, i: nat) {
    (pc.AtWrite? || pc.AtCompare? || pc.AtRewrite?) && pc.index == i
  }

  ghost predicate ShapeOk(s: State) {
    && |s.small| == SMALL
    && (s.large.Some? ==> |s.large.value| == LARGE)
    && (s.size == SMALL || s.size == LARGE)
    && (s.size == LARGE ==> s.large.Some?)
    && s.highwater <= s.size
    && (s.large.Some? ==> s.highwater >= SMALL)
    && (forall i: nat :: i in s.issued <==> i < s.highwater)
    && (forall i :: i in s.erased ==> i < SMALL)
  }

  // An array holds nothing but what was issued, and copies never run ahead of the
  // inline array.
  predicate CopyOk(s: State, copy: Slots) {
    |copy| == LARGE && forall i :: 0 <= i < SMALL && copy[i].Some? && i < |s.small| ==> s.small[i] == copy[i]
  }

  predicate ContentsOk(s: State) {
    && (forall i :: 0 <= i < |s.small| && s.small[i].Some? ==> i in s.issued && s.small[i].value == s.issued[i])
    && (s.large.Some? ==>
          CopyOk(s, s.large.value) &&
          forall i :: 0 <= i < |s.large.value| && s.large.value[i].Some? ==> i in s.issued && s.large.value[i].value == s.issued[i])
  }

  predicate PcOk(s: State, pc: Pc) {
    match pc
    case AtIndex(_) => true
    case AtTable(_, index) => index <= s.highwater
    case AtSize(_, index, table) => index <= s.highwater && (table.Grown? ==> s.large.Some?)
    case AtGrow(_) => s.highwater >= SMALL
    case AtCopy(_, k, copy) => s.highwater >= SMALL && k <= SMALL && CopyOk(s, copy) && forall i :: SMALL <= i < |copy| ==> copy[i] == None
    case AtCopyAgain(_, k) => s.large.Some? && k <= SMALL
    case AtStoreAgain(_, k, word) => s.large.Some? && k < SMALL && (word.Some? ==> k < |s.small| && s.small[k] == word)
    case AtClaim(_, index, table) => index <= s.highwater && index < s.size && (table.Grown? ==> s.large.Some?)
    case AtWrite(rs, index, table) => OwnerOk(s, rs, index) && TableFits(s, index, table)
    case AtCompare(rs, index, table) =>
      OwnerOk(s, rs, index) && TableFits(s, index, table) &&
      (if table.Inline? then index < |s.small| && s.small[index] == Some(rs)
       else s.large.Some? && index < |s.large.value| && s.large.value[index] == Some(rs))
    case AtRewrite(rs, index) =>
      OwnerOk(s, rs, index) && index < SMALL && s.large.Some? && index < |s.small| && s.small[index] == Some(rs)
    case AtHighwater(_) => true
    case AtPointer(id) => id < s.highwater
    case AtSlot(id, table) => id < s.highwater && id < Length(table) && (table.Grown? ==> s.large.Some?)
  }

  predicate OwnerOk(s: State, rs: Resource, index: nat) {
    index in s.issued && s.issued[index] == rs
  }

  predicate TableFits(s: State, index: nat, table: Pointer) {
    if table.Inline? then index < SMALL else SMALL <= index < LARGE && s.large.Some?
  }

  // The grower is still to carry over what the inline array holds at i.
  predicate Carries(pc: Pc, i: nat) {
    || (pc.AtCopyAgain? && pc.k <= i)
    || (pc.AtStoreAgain? && (pc.k < i || (pc.k == i && pc.word.Some?)))
  }

  predicate Copying(s: State, i: nat) {
    exists t :: t in s.threads && Carries(s.threads[t], i)
  }

  // A finished allocation is where a lookup will find it, or the grower is still to
  // carry it over.
  predicate Settled(s: State, i: nat)
    requires i in s.issued
  {
    && (i < SMALL ==> i < |s.small| && s.small[i] == Some(s.issued[i]))
    && (s.large.Some? && i < |s.large.value| && i !in s.erased ==>
          s.large.value[i] == Some(s.issued[i]) || (i < SMALL && Copying(s, i)))
  }

  predicate Unowned(s: State, i: nat) {
    forall t :: t in s.threads ==> !Owns(s.threads[t], i)
  }

  predicate Copies(pc: Pc) {
    pc.AtCopyAgain? || pc.AtStoreAgain?
  }

  // An erased index has no resource in the grown array, nobody left to store it again,
  // and is behind the grower.
  predicate Gone(s: State, i: nat) {
    && i in s.issued && s.large.Some? && i < |s.large.value| && s.large.value[i] == None
    && forall t :: t in s.threads ==> !Owns(s.threads[t], i) && (Copies(s.threads[t]) ==> s.threads[t].k > i)
  }

  // The grower is one, an empty word in its hand means that the owner has not stored into
  // the grown array or is done, and what it has erased is gone.
  ghost predicate CopierOk(s: State) {
    && (forall t, u :: t in s.threads && u in s.threads && Copies(s.threads[t]) && Copies(s.threads[u]) ==> t == u)
    && (forall t :: t in s.threads && s.threads[t].AtStoreAgain? && s.threads[t].word.None? ==> HandOk(s, s.threads[t].k))
    && (forall i :: i in s.erased ==> Gone(s, i))
  }

  predicate HandOk(s: State, k: nat) {
    Unowned(s, k) || (s.large.Some? && k < |s.large.value| && s.large.value[k].None?)
  }

  ghost predicate Core(s: State) {
    && ShapeOk(s)
    && ContentsOk(s)
    && (forall t :: t in s.threads ==> PcOk(s, s.threads[t]))
    && (forall t, u, i: nat :: t in s.threads && u in s.threads && Owns(s.threads[t], i) && Owns(s.threads[u], i) ==> t == u)
    && (forall i :: i in s.issued && Unowned(s, i) ==> Settled(s, i))
  }

  ghost predicate Inv(s: State) {
    Core(s) && CopierOk(s)
  }

  // ----- each step keeps it -----

  // Other threads are not disturbed by a memory that only gains issued resources.
  ghost predicate Gains(s: State, u: State) {
    && |u.small| == |s.small| == SMALL
    && s.highwater <= u.highwater && s.size <= u.size
    && (forall i :: i in s.issued ==> i in u.issued && u.issued[i] == s.issued[i])
    && (forall i :: 0 <= i < SMALL && s.small[i].Some? ==> u.small[i] == s.small[i])
    && (s.large.Some? ==>
          u.large.Some? && |u.large.value| == |s.large.value| &&
          forall i :: 0 <= i < |s.large.value| && s.large.value[i].Some? && (i >= SMALL || i !in u.erased) ==>
            u.large.value[i] == s.large.value[i])
    && s.erased <= u.erased
  }

  lemma PcStays(s: State, u: State, pc: Pc)
    requires PcOk(s, pc) && Gains(s, u)
    ensures PcOk(u, pc)
  {
  }

  lemma SettledStays(s: State, u: State, i: nat)
    requires i in s.issued && Settled(s, i) && Gains(s, u) && s.large.Some? == u.large.Some?
    requires Copying(s, i) ==> Copying(u, i) || i >= SMALL || (u.large.Some? && i < |u.large.value| && u.large.value[i] == Some(s.issued[i]))
    ensures Settled(u, i)
  {
  }

  // Every thread but t is where it was.
  predicate Aside(s: State, u: State, t: nat) {
    && (forall v :: v in s.threads && v != t ==> v in u.threads && u.threads[v] == s.threads[v])
    && (forall v :: v in u.threads && v != t ==> v in s.threads)
  }

  predicate HasIndex(s: State, t: nat, i: nat) {
    t in s.threads && Owns(s.threads[t], i)
  }

  // One thread's step keeps the invariant if its own new position is in order, it
  // takes no index already issued, and what nobody owns is settled.
  lemma ChangeKeeps(s: State, u: State, t: nat)
    requires Core(s) && Gains(s, u) && ShapeOk(u) && ContentsOk(u) && Aside(s, u, t)
    requires t in u.threads ==> PcOk(u, u.threads[t])
    requires forall i: nat :: HasIndex(u, t, i) ==> HasIndex(s, t, i) || i !in s.issued
    requires forall i :: i in u.issued && Unowned(u, i) ==> Settled(u, i)
    ensures Core(u)
  {
    forall v | v in u.threads ensures PcOk(u, u.threads[v]) {
      if v != t { PcStays(s, u, u.threads[v]); }
    }
    forall v, w, i: nat | v in u.threads && w in u.threads && Owns(u.threads[v], i) && Owns(u.threads[w], i) ensures v == w {
      if v != t { assert PcOk(s, s.threads[v]); }
      if w != t { assert PcOk(s, s.threads[w]); }
      assert HasIndex(u, v, i) && HasIndex(u, w, i);
    }
  }

  // What nobody owned before stays settled while no copier goes away.
  lemma StaysSettled(s: State, u: State, t: nat, i: nat)
    requires Core(s) && Gains(s, u) && Aside(s, u, t) && s.large.Some? == u.large.Some?
    requires t in s.threads ==> !Copies(s.threads[t])
    requires i in s.issued && Unowned(u, i) && !HasIndex(s, t, i)
    ensures Settled(u, i)
  {
    forall v | v in s.threads ensures !Owns(s.threads[v], i) {
      if v != t { assert u.threads[v] == s.threads[v]; }
    }
    assert Unowned(s, i);
    if Copying(s, i) {
      var v :| v in s.threads && Carries(s.threads[v], i);
      assert v in u.threads && u.threads[v] == s.threads[v];
    }
    SettledStays(s, u, i);
  }

  lemma UnownedBefore(s: State, u: State, t: nat, i: nat)
    requires Aside(s, u, t) && Unowned(u, i) && !HasIndex(s, t, i)
    ensures Unowned(s, i)
  {
    forall v | v in s.threads ensures !Owns(s.threads[v], i) {
      if v != t { assert u.threads[v] == s.threads[v]; }
    }
  }

  // The grower's own business is not disturbed by a step of another thread.
  lemma CopierStays(s: State, u: State, t: nat)
    requires Inv(s) && Aside(s, u, t) && u.erased == s.erased && (t in u.threads ==> !Copies(u.threads[t]))
    requires s.issued.Keys <= u.issued.Keys && forall i: nat :: HasIndex(u, t, i) ==> HasIndex(s, t, i) || i !in s.issued
    requires s.large.Some? ==> u.large.Some? && |u.large.value| == |s.large.value|
    requires s.large.Some? ==> forall i: nat :: i < SMALL && i < |s.large.value| && u.large.value[i] != s.large.value[i] ==>
      HasIndex(s, t, i) && Unowned(u, i)
    ensures CopierOk(u)
  {
    forall i | i in u.erased ensures Gone(u, i) {
      assert Gone(s, i);
      forall v | v in u.threads ensures !Owns(u.threads[v], i) && (Copies(u.threads[v]) ==> u.threads[v].k > i) {
        if v == t { assert HasIndex(u, t, i) ==> HasIndex(s, t, i); }
      }
    }
    forall v | v in u.threads && u.threads[v].AtStoreAgain? && u.threads[v].word.None? ensures HandOk(u, u.threads[v].k) {
      var k := u.threads[v].k;
      assert PcOk(s, s.threads[v]) && HandOk(s, k) && k in s.issued;
      if Unowned(s, k) { StillUnowned(s, u, t, k); }
    }
  }

  lemma StillUnowned(s: State, u: State, t: nat, i: nat)
    requires Aside(s, u, t) && Unowned(s, i) && i in s.issued
    requires forall j: nat :: HasIndex(u, t, j) ==> HasIndex(s, t, j) || j !in s.issued
    ensures Unowned(u, i)
  {
    forall v | v in u.threads ensures !Owns(u.threads[v], i) {
      if v == t { assert HasIndex(u, t, i) ==> HasIndex(s, t, i); }
    }
  }

  // A thread moves on without touching memory, without taking or giving up an index.
  lemma MoveKeeps(s: State, t: nat, pc: Pc)
    requires Inv(s) && PcOk(s, pc) && !Copies(pc)
    requires t in s.threads ==> !Copies(s.threads[t])
    requires forall i: nat :: Owns(pc, i) <==> HasIndex(s, t, i)
    ensures Inv(Goto(s, t, pc))
  {
    var u := Goto(s, t, pc);
    PcStays(s, u, pc);
    forall i | i in u.issued && Unowned(u, i) ensures Settled(u, i) {
      StaysSettled(s, u, t, i);
    }
    ChangeKeeps(s, u, t);
    CopierStays(s, u, t);
  }

  // A thread leaves; if it owned an index, that index is settled.
  lemma LeaveKeeps(s: State, t: nat)
    requires Inv(s) && t in s.threads && !Copies(s.threads[t])
    requires forall i: nat :: HasIndex(s, t, i) && i in s.issued ==> Settled(Leave(s, t), i)
    ensures Inv(Leave(s, t))
  {
    var u := Leave(s, t);
    forall i | i in u.issued && Unowned(u, i) ensures Settled(u, i) {
      if !HasIndex(s, t, i) { StaysSettled(s, u, t, i); }
    }
    ChangeKeeps(s, u, t);
    CopierStays(s, u, t);
  }

  lemma SwapKeeps(s: State, t: nat)
    requires Inv(s) && Enabled(s, Swap(t))
    ensures Inv(Apply(s, Swap(t)))
  {
    var pc := s.threads[t];
    if s.large.Some? {
      MoveKeeps(s, t, AtIndex(pc.rs));
    } else {
      Installed(s, t);
      FirstCopier(s, t);
    }
  }

  lemma Installed(s: State, t: nat)
    requires Core(s) && Enabled(s, Swap(t)) && s.large.None?
    ensures Core(Apply(s, Swap(t)))
  {
    var u := Apply(s, Swap(t));
    forall i | i in u.issued && Unowned(u, i) ensures Settled(u, i) {
      UnownedBefore(s, u, t, i);
      assert Carries(u.threads[t], i);
    }
    ChangeKeeps(s, u, t);
  }

  lemma FirstCopier(s: State, t: nat)
    requires Inv(s) && Enabled(s, Swap(t)) && s.large.None?
    ensures CopierOk(Apply(s, Swap(t)))
  {
    forall v | v in s.threads ensures !Copies(s.threads[v]) {
      assert PcOk(s, s.threads[v]);
    }
    assert forall i :: i in s.erased ==> Gone(s, i);
  }

  lemma LoadKeeps(s: State, t: nat)
    requires Core(s) && Enabled(s, LoadAgain(t))
    ensures Core(Apply(s, LoadAgain(t)))
  {
    var u := Apply(s, LoadAgain(t));
    forall i | i in u.issued && Unowned(u, i) ensures Settled(u, i) {
      UnownedBefore(s, u, t, i);
      if Copying(s, i) && i < SMALL {
        var v :| v in s.threads && Carries(s.threads[v], i);
        assert v in u.threads && Carries(u.threads[v], i);
      }
      SettledStays(s, u, i);
    }
    ChangeKeeps(s, u, t);
  }

  lemma CopiedAgain(s: State, t: nat)
    requires Core(s) && Enabled(s, StoreAgain(t))
    ensures var u := Apply(s, StoreAgain(t)); Gains(s, u) && ShapeOk(u) && ContentsOk(u) && Aside(s, u, t)
  {
  }

  lemma CopyAgainKeeps(s: State, t: nat)
    requires Core(s) && Enabled(s, StoreAgain(t))
    ensures Core(Apply(s, StoreAgain(t)))
  {
    var pc := s.threads[t];
    var u := Apply(s, StoreAgain(t));
    CopiedAgain(s, t);
    forall i | i in u.issued && Unowned(u, i) ensures Settled(u, i) {
      UnownedBefore(s, u, t, i);
      if Copying(s, i) && i < SMALL && (i != pc.k || pc.word.None?) {
        var v :| v in s.threads && Carries(s.threads[v], i);
        assert v in u.threads && Carries(u.threads[v], i);
      }
      SettledStays(s, u, i);
    }
    ChangeKeeps(s, u, t);
  }

  lemma RaiseKeeps(s: State, t: nat)
    requires Core(s) && Enabled(s, RaiseSize(t))
    ensures Core(Apply(s, RaiseSize(t)))
  {
    var u := Apply(s, RaiseSize(t));
    forall i | i in u.issued && Unowned(u, i) ensures Settled(u, i) {
      UnownedBefore(s, u, t, i);
      if Copying(s, i) && i < SMALL {
        var v :| v in s.threads && Carries(s.threads[v], i);
        assert v in u.threads && u.threads[v] == s.threads[v];
      }
      SettledStays(s, u, i);
    }
    ChangeKeeps(s, u, t);
  }

  lemma ClaimKeeps(s: State, t: nat)
    requires Inv(s) && Enabled(s, Claim(t)) && Guarded(s, Claim(t))
    ensures Inv(Apply(s, Claim(t)))
  {
    var pc := s.threads[t];
    if s.highwater != pc.index {
      MoveKeeps(s, t, AtIndex(pc.rs));
    } else {
      Claimed(s, t);
      CopierStays(s, Apply(s, Claim(t)), t);
    }
  }

  lemma Claimed(s: State, t: nat)
    requires Core(s) && Enabled(s, Claim(t)) && Guarded(s, Claim(t)) && s.highwater == s.threads[t].index
    ensures Core(Apply(s, Claim(t)))
  {
    var pc := s.threads[t];
    var u := Apply(s, Claim(t));
    forall i | i in u.issued && Unowned(u, i) ensures Settled(u, i) {
      assert i != pc.index by { assert Owns(u.threads[t], pc.index); }
      StaysSettled(s, u, t, i);
    }
    ChangeKeeps(s, u, t);
  }

  // Storing the resource of an issued index.
  lemma StoreGains(s: State, table: Pointer, i: nat)
    requires ShapeOk(s) && ContentsOk(s) && i in s.issued && i < Length(table)
    requires table.Grown? && i < SMALL ==> s.small[i] == Some(s.issued[i])
    ensures var u := Store(s, table, i, s.issued[i]); Gains(s, u) && ShapeOk(u) && ContentsOk(u)
  {
  }

  lemma WriteKeeps(s: State, t: nat)
    requires Core(s) && Enabled(s, Write(t))
    ensures Core(Apply(s, Write(t)))
  {
    var pc := s.threads[t];
    StoreGains(s, pc.table, pc.index);
    var u := Apply(s, Write(t));
    forall i | i in u.issued && Unowned(u, i) ensures Settled(u, i) {
      assert i != pc.index by { assert Owns(u.threads[t], pc.index); }
      StaysSettled(s, u, t, i);
    }
    ChangeKeeps(s, u, t);
  }

  lemma RewriteKeeps(s: State, t: nat)
    requires Core(s) && Enabled(s, Rewrite(t))
    ensures Core(Apply(s, Rewrite(t)))
  {
    var pc := s.threads[t];
    StoreGains(s, Grown, pc.index);
    var u := Apply(s, Rewrite(t));
    forall i | i in u.issued && Unowned(u, i) ensures Settled(u, i) {
      if i != pc.index { StaysSettled(s, u, t, i); }
    }
    ChangeKeeps(s, u, t);
  }

  lemma CompareKeeps(s: State, t: nat)
    requires Inv(s) && Enabled(s, Compare(t))
    ensures Inv(Apply(s, Compare(t)))
  {
    var pc := s.threads[t];
    if pc.table == Current(s) { LeaveKeeps(s, t); } else { MoveKeeps(s, t, AtRewrite(pc.rs, pc.index)); }
  }

  // The reads at the head of an allocation.
  lemma ReadKeeps(s: State, step: Step)
    requires Inv(s) && Enabled(s, step)
    requires step.Allocate? || step.ReadIndex? || step.ReadTable? || step.ReadSize?
    ensures Inv(Apply(s, step))
  {
    match step
    case Allocate(t, rs) => MoveKeeps(s, t, AtIndex(rs));
    case ReadIndex(t) => MoveKeeps(s, t, AtTable(s.threads[t].rs, s.highwater));
    case ReadTable(t) => MoveKeeps(s, t, AtSize(s.threads[t].rs, s.threads[t].index, Current(s)));
    case ReadSize(t) =>
      var pc := s.threads[t];
      MoveKeeps(s, t, if pc.index >= s.size then AtGrow(pc.rs) else AtClaim(pc.rs, pc.index, pc.table));
  }

  lemma StartGrowKeeps(s: State, t: nat, memory: bool)
    requires Inv(s) && Enabled(s, StartGrow(t, memory))
    ensures Inv(Apply(s, StartGrow(t, memory)))
  {
    if s.size == LARGE || !memory {
      LeaveKeeps(s, t);
    } else {
      MoveKeeps(s, t, AtCopy(s.threads[t].rs, 0, seq(LARGE, _ => None)));
    }
  }

  lemma CopyWordKeeps(s: State, t: nat)
    requires Inv(s) && Enabled(s, CopyWord(t))
    ensures Inv(Apply(s, CopyWord(t)))
  {
    var pc := s.threads[t];
    assert PcOk(s, pc);
    var copy := pc.copy[pc.k := s.small[pc.k]];
    assert CopyOk(s, copy);
    MoveKeeps(s, t, AtCopy(pc.rs, pc.k + 1, copy));
  }

  lemma LookupKeeps(s: State, step: Step)
    requires Inv(s) && Enabled(s, step)
    requires step.Lookup? || step.CheckId? || step.ReadPointer? || step.ReadSlot?
    ensures Inv(Apply(s, step))
  {
    match step
    case Lookup(t, id) => MoveKeeps(s, t, AtHighwater(id));
    case CheckId(t) =>
      if s.threads[t].id >= s.highwater { LeaveKeeps(s, t); } else { MoveKeeps(s, t, AtPointer(s.threads[t].id)); }
    case ReadPointer(t) => MoveKeeps(s, t, AtSlot(s.threads[t].id, Current(s)));
    case ReadSlot(t) => LeaveKeeps(s, t);
  }

  lemma LoadCopier(s: State, t: nat)
    requires Inv(s) && Enabled(s, LoadAgain(t))
    ensures CopierOk(Apply(s, LoadAgain(t)))
  {
    var u := Apply(s, LoadAgain(t));
    forall i | i in u.erased ensures Gone(u, i) {
      assert Gone(s, i);
    }
  }

  // What the second copy erases is gone: its owner has stored it and left.
  lemma StoreCopier(s: State, t: nat)
    requires Inv(s) && Enabled(s, StoreAgain(t))
    ensures CopierOk(Apply(s, StoreAgain(t)))
  {
    var pc, u := s.threads[t], Apply(s, StoreAgain(t));
    forall i | i in u.erased ensures Gone(u, i) {
      if i in s.erased {
        assert Gone(s, i);
      } else {
        assert HandOk(s, pc.k) && Unowned(s, i);
      }
    }
  }

  lemma RaiseCopier(s: State, t: nat)
    requires Inv(s) && Enabled(s, RaiseSize(t))
    ensures CopierOk(Apply(s, RaiseSize(t)))
  {
    CopierStays(s, Apply(s, RaiseSize(t)), t);
  }

  lemma WriteCopier(s: State, t: nat)
    requires Inv(s) && Enabled(s, Write(t))
    ensures CopierOk(Apply(s, Write(t)))
  {
    assert PcOk(s, s.threads[t]);
    CopierStays(s, Apply(s, Write(t)), t);
  }

  lemma RewriteCopier(s: State, t: nat)
    requires Inv(s) && Enabled(s, Rewrite(t))
    ensures CopierOk(Apply(s, Rewrite(t)))
  {
    var u, i := Apply(s, Rewrite(t)), s.threads[t].index;
    assert PcOk(s, s.threads[t]) && HasIndex(s, t, i);
    forall v | v in u.threads ensures !Owns(u.threads[v], i) {
    }
    CopierStays(s, u, t);
  }

  predicate OfGrower(step: Step) {
    step.StartGrow? || step.CopyWord? || step.Swap? || step.LoadAgain? || step.StoreAgain? || step.RaiseSize?
  }

  lemma GrowerKeeps(s: State, step: Step)
    requires Inv(s) && Enabled(s, step) && OfGrower(step)
    ensures Inv(Apply(s, step))
  {
    match step
    case StartGrow(t, memory) => StartGrowKeeps(s, t, memory);
    case CopyWord(t) => CopyWordKeeps(s, t);
    case Swap(t) => SwapKeeps(s, t);
    case LoadAgain(t) =>
      LoadKeeps(s, t);
      LoadCopier(s, t);
    case StoreAgain(t) =>
      CopyAgainKeeps(s, t);
      StoreCopier(s, t);
    case RaiseSize(t) =>
      RaiseKeeps(s, t);
      RaiseCopier(s, t);
  }

  predicate OfOwner(step: Step) {
    step.Claim? || step.Write? || step.Compare? || step.Rewrite?
  }

  lemma OwnerKeeps(s: State, step: Step)
    requires Inv(s) && Enabled(s, step) && OfOwner(step) && Guarded(s, step)
    ensures Inv(Apply(s, step))
  {
    match step
    case Claim(t) => ClaimKeeps(s, t);
    case Write(t) =>
      WriteKeeps(s, t);
      WriteCopier(s, t);
    case Compare(t) => CompareKeeps(s, t);
    case Rewrite(t) =>
      RewriteKeeps(s, t);
      RewriteCopier(s, t);
  }

  lemma StepKeeps(s: State, step: Step)
    requires Inv(s) && Enabled(s, step) && Guarded(s, step)
    ensures Inv(Apply(s, step))
  {
    if OfGrower(step) {
      GrowerKeeps(s, step);
    } else if OfOwner(step) {
      OwnerKeeps(s, step);
    } else if step.Allocate? || step.ReadIndex? || step.ReadTable? || step.ReadSize? {
      ReadKeeps(s, step);
    } else {
      LookupKeeps(s, step);
    }
  }

  lemma InitialOk(s: State)
    requires Initial(s)
    ensures Inv(s)
  {
  }

  lemma {:induction false} RunKeeps(s: State, steps: seq<Step>, end: State)
    requires Inv(s) && Run(s, steps, end)
    ensures Inv(end)
    decreases |steps|
  {
    if steps != [] {
      StepKeeps(s, steps[0]);
      RunKeeps(Apply(s, steps[0]), steps[1..], end);
    }
  }

  // ----- what every run promises -----

  // What holds without any assumption: indices are issued in order, up to the size.
  ghost predicate Base(s: State) {
    && (forall i: nat :: i in s.issued <==> i < s.highwater)
    && s.highwater <= s.size <= LARGE
    && (forall t :: t in s.threads && s.threads[t].AtClaim? ==> s.threads[t].index < s.size)
  }

  lemma BaseKeeps(s: State, step: Step)
    requires Base(s) && Enabled(s, step)
    ensures Base(Apply(s, step))
  {
  }

  /** The highwater mark never passes the table size, guarded or not. */
  lemma {:induction false} HighwaterStaysInside(s: State, steps: seq<Step>, end: State)
    requires Base(s) && Path(s, steps, end)
    ensures Base(end)
    decreases |steps|
  {
    if steps != [] {
      BaseKeeps(s, steps[0]);
      HighwaterStaysInside(Apply(s, steps[0]), steps[1..], end);
    }
  }

  // Successful claims of an index along a path.
  function Claims(s: State, steps: seq<Step>, i: nat): nat
    decreases |steps|
  {
    if steps == [] || !Enabled(s, steps[0]) then 0
    else
      var rest := Claims(Apply(s, steps[0]), steps[1..], i);
      if ClaimsIndex(s, steps[0], i) then rest + 1 else rest
  }

  predicate ClaimsIndex(s: State, step: Step, i: nat) {
    step.Claim? && step.t in s.threads && s.threads[step.t].AtClaim? && s.threads[step.t].index == i && s.highwater == i
  }

  // Only a successful claim issues an index, and it is a new one.
  lemma StepIssues(s: State, step: Step, i: nat)
    requires Base(s) && Enabled(s, step)
    ensures var u := Apply(s, step);
      if ClaimsIndex(s, step, i) then i !in s.issued && i in u.issued
      else (i in u.issued <==> i in s.issued) && (i in s.issued ==> u.issued[i] == s.issued[i])
  {
  }

  /** No two allocations get the same index, and an index once issued keeps its resource,
      guarded or not. */
  lemma {:induction false} IndicesAreIssuedOnce(s: State, steps: seq<Step>, end: State, i: nat)
    requires Base(s) && Path(s, steps, end)
    ensures Claims(s, steps, i) + (if i in s.issued then 1 else 0) == if i in end.issued then 1 else 0
    ensures i in s.issued ==> i in end.issued && end.issued[i] == s.issued[i]
    decreases |steps|
  {
    if steps != [] {
      BaseKeeps(s, steps[0]);
      StepIssues(s, steps[0], i);
      IndicesAreIssuedOnce(Apply(s, steps[0]), steps[1..], end, i);
    }
  }

  // Growths that win the swap along a path.
  function Growths(s: State, steps: seq<Step>): nat
    decreases |steps|
  {
    if steps == [] || !Enabled(s, steps[0]) then 0
    else
      var rest := Growths(Apply(s, steps[0]), steps[1..]);
      if steps[0].Swap? && s.large.None? then rest + 1 else rest
  }

  /** At most one growth wins, however many threads try, guarded or not. */
  lemma {:induction false} GrowsOnce(s: State, steps: seq<Step>, end: State)
    requires Path(s, steps, end)
    ensures Growths(s, steps) + (if s.large.Some? then 1 else 0) == if end.large.Some? then 1 else 0
    decreases |steps|
  {
    if steps != [] {
      GrowsOnce(Apply(s, steps[0]), steps[1..], end);
    }
  }

  // How many slots there really are behind a pointer.
  function Room(s: State, table: Pointer): nat {
    if table.Inline? then |s.small| else if s.large.Some? then |s.large.value| else 0
  }

  // What a thread at its slot read finds there.
  function Found(s: State, id: nat, table: Pointer): Option<Resource> {
    if table.Inline? then (if id < |s.small| then s.small[id] else None)
    else (if s.large.Some? && id < |s.large.value| then s.large.value[id] else None)
  }

  /** Safety of every interleaving: the highwater mark never passes the table size, every
      store stays inside its array, and a lookup reads inside its array and finds either
      nothing yet or the very resource that was issued that id. */
  lemma EveryInterleavingIsSafe(s: State, steps: seq<Step>, end: State)
    requires Initial(s) && Run(s, steps, end)
    ensures end.highwater <= end.size <= LARGE
    ensures forall t :: t in end.threads && end.threads[t].AtWrite? ==>
      end.threads[t].index < Room(end, end.threads[t].table)
    ensures forall t :: t in end.threads && end.threads[t].AtRewrite? ==> end.threads[t].index < Room(end, Current(end))
    ensures forall t :: t in end.threads && end.threads[t].AtStoreAgain? ==> end.threads[t].k < Room(end, Grown)
    ensures forall t :: t in end.threads && end.threads[t].AtSlot? ==>
      var id, table := end.threads[t].id, end.threads[t].table;
      id < Room(end, table) && id in end.issued && (Found(end, id, table) == None || Found(end, id, table) == Some(end.issued[id]))
  {
    InitialOk(s);
    RunKeeps(s, steps, end);
    forall t | t in end.threads ensures PcOk(end, end.threads[t]) {
    }
  }

  // Does the second copy store nothing over the resource of an index along a path?
  function ErasedAlong(s: State, steps: seq<Step>, i: nat): bool
    decreases |steps|
  {
    if steps == [] || !Enabled(s, steps[0]) then false
    else
      || (steps[0].StoreAgain? && s.threads[steps[0].t].k == i && Erases(s, s.threads[steps[0].t]))
      || ErasedAlong(Apply(s, steps[0]), steps[1..], i)
  }

  lemma {:induction false} ErasedIs(s: State, steps: seq<Step>, end: State, i: nat)
    requires Run(s, steps, end)
    ensures i in end.erased <==> i in s.erased || ErasedAlong(s, steps, i)
    decreases |steps|
  {
    if steps != [] {
      ErasedIs(Apply(s, steps[0]), steps[1..], end, i);
    }
  }

  /** At rest, an issued index holds its resource in the table that lookups use exactly
      unless the second copy loaded its word before the allocation stored it and stored
      the empty word back after the allocation had finished; then nothing is found there. */
  lemma AtRestHeldIff(s: State, steps: seq<Step>, end: State, i: nat)
    requires Initial(s) && Run(s, steps, end) && end.threads == map[] && i < end.highwater
    ensures i in end.issued
    ensures Found(end, i, Current(end)) == if ErasedAlong(s, steps, i) then None else Some(end.issued[i])
  {
    InitialOk(s);
    RunKeeps(s, steps, end);
    ErasedIs(s, steps, end, i);
    assert Unowned(end, i);
    if i in end.erased {
      assert Gone(end, i);
    } else {
      assert !Copying(end, i);
    }
  }

  // The words of the second copy are copied as if in one step: no word of the inline
  // array changes between its load and its store.
  ghost predicate WordAtomic(s: State, steps: seq<Step>)
    decreases |steps|
  {
    if steps == [] || !Enabled(s, steps[0]) then true
    else
      && (steps[0].StoreAgain? ==> var pc := s.threads[steps[0].t]; pc.k < |s.small| && s.small[pc.k] == pc.word)
      && WordAtomic(Apply(s, steps[0]), steps[1..])
  }

  lemma {:induction false} AtomicErasesNothing(s: State, steps: seq<Step>, end: State, i: nat)
    requires Inv(s) && Run(s, steps, end) && WordAtomic(s, steps)
    ensures !ErasedAlong(s, steps, i)
    decreases |steps|
  {
    if steps != [] {
      StepKeeps(s, steps[0]);
      AtomicErasesNothing(Apply(s, steps[0]), steps[1..], end, i);
    }
  }

  /** With word-atomic copies every issued index holds its resource at rest. */
  lemma AtRestEveryIndexIsHeld(s: State, steps: seq<Step>, end: State, i: nat)
    requires Initial(s) && Run(s, steps, end) && end.threads == map[] && i < end.highwater && WordAtomic(s, steps)
    ensures i in end.issued && Found(end, i, Current(end)) == Some(end.issued[i])
  {
    InitialOk(s);
    AtomicErasesNothing(s, steps, end, i);
    AtRestHeldIff(s, steps, end, i);
  }

  /** A claim that goes through leads to a store inside its array exactly when it is
      guarded; and the guard fails exactly when another thread has finished growing since
      this one read the table pointer, so that the pointer is still the inline array while
      the size is already the large one. */
  lemma ClaimInBoundsIff(s: State, t: nat)
    requires Inv(s) && Enabled(s, Claim(t)) && s.highwater == s.threads[t].index
    ensures var u := Apply(s, Claim(t));
      u.threads[t].AtWrite? && (u.threads[t].index < Room(u, u.threads[t].table) <==> Guarded(s, Claim(t)))
    ensures !Guarded(s, Claim(t)) <==> s.threads[t].table == Inline && s.size == LARGE && s.highwater >= SMALL
  {
    assert PcOk(s, s.threads[t]);
  }

  // ----- two runs that go wrong -----

  lemma {:induction false} Extend(s: State, steps: seq<Step>, m: State, step: Step)
    requires Run(s, steps, m) && Enabled(m, step) && Guarded(m, step)
    ensures Run(s, steps + [step], Apply(m, step))
    decreases |steps|
  {
    var all := steps + [step];
    if steps == [] {
      assert all[1..] == [];
    } else {
      Extend(Apply(s, steps[0]), steps[1..], m, step);
      assert all[1..] == steps[1..] + [step];
    }
  }

  lemma {:induction false} Join(s: State, a: seq<Step>, m: State, b: seq<Step>, end: State)
    requires Run(s, a, m) && Run(m, b, end)
    ensures Run(s, a + b, end)
    decreases |b|
  {
    if b == [] {
      assert a + b == a;
    } else {
      Extend(s, a, m, b[0]);
      Join(s, a + [b[0]], Apply(m, b[0]), b[1..], end);
      assert a + [b[0]] + b[1..] == a + b;
    }
  }

  // A thread's way from the head of its loop to the size check, and through the claim.
  lemma UpToSize(s: State, t: nat) returns (steps: seq<Step>, end: State)
    requires t in s.threads && s.threads[t].AtIndex?
    ensures Run(s, steps, end) && end == Goto(s, t, AtSize(s.threads[t].rs, s.highwater, Current(s)))
  {
    var mid := Apply(s, ReadIndex(t));
    Extend(s, [], s, ReadIndex(t));
    end := Apply(mid, ReadTable(t));
    Extend(s, [] + [ReadIndex(t)], mid, ReadTable(t));
    steps := [] + [ReadIndex(t)] + [ReadTable(t)];
    assert end.threads == s.threads[t := AtSize(s.threads[t].rs, s.highwater, Current(s))];
  }

  lemma UpToWrite(s: State, t: nat) returns (steps: seq<Step>, end: State)
    requires t in s.threads && s.threads[t].AtIndex? && s.highwater < s.size && s.highwater < Length(Current(s))
    ensures Run(s, steps, end)
    ensures var rs := s.threads[t].rs;
      end == Goto(s.(highwater := s.highwater + 1, issued := s.issued[s.highwater := rs]), t, AtWrite(rs, s.highwater, Current(s)))
  {
    var m;
    steps, m := UpToSize(s, t);
    var m1 := Apply(m, ReadSize(t));
    Extend(s, steps, m, ReadSize(t));
    end := Apply(m1, Claim(t));
    Extend(s, steps + [ReadSize(t)], m1, Claim(t));
    steps := steps + [ReadSize(t)] + [Claim(t)];
    assert end.threads == s.threads[t := AtWrite(s.threads[t].rs, s.highwater, Current(s))];
  }

  // A whole allocation that nobody disturbs.
  lemma Alone(s: State, t: nat) returns (steps: seq<Step>, end: State)
    requires t in s.threads && s.threads[t].AtIndex? && s.highwater < s.size && s.highwater < Length(Current(s))
    ensures Run(s, steps, end)
    ensures var rs := s.threads[t].rs;
      end == Leave(Store(s.(highwater := s.highwater + 1, issued := s.issued[s.highwater := rs]), Current(s), s.highwater, rs), t)
  {
    var m;
    steps, m := UpToWrite(s, t);
    var m1 := Apply(m, Write(t));
    Extend(s, steps, m, Write(t));
    end := Apply(m1, Compare(t));
    Extend(s, steps + [Write(t)], m1, Compare(t));
    steps := steps + [Write(t)] + [Compare(t)];
    assert end.threads == s.threads - {t};
  }

  function Start(): State {
    State(seq(SMALL, _ => None), None, SMALL, 0, map[], map[], {})
  }

  // The first n indices allocated one after the other.
  lemma {:induction false} FillUp(n: nat) returns (steps: seq<Step>, end: State)
    requires n <= SMALL
    ensures Initial(Start()) && Run(Start(), steps, end)
    ensures |end.small| == SMALL && end.large == None && end.size == SMALL && end.highwater == n && end.threads == map[] && end.erased == {}
    ensures forall i :: n <= i < SMALL ==> end.small[i] == None
    decreases n
  {
    if n == 0 {
      steps, end := [], Start();
    } else {
      var a, m := FillUp(n - 1);
      var m1 := Apply(m, Allocate(0, n));
      Extend(Start(), a, m, Allocate(0, n));
      var b;
      b, end := Alone(m1, 0);
      Join(Start(), a + [Allocate(0, n)], m1, b, end);
      steps := a + [Allocate(0, n)] + b;
    }
  }

  // A growth up to its swap.
  lemma UpToSwap(s: State, t: nat) returns (steps: seq<Step>, end: State, copy: Slots)
    requires t in s.threads && s.threads[t].AtIndex? && s.highwater >= s.size == SMALL && s.large == None && |s.small| == SMALL
    ensures Run(s, steps, end) && CopyOk(s, copy) && end == Goto(s.(large := Some(copy)), t, AtCopyAgain(s.threads[t].rs, 0))
  {
    var a, m := UpToSize(s, t);
    var m1 := Apply(m, ReadSize(t));
    Extend(s, a, m, ReadSize(t));
    var m2 := Apply(m1, StartGrow(t, true));
    Extend(s, a + [ReadSize(t)], m1, StartGrow(t, true));
    a := a + [ReadSize(t)] + [StartGrow(t, true)];
    var b, m3;
    b, m3, copy := FirstCopy(m2, t);
    Join(s, a, m2, b, m3);
    end := Apply(m3, Swap(t));
    Extend(s, a + b, m3, Swap(t));
    steps := a + b + [Swap(t)];
    assert end.threads == s.threads[t := AtCopyAgain(s.threads[t].rs, 0)];
  }

  lemma {:induction false} FirstCopy(s: State, t: nat) returns (steps: seq<Step>, end: State, copy: Slots)
    requires t in s.threads && s.threads[t].AtCopy? && s.threads[t].k <= SMALL == |s.small| && CopyOk(s, s.threads[t].copy)
    ensures Run(s, steps, end) && CopyOk(s, copy) && end == Goto(s, t, AtCopy(s.threads[t].rs, SMALL, copy))
    decreases (SMALL as int) - (s.threads[t].k as int)
  {
    var pc := s.threads[t];
    if pc.k == SMALL {
      steps, end, copy := [], s, pc.copy;
      assert s.threads[t := AtCopy(pc.rs, SMALL, copy)] == s.threads;
    } else {
      var next := Apply(s, CopyWord(t));
      steps, end, copy := FirstCopy(next, t);
      steps := [CopyWord(t)] + steps;
      assert end.threads == s.threads[t := AtCopy(pc.rs, SMALL, copy)];
    }
  }

  // The second copy up to a word, undisturbed: it erases nothing.
  lemma {:induction false} SecondCopy(s: State, t: nat, to: nat) returns (steps: seq<Step>, end: State, large: Slots)
    requires t in s.threads && s.threads[t].AtCopyAgain? && s.threads[t].k <= to <= SMALL == |s.small|
    requires s.large.Some? && CopyOk(s, s.large.value)
    ensures Run(s, steps, end) && CopyOk(s, large)
    ensures end == Goto(s.(large := Some(large)), t, AtCopyAgain(s.threads[t].rs, to))
    decreases (to as int) - (s.threads[t].k as int)
  {
    var pc := s.threads[t];
    if pc.k == to {
      steps, end, large := [], s, s.large.value;
      assert s.threads[t := AtCopyAgain(pc.rs, to)] == s.threads;
    } else {
      var mid := Apply(s, LoadAgain(t));
      var next := Apply(mid, StoreAgain(t));
      Extend(s, [], s, LoadAgain(t));
      Extend(s, [] + [LoadAgain(t)], mid, StoreAgain(t));
      assert next.erased == s.erased;
      var rest;
      rest, end, large := SecondCopy(next, t, to);
      steps := [] + [LoadAgain(t)] + [StoreAgain(t)] + rest;
      Join(s, [] + [LoadAgain(t)] + [StoreAgain(t)], next, rest, end);
      assert end.threads == s.threads[t := AtCopyAgain(pc.rs, to)];
    }
  }

  // A growth up to a word of its second copy.
  lemma GrowTo(s: State, t: nat, to: nat) returns (steps: seq<Step>, end: State, large: Slots)
    requires t in s.threads && s.threads[t].AtIndex? && s.highwater >= s.size == SMALL && s.large == None && |s.small| == SMALL
    requires to <= SMALL
    ensures Run(s, steps, end) && CopyOk(s, large) && end == Goto(s.(large := Some(large)), t, AtCopyAgain(s.threads[t].rs, to))
  {
    var a, m, copy := UpToSwap(s, t);
    var b;
    b, end, large := SecondCopy(m, t, to);
    Join(s, a, m, b, end);
    steps := a + b;
    assert end.threads == s.threads[t := AtCopyAgain(s.threads[t].rs, to)];
  }

  // Two threads set out once the first n indices are allocated.
  lemma TwoSetOut(n: nat) returns (steps: seq<Step>, end: State)
    requires n <= SMALL
    ensures Initial(Start()) && Run(Start(), steps, end) && end.threads == map[1 := AtIndex(100), 2 := AtIndex(200)]
    ensures |end.small| == SMALL && end.large == None && end.size == SMALL && end.highwater == n && end.erased == {}
    ensures forall i :: n <= i < SMALL ==> end.small[i] == None
  {
    var a, s0 := FillUp(n);
    var s1 := Apply(s0, Allocate(1, 100));
    Extend(Start(), a, s0, Allocate(1, 100));
    end := Apply(s1, Allocate(2, 200));
    Extend(Start(), a + [Allocate(1, 100)], s1, Allocate(2, 200));
    steps := a + [Allocate(1, 100)] + [Allocate(2, 200)];
  }

  /** The guard can fail: a run from the empty table, guarded so far, that leads to a claim
      which goes through and whose store falls just past the inline array. */
  lemma OverrunExample() returns (steps: seq<Step>, end: State)
    ensures Initial(Start()) && Run(Start(), steps, end)
    ensures Enabled(end, Claim(1)) && end.highwater == end.threads[1].index && !Guarded(end, Claim(1))
    ensures var u := Apply(end, Claim(1));
      u.threads[1].AtWrite? && u.threads[1].table == Inline && u.threads[1].index == Room(u, Inline)
  {
    var a, s0 := TwoSetOut(SMALL);
    var b, s1 := UpToSize(s0, 1);
    Join(Start(), a, s0, b, s1);
    var c, s2, large := GrowTo(s1, 2, SMALL);
    Join(Start(), a + b, s1, c, s2);
    steps := a + b + c;
    var s3 := Apply(s2, RaiseSize(2));
    Extend(Start(), steps, s2, RaiseSize(2));
    end := Apply(s3, ReadSize(1));
    Extend(Start(), steps + [RaiseSize(2)], s3, ReadSize(1));
    steps := steps + [RaiseSize(2)] + [ReadSize(1)];
  }

  // One thread has claimed the last inline index; the other grows the table, and its
  // second copy loads the word of that index before it is stored.
  lemma LoadedTooEarly() returns (steps: seq<Step>, end: State)
    ensures Run(Start(), steps, end) && end.threads == map[1 := AtWrite(100, 4, Inline), 2 := AtStoreAgain(200, 4, None)]
    ensures |end.small| == SMALL && end.highwater == SMALL && end.large.Some? && |end.large.value| == LARGE
  {
    var a, s0 := TwoSetOut(4);
    var b, s1 := UpToWrite(s0, 1);
    Join(Start(), a, s0, b, s1);
    var c, s2, large := GrowTo(s1, 2, 4);
    Join(Start(), a + b, s1, c, s2);
    steps := a + b + c;
    end := Apply(s2, LoadAgain(2));
    Extend(Start(), steps, s2, LoadAgain(2));
    steps := steps + [LoadAgain(2)];
  }

  // The allocation finishes, with its second store in the grown array.
  lemma StoredTwice(s: State) returns (steps: seq<Step>, end: State)
    requires s.threads == map[1 := AtWrite(100, 4, Inline), 2 := AtStoreAgain(200, 4, None)]
    requires |s.small| == SMALL && s.large.Some? && |s.large.value| == LARGE
    ensures Run(s, steps, end) && end.threads == map[2 := AtStoreAgain(200, 4, None)] && end.highwater == s.highwater
    ensures end.large.Some? && |end.large.value| == LARGE && end.large.value[4] == Some(100)
  {
    var s1 := Apply(s, Write(1));
    Extend(s, [], s, Write(1));
    var s2 := Apply(s1, Compare(1));
    Extend(s, [] + [Write(1)], s1, Compare(1));
    end := Apply(s2, Rewrite(1));
    Extend(s, [] + [Write(1)] + [Compare(1)], s2, Rewrite(1));
    steps := [] + [Write(1)] + [Compare(1)] + [Rewrite(1)];
  }

  // The growth stores the empty word over it, and the growing thread goes on to allocate.
  lemma StoredTooLate(s: State) returns (steps: seq<Step>, end: State)
    requires s.threads == map[2 := AtStoreAgain(200, 4, None)] && s.highwater == SMALL
    requires s.large.Some? && |s.large.value| == LARGE
    ensures Run(s, steps, end) && end.threads == map[] && end.highwater == SMALL + 1
    ensures end.large.Some? && |end.large.value| == LARGE && end.large.value[4] == None
  {
    var s1 := Apply(s, StoreAgain(2));
    Extend(s, [], s, StoreAgain(2));
    var s2 := Apply(s1, RaiseSize(2));
    Extend(s, [] + [StoreAgain(2)], s1, RaiseSize(2));
    steps := [] + [StoreAgain(2)] + [RaiseSize(2)];
    assert s2.threads == map[2 := AtIndex(200)];
    var rest;
    rest, end := Alone(s2, 2);
    Join(s, steps, s2, rest, end);
    steps := steps + rest;
    assert end.threads == map[];
  }

  /** A word can be lost: a guarded run from the empty table that ends at rest with an
      issued index whose resource no lookup will find. */
  lemma LostExample() returns (steps: seq<Step>, end: State)
    ensures Initial(Start()) && Run(Start(), steps, end) && end.threads == map[] && 4 < end.highwater
    ensures Found(end, 4, Current(end)) == None
  {
    var a, s0 := LoadedTooEarly();
    var b, s1 := StoredTwice(s0);
    Join(Start(), a, s0, b, s1);
    var c;
    c, end := StoredTooLate(s1);
    Join(Start(), a + b, s1, c, end);
    steps := a + b + c;
  }

  // ----- the code, one call at a time -----

  const ENOMEM: int := 12
  const EINVAL: int := 22
  const ENOSPC: int := 28
  const ENOENT: int := 2

  class Table {
    const inlined: array<Option<Resource>>
    var table: array<Option<Resource>>
    var size: nat
    var highwater: nat

    ghost predicate Valid()
      reads this, table
    {
      && inlined.Length == SMALL && table.Length == size
      && (size == SMALL || size == LARGE) && (table == inlined <==> size == SMALL)
      && highwater <= size
      && (forall i :: 0 <= i < size ==> (table[i].Some? <==> i < highwater))
    }

    // The resources by id.
    ghost function Held(): seq<Resource>
      reads this, table
      requires Valid()
    {
      seq(highwater, i requires 0 <= i < highwater && Valid() reads this, table => table[i].value)
    }

    constructor ()
      ensures Valid() && Held() == [] && fresh(table) && size == SMALL
    {
      var slots := new Option<Resource>[SMALL](_ => None);
      inlined, table, size, highwater := slots, slots, SMALL, 0;
    }

    method Grow(memory: bool) returns (rc: int)
      requires Valid()
      modifies this`table, this`size
      ensures Valid() && Held() == old(Held())
      ensures rc == (if old(size) == LARGE then -ENOSPC else if !memory then -ENOMEM else 0)
      ensures if rc == 0 then size == LARGE && fresh(table) else table == old(table) && size == old(size)
    {
      if size == LARGE { return -ENOSPC; }
      if !memory { return -ENOMEM; }
      var grown := new Option<Resource>[LARGE](_ => None);
      var k := 0;
      while k < 2 * SMALL   // the inline array is copied twice
        invariant 0 <= k <= 2 * SMALL && fresh(grown) && grown.Length == LARGE
        invariant forall i :: 0 <= i < SMALL && i < k ==> grown[i] == inlined[i]
        invariant forall i :: SMALL <= i < LARGE || (k <= i < LARGE) ==> grown[i] == None
        invariant table == old(table) && size == SMALL && Valid()
        invariant forall i :: 0 <= i < SMALL ==> inlined[i] == old(inlined[i])
      {
        grown[k % SMALL] := inlined[k % SMALL];
        k := k + 1;
      }
      table := grown;
      size := LARGE;
      return 0;
    }

    method AllocateId(rs: Resource, memory: bool) returns (rc: int, id: nat)
      requires Valid()
      modifies this, table
      ensures Valid()
      ensures rc == 0 ==> id == old(highwater) && Held() == old(Held()) + [rs]
      ensures rc != 0 ==> Held() == old(Held())
      ensures rc == (if old(highwater) == LARGE then -ENOSPC
                     else if old(highwater) == SMALL && old(size) == SMALL && !memory then -ENOMEM else 0)
    {
      id := highwater;
      if id >= size {
        rc := Grow(memory);
        if rc < 0 { return; }
      }
      highwater := highwater + 1;
      table[id] := Some(rs);
      return 0, id;
    }

    method LookupId(id: nat) returns (rc: int, rs: Option<Resource>)
      requires Valid()
      ensures rs == if id < |Held()| then Some(Held()[id]) else None
      ensures rc == if id < |Held()| then 0 else -EINVAL
    {
      if id >= highwater { return -EINVAL, None; }
      rs := table[id];
      rc := if rs == None then -ENOENT else 0;
    }

    // The destructor frees every resource once, in order.
    method Destroy() returns (freed: seq<Resource>)
      requires Valid()
      ensures freed == Held()
    {
      freed := [];
      for i := 0 to highwater
        invariant freed == Held()[..i]
      {
        freed := freed + [table[i].value];
      }
    }
  }
}
