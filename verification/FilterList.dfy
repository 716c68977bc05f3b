/**
 The ids of a resource's filters: handed out in order until the counter wraps, and from
 then on only after a search for one that is not in the list.
 */
module FilterList {
  const WRAP: nat := 2147483647         // FILTER_ID_WRAP, INT_MAX
  const BLOCK: int := -1                // FILTER_ID_INDEPENDENT_BLOCK
  const ENOENT: int := -2
  const EINVAL: int := -22

  datatype State = State(ids: seq<int>, nextId: nat, wrapped: bool)

  predicate IsId(id: int) {
    1 <= id < WRAP
  }

  // Entries that only block the kernel carry no id of their own.
  predicate Distinct(ids: seq<int>) {
    forall i, j :: 0 <= i < j < |ids| && ids[i] != BLOCK ==> ids[i] != ids[j]
  }

  predicate Valid(s: State) {
    && 1 <= s.nextId <= WRAP && Distinct(s.ids)
    && (forall i :: 0 <= i < |s.ids| ==> s.ids[i] == BLOCK || IsId(s.ids[i]))
    && (!s.wrapped ==> forall i :: 0 <= i < |s.ids| ==> s.ids[i] < s.nextId)
  }

  function Succ(id: nat): (next: nat)
    requires IsId(id)
    ensures IsId(next)
  {
    if id + 1 == WRAP then 1 else id + 1
  }

  // Is j met on the way around from a to b, b excluded? From a to a is once around.
  predicate Met(a: int, j: int, b: int) {
    if a < b then a <= j < b else a <= j || j < b
  }

  // The search, with id the one to be looked at.
  function Search(ids: seq<int>, id: nat, initial: nat): (r: int)
    requires IsId(id) && IsId(initial)
    ensures r == ENOENT || (IsId(r) && r !in ids)
    decreases if id < initial then initial - id else initial - id + WRAP
  {
    if id !in ids then id
    else if Succ(id) == initial then ENOENT
    else Search(ids, Succ(id), initial)
  }

  lemma {:induction false} SearchMeets(ids: seq<int>, id: nat, initial: nat)
    requires IsId(id) && IsId(initial)
    ensures var r := Search(ids, id, initial);
      && (r != ENOENT ==> IsId(r) && r !in ids && Met(id, r, initial))
      && (r != ENOENT && r != id ==> forall j :: IsId(j) && Met(id, j, r) ==> j in ids)
      && (r == ENOENT ==> forall j :: IsId(j) && Met(id, j, initial) ==> j in ids)
    decreases if id < initial then initial - id else initial - id + WRAP
  {
    if id in ids && Succ(id) != initial { SearchMeets(ids, Succ(id), initial); }
  }

  // The id looked at first.
  function First(s: State): nat {
    if s.nextId == WRAP then 1 else s.nextId
  }

  // efch_filter_list_gen_id
  function Generated(s: State): (r: int)
    requires Valid(s)
    ensures r == ENOENT || (IsId(r) && r !in s.ids)
  {
    if s.wrapped || s.nextId == WRAP then Search(s.ids, First(s), First(s)) else s.nextId
  }

  function AfterGen(s: State): State
    requires Valid(s)
  {
    var id := Generated(s);
    s.(nextId := if id == ENOENT then First(s) + 1 else id + 1, wrapped := s.wrapped || s.nextId == WRAP)
  }

  /** The generated id is not in the list and is the first such from the counter on, going
      around; there is none exactly when every id is in the list. */
  lemma GeneratedIsFirstFree(s: State)
    requires Valid(s)
    ensures Generated(s) == ENOENT <==> forall j :: IsId(j) ==> j in s.ids
    ensures Generated(s) != ENOENT ==> IsId(Generated(s)) && Generated(s) !in s.ids
    ensures Generated(s) != ENOENT && Generated(s) != First(s) ==> forall j :: IsId(j) && Met(First(s), j, Generated(s)) ==> j in s.ids
  {
    if s.wrapped || s.nextId == WRAP {
      SearchMeets(s.ids, First(s), First(s));
    } else {
      assert IsId(s.nextId) && s.nextId !in s.ids;
    }
  }

  // ----- histories -----

  datatype Op = Add | AddBlock | Del(id: int)

  // The first entry with the id, or the length of the list.
  function IndexOf(ids: seq<int>, id: int): (k: nat)
    ensures k <= |ids| && (k < |ids| <==> id in ids) && (k < |ids| ==> ids[k] == id)
    ensures forall i :: 0 <= i < k ==> ids[i] != id
  {
    if ids == [] then 0 else if ids[0] == id then 0
    else
      var k := IndexOf(ids[1..], id);
      assert forall i :: 1 <= i < 1 + k ==> ids[i] == ids[1..][i - 1];
      assert ids == [ids[0]] + ids[1..];
      1 + k
  }

  function Apply(s: State, op: Op): State
    requires Valid(s)
  {
    match op
    case Add => if Generated(s) < 0 then AfterGen(s) else AfterGen(s).(ids := s.ids + [Generated(s)])
    case AddBlock => s.(ids := s.ids + [BLOCK])
    case Del(id) =>
      var k := IndexOf(s.ids, id);
      if k < |s.ids| then s.(ids := s.ids[..k] + s.ids[k + 1..]) else s
  }

  lemma OpKeeps(s: State, op: Op)
    requires Valid(s)
    ensures Valid(Apply(s, op))
  {
    match op
    case Add => AddKeeps(s, Generated(s));
    case AddBlock =>
    case Del(id) => if id in s.ids { RemovalKeeps(s, IndexOf(s.ids, id)); }
  }

  lemma AddKeeps(s: State, id: int)
    requires Valid(s) && id == Generated(s)
    ensures Valid(Apply(s, Add))
  {
  }

  lemma RemovalKeeps(s: State, k: nat)
    requires Valid(s) && k < |s.ids|
    ensures Valid(s.(ids := s.ids[..k] + s.ids[k + 1..]))
  {
    var rest := s.ids[..k] + s.ids[k + 1..];
    assert forall i :: 0 <= i < |rest| ==> rest[i] == s.ids[if i < k then i else i + 1];
  }

  function Run(s: State, ops: seq<Op>): State
    requires Valid(s)
    decreases |ops|
  {
    if ops == [] then s
    else
      OpKeeps(s, ops[0]);
      Run(Apply(s, ops[0]), ops[1..])
  }

  // The answers of the additions, in order.
  function Answers(s: State, ops: seq<Op>): seq<int>
    requires Valid(s)
    decreases |ops|
  {
    if ops == [] then []
    else
      OpKeeps(s, ops[0]);
      Answer(s, ops[0]) + Answers(Apply(s, ops[0]), ops[1..])
  }

  /** Whatever was added and deleted, in any order and through any number of wraps, the ids
      in the list are all different and in range, and the next one will be too. */
  lemma {:induction false} EveryHistoryIsValid(s: State, ops: seq<Op>)
    requires Valid(s)
    ensures Valid(Run(s, ops))
    ensures Generated(Run(s, ops)) == ENOENT || (IsId(Generated(Run(s, ops))) && Generated(Run(s, ops)) !in Run(s, ops).ids)
    decreases |ops|
  {
    if ops == [] {
      GeneratedIsFirstFree(s);
    } else {
      OpKeeps(s, ops[0]);
      EveryHistoryIsValid(Apply(s, ops[0]), ops[1..]);
    }
  }

  // The ids held, folded from the calls and their answers.
  function Holding(ids: multiset<int>, ops: seq<Op>, answers: seq<int>): multiset<int>
    decreases |ops|
  {
    if ops == [] then ids
    else if ops[0] != Add then Holding(HeldAfter(ids, ops[0], 0), ops[1..], answers)
    else if answers == [] then ids
    else Holding(HeldAfter(ids, Add, answers[0]), ops[1..], answers[1..])
  }

  // What a call does to the ids held, given its answer.
  function HeldAfter(ids: multiset<int>, op: Op, answer: int): multiset<int> {
    match op
    case Add => if answer >= 0 then ids + multiset{answer} else ids
    case AddBlock => ids + multiset{BLOCK}
    case Del(id) => ids - multiset{id}
  }

  // The list after a call, given its answer.
  function ListAfter(ids: seq<int>, op: Op, answer: int): seq<int> {
    match op
    case Add => if answer >= 0 then ids + [answer] else ids
    case AddBlock => ids + [BLOCK]
    case Del(id) =>
      var k := IndexOf(ids, id);
      if k < |ids| then ids[..k] + ids[k + 1..] else ids
  }

  lemma ListIs(s: State, op: Op)
    requires Valid(s)
    ensures Apply(s, op).ids == ListAfter(s.ids, op, Generated(s))
  {
  }

  lemma AddHolds(ids: seq<int>, answer: int)
    ensures multiset(ListAfter(ids, Add, answer)) == HeldAfter(multiset(ids), Add, answer)
  {
  }

  lemma DelHolds(ids: seq<int>, id: int)
    ensures multiset(ListAfter(ids, Del(id), 0)) == HeldAfter(multiset(ids), Del(id), 0)
  {
    var k, after := IndexOf(ids, id), ListAfter(ids, Del(id), 0);
    LessOne(ids, k, id, after);
  }

  lemma ListHolds(ids: seq<int>, op: Op, answer: int)
    ensures multiset(ListAfter(ids, op, answer)) == HeldAfter(multiset(ids), op, answer)
  {
    match op
    case Add => AddHolds(ids, answer);
    case AddBlock =>
    case Del(id) => DelHolds(ids, id);
  }

  lemma OpHolds(s: State, op: Op)
    requires Valid(s)
    ensures multiset(Apply(s, op).ids) == HeldAfter(multiset(s.ids), op, Generated(s))
  {
    ListIs(s, op);
    ListHolds(s.ids, op, Generated(s));
  }

  lemma LessOne(ids: seq<int>, k: nat, id: int, after: seq<int>)
    requires k <= |ids| && (k < |ids| <==> id in ids) && (k < |ids| ==> ids[k] == id)
    requires after == if k < |ids| then ids[..k] + ids[k + 1..] else ids
    ensures multiset(after) == multiset(ids) - multiset{id}
  {
    if k < |ids| {
      assert ids == ids[..k] + [id] + ids[k + 1..];
    } else {
      assert id !in multiset(ids);
    }
  }

  /** Through any history the list holds exactly the ids handed out and the blocks added, less
      one entry for every deletion that named one. */
  lemma {:induction false} EveryHistoryIsHeld(s: State, ops: seq<Op>)
    requires Valid(s)
    ensures multiset(Run(s, ops).ids) == Holding(multiset(s.ids), ops, Answers(s, ops))
    decreases |ops|
  {
    if ops != [] {
      OpKeeps(s, ops[0]);
      OpHolds(s, ops[0]);
      var next := Apply(s, ops[0]);
      EveryHistoryIsHeld(next, ops[1..]);
      HoldingNext(multiset(s.ids), ops, Answers(next, ops[1..]), Generated(s));
    }
  }

  lemma HoldingNext(ids: multiset<int>, ops: seq<Op>, rest: seq<int>, id: int)
    requires ops != []
    ensures Holding(ids, ops, (if ops[0] == Add then [id] else []) + rest) == Holding(HeldAfter(ids, ops[0], id), ops[1..], rest)
  {
    if ops[0] == Add {
      assert ([id] + rest)[1..] == rest;
    } else {
      assert [] + rest == rest;
    }
  }

  predicate Increasing(a: seq<int>, from: int) {
    (forall i :: 0 <= i < |a| ==> a[i] >= from) && forall i, j :: 0 <= i < j < |a| ==> a[i] < a[j]
  }

  lemma Prepend(head: seq<int>, rest: seq<int>, from: int, next: int)
    requires (head == [] && next == from) || (head == [from] && next == from + 1)
    requires Increasing(rest, next)
    ensures Increasing(head + rest, from)
  {
  }

  // What one operation answers, if anything, and what that does to the counter.
  function Answer(s: State, op: Op): seq<int>
    requires Valid(s)
  {
    if op == Add then [Generated(s)] else []
  }

  lemma StepUntilWrap(s: State, op: Op)
    requires Valid(s) && !Apply(s, op).wrapped
    ensures !s.wrapped
    ensures var next := Apply(s, op).nextId;
      (Answer(s, op) == [] && next == s.nextId) || (Answer(s, op) == [s.nextId] && next == s.nextId + 1)
  {
  }

  /** As long as the counter has not wrapped no id is ever handed out twice, even after a
      deletion: the answers increase. */
  lemma {:induction false} IncreasingUntilWrap(s: State, ops: seq<Op>)
    requires Valid(s) && !Run(s, ops).wrapped
    ensures !s.wrapped && Increasing(Answers(s, ops), s.nextId)
    decreases |ops|
  {
    if ops != [] {
      OpKeeps(s, ops[0]);
      var next := Apply(s, ops[0]);
      IncreasingUntilWrap(next, ops[1..]);
      StepUntilWrap(s, ops[0]);
      Prepend(Answer(s, ops[0]), Answers(next, ops[1..]), s.nextId, next.nextId);
    }
  }

  // ----- the code -----

  class List {
    var filters: seq<int>
    var nextId: nat
    var wrapped: bool

    function Value(): State
      reads this
    {
      State(filters, nextId, wrapped)
    }

    constructor ()
      ensures Value() == State([], 1, false) && Valid(Value())
    {
      filters, nextId, wrapped := [], 1, false;
    }

    method GenId() returns (rc: int)
      requires Valid(Value())
      modifies this`nextId, this`wrapped
      ensures rc == Generated(old(Value())) && Value() == AfterGen(old(Value()))
      ensures rc == ENOENT || (IsId(rc) && rc !in filters)
    {
      ghost var goal := Generated(Value());
      if nextId == WRAP {
        nextId, wrapped := 1, true;
      }
      var initial := nextId;
      var id := nextId;
      nextId := nextId + 1;
      while wrapped
        invariant IsId(id) && IsId(initial) && nextId == id + 1
        invariant wrapped == (old(wrapped) || old(nextId) == WRAP) && initial == First(old(Value()))
        invariant !wrapped ==> id == goal
        invariant wrapped ==> Search(filters, id, initial) == goal
        decreases if id < initial then initial - id else initial - id + WRAP
      {
        if id !in filters { break; }
        if nextId == WRAP { nextId := 1; }
        id := nextId;
        nextId := nextId + 1;
        if id == initial { return ENOENT; }
      }
      return id;
    }

    method AddFilter() returns (rc: int)
      requires Valid(Value())
      modifies this
      ensures Value() == Apply(old(Value()), Add) && Valid(Value())
      ensures rc == Generated(old(Value())) && (rc != ENOENT ==> rc !in old(filters))
      ensures filters == old(filters) + if rc >= 0 then [rc] else []
    {
      OpKeeps(Value(), Add);
      rc := GenId();
      if rc >= 0 { filters := filters + [rc]; }
    }

    method AddBlockKernel()
      requires Valid(Value())
      modifies this`filters
      ensures Value() == Apply(old(Value()), AddBlock) && Valid(Value())
    {
      OpKeeps(Value(), AddBlock);
      filters := filters + [BLOCK];
    }

    method Delete(id: int) returns (rc: int)
      requires Valid(Value())
      modifies this`filters
      ensures Value() == Apply(old(Value()), Del(id)) && Valid(Value())
      ensures multiset(filters) == multiset(old(filters)) - multiset{id}
      ensures rc == if id in old(filters) then 0 else EINVAL
    {
      OpKeeps(Value(), Del(id));
      var k := 0;
      while k < |filters| && filters[k] != id
        invariant k <= |filters| && forall i :: 0 <= i < k ==> filters[i] != id
      {
        k := k + 1;
      }
      assert k == IndexOf(filters, id);
      LessOne(filters, k, id, if k < |filters| then filters[..k] + filters[k + 1..] else filters);
      if k == |filters| { return EINVAL; }
      filters := filters[..k] + filters[k + 1..];
      return 0;
    }
  }
}
