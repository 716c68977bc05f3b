/**
 The event loop of a channel.

 The driver copies the event ring a cacheline at a time and works from the copy,
 while the adapter keeps writing events into the ring.  The loop is proved to handle
 exactly what a loop reading the ring one slot at a time would handle.
 */
module EventQueue {
  import opened Options
  import opened Rings

  const LINE: nat := 8                      // events in a cacheline

  datatype Kind = Rx | Tx | Mcdi | Driver | Generated | Unknown

  // An event, with what its handler returns when the event is dispatched.
  datatype Event = Event(kind: Kind, rc: int)

  // ----- the slot-at-a-time loop, as a function of the events it meets -----

  // The budget after one event, and whether the loop stops there.
  function Account(e: Event, spent: int, quota: int): (int, bool) {
    match e.kind
    case Rx => if spent + e.rc >= quota then (quota, true) else (spent + e.rc, false)
    case Mcdi => var s := spent + Charge(e.rc); (s, s >= quota)
    case Driver => var s := spent + Charge(e.rc); (s, s >= quota)
    case Tx => (spent, false)
    case Generated => (spent, false)
    case Unknown => (spent, false)
  }

  function Charge(rc: int): int {
    if rc > 0 then rc else if rc < 0 then 1 else 0
  }

  datatype Tally = Tally(handled: nat, spent: int, stopped: bool)

  function Consume(events: seq<Event>, spent: int, quota: int): (r: Tally)
    ensures r.handled <= |events|
    ensures !r.stopped ==> r.handled == |events|
  {
    if events == [] then Tally(0, spent, false)
    else
      var (s, stop) := Account(events[0], spent, quota);
      if stop then Tally(1, s, true)
      else
        var rest := Consume(events[1..], s, quota);
        Tally(1 + rest.handled, rest.spent, rest.stopped)
  }

  // The loop that is still going takes one more event.
  lemma {:induction false} ConsumeNext(events: seq<Event>, e: Event, spent: int, quota: int)
    requires !Consume(events, spent, quota).stopped
    ensures var before := Consume(events, spent, quota);
      var (s, stop) := Account(e, before.spent, quota);
      Consume(events + [e], spent, quota) == Tally(|events| + 1, s, stop)
  {
    if events == [] {
      assert [e][1..] == [];
    } else {
      var (s, _) := Account(events[0], spent, quota);
      ConsumeNext(events[1..], e, s, quota);
      assert (events + [e])[1..] == events[1..] + [e];
    }
  }

  /** Splitting the work over several polls changes nothing: a poll that ended without
      running out of quota, followed by one that starts with what is left, handles what
      one poll over all the events would. */
  lemma {:induction false} ConsumeInParts(a: seq<Event>, b: seq<Event>, spent: int, quota: int)
    requires !Consume(a, spent, quota).stopped
    ensures var first := Consume(a, spent, quota);
      var second := Consume(b, first.spent, quota);
      Consume(a + b, spent, quota) == Tally(first.handled + second.handled, second.spent, second.stopped)
  {
    if a == [] {
      assert a + b == b;
    } else {
      var (s, _) := Account(a[0], spent, quota);
      ConsumeInParts(a[1..], b, s, quota);
      assert (a + b)[1..] == a[1..] + b;
    }
  }

  /** A poll that starts within its budget stops exactly when the budget is used up: until
      then it goes on, whatever the events are. */
  lemma {:induction false} StopsExactlyAtQuota(events: seq<Event>, spent: int, quota: int)
    requires spent < quota
    ensures var r := Consume(events, spent, quota);
      && (r.stopped <==> r.spent >= quota)
      && (r.stopped ==> r.handled > 0 && forall k :: 0 <= k < r.handled ==> Consume(events[..k], spent, quota).spent < quota)
  {
    var r := Consume(events, spent, quota);
    if events != [] {
      var (s, stop) := Account(events[0], spent, quota);
      if !stop {
        StopsExactlyAtQuota(events[1..], s, quota);
        forall k | r.stopped && 0 < k < r.handled ensures Consume(events[..k], spent, quota).spent < quota {
          assert events[..k][1..] == events[1..][..k - 1];
        }
      }
    }
  }

  // ----- what a poll costs, as a law on the list of events -----

  // Packets that the receive events of the list delivered.
  function Packets(events: seq<Event>): int {
    if events == [] then 0
    else (if events[0].kind == Rx then events[0].rc else 0) + Packets(events[1..])
  }

  predicate Reports(e: Event) {
    e.kind == Mcdi || e.kind == Driver
  }

  // What the command and driver events reported to have done.
  function Results(events: seq<Event>): int {
    if events == [] then 0
    else (if Reports(events[0]) && events[0].rc > 0 then events[0].rc else 0) + Results(events[1..])
  }

  // How many of them failed.
  function Failures(events: seq<Event>): nat {
    if events == [] then 0
    else (if Reports(events[0]) && events[0].rc < 0 then 1 else 0) + Failures(events[1..])
  }

  function Cost(events: seq<Event>): int {
    Packets(events) + Results(events) + Failures(events)
  }

  predicate Billed(e: Event) {
    e.kind == Rx || Reports(e)
  }

  // What one event costs, whatever the budget.
  function CostOf(e: Event): int {
    if e.kind == Rx then e.rc
    else if !Reports(e) then 0
    else if e.rc > 0 then e.rc
    else if e.rc < 0 then 1
    else 0
  }

  lemma CostNext(events: seq<Event>, k: nat)
    requires 0 < k <= |events|
    ensures Cost(events[..k]) == CostOf(events[0]) + Cost(events[1..][..k - 1])
  {
    var first, rest := events[..k], events[1..][..k - 1];
    assert first[0] == events[0] && first[1..] == rest;
    assert Packets(first) == (if first[0].kind == Rx then first[0].rc else 0) + Packets(rest);
    assert Results(first) == (if Reports(first[0]) && first[0].rc > 0 then first[0].rc else 0) + Results(rest);
    assert Failures(first) == (if Reports(first[0]) && first[0].rc < 0 then 1 else 0) + Failures(rest);
  }

  // The first k events do not use the budget up.
  ghost predicate Within(events: seq<Event>, k: nat, spent: int, quota: int)
    requires k <= |events|
  {
    forall j :: 0 < j <= k && Billed(events[j - 1]) ==> spent + Cost(events[..j]) < quota
  }

  // Where a poll ends and what it returns.
  ghost predicate EndsAt(events: seq<Event>, spent: int, quota: int, r: Tally) {
    if r.stopped then
      && 0 < r.handled <= |events| && Within(events, r.handled - 1, spent, quota)
      && Billed(events[r.handled - 1]) && spent + Cost(events[..r.handled]) >= quota
      && r.spent == if events[r.handled - 1].kind == Rx then quota else spent + Cost(events[..r.handled])
    else
      r.handled == |events| && Within(events, |events|, spent, quota) && r.spent == spent + Cost(events[..|events|])
  }

  lemma WithinNext(events: seq<Event>, k: nat, spent: int, quota: int)
    requires 0 < k <= |events| && Within(events[1..], k - 1, spent + CostOf(events[0]), quota)
    requires Billed(events[0]) ==> spent + CostOf(events[0]) < quota
    ensures Within(events, k, spent, quota)
  {
    forall j | 0 < j <= k && Billed(events[j - 1]) ensures spent + Cost(events[..j]) < quota {
      CostNext(events, j);
      if j == 1 {
        assert events[1..][..0] == [];
      } else {
        var i := j - 1;
        assert events[1..][i - 1] == events[j - 1];
      }
    }
  }

  lemma AccountIs(e: Event, spent: int, quota: int)
    ensures var (s, stop) := Account(e, spent, quota);
      && (stop <==> Billed(e) && spent + CostOf(e) >= quota)
      && s == if stop && e.kind == Rx then quota else spent + CostOf(e)
  {
  }

  /** A poll ends with the first receive, command or driver event that makes the packets
      delivered, the work reported and one for each failure reach the quota.  It returns that
      sum, or exactly the quota if it ended with a receive event; and if no event does, the
      sum over all of them. */
  lemma {:induction false} PollEndsAt(events: seq<Event>, spent: int, quota: int)
    ensures EndsAt(events, spent, quota, Consume(events, spent, quota))
  {
    if events != [] {
      var rest := events[1..];
      var (s, stop) := Account(events[0], spent, quota);
      AccountIs(events[0], spent, quota);
      if stop {
        CostNext(events, 1);
        assert rest[..0] == [];
      } else {
        var t := Consume(rest, s, quota);
        PollEndsAt(rest, s, quota);
        PollStep(events, spent, quota, t);
      }
    }
  }

  lemma PollStep(events: seq<Event>, spent: int, quota: int, t: Tally)
    requires events != [] && (Billed(events[0]) ==> spent + CostOf(events[0]) < quota)
    requires EndsAt(events[1..], spent + CostOf(events[0]), quota, t)
    ensures EndsAt(events, spent, quota, Tally(1 + t.handled, t.spent, t.stopped))
  {
    CostNext(events, 1 + t.handled);
    WithinNext(events, if t.stopped then t.handled else 1 + t.handled, spent, quota);
    if t.stopped { assert events[1..][t.handled - 1] == events[t.handled]; }
  }

  // The events that cost anything.
  function OnlyBilled(events: seq<Event>): seq<Event> {
    if events == [] then []
    else (if Billed(events[0]) then [events[0]] else []) + OnlyBilled(events[1..])
  }

  /** Transmit, generated and unknown events could as well not be there. */
  lemma {:induction false} OthersAreFree(events: seq<Event>, spent: int, quota: int)
    ensures var r, billed := Consume(events, spent, quota), Consume(OnlyBilled(events), spent, quota);
      r.spent == billed.spent && r.stopped == billed.stopped
  {
    if events != [] {
      var (s, stop) := Account(events[0], spent, quota);
      OthersAreFree(events[1..], s, quota);
      if Billed(events[0]) {
        assert OnlyBilled(events)[1..] == OnlyBilled(events[1..]);
      } else {
        assert OnlyBilled(events) == OnlyBilled(events[1..]);
      }
    }
  }

  // ----- positions -----

  // Where in its line a position or slot is.
  function Offset(i: nat): (c: nat)
    ensures c < LINE && c <= i
  {
    OffsetBounded(i);
    Slot(i, LINE)
  }

  lemma {:induction false} OffsetBounded(i: nat)
    ensures Slot(i, LINE) <= i
  {
    if i >= LINE { OffsetBounded(i - LINE); }
  }

  // A ring of whole lines, more than one, that divides the range of the read pointer.
  ghost predicate Fits(n: nat) {
    n > LINE && Offset(n) == 0 && DividesWrap(n)
  }

  lemma {:induction false} LineFits(r: nat, n: nat)
    requires Offset(n) == 0 && r < n
    ensures r - Offset(r) + LINE <= n
    decreases r
  {
    if r >= LINE { LineFits(r - LINE, n - LINE); }
  }

  lemma {:induction false} OffsetsAdd(i: nat, n: nat)
    requires Offset(n) == 0
    ensures Offset(i + n) == Offset(i)
    decreases n
  {
    if n >= LINE {
      OffsetsAdd(i, n - LINE);
      SlotAround(i + (n - LINE), LINE);
    }
  }

  // A position and its slot are at the same place in their lines, and a position
  // further along in the line is further along in the slot's line.
  lemma {:induction false} LineOf(r: nat, n: nat, c: nat)
    requires n > 0 && Offset(n) == 0 && Offset(r) <= c < LINE
    ensures Offset(Slot(r, n)) == Offset(r)
    ensures Slot(r - Offset(r) + c, n) == Slot(r, n) - Offset(r) + c
    decreases r
  {
    if r >= n {
      OffsetsAdd(r - n, n);
      LineOf(r - n, n, c);
    } else {
      LineFits(r, n);
    }
  }

  // Start of the line that a slot lies in.
  function LineStart(slot: nat): nat {
    slot - Offset(slot)
  }

  // The copy of a line serves the next position only if that is in the same line.
  lemma NextInLine(r: nat, n: nat)
    requires n > LINE && Offset(n) == 0
    ensures LineStart(Slot(r + 1, n)) == LineStart(Slot(r, n)) ==> Offset(r + 1) == Offset(r) + 1
  {
    LineOf(r, n, LINE - 1);
    LineOf(r + 1, n, LINE - 1);
    SlotNext(r, n);
    SlotNext(r, LINE);
  }

  // The words of a copied line, from the given position on, are what the adapter wrote
  // there, or nothing if they were copied too early.
  predicate Copied(line: seq<Option<Event>>, from: nat, to: nat, r: nat, sent: seq<Event>)
    requires |line| == LINE && to <= LINE
  {
    forall j :: from <= j < to && line[j].Some? ==> CopyOf(line[j].value, r - Offset(r) + j, sent)
  }

  predicate CopyOf(e: Event, p: nat, sent: seq<Event>) {
    p < |sent| && e == sent[p]
  }

  lemma CopyStays(line: seq<Option<Event>>, from: nat, to: nat, r: nat, before: seq<Event>, after: seq<Event>)
    requires |line| == LINE && to <= LINE && before <= after && Copied(line, from, to, r, before)
    ensures Copied(line, from, to, r, after)
  {
  }

  lemma CopyOneMore(line: seq<Option<Event>>, c: nat, r: nat, sent: seq<Event>, word: Option<Event>)
    requires |line| == LINE && Offset(r) <= c < LINE && Copied(line, Offset(r), c, r, sent)
    requires word == if r - Offset(r) + c < |sent| then Some(sent[r - Offset(r) + c]) else None
    ensures Copied(line[c := word], Offset(r), c + 1, r, sent)
  {
  }

  lemma CopyNext(line: seq<Option<Event>>, r: nat, sent: seq<Event>)
    requires |line| == LINE && Copied(line, Offset(r), LINE, r, sent) && Offset(r + 1) == Offset(r) + 1
    ensures Copied(line, Offset(r + 1), LINE, r + 1, sent)
  {
    assert r + 1 - Offset(r + 1) == r - Offset(r);
  }

  // A copy that is good for one position is good for the next if that is in its line.
  lemma CopyServesNext(line: seq<Option<Event>>, r: nat, n: nat, sent: seq<Event>)
    requires n > LINE && Offset(n) == 0 && |line| == LINE && Copied(line, Offset(r), LINE, r, sent)
    ensures LineStart(Slot(r + 1, n)) == LineStart(Slot(r, n)) ==> Copied(line, Offset(r + 1), LINE, r + 1, sent)
  {
    NextInLine(r, n);
    if LineStart(Slot(r + 1, n)) == LineStart(Slot(r, n)) { CopyNext(line, r, sent); }
  }

  // The tally of a poll that is still going, with one more event.
  lemma TallyNext(handled: seq<Event>, first: nat, e: Event, before: int, quota: int)
    requires first <= |handled| && Consume(handled[first..], 0, quota) == Tally(|handled| - first, before, false)
    ensures var (s, stop) := Account(e, before, quota);
      Consume((handled + [e])[first..], 0, quota) == Tally(|handled| + 1 - first, s, stop)
  {
    ConsumeNext(handled[first..], e, 0, quota);
    assert (handled + [e])[first..] == handled[first..] + [e];
  }

  // ----- the queue -----

  class Queue {
    const ring: array<Option<Event>>   // None: all ones, nothing written
    var readPtr: nat
    var sent: seq<Event>               // everything the adapter has written
    ghost var handled: seq<Event>      // everything the driver has dispatched

    // The last copy of a line: how many copies have been made, how many events had been
    // handled when it was made, and how many had been sent when its first word was read.
    ghost var copies: nat
    ghost var copyHandled: nat
    ghost var copySent: nat

    ghost predicate Valid()
      reads this, ring
    {
      && Fits(ring.Length)
      && |handled| <= |sent| <= |handled| + ring.Length
      && handled == sent[..|handled|]
      && readPtr == Slot(|handled|, WRAP)
      && (forall i :: |handled| <= i < |handled| + ring.Length ==>
            ring[Slot(i, ring.Length)] == if i < |sent| then Some(sent[i]) else None)
    }

    constructor (n: nat)
      requires Fits(n)
      ensures Valid() && fresh(ring) && sent == [] && handled == []
    {
      ring := new Option<Event>[n](_ => None);
      readPtr, sent, handled, copies, copyHandled, copySent := 0, [], [], 0, 0, 0;
    }

    // The adapter writes any number of events, never over one that is not yet read.
    method Adapter(limit: nat)
      requires Valid() && |sent| <= limit
      modifies this`sent, ring
      ensures Valid() && |sent| <= limit
      ensures old(sent) <= sent
    {
      var more: nat := *;
      while more > 0 && |sent| < limit
        invariant Valid() && |sent| <= limit && old(sent) <= sent
        decreases limit - |sent|
      {
        SlotIsMod(|sent|, ring.Length);
        var slot := |sent| % ring.Length;
        if ring[slot] != None { return; }
        WriteEvent(slot);
        more := more - 1;
      }
    }

    method WriteEvent(slot: nat)
      requires Valid() && slot == Slot(|sent|, ring.Length) && ring[slot] == None
      modifies this`sent, ring
      ensures Valid() && |sent| == |old(sent)| + 1 && old(sent) <= sent
    {
      var e: Event := *;
      SlotAround(|handled|, ring.Length);
      assert |sent| < |handled| + ring.Length;
      forall i | |handled| <= i < |handled| + ring.Length && i != |sent|
        ensures Slot(i, ring.Length) != slot
      {
        if i < |sent| { SlotsDiffer(i, |sent|, ring.Length); } else { SlotsDiffer(|sent|, i, ring.Length); }
      }
      ring[slot] := Some(e);
      sent := sent + [e];
    }

    // Copy one word of the line, with the adapter at work.
    method CopyWord(base: nat, c: nat, stale: seq<Option<Event>>, limit: nat) returns (line: seq<Option<Event>>)
      requires Valid() && |sent| <= limit && |stale| == LINE && Offset(|handled|) <= c < LINE
      requires base == Slot(|handled|, ring.Length) - Offset(|handled|)
      requires Copied(stale, Offset(|handled|), c, |handled|, sent)
      modifies this`sent, ring
      ensures Valid() && |sent| <= limit && old(sent) <= sent
      ensures |line| == LINE && Copied(line, Offset(|handled|), c + 1, |handled|, sent)
      ensures forall j :: 0 <= j < c ==> line[j] == stale[j]
      ensures line[c].None? ==> |sent| <= |handled| - Offset(|handled|) + c
    {
      Adapter(limit);
      CopyStays(stale, Offset(|handled|), c, |handled|, old(sent), sent);
      LineOf(|handled|, ring.Length, c);
      ghost var p := |handled| - Offset(|handled|) + c;
      assert |handled| <= p < |handled| + ring.Length;
      var word := ring[base + c];
      assert word == if p < |sent| then Some(sent[p]) else None;
      CopyOneMore(stale, c, |handled|, sent, word);
      line := stale[c := word];
    }

    // Copy the rest of the line from the slot about to be read.
    method CopyLine(slot: nat, stale: seq<Option<Event>>, limit: nat) returns (line: seq<Option<Event>>)
      requires Valid() && |sent| <= limit && |stale| == LINE && slot == Slot(|handled|, ring.Length)
      modifies this`sent, this`copies, this`copyHandled, this`copySent, ring
      ensures Valid() && |sent| <= limit && old(sent) <= sent
      ensures |line| == LINE && Copied(line, Offset(|handled|), LINE, |handled|, sent)
      ensures copies == old(copies) + 1 && copyHandled == |handled| && |old(sent)| <= copySent <= |sent|
      ensures line[Offset(|handled|)].None? ==> copySent == |handled|
    {
      LineOf(|handled|, ring.Length, LINE - 1);
      var base := slot - Offset(slot);
      var c := slot - base;
      line := CopyWord(base, c, stale, limit);
      copies, copyHandled, copySent := copies + 1, |handled|, |sent|;
      line := CopyRest(base, c + 1, line, limit);
    }

    method CopyRest(base: nat, from: nat, stale: seq<Option<Event>>, limit: nat) returns (line: seq<Option<Event>>)
      requires Valid() && |sent| <= limit && |stale| == LINE && Offset(|handled|) < from <= LINE
      requires base == Slot(|handled|, ring.Length) - Offset(|handled|)
      requires Copied(stale, Offset(|handled|), from, |handled|, sent)
      modifies this`sent, ring
      ensures Valid() && |sent| <= limit && old(sent) <= sent
      ensures |line| == LINE && Copied(line, Offset(|handled|), LINE, |handled|, sent)
      ensures line[Offset(|handled|)] == stale[Offset(|handled|)]
    {
      line := stale;
      for c := from to LINE
        invariant |line| == LINE && Valid() && |sent| <= limit && old(sent) <= sent
        invariant Copied(line, Offset(|handled|), c, |handled|, sent)
        invariant line[Offset(|handled|)] == stale[Offset(|handled|)]
      {
        line := CopyWord(base, c, line, limit);
      }
    }

    // Take the event at the read pointer out of the ring.
    method TakeEvent(slot: nat, ghost e: Event)
      requires Valid() && slot == Slot(|handled|, ring.Length)
      requires |handled| < |sent| && e == sent[|handled|]
      modifies this`readPtr, this`handled, ring
      ensures Valid() && handled == old(handled) + [e]
    {
      forall i | |handled| < i < |handled| + ring.Length ensures Slot(i, ring.Length) != slot {
        SlotsDiffer(|handled|, i, ring.Length);
      }
      SlotAround(|handled|, ring.Length);
      SlotNext(|handled|, WRAP);
      ring[slot] := None;
      readPtr := if readPtr + 1 == WRAP then 0 else readPtr + 1;
      handled := handled + [e];
    }

    // The copy in hand: whose line it is of, and, if it is recent, that it was made since
    // the last handled event and shows the next slot empty only if it was.
    ghost predicate LineOk(line: seq<Option<Event>>, copied: Option<nat>, recent: bool)
      reads this
    {
      ring.Length > 0 && |line| == LINE &&
      var current := copied == Some(LineStart(Slot(|handled|, ring.Length)));
      && (current ==> Copied(line, Offset(|handled|), LINE, |handled|, sent))
      && (recent ==> current && copyHandled == |handled|)
      && (recent && line[Offset(|handled|)].None? ==> copySent == |handled|)
    }

    // Make sure the copy is of the line of the next slot.
    method Refresh(slot: nat, line0: seq<Option<Event>>, copied0: Option<nat>, recent0: bool, limit: nat)
      returns (line: seq<Option<Event>>, recent: bool)
      requires Valid() && |sent| <= limit && slot == Slot(|handled|, ring.Length)
      requires LineOk(line0, copied0, recent0)
      modifies this`sent, this`copies, this`copyHandled, this`copySent, ring
      ensures Valid() && |sent| <= limit && old(sent) <= sent && copies >= old(copies)
      ensures LineOk(line, Some(LineStart(slot)), recent)
      ensures recent == (recent0 || copied0 != Some(LineStart(slot)))
      ensures if copied0 != Some(LineStart(slot)) then copies > old(copies) && copySent >= |old(sent)| else copySent == old(copySent)
    {
      if copied0 != Some(LineStart(slot)) {
        line := CopyLine(slot, line0, limit);
        recent := true;
      } else {
        line, recent := line0, recent0;
      }
    }

    // One turn of the loop: handle the next event, or find the copy empty and drop it,
    // or find a recent copy empty and be idle.
    method Turn(line0: seq<Option<Event>>, copied0: Option<nat>, recent0: bool,
                before: int, quota: int, limit: nat, ghost first: nat, ghost earlier: nat, ghost sentFirst: nat)
      returns (line: seq<Option<Event>>, copied: Option<nat>, recent: bool, spent: int, stopped: bool, idle: bool)
      requires Valid() && |sent| <= limit && LineOk(line0, copied0, recent0) && first <= |handled|
      requires Consume(handled[first..], 0, quota) == Tally(|handled| - first, before, false)
      requires sentFirst <= |sent| && earlier <= copies && (copied0.Some? ==> copies > earlier && copySent >= sentFirst)
      modifies this`readPtr, this`sent, this`handled, this`copies, this`copyHandled, this`copySent, ring
      ensures Valid() && old(sent) <= sent && old(handled) <= handled && |sent| <= limit
      ensures Consume(handled[first..], 0, quota) == Tally(|handled| - first, spent, stopped)
      ensures copies > earlier && copySent >= sentFirst
      ensures idle ==> !stopped && copyHandled == |handled| && copySent == |handled|
      ensures !idle && !stopped ==> LineOk(line, copied, recent)
      ensures !idle ==> |handled| > |old(handled)| || (handled == old(handled) && copied.None? && copied0.Some?)
    {
      CounterSlot(|handled|, ring.Length);
      var slot := readPtr % ring.Length;
      LineOf(|handled|, ring.Length, LINE - 1);
      spent, stopped, idle := before, false, false;
      line, recent := Refresh(slot, line0, copied0, recent0, limit);
      copied := Some(LineStart(slot));
      if line[Offset(slot)].None? {
        idle := recent;
        // read the line again, in case more was written meanwhile
        if !idle { copied := None; }
      } else {
        recent := false;
        spent, stopped := Dispatch(slot, line, line[Offset(slot)].value, spent, quota, first);
        if !stopped { Adapt(slot, line, limit); }
      }
    }

    /** Handles the events in order, none skipped and none repeated, exactly as the
        slot-at-a-time loop does; and a return that is not for lack of quota comes only
        after a copy made by this poll, since the last handled event, with the next slot
        not written when it was read. */
    method Process(quota: int, limit: nat) returns (spent: int, stopped: bool)
      requires Valid() && |sent| <= limit
      modifies this`readPtr, this`sent, this`handled, this`copies, this`copyHandled, this`copySent, ring
      ensures Valid()
      ensures old(sent) <= sent && old(handled) <= handled
      ensures Consume(handled[|old(handled)|..], 0, quota) == Tally(|handled| - |old(handled)|, spent, stopped)
      ensures EndsAt(handled[|old(handled)|..], 0, quota, Tally(|handled| - |old(handled)|, spent, stopped))
      ensures !stopped ==> copies > old(copies) && copyHandled == |handled| && copySent == |handled|
      ensures !stopped ==> |old(sent)| <= |handled|
    {
      ghost var first, earlier, sentFirst := |handled|, copies, |sent|;
      var idle := false;
      spent, stopped := 0, false;
      var line: seq<Option<Event>> := seq(LINE, _ => None);
      var copied: Option<nat> := None;       // where the line starts that the copy is of
      var recent := false;                   // copied since the last handled event
      assert handled[first..] == [];
      while !idle && !stopped
        invariant Valid() && |sent| <= limit
        invariant old(sent) <= sent && old(handled) <= handled && sentFirst <= |sent| && earlier <= copies
        invariant Consume(handled[first..], 0, quota) == Tally(|handled| - first, spent, stopped)
        invariant copied.Some? || idle ==> copies > earlier && copySent >= sentFirst
        invariant !idle && !stopped ==> LineOk(line, copied, recent)
        invariant idle ==> !stopped && copyHandled == |handled| && copySent == |handled|
        decreases !idle, limit - |handled|, if copied.None? then 0 else 1
      {
        line, copied, recent, spent, stopped, idle :=
          Turn(line, copied, recent, spent, quota, limit, first, earlier, sentFirst);
      }
      PollEndsAt(handled[first..], 0, quota);
    }

    // The adapter goes on while an event is handled; the copy stays good.
    method Adapt(slot: nat, line: seq<Option<Event>>, limit: nat)
      requires Valid() && |sent| <= limit && LineOk(line, Some(LineStart(slot)), false)
      modifies this`sent, ring
      ensures Valid() && |sent| <= limit && old(sent) <= sent
      ensures LineOk(line, Some(LineStart(slot)), false)
    {
      Adapter(limit);
      if LineStart(Slot(|handled|, ring.Length)) == LineStart(slot) {
        CopyStays(line, Offset(|handled|), LINE, |handled|, old(sent), sent);
      }
    }

    // Take the event out of the ring and charge it.
    method Dispatch(slot: nat, line: seq<Option<Event>>, e: Event, before: int, quota: int, ghost first: nat)
      returns (spent: int, stopped: bool)
      requires Valid() && slot == Slot(|handled|, ring.Length) && first <= |handled|
      requires LineOk(line, Some(LineStart(slot)), false) && line[Offset(|handled|)] == Some(e)
      requires Consume(handled[first..], 0, quota) == Tally(|handled| - first, before, false)
      modifies this`readPtr, this`handled, ring
      ensures Valid() && handled == old(handled) + [e] && |old(handled)| < |sent|
      ensures Consume(handled[first..], 0, quota) == Tally(|handled| - first, spent, stopped)
      ensures LineOk(line, Some(LineStart(slot)), false)
    {
      assert CopyOf(e, |handled|, sent);
      CopyServesNext(line, |handled|, ring.Length, sent);
      TallyNext(handled, first, e, before, quota);
      TakeEvent(slot, e);
      spent, stopped := ChargeEvent(e, before, quota);
    }
  }

  method ChargeEvent(e: Event, before: int, quota: int) returns (spent: int, stopped: bool)
    ensures (spent, stopped) == Account(e, before, quota)
  {
    spent, stopped := before, false;
    match e.kind
    case Rx =>
      spent := spent + e.rc;
      if spent >= quota { spent, stopped := quota, true; }
    case Mcdi =>
      if e.rc > 0 { spent := spent + e.rc; } else if e.rc < 0 { spent := spent + 1; }
      stopped := spent >= quota;
    case Driver =>
      if e.rc > 0 { spent := spent + e.rc; } else if e.rc < 0 { spent := spent + 1; }
      stopped := spent >= quota;
    case _ =>
  }
}
