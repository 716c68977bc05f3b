/**
 Posting receive buffers.

 Buffers are added to the software ring one at a time; the descriptors are built, and
 the adapter told of them, in multiples of eight.  The counters are 32 bits wide and
 wrap.
 */
module RxDoorbell {
  import opened Rings

  const BATCH: nat := 8    // firmware takes write pointers that are multiples of 8

  type Buffer = nat

  function RoundDown(a: nat): (r: nat)
    ensures r <= a < r + BATCH && Slot(r, BATCH) == 0
    decreases a
  {
    if a < BATCH then 0 else BATCH + RoundDown(a - BATCH)
  }

  lemma {:induction false} RoundDownIsMask(a: nat)
    ensures RoundDown(a) == a - a % BATCH
  {
    if a >= BATCH { RoundDownIsMask(a - BATCH); }
  }

  lemma RoundDownLess(a: nat)
    requires a >= WRAP
    ensures RoundDown(a) == RoundDown(a - WRAP) + WRAP
  {
    RoundDownIsMask(a);
    RoundDownIsMask(a - WRAP);
  }

  // Rounding a wrapped counter is wrapping the rounded count.
  lemma {:induction false} RoundDownWraps(a: nat)
    ensures RoundDown(Slot(a, WRAP)) == Slot(RoundDown(a), WRAP)
    decreases a
  {
    if a >= WRAP {
      RoundDownWraps(a - WRAP);
      RoundDownLess(a);
      SlotAround(RoundDown(a - WRAP), WRAP);
    } else {
      assert Slot(a, WRAP) == a && Slot(RoundDown(a), WRAP) == RoundDown(a);
    }
  }

  // A multiple of eight stays one in a ring of whole batches, and the largest multiple
  // of eight not above a count is its rounding.
  lemma {:induction false} BatchSlot(p: nat, n: nat)
    requires n > 0 && Slot(n, BATCH) == 0 && Slot(p, BATCH) == 0
    ensures Slot(Slot(p, n), BATCH) == 0
    decreases p
  {
    if p >= n {
      BatchDiff(p, n);
      BatchSlot(p - n, n);
    }
  }

  lemma {:induction false} BatchDiff(a: nat, b: nat)
    requires b <= a && Slot(a, BATCH) == 0 && Slot(b, BATCH) == 0
    ensures Slot(a - b, BATCH) == 0
    decreases b
  {
    if b > 0 {
      BatchDiff(a - BATCH, b - BATCH);
    }
  }

  class RxRing {
    const entries: nat                // ptr_mask + 1
    const buffers: array<Buffer>      // the software ring
    const descs: array<Buffer>        // the descriptor ring shared with the adapter
    var addedCount: nat
    var notifiedCount: nat
    var removedCount: nat
    var doorbell: nat                 // the last write pointer given to the adapter

    ghost var posted: seq<Buffer>     // all buffers ever posted
    ghost var notified: nat           // unbounded counts
    ghost var removed: nat
    ghost var built: seq<nat>         // positions whose descriptors were built, in order

    ghost predicate Counters()
      reads this
    {
      && DividesWrap(entries) && Slot(entries, BATCH) == 0 && entries < WRAP
      && removed <= notified <= |posted| <= removed + entries
      && addedCount == Slot(|posted|, WRAP) && notifiedCount == Slot(notified, WRAP) && removedCount == Slot(removed, WRAP)
    }

    // Posted buffers are in their slots; so are the descriptors up to a position.
    ghost predicate Rings()
      reads this, buffers, descs
      requires Counters()
    {
      && buffers.Length == entries && descs.Length == entries && buffers != descs
      && (forall p :: removed <= p < |posted| ==> buffers[Slot(p, entries)] == posted[p])
      && (forall p :: removed <= p < notified ==> descs[Slot(p, entries)] == posted[p])
      && |built| == notified && (forall k :: 0 <= k < notified ==> built[k] == k)
    }

    ghost predicate Valid()
      reads this, buffers, descs
    {
      && Counters() && Rings()
      && Slot(notified, BATCH) == 0
    }

    constructor (n: nat)
      requires DividesWrap(n) && Slot(n, BATCH) == 0 && n < WRAP
      ensures Valid() && posted == [] && fresh(buffers) && fresh(descs)
    {
      entries, buffers, descs := n, new Buffer[n], new Buffer[n];
      addedCount, notifiedCount, removedCount, doorbell := 0, 0, 0, 0;
      posted, notified, removed, built := [], 0, 0, [];
    }

    method Post(buffer: Buffer)
      requires Valid() && |posted| < removed + entries
      modifies this`addedCount, this`posted, buffers
      ensures Valid() && posted == old(posted) + [buffer]
    {
      CounterSlot(|posted|, entries);
      SlotNext(|posted|, WRAP);
      var i := addedCount % entries;
      forall p | removed <= p < |posted| ensures Slot(p, entries) != i {
        SlotsDiffer(p, |posted|, entries);
      }
      buffers[i] := buffer;
      addedCount := if addedCount + 1 == WRAP then 0 else addedCount + 1;
      posted := posted + [buffer];
    }

    // The adapter has used k descriptors it had been told of.
    method Take(k: nat)
      requires Valid() && removed + k <= notified
      modifies this`removedCount, this`removed
      ensures Valid() && removed == old(removed) + k
    {
      SlotAdd(removed, k, WRAP);
      SlotIsMod(removedCount + k, WRAP);
      removedCount := (removedCount + k) % WRAP;
      removed := removed + k;
    }

    // Build one descriptor: never one that the adapter still owns.
    method BuildOne(ghost told: nat)
      requires Counters() && Rings() && notified < |posted| && removed <= told <= notified
      modifies this`notifiedCount, this`notified, this`built, descs
      ensures Counters() && Rings() && notified == old(notified) + 1
      ensures forall p :: removed <= p < told ==> descs[Slot(p, entries)] == old(descs[Slot(p, entries)])
    {
      CounterSlot(notified, entries);
      SlotNext(notified, WRAP);
      var i := notifiedCount % entries;
      forall p | removed <= p < notified ensures Slot(p, entries) != i {
        SlotsDiffer(p, notified, entries);
      }
      descs[i] := buffers[i];
      notifiedCount := if notifiedCount + 1 == WRAP then 0 else notifiedCount + 1;
      built := built + [notified];
      notified := notified + 1;
    }

    /** Build what is missing and ring the doorbell: the count told to the adapter is a
        multiple of eight, less than eight behind what was posted; every position is built
        once, in order; no descriptor the adapter owned has changed. */
    method Write()
      requires Valid()
      modifies this`notifiedCount, this`notified, this`built, this`doorbell, descs
      ensures Valid()
      ensures notified == RoundDown(|posted|) && |posted| - notified < BATCH
      ensures doorbell == Slot(notified, entries) && Slot(doorbell, BATCH) == 0
      ensures forall p :: removed <= p < old(notified) ==> descs[Slot(p, entries)] == old(descs[Slot(p, entries)])
    {
      var writeCount := WriteCount();
      NotAboveRounding(notified, |posted|);
      BuildUpTo(writeCount, RoundDown(|posted|));
      CounterSlot(notified, entries);
      BatchSlot(notified, entries);
      doorbell := writeCount % entries;
    }

    method BuildUpTo(writeCount: nat, ghost target: nat)
      requires Counters() && Rings() && notified <= target <= |posted| && writeCount == Slot(target, WRAP)
      modifies this`notifiedCount, this`notified, this`built, descs
      ensures Counters() && Rings() && notified == target
      ensures forall p :: removed <= p < old(notified) ==> descs[Slot(p, entries)] == old(descs[Slot(p, entries)])
    {
      ghost var told := notified;
      while notifiedCount != writeCount
        invariant Counters() && Rings() && told <= notified <= target
        invariant forall p :: removed <= p < told ==> descs[Slot(p, entries)] == old(descs[Slot(p, entries)])
        decreases target - notified
      {
        BuildOne(told);
      }
      SameCount(notified, target);
    }

    // added_count & ~7
    method WriteCount() returns (writeCount: nat)
      requires Counters()
      ensures writeCount == Slot(RoundDown(|posted|), WRAP)
    {
      RoundDownIsMask(addedCount);
      RoundDownWraps(|posted|);
      writeCount := addedCount - addedCount % BATCH;
    }

    // The usual call does nothing when there is nothing new to tell.
    method WriteIfNew()
      requires Valid()
      modifies this`notifiedCount, this`notified, this`built, this`doorbell, descs
      ensures Valid()
      ensures notified == RoundDown(|posted|) && |posted| - notified < BATCH
      ensures notified == old(notified) ==> doorbell == old(doorbell)
      ensures notified != old(notified) ==> doorbell == Slot(notified, entries)
      ensures forall p :: removed <= p < old(notified) ==> descs[Slot(p, entries)] == old(descs[Slot(p, entries)])
    {
      NotAboveRounding(notified, |posted|);
      var writeCount := WriteCount();
      if notifiedCount == writeCount {
        SameCount(notified, RoundDown(|posted|));
        return;
      }
      Write();
    }
  }

  // Counters that agree stand for counts that agree, less than a wrap apart.
  lemma SameCount(a: nat, b: nat)
    requires a <= b < a + WRAP && Slot(a, WRAP) == Slot(b, WRAP)
    ensures a == b
  {
    if a < b { SlotsDiffer(a, b, WRAP); }
  }

  lemma {:induction false} NotAboveRounding(m: nat, a: nat)
    requires m <= a && Slot(m, BATCH) == 0
    ensures m <= RoundDown(a)
    decreases a
  {
    if a >= BATCH && m >= BATCH { NotAboveRounding(m - BATCH, a - BATCH); }
  }
}
