/** Positions of an unbounded count in a ring, and the arithmetic they need. */
module Rings {

  // The slot of position i in a ring of n slots: i & (n - 1) where n is a power of two.
  function Slot(i: nat, n: nat): (s: nat)
    requires n > 0
    ensures s < n
  {
    if i < n then i else Slot(i - n, n)
  }

  lemma MulAtLeast(n: int, d: int)
    requires n > 0
    ensures d >= 1 ==> n * d >= n
    ensures d <= -1 ==> n * d <= -n
  {
    if d >= 1 {
      assert n * d == n + n * (d - 1);
      MulNonNegative(n, d - 1);
    } else if d <= -1 {
      assert n * d == -n + n * (d + 1);
      MulNonNegative(n, -d - 1);
      assert n * (d + 1) == -(n * (-d - 1));
    }
  }

  lemma MulNonNegative(a: int, b: int)
    requires a >= 0 && b >= 0
    ensures a * b >= 0
  {
  }

  // Quotient and remainder are unique.
  lemma DivModUnique(y: int, n: int, q: int, z: int)
    requires n > 0 && y == n * q + z && 0 <= z < n
    ensures y / n == q && y % n == z
  {
    var q', z' := y / n, y % n;
    assert y == n * q' + z';
    assert n * (q - q') == n * q - n * q';
    MulAtLeast(n, q - q');
  }

  lemma {:induction false} SlotIsMod(i: nat, n: nat)
    requires n > 0
    ensures Slot(i, n) == i % n
    decreases i
  {
    if i < n {
      DivModUnique(i, n, 0, i);
    } else {
      SlotIsMod(i - n, n);
      var q, z := (i - n) / n, (i - n) % n;
      assert i - n == n * q + z;
      assert n * (q + 1) == n * q + n;
      DivModUnique(i, n, q + 1, z);
    }
  }

  lemma SlotAround(i: nat, n: nat)
    requires n > 0
    ensures Slot(i + n, n) == Slot(i, n)
  {
  }

  // The slot of the next position.
  lemma {:induction false} SlotNext(i: nat, n: nat)
    requires n > 0
    ensures Slot(i + 1, n) == if Slot(i, n) + 1 == n then 0 else Slot(i, n) + 1
    decreases i
  {
    if i >= n { SlotNext(i - n, n); }
  }

  // Positions less than a ring apart are in different slots.
  lemma {:induction false} SlotsDiffer(a: nat, b: nat, n: nat)
    requires n > 0 && a < b < a + n
    ensures Slot(a, n) != Slot(b, n)
    decreases a
  {
    if a >= n {
      SlotsDiffer(a - n, b - n, n);
    } else if b >= n {
      assert Slot(b, n) == Slot(b - n, n) == b - n;
    }
  }

  // A counter that wraps at a multiple of the ring size keeps pointing at its slot.
  lemma {:induction false} SlotWraps(i: nat, n: nat, k: nat)
    requires n > 0 && k > 0
    ensures n * k > 0 && Slot(Slot(i, n * k), n) == Slot(i, n)
    decreases i
  {
    MulAtLeast(n, k);
    if i >= n * k {
      SlotWraps(i - n * k, n, k);
      SlotManyAround(i - n * k, n, k);
    }
  }

  lemma {:induction false} SlotManyAround(i: nat, n: nat, k: nat)
    requires n > 0
    ensures n * k >= 0 && Slot(i + n * k, n) == Slot(i, n)
    decreases k
  {
    if k > 0 {
      SlotManyAround(i, n, k - 1);
      assert n * k == n * (k - 1) + n;
      SlotAround(i + n * (k - 1), n);
    }
  }

  lemma {:induction false} SlotAdd(i: nat, k: nat, n: nat)
    requires n > 0
    ensures Slot(Slot(i, n) + k, n) == Slot(i + k, n)
    decreases i
  {
    if i >= n {
      SlotAdd(i - n, k, n);
      SlotAround(i - n + k, n);
    }
  }

  // ----- 32-bit counters -----

  const WRAP: nat := 0x1_0000_0000

  predicate Divides(n: nat, laps: nat) {
    n * laps == WRAP
  }

  // A ring size that divides the range of a 32-bit counter, as powers of two do.
  ghost predicate DividesWrap(n: nat) {
    n > 0 && exists laps: nat :: laps > 0 && Divides(n, laps)
  }

  // The 32-bit counter, masked, is the slot of the unbounded count.
  lemma CounterSlot(r: nat, n: nat)
    requires DividesWrap(n)
    ensures Slot(r, WRAP) % n == Slot(Slot(r, WRAP), n) == Slot(r, n)
  {
    var laps: nat :| laps > 0 && Divides(n, laps);
    SlotWraps(r, n, laps);
    SlotIsMod(Slot(r, WRAP), n);
  }
}
