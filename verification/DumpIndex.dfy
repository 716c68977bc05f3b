/**
 The multi-level index of a dump buffer.

 Data pages are followed by index pages of 512 addresses each, level upon level, up to a
 single root page.  The adapter finds data page p by following the base-512 digits of p
 from the root.
 */
module DumpIndex {

  const FAN: nat := 512                   // addresses in an index page
  const ENOMEM: int := 12

  type Addr = nat

  // IPAGES: index pages for n pages.
  function Up(n: nat): (m: nat)
    ensures FAN * m - FAN < n <= FAN * m    // as many as are needed, and no more
    ensures n > 1 ==> 0 < m < n
    ensures n <= 1 ==> m == n
  {
    (n + FAN - 1) / FAN
  }

  // Pages of level k, and the number of pages below it.
  function Size(n: nat, k: nat): nat
    decreases k
  {
    if k == 0 then n else Up(Size(n, k - 1))
  }

  function Start(n: nat, k: nat): nat
    decreases k
  {
    if k == 0 then 0 else Start(n, k - 1) + Size(n, k - 1)
  }

  // Levels below the root.
  function Depth(n: nat): nat {
    if n <= 1 then 0 else 1 + Depth(Up(n))
  }

  // The page of level k that data page p belongs to: the leading base-512 digits of p.
  function Lead(p: nat, k: nat): nat
    decreases k
  {
    if k == 0 then p else Lead(p, k - 1) / FAN
  }

  // ----- the shape of the levels -----

  // A level is the level above it, seen from one page further down.
  lemma {:induction false} SizeUp(n: nat, k: nat)
    ensures Size(n, k + 1) == Size(Up(n), k)
    decreases k
  {
    if k > 0 { SizeUp(n, k - 1); }
  }

  /** Exactly the levels below the depth have more than one page, and the level at the
      depth is the root alone (or nothing at all when there are no data pages). */
  lemma {:induction false} DepthIsFirstSmall(n: nat, k: nat)
    ensures k < Depth(n) ==> Size(n, k) > 1
    ensures k == Depth(n) ==> Size(n, k) <= 1 && (n > 0 ==> Size(n, k) == 1)
    decreases n, k
  {
    if n > 1 && k > 0 {
      SizeUp(n, k - 1);
      DepthIsFirstSmall(Up(n), k - 1);
    }
  }

  lemma {:induction false} LeadFits(n: nat, p: nat, k: nat)
    requires p < n
    ensures Lead(p, k) < Size(n, k)
    decreases k
  {
    if k > 0 { LeadFits(n, p, k - 1); }
  }

  lemma {:induction false} StartsGrow(n: nat, j: nat, k: nat)
    requires j <= k
    ensures Start(n, j) <= Start(n, k)
    decreases k
  {
    if j < k { StartsGrow(n, j, k - 1); }
  }

  // ----- following the index -----

  predicate Distinct(dma: seq<Addr>) {
    forall i, j :: 0 <= i < j < |dma| ==> dma[i] != dma[j]
  }

  // Where the entry for page s of level k is.
  function EntryPage(n: nat, k: nat, s: nat): nat {
    Start(n, k + 1) + s / FAN
  }

  ghost predicate LinkedAt(entries: map<(nat, nat), Addr>, dma: seq<Addr>, n: nat, k: nat, s: nat)
    requires Start(n, k) + s < |dma|
  {
    (EntryPage(n, k, s), s % FAN) in entries && entries[(EntryPage(n, k, s), s % FAN)] == dma[Start(n, k) + s]
  }

  // Every page below the root is listed where its number says.
  ghost predicate Linked(entries: map<(nat, nat), Addr>, dma: seq<Addr>, n: nat)
    requires |dma| == Start(n, Depth(n)) + 1
  {
    forall k: nat, s: nat :: k < Depth(n) && s < Size(n, k) && Start(n, k) + s < |dma| ==> LinkedAt(entries, dma, n, k, s)
  }

  ghost function PageAt(dma: seq<Addr>, a: Addr): (i: nat)
    requires a in dma
    ensures i < |dma| && dma[i] == a
  {
    var i: nat :| i < |dma| && dma[i] == a;
    i
  }

  // What the adapter reads: from an address, one digit of p per level.
  ghost function Follow(entries: map<(nat, nat), Addr>, dma: seq<Addr>, a: Addr, p: nat, depth: nat): Addr
    decreases depth
  {
    if depth == 0 || a !in dma then a
    else
      var slot := (PageAt(dma, a), Lead(p, depth - 1) % FAN);
      if slot in entries then Follow(entries, dma, entries[slot], p, depth - 1) else a
  }

  // From an address, p's digits lead to p's address.
  ghost predicate Reaches(entries: map<(nat, nat), Addr>, dma: seq<Addr>, a: Addr, p: nat, depth: nat) {
    p < |dma| && Follow(entries, dma, a, p, depth) == dma[p]
  }

  lemma PlaceBelow(n: nat, k: nat, s: nat, d: nat)
    requires k <= d && s < Size(n, k) && Size(n, d) <= 1
    ensures Start(n, k) + s <= Start(n, d)
  {
    if k < d { StartsGrow(n, k + 1, d); }
  }

  // Every page of every level has its place among the allocated pages.
  lemma PlaceInBounds(n: nat, k: nat, s: nat)
    requires k <= Depth(n) && s < Size(n, k)
    ensures Start(n, k) + s <= Start(n, Depth(n))
  {
    DepthIsFirstSmall(n, Depth(n));
    PlaceBelow(n, k, s, Depth(n));
  }

  lemma FollowStep(entries: map<(nat, nat), Addr>, dma: seq<Addr>, n: nat, p: nat, k: nat)
    requires |dma| == Start(n, Depth(n)) + 1 && Distinct(dma) && Linked(entries, dma, n)
    requires p < n && 0 < k <= Depth(n)
    ensures Start(n, k) + Lead(p, k) < |dma| && Start(n, k - 1) + Lead(p, k - 1) < |dma|
    ensures Follow(entries, dma, dma[Start(n, k) + Lead(p, k)], p, k) ==
      Follow(entries, dma, dma[Start(n, k - 1) + Lead(p, k - 1)], p, k - 1)
  {
    var s, below := Lead(p, k - 1), k - 1;
    LeadFits(n, p, k);
    LeadFits(n, p, below);
    PlaceInBounds(n, k, Lead(p, k));
    PlaceInBounds(n, below, s);
    assert LinkedAt(entries, dma, n, below, s);
    var a := dma[Start(n, k) + Lead(p, k)];
    assert PageAt(dma, a) == Start(n, k) + Lead(p, k) == EntryPage(n, below, s);
  }

  // What is reached from the page of level k that p belongs to.
  ghost function Along(entries: map<(nat, nat), Addr>, dma: seq<Addr>, n: nat, p: nat, k: nat): Addr {
    if Start(n, k) + Lead(p, k) < |dma| then Follow(entries, dma, dma[Start(n, k) + Lead(p, k)], p, k) else 0
  }

  lemma AlongStep(entries: map<(nat, nat), Addr>, dma: seq<Addr>, n: nat, p: nat, k: nat)
    requires |dma| == Start(n, Depth(n)) + 1 && Distinct(dma) && Linked(entries, dma, n)
    requires p < n && 0 < k <= Depth(n)
    ensures Along(entries, dma, n, p, k) == Along(entries, dma, n, p, k - 1)
  {
    FollowStep(entries, dma, n, p, k);
  }

  lemma {:induction false} AlongAll(entries: map<(nat, nat), Addr>, dma: seq<Addr>, n: nat, p: nat, k: nat)
    requires |dma| == Start(n, Depth(n)) + 1 && Distinct(dma) && Linked(entries, dma, n)
    requires p < n && k <= Depth(n)
    ensures Along(entries, dma, n, p, k) == Along(entries, dma, n, p, 0)
    decreases k
  {
    if k > 0 {
      AlongStep(entries, dma, n, p, k);
      AlongAll(entries, dma, n, p, k - 1);
    }
  }

  /** From the root, the digits of p lead to the address of data page p, for any number of
      data pages. */
  lemma RootReachesEveryPage(entries: map<(nat, nat), Addr>, dma: seq<Addr>, n: nat, p: nat)
    requires |dma| == Start(n, Depth(n)) + 1 && Distinct(dma) && Linked(entries, dma, n) && p < n
    ensures Reaches(entries, dma, dma[Start(n, Depth(n))], p, Depth(n))
  {
    AlongAll(entries, dma, n, p, Depth(n));
    PlaceInBounds(n, 0, p);
    LeadFits(n, p, Depth(n));
    DepthIsFirstSmall(n, Depth(n));
  }

  // ----- building it -----

  // First pass: how many pages, how many levels.
  method Plan(n: nat) returns (totalPages: nat, depth: nat)
    ensures depth == Depth(n) && totalPages == Start(n, Depth(n)) + 1
  {
    var pages := 0;
    depth := 0;
    var level := n;
    while level > 1
      invariant level == Size(n, depth) && pages == Start(n, depth)
      invariant depth + Depth(level) == Depth(n)
      decreases level
    {
      depth := depth + 1;
      pages := pages + level;
      level := Up(level);
    }
    totalPages := pages + 1;
  }

  class DumpBuffer {
    var addr: array2<Addr>          // index pages: page number, entry
    var built: bool
    var totalPages: nat
    var rootDma: Addr
    var depth: nat

    // The entries of the index pages, as a map.
    ghost function Entries(): map<(nat, nat), Addr>
      reads this, addr
    {
      map pg: nat, i: nat | pg < addr.Length0 && i < addr.Length1 :: (pg, i) := addr[pg, i]
    }

    constructor ()
      ensures !built
    {
      addr := new Addr[0, 0];
      built, totalPages, rootDma, depth := false, 0, 0, 0;
    }

    // The addresses that the DMA allocator hands out, one per page; it may run out.
    method Alloc(n: nat, dma: seq<Addr>) returns (rc: int, ghost writes: set<(nat, nat)>)
      requires Distinct(dma)
      modifies this
      ensures old(built) ==> rc == 0 && built
      ensures !old(built) ==> rc == (if |dma| <= Start(n, Depth(n)) then -ENOMEM else 0)
      ensures !old(built) && rc == 0 ==>
        && built && totalPages == Start(n, Depth(n)) + 1 && depth == Depth(n)
        && rootDma == dma[Start(n, Depth(n))]
        && Linked(Entries(), dma[..totalPages], n)
        && (forall p: nat :: p < n ==> Reaches(Entries(), dma[..totalPages], rootDma, p, depth))
        && |writes| == totalPages - 1 && Written(n, writes, Depth(n), 0)
      ensures !old(built) && rc != 0 ==> !built
    {
      writes := {};
      if built { return 0, {}; }
      var total, levels := Plan(n);
      if |dma| < total { return -ENOMEM, {}; }
      var pages := new Addr[total, FAN]((_, _) => 0);
      writes := Populate(n, dma[..total], pages);
      addr, totalPages, depth := pages, total, levels;
      rootDma := dma[total - 1];
      built := true;
      forall k: nat, s: nat | k < Depth(n) && s < Size(n, k) && Start(n, k) + s < total
        ensures LinkedAt(Entries(), dma[..total], n, k, s)
      {
        assert Stored(pages, dma[..total], n, k, s);
      }
      forall p: nat | p < n ensures Reaches(Entries(), dma[..total], rootDma, p, depth) {
        RootReachesEveryPage(Entries(), dma[..total], n, p);
      }
      return 0, writes;
    }
  }

  ghost predicate Stored(pages: array2<Addr>, dma: seq<Addr>, n: nat, k: nat, s: nat)
    reads pages
  {
    && EntryPage(n, k, s) < pages.Length0 && pages.Length1 == FAN && Start(n, k) + s < |dma|
    && pages[EntryPage(n, k, s), s % FAN] == dma[Start(n, k) + s]
  }

  // Entries of different pages are in different places.
  lemma EntriesApart(n: nat, j: nat, r: nat, k: nat, s: nat)
    requires r < Size(n, j) && s < Size(n, k) && (j < k || (j == k && r < s))
    ensures EntryPage(n, j, r) != EntryPage(n, k, s) || r % FAN != s % FAN
  {
    if j < k {
      StartsGrow(n, j + 2, k + 1);
      assert r / FAN < Size(n, j + 1);
    }
  }

  lemma EntryInBounds(n: nat, k: nat, s: nat)
    requires k < Depth(n) && s < Size(n, k)
    ensures EntryPage(n, k, s) <= Start(n, Depth(n)) && EntryPage(n, k, s) < Start(n, k + 2)
  {
    assert s / FAN < Size(n, k + 1);
    PlaceInBounds(n, k + 1, s / FAN);
  }

  // The pages below a position (k, s): all of the lower levels, and the first s of level k.
  predicate Below(n: nat, j: nat, r: nat, k: nat, s: nat) {
    r < Size(n, j) && (j < k || (j == k && r < s))
  }

  // The entries written so far are those of the pages below (k, s).
  ghost predicate Written(n: nat, writes: set<(nat, nat)>, k: nat, s: nat) {
    forall w :: w in writes ==> exists j: nat, r: nat :: Below(n, j, r, k, s) && w == (EntryPage(n, j, r), r % FAN)
  }

  lemma NotYetWritten(n: nat, writes: set<(nat, nat)>, k: nat, s: nat)
    requires Written(n, writes, k, s) && s < Size(n, k)
    ensures (EntryPage(n, k, s), s % FAN) !in writes
    ensures Written(n, writes + {(EntryPage(n, k, s), s % FAN)}, k, s + 1)
  {
    var w := (EntryPage(n, k, s), s % FAN);
    if w in writes {
      var j: nat, r: nat :| Below(n, j, r, k, s) && w == (EntryPage(n, j, r), r % FAN);
      EntriesApart(n, j, r, k, s);
    }
    var next := s + 1;
    forall v | v in writes + {w} ensures exists j: nat, r: nat :: Below(n, j, r, k, next) && v == (EntryPage(n, j, r), r % FAN) {
      if v == w {
        assert Below(n, k, s, k, next);
      } else {
        var j: nat, r: nat :| Below(n, j, r, k, s) && v == (EntryPage(n, j, r), r % FAN);
        assert Below(n, j, r, k, next);
      }
    }
  }

  lemma LevelWritten(n: nat, writes: set<(nat, nat)>, k: nat, next: nat)
    requires Written(n, writes, k, Size(n, k)) && next == k + 1
    ensures Written(n, writes, next, 0)
  {
    forall v | v in writes ensures exists j: nat, r: nat :: Below(n, j, r, next, 0) && v == (EntryPage(n, j, r), r % FAN) {
      var j: nat, r: nat :| Below(n, j, r, k, Size(n, k)) && v == (EntryPage(n, j, r), r % FAN);
      assert Below(n, j, r, next, 0);
    }
  }

  // Every page below (k, s) has its entry, and nothing else was written.
  ghost predicate Entered(n: nat, dma: seq<Addr>, pages: array2<Addr>, writes: set<(nat, nat)>, k: nat, s: nat)
    requires |dma| == Start(n, Depth(n)) + 1 && pages.Length0 == |dma| && pages.Length1 == FAN
    reads pages
  {
    (forall j: nat, r: nat :: Below(n, j, r, k, s) ==> Stored(pages, dma, n, j, r)) && Written(n, writes, k, s)
  }

  lemma LevelEntered(n: nat, dma: seq<Addr>, pages: array2<Addr>, writes: set<(nat, nat)>, k: nat)
    requires |dma| == Start(n, Depth(n)) + 1 && pages.Length0 == |dma| && pages.Length1 == FAN
    requires Entered(n, dma, pages, writes, k, Size(n, k))
    ensures Entered(n, dma, pages, writes, k + 1, 0)
  {
    LevelWritten(n, writes, k, k + 1);
    forall j: nat, r: nat | Below(n, j, r, k + 1, 0) ensures Stored(pages, dma, n, j, r) {
      assert Below(n, j, r, k, Size(n, k));
    }
  }

  // Write the entry of one page, which has no entry yet.
  method WriteEntry(n: nat, dma: seq<Addr>, pages: array2<Addr>, ghost k: nat, s: nat, start: nat, pg: nat, ghost before: set<(nat, nat)>)
    returns (ghost writes: set<(nat, nat)>)
    requires |dma| == Start(n, Depth(n)) + 1 && pages.Length0 == |dma| && pages.Length1 == FAN
    requires k < Depth(n) && s < Size(n, k) && start == Start(n, k) && pg == EntryPage(n, k, s)
    requires Entered(n, dma, pages, before, k, s)
    modifies pages
    ensures Entered(n, dma, pages, writes, k, s + 1) && |writes| == |before| + 1
  {
    EntryInBounds(n, k, s);
    PlaceInBounds(n, k, s);
    NotYetWritten(n, before, k, s);
    var slot := s % FAN;
    forall j: nat, r: nat | Below(n, j, r, k, s)
      ensures EntryPage(n, j, r) != pg || r % FAN != slot
    {
      EntriesApart(n, j, r, k, s);
    }
    pages[pg, slot] := dma[start + s];
    forall j: nat, r: nat | Below(n, j, r, k, s + 1) ensures Stored(pages, dma, n, j, r) {
      if j == k && r == s {
        assert pages[pg, slot] == dma[start + s];
      } else {
        assert Below(n, j, r, k, s);
      }
    }
    writes := before + {(pg, slot)};
  }

  // Second pass: write the address of every page below the root into its index page,
  // each exactly once.
  method Populate(n: nat, dma: seq<Addr>, pages: array2<Addr>) returns (ghost writes: set<(nat, nat)>)
    requires |dma| == Start(n, Depth(n)) + 1 && pages.Length0 == |dma| && pages.Length1 == FAN
    modifies pages
    ensures forall k: nat, s: nat :: k < Depth(n) && s < Size(n, k) ==> Stored(pages, dma, n, k, s)
    ensures |writes| == |dma| - 1 && Written(n, writes, Depth(n), 0)
  {
    var pgn := 0;
    var level := n;
    ghost var k := 0;
    writes := {};
    while level > 1
      invariant level == Size(n, k) && pgn == Start(n, k) && k + Depth(level) == Depth(n)
      invariant Entered(n, dma, pages, writes, k, 0) && |writes| == Start(n, k)
      decreases level
    {
      for s := 0 to level
        invariant Entered(n, dma, pages, writes, k, s) && |writes| == Start(n, k) + s
      {
        writes := WriteEntry(n, dma, pages, k, s, pgn, pgn + level + s / FAN, writes);
      }
      LevelEntered(n, dma, pages, writes, k);
      pgn := pgn + level;
      level := Up(level);
      k := k + 1;
    }
    DepthIsFirstSmall(n, k);
    assert forall j: nat, r: nat :: j < k && r < Size(n, j) ==> Below(n, j, r, k, 0);
  }
}
