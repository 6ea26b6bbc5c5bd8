/** Frames counted and given back: how many tables a mapping needs, and what deallocuvm and freevm return. */
module VmTables {
  import opened PageTable
  import opened VmMemory
  import opened KernelMap

  predicate HasTable(fr: Frames, dir: nat, d: nat) {
    Present(Word(fr, dir, d))
  }

  /** How many of the tables lo .. hi-1 are missing. */
  function NewTables(fr: Frames, dir: nat, lo: nat, hi: nat): nat {
    if hi <= lo then 0 else NewTables(fr, dir, lo, hi - 1) + if HasTable(fr, dir, hi - 1) then 0 else 1
  }

  lemma {:induction false} NewTablesMore(fr: Frames, dir: nat, lo: nat, mid: nat, hi: nat)
    requires mid <= hi
    ensures NewTables(fr, dir, lo, mid) <= NewTables(fr, dir, lo, hi)
    decreases hi
  {
    if mid < hi {
      NewTablesMore(fr, dir, lo, mid, hi - 1);
    }
  }

  /** Where the tables below m are there and the others are not. */
  lemma {:induction false} NewTablesAbove(fr: Frames, dir: nat, lo: nat, hi: nat, m: nat)
    requires lo <= hi && forall d: nat :: lo <= d < hi ==> (HasTable(fr, dir, d) <==> d < m)
    ensures NewTables(fr, dir, lo, hi) == if m <= lo then hi - lo else if m < hi then hi - m else 0
    decreases hi
  {
    if lo < hi {
      NewTablesAbove(fr, dir, lo, hi - 1, m);
    }
  }

  /** The directory has got the tables lo .. hi-1. */
  ghost predicate GotTables(fr0: Frames, fr: Frames, dir: nat, lo: nat, hi: nat) {
    forall d: nat :: d < ENTRIES ==> (HasTable(fr, dir, d) <==> HasTable(fr0, dir, d) || lo <= d < hi)
  }

  /** One more than the last table that pages first .. at-1 are in. */
  function TablesTo(first: nat, at: nat): nat {
    if at <= first then first / ENTRIES else (at - 1) / ENTRIES + 1
  }

  lemma TablesToNext(first: nat, at: nat)
    requires first <= at
    ensures TablesTo(first, at + 1) == at / ENTRIES + 1
    ensures first / ENTRIES <= TablesTo(first, at) <= at / ENTRIES + 1
    ensures TablesTo(first, at) == at / ENTRIES || TablesTo(first, at) == at / ENTRIES + 1
  {
  }

  /** walkpgdir for page `at`, after the pages before it: what it takes is what was missing. */
  lemma WalkTakes(fr0: Frames, fr1: Frames, fr2: Frames, dir: nat, first: nat, at: nat, ok: bool)
    requires first <= at < PAGES && GotTables(fr0, fr1, dir, first / ENTRIES, TablesTo(first, at))
    requires forall d: nat :: d < ENTRIES ==>
               (HasTable(fr2, dir, d) <==> HasTable(fr1, dir, d) || (ok && d == at / ENTRIES))
    ensures ok ==> GotTables(fr0, fr2, dir, first / ENTRIES, TablesTo(first, at + 1))
    ensures NewTables(fr0, dir, first / ENTRIES, TablesTo(first, at + 1)) ==
            NewTables(fr0, dir, first / ENTRIES, TablesTo(first, at)) +
            if HasTable(fr1, dir, at / ENTRIES) then 0 else 1
  {
    TablesToNext(first, at);
    hide TablesTo, HasTable;
  }

  // ---- setupkvm

  /** A page directory and 56 + 8 tables. */
  const KVM_FRAMES: nat := 65

  /** The tables below KERNBASE / 4MB + 56 that the first k rows of kmap need end before this one. */
  function RowTables(data: nat, k: nat): nat {
    if k == 0 then 512 else if k == 1 then 513 else if k == 2 then (data / PGSIZE - 1) / ENTRIES + 1 else 568
  }

  /** The tables after the first k rows of kmap. */
  predicate KernelTable(data: nat, k: nat, d: nat) {
    512 <= d < RowTables(data, k) || (k == 4 && 1016 <= d < 1024)
  }

  function KernelCost(data: nat, k: nat): nat
    requires DataOk(data) && k <= 4
    ensures k == 0 ==> KernelCost(data, k) == 0
  {
    (if RowTables(data, k) >= 512 then RowTables(data, k) - 512 else 0) + if k == 4 then 8 else 0
  }

  lemma RowTableRange(data: nat)
    requires DataOk(data)
    ensures 513 <= RowTables(data, 2) <= 568
    ensures FirstPage(data, 0) / ENTRIES == 512 && LastPage(data, 0) / ENTRIES == 512
    ensures FirstPage(data, 1) / ENTRIES == 512 && LastPage(data, 1) / ENTRIES + 1 == RowTables(data, 2)
    ensures RowTables(data, 2) - 1 <= FirstPage(data, 2) / ENTRIES <= RowTables(data, 2)
    ensures LastPage(data, 2) / ENTRIES == 567
    ensures FirstPage(data, 3) / ENTRIES == 1016 && LastPage(data, 3) / ENTRIES == 1023
  {
    Rows(data);
    hide FirstPage, LastPage;
  }

  /** Row k of kmap: the tables it adds and how many they are. */
  lemma RowCost(data: nat, k: nat, fr: Frames, dir: nat)
    requires DataOk(data) && k < 4
    requires forall d: nat :: d < ENTRIES ==> (HasTable(fr, dir, d) <==> KernelTable(data, k, d))
    ensures KernelCost(data, k) <= KernelCost(data, k + 1) <= KVM_FRAMES - 1
    ensures NewTables(fr, dir, FirstPage(data, k) / ENTRIES, LastPage(data, k) / ENTRIES + 1) ==
            KernelCost(data, k + 1) - KernelCost(data, k)
  {
    RowTableRange(data);
    hide FirstPage, LastPage, HasTable;
    var lo, hi := FirstPage(data, k) / ENTRIES, LastPage(data, k) / ENTRIES + 1;
    assert k == 0 || k == 1 || k == 2 || k == 3;
    NewTablesAbove(fr, dir, lo, hi, if k == 3 then 0 else RowTables(data, k));
  }

  lemma RowAdds(data: nat, k: nat, fr: Frames, fr': Frames, dir: nat)
    requires DataOk(data) && k < 4
    requires forall d: nat :: d < ENTRIES ==> (HasTable(fr, dir, d) <==> KernelTable(data, k, d))
    requires GotTables(fr, fr', dir, FirstPage(data, k) / ENTRIES, LastPage(data, k) / ENTRIES + 1)
    ensures forall d: nat :: d < ENTRIES ==> (HasTable(fr', dir, d) <==> KernelTable(data, k + 1, d))
  {
    RowTableRange(data);
    hide FirstPage, LastPage, HasTable;
    assert k == 0 || k == 1 || k == 2 || k == 3;
  }

  // ---- copyuvm

  /** The frames that n copied pages take: the pages, and a table for every 1024 begun. */
  function CopyCost(n: nat): nat {
    n + (n + ENTRIES - 1) / ENTRIES
  }

  lemma CopyCostNext(n: nat)
    ensures CopyCost(n + 1) == CopyCost(n) + 1 + if n % ENTRIES == 0 then 1 else 0
    ensures (n + ENTRIES) / ENTRIES == n / ENTRIES + 1
    ensures n % ENTRIES == 0 ==> (n + ENTRIES - 1) / ENTRIES == n / ENTRIES
    ensures n % ENTRIES != 0 ==> (n + ENTRIES - 1) / ENTRIES == n / ENTRIES + 1
  {
  }

  lemma {:induction false} CopyCostMore(n: nat, m: nat)
    requires n <= m
    ensures CopyCost(n) <= CopyCost(m)
    decreases m
  {
    if n < m {
      CopyCostMore(n, m - 1);
      CopyCostNext(m - 1);
    }
  }

  /** With room for n pages and not for one more, the last frame goes to waste exactly at these counts. */
  lemma WasteAt(room: nat, n: nat)
    requires CopyCost(n) <= room < CopyCost(n + 1)
    ensures room == CopyCost(n) + 1 <==> room % (ENTRIES + 1) == 1
    ensures room == CopyCost(n) + 1 ==> n % ENTRIES == 0
  {
    CopyCostNext(n);
    var q, j := n / ENTRIES, n % ENTRIES;
    assert n == q * ENTRIES + j;
    if j == 0 {
      assert CopyCost(n) == q * (ENTRIES + 1);
      Residue(q, room - CopyCost(n));
    } else {
      assert CopyCost(n) == q * (ENTRIES + 1) + j + 1;
      Residue(q, j + 1);
    }
  }

  lemma Residue(q: nat, r: nat)
    requires r <= ENTRIES
    ensures (q * (ENTRIES + 1) + r) % (ENTRIES + 1) == r
  {
  }

  /** The user part of the child's directory after n pages. */
  ghost predicate UserTables(fr: Frames, child: nat, n: nat) {
    forall d: nat :: d < KERNBASE / PGSIZE / ENTRIES ==> (HasTable(fr, child, d) <==> d < (n + ENTRIES - 1) / ENTRIES)
  }
}

/** deallocuvm and freevm. */
module VmFree {
  import opened Sequences
  import opened PageTable
  import opened VmMemory
  import opened KernelMap
  import opened VmTables

  /** What kfree leaves in a frame. */
  function Junk(): seq<nat> {
    seq(ENTRIES, _ => 0x0101_0101)
  }

  lemma FramePushed(fr: Frames, free: seq<nat>, f: nat)
    requires MemOk(fr, free) && f in fr && f !in free
    ensures MemOk(fr[f := Junk()], [f] + free)
    ensures forall g: nat :: g in [f] + free <==> g == f || g in free
  {
    var free' := [f] + free;
    forall i, j | 0 <= i < j < |free'|
      ensures free'[i] != free'[j]
    {
      assert j > 0 && free'[j] == free[j - 1] && free[j - 1] in free;
      if i > 0 {
        assert free'[i] == free[i - 1];
      }
    }
  }

  /** Each mapped page among lo .. hi-1 has a frame to itself. */
  predicate PageOwn(fr: Frames, free: seq<nat>, dir: nat, p: nat) {
    Present(Pte(fr, dir, p)) ==> FrameOf(Pte(fr, dir, p)) in fr && FrameOf(Pte(fr, dir, p)) !in free
  }

  ghost predicate PagesOwn(fr: Frames, free: seq<nat>, dir: nat, lo: nat, hi: nat) {
    && (forall p: nat :: lo <= p < hi ==> PageOwn(fr, free, dir, p))
    && (forall p: nat :: lo <= p < hi && Present(Pte(fr, dir, p)) ==> !Owns(fr, dir, FrameOf(Pte(fr, dir, p))))
    && (forall p: nat, q: nat :: lo <= p < q < hi && Present(Pte(fr, dir, p)) && Present(Pte(fr, dir, q)) ==>
          FrameOf(Pte(fr, dir, p)) != FrameOf(Pte(fr, dir, q)))
  }

  /** Frame f is that of one of the pages. */
  ghost predicate InPages(fr: Frames, dir: nat, pages: set<nat>, f: nat) {
    exists p :: p in pages && FrameOf(Pte(fr, dir, p)) == f
  }

  ghost predicate SameWords(fr: Frames, fr': Frames, dir: nat) {
    forall d: nat :: Word(fr', dir, d) == Word(fr, dir, d)
  }

  /** The pages `done` are unmapped and their frames, and no others, were put on the free list. */
  ghost predicate Unmapped(fr0: Frames, free0: seq<nat>, dir: nat, done: set<nat>, fr: Frames, free: seq<nat>) {
    && MemOk(fr, free) && SpaceOk(fr, free, dir) && fr.Keys == fr0.Keys && SameWords(fr0, fr, dir)
    && (forall q: nat :: q < PAGES ==> Pte(fr, dir, q) == if q in done then 0 else Pte(fr0, dir, q))
    && (forall f: nat :: f in free <==> f in free0 || InPages(fr0, dir, done, f))
    && (forall f: nat :: f in fr0 && f !in free && !Owns(fr0, dir, f) ==> Kept(fr0, fr, f))
  }

  lemma NothingUnmapped(fr: Frames, free: seq<nat>, dir: nat)
    requires MemOk(fr, free) && SpaceOk(fr, free, dir)
    ensures Unmapped(fr, free, dir, {}, fr, free)
  {
  }

  /** kfree of a frame that is not part of the directory. */
  lemma OutsideFreed(fr: Frames, free: seq<nat>, dir: nat, f: nat)
    requires MemOk(fr, free) && SpaceOk(fr, free, dir) && f in fr && f !in free && !Owns(fr, dir, f)
    ensures var fr' := fr[f := Junk()];
            && MemOk(fr', [f] + free) && SpaceOk(fr', [f] + free, dir) && fr'.Keys == fr.Keys && SameWords(fr, fr', dir)
            && (forall g: nat :: Owns(fr', dir, g) <==> Owns(fr, dir, g))
            && forall q: nat :: q < PAGES ==> Pte(fr', dir, q) == Pte(fr, dir, q)
  {
    var fr' := fr[f := Junk()];
    FramePushed(fr, free, f);
    assert Owns(fr, dir, dir);
    SameDir(fr, fr', dir);
    forall q: nat | q < PAGES
      ensures Pte(fr', dir, q) == Pte(fr, dir, q)
    {
      SamePte(fr, fr', dir, q);
    }
    assert fr'.Keys == fr.Keys;
  }

  lemma WordsOwn(fr: Frames, fr': Frames, dir: nat)
    requires SameWords(fr, fr', dir)
    ensures forall f: nat :: Owns(fr', dir, f) <==> Owns(fr, dir, f)
  {
    forall f: nat
      ensures Owns(fr', dir, f) <==> Owns(fr, dir, f)
    {
      SameOwner(fr, fr', dir, f);
    }
  }

  function PageFreed(fr: Frames, dir: nat, p: nat): Frames
    requires IsFrame(fr[FrameOf(Pte(fr, dir, p)) := Junk()], TableFor(fr, dir, p))
  {
    SetWord(fr[FrameOf(Pte(fr, dir, p)) := Junk()], TableFor(fr, dir, p), p % ENTRIES, 0)
  }

  /** The page's frame is still there to be freed. */
  lemma StillOwn(fr0: Frames, free0: seq<nat>, dir: nat, lo: nat, hi: nat, done: set<nat>,
                 fr: Frames, free: seq<nat>, p: nat)
    requires Unmapped(fr0, free0, dir, done, fr, free) && PagesOwn(fr0, free0, dir, lo, hi) && hi <= PAGES
    requires forall q :: q in done ==> lo <= q < hi && Present(Pte(fr0, dir, q))
    requires lo <= p < hi && p !in done && Present(Pte(fr0, dir, p))
    ensures Pte(fr, dir, p) == Pte(fr0, dir, p) && HasTable(fr, dir, p / ENTRIES)
    ensures var f := FrameOf(Pte(fr, dir, p)); f in fr && f !in free && !Owns(fr, dir, f)
  {
    hide MemOk, SpaceOk, Pte, Owns, FrameOf, Present;
    var f := FrameOf(Pte(fr0, dir, p));
    assert Pte(fr, dir, p) == Pte(fr0, dir, p);
    assert PageOwn(fr0, free0, dir, p);
    WordsOwn(fr0, fr, dir);
    PresentHasTable(fr, dir, p);
  }

  lemma PresentHasTable(fr: Frames, dir: nat, p: nat)
    requires Present(Pte(fr, dir, p))
    ensures HasTable(fr, dir, p / ENTRIES)
  {
  }

  /** One page more is unmapped. */
  lemma UnmapOne(fr0: Frames, free0: seq<nat>, dir: nat, lo: nat, hi: nat, done: set<nat>,
                 fr: Frames, free: seq<nat>, p: nat)
    requires Unmapped(fr0, free0, dir, done, fr, free) && PagesOwn(fr0, free0, dir, lo, hi) && hi <= PAGES
    requires forall q :: q in done ==> lo <= q < hi && Present(Pte(fr0, dir, q))
    requires lo <= p < hi && p !in done && Present(Pte(fr0, dir, p))
    ensures IsFrame(fr[FrameOf(Pte(fr, dir, p)) := Junk()], TableFor(fr, dir, p))
    ensures Unmapped(fr0, free0, dir, done + {p}, PageFreed(fr, dir, p), [FrameOf(Pte(fr, dir, p))] + free)
  {
    hide MemOk, SpaceOk, Pte, Owns, FrameOf, Present, SetWord, Junk, TableFor, IsFrame, PagesOwn;
    StillOwn(fr0, free0, dir, lo, hi, done, fr, free, p);
    var f := FrameOf(Pte(fr, dir, p));
    var fr1, free1 := fr[f := Junk()], [f] + free;
    OutsideFreed(fr, free, dir, f);
    SameTable(fr, fr1, dir, p);
    EntrySet(fr1, free1, dir, p, 0);
    var fr2 := SetWord(fr1, TableFor(fr1, dir, p), p % ENTRIES, 0);
    EntryWords(fr1, free1, dir, p, 0);
    FramesNow(fr0, free0, dir, done, free, p, f);
    WordsOwn(fr0, fr, dir);
    KeptNow(fr0, fr, fr1, fr2, dir, free, free1, f);
    assert SameWords(fr0, fr2, dir);
  }

  lemma SameTable(fr: Frames, fr': Frames, dir: nat, p: nat)
    requires SameWords(fr, fr', dir)
    ensures TableFor(fr', dir, p) == TableFor(fr, dir, p)
    ensures HasTable(fr, dir, p / ENTRIES) ==> HasTable(fr', dir, p / ENTRIES)
  {
  }

  lemma EntryWords(fr: Frames, free: seq<nat>, dir: nat, page: nat, w: nat)
    requires SpaceOk(fr, free, dir) && page < PAGES && HasTable(fr, dir, page / ENTRIES)
    ensures IsFrame(fr, TableFor(fr, dir, page)) && TableFor(fr, dir, page) != dir
    ensures Owns(fr, dir, TableFor(fr, dir, page))
    ensures SameWords(fr, SetWord(fr, TableFor(fr, dir, page), page % ENTRIES, w), dir)
  {
    SetPteDir(fr, dir, page, w);
  }

  lemma FramesNow(fr0: Frames, free0: seq<nat>, dir: nat, done: set<nat>, free: seq<nat>, p: nat, f: nat)
    requires FrameOf(Pte(fr0, dir, p)) == f
    requires forall g: nat :: g in free <==> g in free0 || InPages(fr0, dir, done, g)
    ensures forall g: nat :: g in [f] + free <==> g in free0 || InPages(fr0, dir, done + {p}, g)
  {
    hide Pte, FrameOf;
    forall g: nat
      ensures g in [f] + free <==> g in free0 || InPages(fr0, dir, done + {p}, g)
    {
      if InPages(fr0, dir, done, g) {
        var q :| q in done && FrameOf(Pte(fr0, dir, q)) == g;
        assert q in done + {p};
      }
      assert p in done + {p};
    }
  }

  lemma KeptNow(fr0: Frames, fr: Frames, fr1: Frames, fr2: Frames, dir: nat, free: seq<nat>, free1: seq<nat>, f: nat)
    requires fr.Keys == fr0.Keys && f in fr && free1 == [f] + free && fr1 == fr[f := Junk()]
    requires forall g: nat :: g in fr0 && g !in free && !Owns(fr0, dir, g) ==> Kept(fr0, fr, g)
    requires forall g: nat :: Owns(fr1, dir, g) <==> Owns(fr0, dir, g)
    requires fr2.Keys == fr1.Keys && forall g: nat :: g in fr1 && !Owns(fr1, dir, g) ==> Kept(fr1, fr2, g)
    ensures forall g: nat :: g in fr0 && g !in free1 && !Owns(fr0, dir, g) ==> Kept(fr0, fr2, g)
  {
    hide Owns, Junk;
    forall g: nat | g in fr0 && g !in free1 && !Owns(fr0, dir, g)
      ensures Kept(fr0, fr2, g)
    {
      assert f in free1;
      assert g !in free && Kept(fr0, fr, g) && Kept(fr1, fr2, g);
    }
  }

  // ---- which pages deallocuvm visits

  /**
   Page q is visited by deallocuvm from page a on, up to page hi. Where there is no table it goes on 1024
   pages further, wherever in the missing table it is.
   */
  ghost predicate Visited(fr: Frames, dir: nat, a: nat, hi: nat, q: nat)
    decreases if a < hi then hi - a else 0
  {
    a < hi &&
    if HasTable(fr, dir, a / ENTRIES) then q == a || Visited(fr, dir, a + 1, hi, q)
    else Visited(fr, dir, a + ENTRIES, hi, q)
  }

  lemma {:induction false} VisitedRange(fr: Frames, dir: nat, a: nat, hi: nat, q: nat)
    requires Visited(fr, dir, a, hi, q)
    ensures a <= q < hi && HasTable(fr, dir, q / ENTRIES)
    decreases if a < hi then hi - a else 0
  {
    if HasTable(fr, dir, a / ENTRIES) {
      if q != a {
        VisitedRange(fr, dir, a + 1, hi, q);
      }
    } else {
      VisitedRange(fr, dir, a + ENTRIES, hi, q);
    }
  }

  /** From the start of a table, or from inside one that is there, no page that has a table is missed. */
  lemma {:induction false} AllVisited(fr: Frames, dir: nat, a: nat, hi: nat, q: nat)
    requires a % ENTRIES == 0 || HasTable(fr, dir, a / ENTRIES)
    requires a <= q < hi && HasTable(fr, dir, q / ENTRIES)
    ensures Visited(fr, dir, a, hi, q)
    decreases if a < hi then hi - a else 0
  {
    if HasTable(fr, dir, a / ENTRIES) {
      if q != a {
        NextPage(a);
        AllVisited(fr, dir, a + 1, hi, q);
      }
    } else {
      NextTable(a, q);
      AllVisited(fr, dir, a + ENTRIES, hi, q);
    }
  }

  lemma NextPage(a: nat)
    ensures (a + 1) % ENTRIES == 0 || (a + 1) / ENTRIES == a / ENTRIES
  {
  }

  lemma NextTable(a: nat, q: nat)
    requires a % ENTRIES == 0 && a <= q && q / ENTRIES != a / ENTRIES
    ensures a + ENTRIES <= q && (a + ENTRIES) % ENTRIES == 0
  {
  }

  /** From inside a table that is missing, the first page of the next one is missed, whatever tables there are. */
  lemma MissedFromInside(fr: Frames, dir: nat, a: nat, hi: nat)
    requires a % ENTRIES != 0 && !HasTable(fr, dir, a / ENTRIES)
    ensures !Visited(fr, dir, a, hi, (a / ENTRIES + 1) * ENTRIES)
  {
    var q := (a / ENTRIES + 1) * ENTRIES;
    assert q < a + ENTRIES;
    if Visited(fr, dir, a + ENTRIES, hi, q) {
      VisitedRange(fr, dir, a + ENTRIES, hi, q);
    }
  }

  // ---- the tables

  ghost predicate LedBelow(fr: Frames, dir: nat, i: nat, f: nat) {
    exists d: nat :: d < i && Leads(fr, dir, d, f)
  }

  /** The tables of the first i entries, and no other frames, were put on the free list. */
  ghost predicate TablesFreed(fr1: Frames, free1: seq<nat>, dir: nat, i: nat, fr: Frames, free: seq<nat>) {
    && MemOk(fr, free) && fr.Keys == fr1.Keys && dir in fr && dir in fr1 && fr[dir] == fr1[dir]
    && (forall f: nat :: f in free <==> f in free1 || LedBelow(fr1, dir, i, f))
    && (forall f: nat :: f in fr1 && f !in free ==> Kept(fr1, fr, f))
  }

  lemma NoTablesFreed(fr: Frames, free: seq<nat>, dir: nat)
    requires MemOk(fr, free) && SpaceOk(fr, free, dir)
    ensures TablesFreed(fr, free, dir, 0, fr, free)
  {
  }

  lemma OneTable(fr1: Frames, free1: seq<nat>, dir: nat, i: nat, fr: Frames, free: seq<nat>)
    requires TablesFreed(fr1, free1, dir, i, fr, free) && SpaceOk(fr1, free1, dir) && i < ENTRIES
    ensures |fr[dir]| == ENTRIES && fr[dir][i] == Word(fr1, dir, i)
    ensures !Present(fr[dir][i]) ==> TablesFreed(fr1, free1, dir, i + 1, fr, free)
    ensures Present(fr[dir][i]) ==>
              var t := FrameOf(fr[dir][i]);
              t in fr && t !in free && TablesFreed(fr1, free1, dir, i + 1, fr[t := Junk()], [t] + free)
  {
    hide Present, FrameOf;
    if !Present(Word(fr1, dir, i)) {
      forall f: nat
        ensures LedBelow(fr1, dir, i + 1, f) <==> LedBelow(fr1, dir, i, f)
      {
        NextLed(fr1, dir, i, f);
      }
    } else {
      var t := FrameOf(Word(fr1, dir, i));
      assert TableOk(fr1, dir, i) && Leads(fr1, dir, i, t);
      NotYetLed(fr1, dir, i, t);
      FramePushed(fr, free, t);
      forall f: nat
        ensures LedBelow(fr1, dir, i + 1, f) <==> LedBelow(fr1, dir, i, f) || f == t
      {
        NextLed(fr1, dir, i, f);
      }
      assert t in [t] + free;
    }
  }

  lemma NotYetLed(fr: Frames, dir: nat, i: nat, t: nat)
    requires DirOk(fr, dir) && i < ENTRIES && Leads(fr, dir, i, t)
    ensures !LedBelow(fr, dir, i, t)
  {
    forall d: nat | d < i
      ensures !Leads(fr, dir, d, t)
    {
      assert TablesApart(fr, dir, d, i);
    }
  }

  lemma NextLed(fr: Frames, dir: nat, i: nat, f: nat)
    ensures LedBelow(fr, dir, i + 1, f) <==> LedBelow(fr, dir, i, f) || Leads(fr, dir, i, f)
  {
    if d: nat :| d < i && Leads(fr, dir, d, f) {
      assert d < i + 1;
    }
  }

  /** Everything of an address space is on the free list and nothing else changed. */
  ghost predicate SpaceFreed(fr0: Frames, free0: seq<nat>, dir: nat, users: set<nat>, fr: Frames, free: seq<nat>) {
    && MemOk(fr, free) && fr.Keys == fr0.Keys
    && (forall f: nat :: f in free <==> f in free0 || Owns(fr0, dir, f) || InPages(fr0, dir, users, f))
    && (forall f: nat :: f in fr0 && f !in free ==> Kept(fr0, fr, f))
  }

  /** The last kfree of freevm. */
  lemma DirFreed(fr0: Frames, free0: seq<nat>, dir: nat, users: set<nat>, fr1: Frames, free1: seq<nat>,
                 fr: Frames, free: seq<nat>)
    requires Unmapped(fr0, free0, dir, users, fr1, free1) && TablesFreed(fr1, free1, dir, ENTRIES, fr, free)
    ensures dir in fr && dir !in free
    ensures SpaceFreed(fr0, free0, dir, users, fr[dir := Junk()], [dir] + free)
  {
    hide Pte, FrameOf, InPages, Junk;
    assert Owns(fr1, dir, dir);
    assert dir !in free by {
      if d: nat :| d < ENTRIES && Leads(fr1, dir, d, dir) {
        assert TableOk(fr1, dir, d);
      }
    }
    FramePushed(fr, free, dir);
    WordsOwn(fr0, fr1, dir);
    var fr', free' := fr[dir := Junk()], [dir] + free;
    forall f: nat
      ensures f in free' <==> f in free1 || Owns(fr1, dir, f)
    {
    }
    forall f: nat | f in fr0 && f !in free'
      ensures Kept(fr0, fr', f)
    {
      assert dir in free';
      assert f !in free && f !in free1;
      assert Kept(fr1, fr, f) && Kept(fr0, fr1, f);
    }
  }
}
