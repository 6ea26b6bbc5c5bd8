/** xv6/vm.c: walkpgdir, mappages, setupkvm, copyuvm, deallocuvm and freevm over physical memory and its free list. */
module VmMemory {
  import opened Sequences
  import opened PageTable

  const PAGES: nat := 0x10_0000
  const WORD: nat := 0x1_0000_0000

  /**
   The frames that kinit handed over, frame 0 not among them. Every frame is whole, and the free list names
   different frames.
   */
  ghost predicate MemOk(fr: Frames, free: seq<nat>) {
    && Distinct(free) && 0 !in fr
    && (forall f: nat :: f in free ==> f in fr)
    && (forall f: nat :: f in fr ==> |fr[f]| == ENTRIES)
  }

  /** A page directory none of whose frames is free. */
  ghost predicate SpaceOk(fr: Frames, free: seq<nat>, dir: nat) {
    DirOk(fr, dir) && forall f: nat :: Owns(fr, dir, f) ==> f !in free
  }

  predicate Taken(free: seq<nat>, free': seq<nat>, f: nat) {
    f in free && f !in free'
  }

  predicate Suffix(free: seq<nat>, free': seq<nat>) {
    |free'| <= |free| && free' == free[|free| - |free'|..]
  }

  predicate Kept(fr: Frames, fr': Frames, f: nat) {
    f in fr && f in fr' && fr'[f] == fr[f]
  }

  /** Only frames of the directory and frames from the free list were written; the directory grew by the latter. */
  ghost predicate Grew(fr: Frames, free: seq<nat>, dir: nat, fr': Frames, free': seq<nat>) {
    && Suffix(free, free') && fr'.Keys == fr.Keys
    && (forall f: nat :: f in fr && !Taken(free, free', f) && !Owns(fr, dir, f) ==> Kept(fr, fr', f))
    && (forall f: nat :: Owns(fr, dir, f) ==> Owns(fr', dir, f))
    && (forall f: nat :: Owns(fr', dir, f) ==> Owns(fr, dir, f) || Taken(free, free', f))
    && (forall f: nat :: Taken(free, free', f) ==> Owns(fr', dir, f))
  }

  lemma GrewSame(fr: Frames, free: seq<nat>, dir: nat)
    ensures Grew(fr, free, dir, fr, free)
  {
  }

  lemma SuffixIn(free: seq<nat>, free': seq<nat>, f: nat)
    requires Suffix(free, free') && f in free'
    ensures f in free
  {
  }

  lemma GrewTrans(a: Frames, fa: seq<nat>, dir: nat, b: Frames, fb: seq<nat>, c: Frames, fc: seq<nat>)
    requires Grew(a, fa, dir, b, fb) && Grew(b, fb, dir, c, fc)
    ensures Grew(a, fa, dir, c, fc)
  {
    assert Suffix(fa, fc) by {
      assert fc == fb[|fb| - |fc|..] == fa[|fa| - |fc|..];
    }
    forall f: nat | f in a && !Taken(fa, fc, f) && !Owns(a, dir, f)
      ensures Kept(a, c, f)
    {
      if f in fc {
        SuffixIn(fb, fc, f);
      }
      assert !Taken(fa, fb, f) && Kept(a, b, f);
      assert !Taken(fb, fc, f) by {
        if f in fb {
          SuffixIn(fa, fb, f);
        }
      }
      assert !Owns(b, dir, f);
      assert Kept(b, c, f);
    }
    forall f: nat | Owns(c, dir, f)
      ensures Owns(a, dir, f) || Taken(fa, fc, f)
    {
      if Taken(fb, fc, f) {
        SuffixIn(fa, fb, f);
      } else {
        assert Owns(b, dir, f);
        if !Owns(a, dir, f) {
          assert Taken(fa, fb, f);
          if f in fc {
            SuffixIn(fb, fc, f);
          }
        }
      }
    }
  }

  lemma Popped(free: seq<nat>, fr: Frames)
    requires MemOk(fr, free) && free != []
    ensures Suffix(free, free[1..]) && Taken(free, free[1..], free[0]) && MemOk(fr, free[1..])
    ensures forall f: nat :: Taken(free, free[1..], f) <==> f == free[0]
  {
    assert free[0] !in free[1..];
    forall f: nat | f in free && f != free[0]
      ensures f in free[1..]
    {
      var i :| 0 <= i < |free| && free[i] == f;
      assert free[1..][i - 1] == f;
    }
  }

  /** walkpgdir took a frame for a missing table. */
  lemma TableAdded(fr: Frames, free: seq<nat>, dir: nat, d: nat)
    requires MemOk(fr, free) && SpaceOk(fr, free, dir) && free != [] && d < ENTRIES && !Present(Word(fr, dir, d))
    ensures var fr' := AddTable(fr, dir, d, free[0]);
            && MemOk(fr', free[1..]) && SpaceOk(fr', free[1..], dir) && Grew(fr, free, dir, fr', free[1..])
            && (forall e: nat :: e < ENTRIES ==> (Present(Word(fr', dir, e)) <==> Present(Word(fr, dir, e)) || e == d))
            && forall q: nat :: q < PAGES ==> Pte(fr', dir, q) == Pte(fr, dir, q)
  {
    var f := free[0];
    var fr' := AddTable(fr, dir, d, f);
    Popped(free, fr);
    assert f in free && !Owns(fr, dir, f) && f in fr;
    AddTableDir(fr, dir, d, f);
    assert Owns(fr, dir, dir) && f != dir;
    forall q: nat | q < PAGES
      ensures Pte(fr', dir, q) == Pte(fr, dir, q)
    {
      AddTablePte(fr, dir, d, f, q);
    }
    forall g: nat
      ensures Owns(fr', dir, g) <==> Owns(fr, dir, g) || g == f
    {
      AddTableOwns(fr, dir, d, f, g);
    }
    EntryParts(f, 7);
    forall e: nat
      ensures Word(fr', dir, e) == if e == d then Entry(f, 7) else Word(fr, dir, e)
    {
      AddTableWords(fr, dir, d, f, e);
    }
    assert fr'.Keys == fr.Keys;
    forall g: nat | g in fr'
      ensures |fr'[g]| == ENTRIES
    {
    }
  }

  /** mappages wrote one entry. */
  lemma EntrySet(fr: Frames, free: seq<nat>, dir: nat, page: nat, w: nat)
    requires MemOk(fr, free) && SpaceOk(fr, free, dir) && page < PAGES && Present(Word(fr, dir, page / ENTRIES))
    ensures IsFrame(fr, TableFor(fr, dir, page))
    ensures var fr' := SetWord(fr, TableFor(fr, dir, page), page % ENTRIES, w);
            && MemOk(fr', free) && SpaceOk(fr', free, dir) && Grew(fr, free, dir, fr', free)
            && (forall e: nat :: Word(fr', dir, e) == Word(fr, dir, e))
            && forall q: nat :: q < PAGES ==> Pte(fr', dir, q) == if q == page then w else Pte(fr, dir, q)
  {
    SetPteDir(fr, dir, page, w);
    var fr' := SetWord(fr, TableFor(fr, dir, page), page % ENTRIES, w);
    forall q: nat | q < PAGES
      ensures Pte(fr', dir, q) == if q == page then w else Pte(fr, dir, q)
    {
      SetPte(fr, dir, page, w, q);
    }
    assert fr'.Keys == fr.Keys;
  }
}

/** The kernel's part of every page table. */
module KernelMap {
  import opened PageTable
  import opened VmMemory

  const KERNBASE: nat := 0x8000_0000
  const EXTMEM: nat := 0x10_0000
  const KERNLINK: nat := KERNBASE + EXTMEM
  const PHYSTOP: nat := 0xE00_0000
  const DEVSPACE: nat := 0xFE00_0000
  const PTE_W: nat := 2

  /** Where the linker puts `data`: on a page, between the kernel's text and the top of memory. */
  predicate DataOk(data: nat) {
    data % PGSIZE == 0 && KERNLINK < data < KERNBASE + PHYSTOP
  }

  datatype Kmap = Kmap(virt: nat, start: nat, end: nat, perm: nat)

  /** The table kmap. */
  function KmapAt(data: nat, k: nat): Kmap
    requires DataOk(data)
  {
    if k == 0 then Kmap(KERNBASE, 0, EXTMEM, PTE_W)
    else if k == 1 then Kmap(KERNLINK, KERNLINK - KERNBASE, data - KERNBASE, 0)
    else if k == 2 then Kmap(data, data - KERNBASE, PHYSTOP, PTE_W)
    else Kmap(DEVSPACE, DEVSPACE, 0, PTE_W)
  }

  /** phys_end - phys_start in 32 bits; it wraps for the devices. */
  function Size(m: Kmap): nat {
    (m.end + WORD - m.start) % WORD
  }

  function FirstPage(data: nat, k: nat): nat
    requires DataOk(data)
  {
    KmapAt(data, k).virt / PGSIZE
  }

  function LastPage(data: nat, k: nat): nat
    requires DataOk(data)
  {
    (KmapAt(data, k).virt + Size(KmapAt(data, k)) - 1) % WORD / PGSIZE
  }

  /** The entry for page q after the first k rows of kmap. */
  function MappedBy(data: nat, k: nat, q: nat): nat
    requires DataOk(data)
  {
    if k == 0 then 0
    else if FirstPage(data, k - 1) <= q <= LastPage(data, k - 1) then
      Entry(KmapAt(data, k - 1).start / PGSIZE + (q - FirstPage(data, k - 1)), KmapAt(data, k - 1).perm)
    else MappedBy(data, k - 1, q)
  }

  /** The layout in the comment above kmap: direct map of low memory with read-only text, and the devices at the top. */
  function KernelPte(data: nat, q: nat): nat {
    if q < KERNBASE / PGSIZE then 0
    else if q < (KERNBASE + PHYSTOP) / PGSIZE then
      Entry(q - KERNBASE / PGSIZE, if KERNLINK / PGSIZE <= q < data / PGSIZE then 0 else PTE_W)
    else if q < DEVSPACE / PGSIZE then 0
    else Entry(q, PTE_W)
  }

  lemma Rows(data: nat)
    requires DataOk(data)
    ensures FirstPage(data, 0) == 0x8_0000 && LastPage(data, 0) == 0x8_00FF
    ensures FirstPage(data, 1) == 0x8_0100 && LastPage(data, 1) == data / PGSIZE - 1
    ensures FirstPage(data, 2) == data / PGSIZE && LastPage(data, 2) == 0x8_DFFF
    ensures FirstPage(data, 3) == 0xF_E000 && LastPage(data, 3) == 0xF_FFFF
    ensures 0x8_0100 < data / PGSIZE <= 0x8_DFFF
    ensures (data - KERNBASE) / PGSIZE == data / PGSIZE - 0x8_0000
    ensures (data - KERNBASE) % PGSIZE == 0
  {
    var k := data / PGSIZE;
    assert data == k * PGSIZE;
    assert (k * PGSIZE - 1) / PGSIZE == k - 1;
    assert (k * PGSIZE - KERNBASE) / PGSIZE == k - 0x8_0000;
  }

  predicate InRow(data: nat, k: nat, q: nat)
    requires DataOk(data)
  {
    FirstPage(data, k) <= q <= LastPage(data, k)
  }

  function RowPte(data: nat, k: nat, q: nat): nat
    requires DataOk(data) && InRow(data, k, q)
  {
    Entry(KmapAt(data, k).start / PGSIZE + (q - FirstPage(data, k)), KmapAt(data, k).perm)
  }

  lemma Unrolled(data: nat, q: nat)
    requires DataOk(data)
    ensures MappedBy(data, 0, q) == 0
    ensures MappedBy(data, 1, q) == if InRow(data, 0, q) then RowPte(data, 0, q) else 0
    ensures MappedBy(data, 2, q) == if InRow(data, 1, q) then RowPte(data, 1, q) else MappedBy(data, 1, q)
    ensures MappedBy(data, 3, q) == if InRow(data, 2, q) then RowPte(data, 2, q) else MappedBy(data, 2, q)
    ensures MappedBy(data, 4, q) == if InRow(data, 3, q) then RowPte(data, 3, q) else MappedBy(data, 3, q)
  {
    hide FirstPage, LastPage, Entry;
  }

  lemma RowValues(data: nat, q: nat)
    requires DataOk(data)
    ensures InRow(data, 0, q) ==> RowPte(data, 0, q) == Entry(q - 0x8_0000, PTE_W)
    ensures InRow(data, 1, q) ==> RowPte(data, 1, q) == Entry(q - 0x8_0000, 0)
    ensures InRow(data, 2, q) ==> RowPte(data, 2, q) == Entry(q - 0x8_0000, PTE_W)
    ensures InRow(data, 3, q) ==> RowPte(data, 3, q) == Entry(q, PTE_W)
  {
    Rows(data);
    hide FirstPage, LastPage, Entry;
  }

  /** The four rows, the last of which wraps, make the layout. */
  lemma RowsMakeLayout(data: nat, q: nat)
    requires DataOk(data) && q < PAGES
    ensures MappedBy(data, 4, q) == KernelPte(data, q)
  {
    Rows(data);
    Unrolled(data, q);
    RowValues(data, q);
    hide FirstPage, LastPage, Entry, MappedBy, RowPte;
  }

  /** No row overlaps an earlier one. */
  lemma RowsApart(data: nat, k: nat, q: nat)
    requires DataOk(data) && k < 4 && InRow(data, k, q)
    ensures MappedBy(data, k, q) == 0
  {
    Rows(data);
    Unrolled(data, q);
    hide FirstPage, LastPage, Entry, MappedBy, RowPte;
    assert k == 0 || k == 1 || k == 2 || k == 3;
  }
}

module Vm {
  import opened PageTable
  import opened VmMemory
  import opened KernelMap
  import opened VmTables
  import opened VmFree

  datatype Mapping = Mapped | NoMemory | Remap
  datatype Copy = Child(dir: nat) | CopyFailed | CopyPanic

  ghost predicate InRange(first: nat, last: nat, q: nat) {
    first <= q <= last
  }

  /** The translations after pages first .. at-1 were mapped to consecutive frames. */
  ghost predicate MapsTo(fr0: Frames, fr: Frames, dir: nat, first: nat, at: nat, frame: nat, perm: nat) {
    forall q: nat :: q < PAGES ==>
      Pte(fr, dir, q) == if first <= q < at then Entry(frame + (q - first), perm) else Pte(fr0, dir, q)
  }

  lemma MapsMore(fr0: Frames, fr1: Frames, fr2: Frames, fr3: Frames, dir: nat, first: nat, at: nat, frame: nat,
                 perm: nat)
    requires first <= at < PAGES && MapsTo(fr0, fr1, dir, first, at, frame, perm)
    requires forall q: nat :: q < PAGES ==> Pte(fr2, dir, q) == Pte(fr1, dir, q)
    requires forall q: nat :: q < PAGES ==>
               Pte(fr3, dir, q) == if q == at then Entry(frame + (at - first), perm) else Pte(fr2, dir, q)
    ensures MapsTo(fr0, fr3, dir, first, at + 1, frame, perm)
  {
    hide Pte, Entry;
  }

  /** Page p of the child is a private copy of the parent's. */
  ghost predicate Copied(fr0: Frames, free0: seq<nat>, parent: nat, fr: Frames, free: seq<nat>, child: nat, p: nat) {
    var w := Pte(fr0, parent, p);
    var c := Pte(fr, child, p);
    && Present(c) && FlagsOf(c) == FlagsOf(w)
    && Taken(free0, free, FrameOf(c)) && !Owns(fr, child, FrameOf(c))
    && FrameOf(w) in fr0 && FrameOf(c) in fr && fr[FrameOf(c)] == fr0[FrameOf(w)]
  }

  ghost predicate AllCopied(fr0: Frames, free0: seq<nat>, parent: nat, fr: Frames, free: seq<nat>, child: nat, n: nat) {
    && (forall p: nat :: p < n ==> Copied(fr0, free0, parent, fr, free, child, p))
    && (forall p: nat, q: nat :: p < q < n ==> FrameOf(Pte(fr, child, p)) != FrameOf(Pte(fr, child, q)))
  }

  ghost predicate KernelFrom(data: nat, fr: Frames, child: nat, n: nat)
  {
    forall q: nat :: n <= q < PAGES ==> Pte(fr, child, q) == KernelPte(data, q)
  }

  /** Frames in use before are as they were. */
  ghost predicate OldKept(fr0: Frames, free0: seq<nat>, fr: Frames) {
    forall f: nat :: f in fr0 && f !in free0 ==> Kept(fr0, fr, f)
  }

  /** All of the child's directory came from the free list. */
  ghost predicate ChildNew(free0: seq<nat>, fr: Frames, free: seq<nat>, child: nat) {
    forall f: nat :: Owns(fr, child, f) ==> Taken(free0, free, f)
  }

  ghost predicate CopyInv(data: nat, fr0: Frames, free0: seq<nat>, parent: nat, fr: Frames, free: seq<nat>, child: nat,
                          n: nat) {
    && MemOk(fr, free) && SpaceOk(fr, free, child) && Suffix(free0, free) && fr.Keys == fr0.Keys
    && AllCopied(fr0, free0, parent, fr, free, child, n) && KernelFrom(data, fr, child, n)
    && OldKept(fr0, free0, fr) && ChildNew(free0, fr, free, child)
  }

  function Below(n: nat): (r: set<nat>)
    ensures forall p: nat :: p in r <==> p < n
  {
    if n == 0 then {} else Below(n - 1) + {n - 1}
  }

  /** Every frame taken is one of the child's directory, holds one of its n pages, or is lost. */
  ghost predicate Accounted(free0: seq<nat>, fr: Frames, free: seq<nat>, child: nat, n: nat, lost: set<nat>) {
    forall f: nat :: Taken(free0, free, f) ==> Owns(fr, child, f) || InPages(fr, child, Below(n), f) || f in lost
  }

  const USER_PAGES: nat := KERNBASE / PGSIZE

  /** The pages below KERNBASE that are mapped. */
  ghost function UserPages(fr: Frames, dir: nat): set<nat> {
    set p: nat | p < USER_PAGES && Present(Pte(fr, dir, p))
  }

  /** The parent's user pages are memory in use. */
  ghost predicate UserOk(fr: Frames, free: seq<nat>, dir: nat, n: nat) {
    forall p: nat :: p < n && Present(Pte(fr, dir, p)) ==>
      FrameOf(Pte(fr, dir, p)) in fr && FrameOf(Pte(fr, dir, p)) !in free
  }

  class Machine {
    var fr: Frames
    var free: seq<nat>

    ghost predicate Valid()
      reads this
    {
      MemOk(fr, free)
    }

    constructor (fr: Frames, free: seq<nat>)
      requires MemOk(fr, free)
      ensures Valid() && this.fr == fr && this.free == free
    {
      this.fr := fr;
      this.free := free;
    }

    /** kalloc */
    method Kalloc() returns (ok: bool, f: nat)
      requires Valid()
      modifies this`free
      ensures Valid() && (ok <==> old(free) != [])
      ensures if ok then f == old(free)[0] && free == old(free)[1..] else free == old(free)
    {
      if free == [] {
        return false, 0;
      }
      Popped(free, fr);
      ok, f := true, free[0];
      free := free[1..];
    }

    /** kfree of a frame that is not free; it panics outside the memory that kinit handed over. */
    method Kfree(f: nat) returns (panicked: bool)
      requires Valid() && f !in free
      modifies this
      ensures Valid() && (panicked <==> f !in fr)
      ensures panicked ==> fr == old(fr) && free == old(free)
      ensures !panicked ==> fr == old(fr)[f := Junk()] && free == [f] + old(free)
    {
      if f !in fr {
        return true;
      }
      FramePushed(fr, free, f);
      fr := fr[f := Junk()];
      free := [f] + free;
      panicked := false;
    }

    /** walkpgdir; when it succeeds the page's table is TableFor(fr, dir, page). */
    method WalkPgdir(dir: nat, page: nat, alloc: bool) returns (ok: bool)
      requires Valid() && SpaceOk(fr, free, dir) && page < PAGES
      modifies this
      ensures Valid() && SpaceOk(fr, free, dir) && Grew(old(fr), old(free), dir, fr, free)
      ensures forall q: nat :: q < PAGES ==> Pte(fr, dir, q) == Pte(old(fr), dir, q)
      ensures ok <==> Present(Word(fr, dir, page / ENTRIES))
      ensures !alloc || !ok ==> fr == old(fr) && free == old(free)
      ensures alloc && !ok ==> free == []
      ensures forall e: nat :: e < ENTRIES ==>
        (HasTable(fr, dir, e) <==> HasTable(old(fr), dir, e) || (ok && e == page / ENTRIES))
      ensures |old(free)| == |free| + if ok && !HasTable(old(fr), dir, page / ENTRIES) then 1 else 0
    {
      hide MemOk, SpaceOk, Grew, Pte, AddTable;
      GrewSame(fr, free, dir);
      var d := page / ENTRIES;
      if Present(Word(fr, dir, d)) {
        return true;
      }
      if !alloc {
        return false;
      }
      DirFrame(fr, free, dir);
      if free != [] {
        TableAdded(fr, free, dir, d);
      }
      ghost var fr0 := fr;
      var got, f := Kalloc();
      if !got {
        return false;
      }
      fr := fr[f := ZeroFrame()];
      NewFrame(fr0, old(free), dir, f);
      var words: seq<nat> := fr[dir][d := Entry(f, 7)];
      fr := fr[dir := words];
      AddTableIs(fr0, dir, d, f, fr);
      ok := true;
    }

    /** mappages */
    method MapPages(dir: nat, va: nat, size: nat, pa: nat, perm: nat) returns (r: Mapping)
      requires Valid() && SpaceOk(fr, free, dir) && perm < PGSIZE
      requires 0 < size && va + size <= WORD && pa % PGSIZE == 0
      modifies this
      ensures Valid() && SpaceOk(fr, free, dir) && Grew(old(fr), old(free), dir, fr, free)
      ensures r == Mapped ==>
                MapsTo(old(fr), fr, dir, va / PGSIZE, (va + size - 1) / PGSIZE + 1, pa / PGSIZE, perm)
      ensures r == Mapped ==>
                forall q: nat :: va / PGSIZE <= q <= (va + size - 1) / PGSIZE ==> !Present(Pte(old(fr), dir, q))
      ensures r == Remap ==>
                exists q: nat :: InRange(va / PGSIZE, (va + size - 1) / PGSIZE, q) && Present(Pte(old(fr), dir, q))
      ensures r == NoMemory ==> free == []
      ensures r == NoMemory && va / PGSIZE == (va + size - 1) / PGSIZE ==> fr == old(fr) && free == old(free)
      ensures var lo, hi := va / PGSIZE / ENTRIES, (va + size - 1) / PGSIZE / ENTRIES + 1;
        && (r == Mapped ==>
              GotTables(old(fr), fr, dir, lo, hi) && |old(free)| == |free| + NewTables(old(fr), dir, lo, hi))
        && (r == NoMemory ==> |old(free)| < NewTables(old(fr), dir, lo, hi))
    {
      hide MemOk, SpaceOk, Grew, Pte, SetWord, Entry, HasTable, NewTables, GotTables, TablesTo;
      ghost var fr0, free0 := fr, free;
      var first, last := va / PGSIZE, (va + size - 1) % WORD / PGSIZE;
      var a, frame := first, pa / PGSIZE;
      GrewSame(fr, free, dir);
      PageRange(va, size);
      NoTablesYet(fr, dir, first);
      while true
        invariant a == first ==> fr == fr0 && free == free0
        invariant GotTables(fr0, fr, dir, first / ENTRIES, TablesTo(first, a))
        invariant |free0| == |free| + NewTables(fr0, dir, first / ENTRIES, TablesTo(first, a))
        invariant first <= a <= last && frame == pa / PGSIZE + (a - first)
        invariant Valid() && SpaceOk(fr, free, dir) && Grew(fr0, free0, dir, fr, free)
        invariant MapsTo(fr0, fr, dir, first, a, pa / PGSIZE, perm)
        invariant forall q: nat :: first <= q < a ==> !Present(Pte(fr0, dir, q))
        decreases last - a
      {
        ghost var fr1, free1 := fr, free;
        var ok := WalkPgdir(dir, a, true);
        GrewTrans(fr0, free0, dir, fr1, free1, fr, free);
        WalkTakes(fr0, fr1, fr, dir, first, a, ok);
        TablesToNext(first, a);
        TableOfPage(a, last);
        if !ok {
          WalkFails(fr1, dir, a);
          NewTablesMore(fr0, dir, first / ENTRIES, TablesTo(first, a + 1), last / ENTRIES + 1);
          return NoMemory;
        }
        ghost var fr2, free2 := fr, free;
        EntrySet(fr, free, dir, a, Entry(frame, perm));
        PteIs(fr, dir, a);
        var t := TableFor(fr, dir, a);
        if Present(fr[t][a % ENTRIES]) {
          assert InRange(first, last, a);
          return Remap;
        }
        fr := SetWord(fr, t, a % ENTRIES, Entry(frame, perm));
        GrewTrans(fr0, free0, dir, fr2, free2, fr, free);
        MapsMore(fr0, fr1, fr2, fr, dir, first, a, pa / PGSIZE, perm);
        SameTables(fr0, fr2, fr, dir, first / ENTRIES, TablesTo(first, a + 1));
        if a == last {
          break;
        }
        a, frame := a + 1, frame + 1;
      }
      r := Mapped;
    }

    /** setupkvm */
    method SetupKvm(data: nat) returns (ok: bool, dir: nat)
      requires Valid() && DataOk(data)
      modifies this
      ensures Valid() && Suffix(old(free), free) && fr.Keys == old(fr).Keys
      ensures OldKept(old(fr), old(free), fr)
      ensures ok ==> SpaceOk(fr, free, dir) && ChildNew(old(free), fr, free, dir) && KernelFrom(data, fr, dir, 0)
      ensures !ok ==> free == []
      ensures ok <==> KVM_FRAMES <= |old(free)|
      ensures ok ==> |old(free)| == |free| + KVM_FRAMES && UserTables(fr, dir, 0)
      ensures ok ==> Accounted(old(free), fr, free, dir, 0, {})
    {
      hide MemOk, SpaceOk, Grew, Pte, MappedBy, OldKept, ChildNew, KernelPte, HasTable, NewTables, GotTables;
      hide KernelTable, KernelCost, Accounted, UserTables, FirstPage, LastPage;
      ghost var fr0, free0 := fr, free;
      NothingChanged(fr, free);
      NothingMapped(data);
      if free != [] {
        NewDir(fr, free);
      }
      var got, d := Kalloc();
      if !got {
        return false, 0;
      }
      dir := d;
      fr := fr[dir := ZeroFrame()];
      NewDirAccounted(data, fr0, free0, fr, dir);
      var k := 0;
      while k < 4
        invariant 0 <= k <= 4
        invariant Valid() && SpaceOk(fr, free, dir) && Suffix(free0, free) && fr.Keys == fr0.Keys
        invariant OldKept(fr0, free0, fr) && ChildNew(free0, fr, free, dir)
        invariant forall q: nat :: q < PAGES ==> Pte(fr, dir, q) == MappedBy(data, k, q)
        invariant forall d: nat :: d < ENTRIES ==> (HasTable(fr, dir, d) <==> KernelTable(data, k, d))
        invariant |free0| == |free| + 1 + KernelCost(data, k) && Accounted(free0, fr, free, dir, 0, {})
      {
        ghost var fr1, free1 := fr, free;
        var m := KmapAt(data, k);
        RowArguments(data, k);
        RowRange(data, k);
        RowCost(data, k, fr, dir);
        var r := MapPages(dir, m.virt, Size(m), m.start, m.perm);
        ChildGrew(fr0, free0, fr1, free1, dir, fr, free);
        if r == NoMemory {
          return false, 0;
        }
        NoRemap(data, k, fr1, dir, r);
        RowMapped(data, k, fr1, fr, dir);
        RowAdds(data, k, fr1, fr, dir);
        GrewAccounted(free0, fr1, free1, dir, fr, free);
        k := k + 1;
      }
      KernelDone(data, fr, dir);
      forall q: nat | q < PAGES
        ensures Pte(fr, dir, q) == KernelPte(data, q)
      {
        RowsMakeLayout(data, q);
      }
      ok := true;
    }

    /** The body of copyuvm's loop; Remap stands for its panics. */
    method CopyPage(parent: nat, page: nat, d: nat, ghost data: nat, ghost sz: nat, ghost fr0: Frames,
                    ghost free0: seq<nat>)
      returns (r: Mapping, ghost lost: set<nat>)
      requires Valid() && SpaceOk(fr0, free0, parent) && UserOk(fr0, free0, parent, Pages(sz))
      requires page < Pages(sz) && page < USER_PAGES
      requires CopyInv(data, fr0, free0, parent, fr, free, d, page)
      requires Accounted(free0, fr, free, d, page, {}) && UserTables(fr, d, page)
      modifies this
      ensures Valid() && Suffix(free0, free) && OldKept(fr0, free0, fr)
      ensures r == Mapped ==>
                CopyInv(data, fr0, free0, parent, fr, free, d, page + 1) && Present(Pte(fr0, parent, page))
      ensures r == Mapped ==> Accounted(free0, fr, free, d, page + 1, {}) && UserTables(fr, d, page + 1)
      ensures r == Mapped ==> |old(free)| == |free| + CopyCost(page + 1) - CopyCost(page)
      ensures r == Remap ==> !Present(Pte(fr0, parent, page))
      ensures r == NoMemory ==> CopyInv(data, fr0, free0, parent, fr, free, d, page)
      ensures r == NoMemory ==> Accounted(free0, fr, free, d, page, lost) && forall f :: f in lost ==> f in free0
      ensures r == NoMemory ==> |old(free)| < CopyCost(page + 1) - CopyCost(page) && (lost == {} <==> old(free) == [])
      ensures r == NoMemory ==> |old(free)| <= 1 && |lost| == |old(free)|
      ensures r == NoMemory ==> forall f :: f in lost ==> f !in free && LostOnly(fr, d, page, f)
    {
      hide MemOk, SpaceOk, Grew, Pte, OldKept, ChildNew, KernelFrom, UserOk, CopyInv, MapsTo, KernelPte, Pages, Present;
      hide FrameOf, FlagsOf, Word, SetWord, Avoids, Suffix, Taken, Accounted, UserTables, CopyCost, LostOnly;
      lost := {};
      CopyCostNext(page);
      InvParts(data, fr0, free0, parent, fr, free, d, page);
      SuffixWithin(free0, free);
      ParentKept(fr0, free0, fr, free, parent);
      TableThere(fr, free, parent, page);
      var ok := WalkPgdir(parent, page, false);
      NotPresent(0);
      if !ok {
        return Remap, {};
      }
      var w := fr[TableFor(fr, parent, page)][page % ENTRIES];
      if !Present(w) {
        return Remap, {};
      }
      UserFrame(fr0, free0, parent, Pages(sz), fr, page);
      FrameWhole(fr, free, FrameOf(w));
      if free != [] {
        FrameFilled(data, fr0, free0, parent, fr, free, d, page, fr[FrameOf(w)]);
        FilledAccount(free0, fr, free, d, page, fr[FrameOf(w)]);
      }
      var got, mem := Kalloc();
      if !got {
        return NoMemory, {};
      }
      fr := fr[mem := fr[FrameOf(w)]];
      TakenIs(free0, free, mem);
      HeldByNone(fr, d, page, mem);
      r := MapCopy(parent, page, d, mem, w, data, fr0, free0);
      lost := {mem};
    }

    /** The last call of the loop's body: map the filled frame. */
    method MapCopy(ghost parent: nat, page: nat, d: nat, mem: nat, w: nat, ghost data: nat, ghost fr0: Frames,
                   ghost free0: seq<nat>)
      returns (r: Mapping)
      requires Valid() && page < USER_PAGES && CopyInv(data, fr0, free0, parent, fr, free, d, page)
      requires Accounted(free0, fr, free, d, page, {mem}) && UserTables(fr, d, page)
      requires Taken(free0, free, mem) && !Owns(fr, d, mem) && mem in fr && Avoids(fr, d, page, mem)
      requires w == Pte(fr0, parent, page) && Present(w) && FrameOf(w) in fr0 && fr[mem] == fr0[FrameOf(w)]
      modifies this
      ensures Valid() && Suffix(free0, free) && OldKept(fr0, free0, fr) && r != Remap
      ensures r == Mapped ==> CopyInv(data, fr0, free0, parent, fr, free, d, page + 1)
      ensures r == Mapped ==> Accounted(free0, fr, free, d, page + 1, {}) && UserTables(fr, d, page + 1)
      ensures r == Mapped ==> |old(free)| == |free| + if page % ENTRIES == 0 then 1 else 0
      ensures r == NoMemory ==> fr == old(fr) && free == old(free) == [] && page % ENTRIES == 0
    {
      hide MemOk, SpaceOk, Grew, Pte, OldKept, ChildNew, KernelFrom, CopyInv, MapsTo, KernelPte, Present;
      hide FrameOf, FlagsOf, Word, SetWord, Avoids, Suffix, Taken, Accounted, UserTables, GotTables, NewTables;
      ghost var fr1, free1 := fr, free;
      InvParts(data, fr0, free0, parent, fr, free, d, page);
      FlagsPresent(w);
      FrameAddress(mem);
      FrameAddress(page);
      OneTableMore(fr, d, page);
      r := MapPages(d, page * PGSIZE, PGSIZE, mem * PGSIZE, FlagsOf(w));
      ChildGrew(fr0, free0, fr1, free1, d, fr, free);
      UserUnmapped(data, fr1, d, page);
      NotPresent(0);
      assert (page * PGSIZE + PGSIZE - 1) / PGSIZE == page;
      if r == Mapped {
        PageCopied(data, fr0, free0, parent, fr1, free1, d, page, mem, FlagsOf(w), fr, free);
        PageAccounted(free0, fr1, free1, d, page, mem, FlagsOf(w), fr, free);
        TablesGrew(fr1, fr, d, page);
      }
    }

    /** deallocuvm; `done` are the pages it unmaps. */
    method DeallocUvm(dir: nat, oldsz: nat, newsz: nat) returns (r: nat, panicked: bool, ghost done: set<nat>)
      requires Valid() && SpaceOk(fr, free, dir) && oldsz <= KERNBASE
      requires PagesOwn(fr, free, dir, Pages(newsz), Pages(oldsz))
      modifies this
      ensures !panicked && r == if newsz >= oldsz then oldsz else newsz
      ensures Unmapped(old(fr), old(free), dir, done, fr, free)
      ensures forall p: nat :: p in done <==>
        newsz < oldsz && Visited(old(fr), dir, Pages(newsz), Pages(oldsz), p) && Present(Pte(old(fr), dir, p))
    {
      hide MemOk, SpaceOk, Grew, Pte, Word, SetWord, Present, FrameOf, Unmapped, PagesOwn, Visited, Pages, Junk;
      ghost var fr0, free0, lo, hi := fr, free, Pages(newsz), Pages(oldsz);
      done, panicked := {}, false;
      NothingUnmapped(fr, free, dir);
      if newsz >= oldsz {
        return oldsz, false, {};
      }
      var a := (newsz + PGSIZE - 1) / PGSIZE;
      PagesIs(newsz, oldsz);
      while a * PGSIZE < oldsz
        invariant Unmapped(fr0, free0, dir, done, fr, free) && lo <= a && !panicked
        invariant forall p :: p in done ==> lo <= p < a && p < hi && Present(Pte(fr0, dir, p))
        invariant forall p: nat :: Present(Pte(fr0, dir, p)) ==>
          (Visited(fr0, dir, lo, hi, p) <==> p in done || Visited(fr0, dir, a, hi, p))
        decreases if a < hi then hi - a else 0
      {
        PageWithin(oldsz, a);
        UnmappedParts(fr0, free0, dir, done, fr, free, a);
        VisitStep(fr0, dir, a, hi);
        var ok := WalkPgdir(dir, a, false);
        if !ok {
          a := a + ENTRIES;
        } else {
          TableThere(fr, free, dir, a);
          var t := TableFor(fr, dir, a);
          var w := fr[t][a % ENTRIES];
          if Present(w) {
            StillOwn(fr0, free0, dir, lo, hi, done, fr, free, a);
            UnmapOne(fr0, free0, dir, lo, hi, done, fr, free, a);
            panicked := Kfree(FrameOf(w));
            fr := SetWord(fr, t, a % ENTRIES, 0);
            done := done + {a};
          }
          a := a + 1;
        }
      }
      PagesIs(newsz, oldsz);
      NoneVisited(fr0, dir, a, hi);
      r := newsz;
    }

    /** freevm: everything of the address space goes back on the free list, and no other frame is touched. */
    method FreeVm(dir: nat) returns (panicked: bool)
      requires Valid() && SpaceOk(fr, free, dir) && PagesOwn(fr, free, dir, 0, USER_PAGES)
      modifies this
      ensures !panicked && Valid() && SpaceFreed(old(fr), old(free), dir, UserPages(old(fr), dir), fr, free)
    {
      hide MemOk, SpaceOk, Pte, Present, FrameOf, Unmapped, PagesOwn, Visited, Junk, TablesFreed, SpaceFreed, UserPages;
      ghost var fr0, free0 := fr, free;
      var r;
      ghost var done;
      UserRange();
      r, panicked, done := DeallocUvm(dir, KERNBASE, 0);
      AllUserPages(fr0, dir, done);
      ghost var fr1, free1 := fr, free;
      UnmappedSpace(fr0, free0, dir, done, fr, free);
      NoTablesFreed(fr, free, dir);
      for i := 0 to ENTRIES
        invariant Valid() && TablesFreed(fr1, free1, dir, i, fr, free)
      {
        FreedDir(fr1, free1, dir, i, fr, free);
        OneTable(fr1, free1, dir, i, fr, free);
        if Present(fr[dir][i]) {
          panicked := Kfree(FrameOf(fr[dir][i]));
        }
      }
      DirFreed(fr0, free0, dir, done, fr1, free1, fr, free);
      panicked := Kfree(dir);
    }

    /**
     copyuvm. If the parent's pages are all there, it succeeds exactly when there are enough free frames. When it
     fails it gives back what it took, but for `lost`: all of it if setupkvm failed, and otherwise the frame just
     filled, if it was mapping that frame that failed.
     */
    method CopyUvm(parent: nat, sz: nat, data: nat) returns (r: Copy, ghost lost: set<nat>)
      requires Valid() && SpaceOk(fr, free, parent) && DataOk(data) && sz <= KERNBASE
      requires UserOk(fr, free, parent, Pages(sz))
      modifies this
      ensures Valid() && SpaceOk(fr, free, parent) && OldKept(old(fr), old(free), fr)
      ensures forall q: nat :: q < PAGES ==> Pte(fr, parent, q) == Pte(old(fr), parent, q)
      ensures r.Child? ==> CopyInv(data, old(fr), old(free), parent, fr, free, r.dir, Pages(sz))
      ensures r.Child? ==> forall p: nat :: p < Pages(sz) ==> Present(Pte(old(fr), parent, p))
      ensures r.CopyPanic? ==> exists p: nat :: p < Pages(sz) && !Present(Pte(old(fr), parent, p))
      ensures r.Child? ==> Accounted(old(free), fr, free, r.dir, Pages(sz), {})
      ensures r.Child? ==> |old(free)| == |free| + KVM_FRAMES + CopyCost(Pages(sz))
      ensures r.CopyFailed? ==> |old(free)| < KVM_FRAMES + CopyCost(Pages(sz))
      ensures r.CopyFailed? ==> forall f: nat :: f in free <==> f in old(free) && f !in lost
      ensures r.CopyFailed? ==> forall f :: f in lost ==> f in old(free)
      ensures r.CopyFailed? && |old(free)| < KVM_FRAMES ==> free == []
      ensures r.CopyFailed? && KVM_FRAMES <= |old(free)| ==>
        |lost| == if (|old(free)| - KVM_FRAMES) % (ENTRIES + 1) == 1 then 1 else 0
    {
      hide MemOk, SpaceOk, Grew, Pte, OldKept, ChildNew, KernelFrom, UserOk, CopyInv, MapsTo, KernelPte, Pages, Present;
      hide FrameOf, FlagsOf, Word, SetWord, Accounted, UserTables, CopyCost, Suffix, PagesOwn, SpaceFreed, UserPages;
      hide Owns, LostOnly, Below;
      ghost var fr0, free0 := fr, free;
      lost := {};
      var ok, d := SetupKvm(data);
      SuffixWithin(free0, free);
      ParentKept(fr0, free0, fr, free, parent);
      if !ok {
        return CopyFailed, set f | f in free0;
      }
      CopyStart(data, fr0, free0, parent, fr, free, d);
      NoCost();
      var page := 0;
      while page * PGSIZE < sz
        invariant page <= Pages(sz) && Valid() && CopyInv(data, fr0, free0, parent, fr, free, d, page)
        invariant forall p: nat :: p < page ==> Present(Pte(fr0, parent, p))
        invariant Accounted(free0, fr, free, d, page, {}) && UserTables(fr, d, page)
        invariant |free0| == |free| + KVM_FRAMES + CopyCost(page)
        decreases Pages(sz) - page
      {
        PageBelow(sz, page);
        ghost var room: nat := |free| + CopyCost(page);
        var copied;
        copied, lost := CopyPage(parent, page, d, data, sz, fr0, free0);
        SuffixWithin(free0, free);
        if copied == Remap {
          ParentKept(fr0, free0, fr, free, parent);
          return CopyPanic, {};
        }
        if copied == NoMemory {
          CopyCostMore(page + 1, Pages(sz));
          WasteAt(room, page);
          ghost var fr1, free1 := fr, free;
          InvParts(data, fr0, free0, parent, fr, free, d, page);
          ChildPagesOwn(data, fr0, free0, parent, fr, free, d, page);
          var panicked := FreeVm(d);
          CopyUndone(data, fr0, free0, parent, fr1, free1, d, page, lost, fr, free);
          ParentKept(fr0, free0, fr, free, parent);
          return CopyFailed, lost;
        }
        page := page + 1;
      }
      PageBelow(sz, page);
      InvParts(data, fr0, free0, parent, fr, free, d, page);
      SuffixWithin(free0, free);
      ParentKept(fr0, free0, fr, free, parent);
      r := Child(d);
    }
  }

  // ---- lemmas for the methods ----

  lemma NoTablesYet(fr: Frames, dir: nat, first: nat)
    ensures GotTables(fr, fr, dir, first / ENTRIES, TablesTo(first, first))
    ensures NewTables(fr, dir, first / ENTRIES, TablesTo(first, first)) == 0
  {
  }

  lemma TableOfPage(a: nat, last: nat)
    requires a <= last < PAGES
    ensures a / ENTRIES <= last / ENTRIES < ENTRIES
  {
  }

  lemma WalkFails(fr: Frames, dir: nat, a: nat)
    ensures HasTable(fr, dir, a / ENTRIES) <==> Present(Word(fr, dir, a / ENTRIES))
  {
  }

  lemma SameTables(fr0: Frames, fr: Frames, fr': Frames, dir: nat, lo: nat, hi: nat)
    requires GotTables(fr0, fr, dir, lo, hi) && forall e: nat :: Word(fr', dir, e) == Word(fr, dir, e)
    ensures GotTables(fr0, fr', dir, lo, hi)
  {
  }

  lemma GrewAccounted(free0: seq<nat>, fr1: Frames, free1: seq<nat>, dir: nat, fr: Frames, free: seq<nat>)
    requires Accounted(free0, fr1, free1, dir, 0, {}) && Grew(fr1, free1, dir, fr, free)
    ensures Accounted(free0, fr, free, dir, 0, {})
  {
    hide Owns;
    forall f: nat | Taken(free0, free, f)
      ensures Owns(fr, dir, f)
    {
      assert Taken(free0, free1, f) || Taken(free1, free, f);
      if Taken(free0, free1, f) {
        assert !InPages(fr1, dir, Below(0), f);
      }
    }
  }

  lemma NewDirAccounted(data: nat, fr0: Frames, free0: seq<nat>, fr: Frames, dir: nat)
    requires MemOk(fr0, free0) && free0 != [] && dir == free0[0] && fr == fr0[dir := ZeroFrame()] && DataOk(data)
    ensures forall d: nat :: d < ENTRIES ==> (HasTable(fr, dir, d) <==> KernelTable(data, 0, d))
    ensures KernelCost(data, 0) == 0 && Accounted(free0, fr, free0[1..], dir, 0, {})
  {
    Popped(free0, fr0);
  }

  lemma KernelDone(data: nat, fr: Frames, dir: nat)
    requires DataOk(data)
    requires forall d: nat :: d < ENTRIES ==> (HasTable(fr, dir, d) <==> KernelTable(data, 4, d))
    ensures KernelCost(data, 4) == KVM_FRAMES - 1 && UserTables(fr, dir, 0)
  {
  }

  lemma NoCost()
    ensures CopyCost(0) == 0
  {
  }

  lemma HeldByNone(fr: Frames, child: nat, n: nat, f: nat)
    requires !Owns(fr, child, f) && Avoids(fr, child, n, f)
    ensures LostOnly(fr, child, n, f)
  {
  }

  lemma TakenIs(free0: seq<nat>, free: seq<nat>, f: nat)
    requires Taken(free0, free, f)
    ensures f in free0 && f !in free
  {
  }

  /** A frame taken to be filled is held by nobody yet. */
  lemma FilledAccount(free0: seq<nat>, fr: Frames, free: seq<nat>, child: nat, n: nat, bytes: seq<nat>)
    requires MemOk(fr, free) && SpaceOk(fr, free, child) && free != [] && n <= PAGES
    requires Accounted(free0, fr, free, child, n, {}) && UserTables(fr, child, n)
    ensures Accounted(free0, fr[free[0] := bytes], free[1..], child, n, {free[0]})
    ensures UserTables(fr[free[0] := bytes], child, n)
  {
    var fr' := fr[free[0] := bytes];
    FilledSpace(fr, free, child, bytes);
    Popped(free, fr);
    assert free[0] in free && Owns(fr, child, child);
    assert forall d: nat :: Word(fr', child, d) == Word(fr, child, d);
    assert forall d: nat :: HasTable(fr', child, d) == HasTable(fr, child, d);
    hide Owns, Pte, FrameOf;
    forall f: nat | Taken(free0, free[1..], f)
      ensures Owns(fr', child, f) || InPages(fr', child, Below(n), f) || f == free[0]
    {
      if f != free[0] {
        assert Taken(free0, free, f);
        if InPages(fr, child, Below(n), f) {
          var p :| p in Below(n) && FrameOf(Pte(fr, child, p)) == f;
          assert Pte(fr', child, p) == Pte(fr, child, p);
        }
      }
    }
  }

  lemma OneTableMore(fr: Frames, child: nat, n: nat)
    requires UserTables(fr, child, n) && n < USER_PAGES
    ensures NewTables(fr, child, n / ENTRIES, n / ENTRIES + 1) == if n % ENTRIES == 0 then 1 else 0
  {
    CopyCostNext(n);
    assert n / ENTRIES < KERNBASE / PGSIZE / ENTRIES;
    assert NewTables(fr, child, n / ENTRIES, n / ENTRIES) == 0;
  }

  lemma TablesGrew(fr1: Frames, fr: Frames, child: nat, n: nat)
    requires UserTables(fr1, child, n) && GotTables(fr1, fr, child, n / ENTRIES, n / ENTRIES + 1)
    ensures UserTables(fr, child, n + 1)
  {
    hide HasTable;
    CopyCostNext(n);
  }

  /** Mapping the filled frame accounts for it. */
  lemma PageAccounted(free0: seq<nat>, fr1: Frames, free1: seq<nat>, child: nat, n: nat, mem: nat, flags: nat,
                      fr: Frames, free: seq<nat>)
    requires Accounted(free0, fr1, free1, child, n, {mem}) && Grew(fr1, free1, child, fr, free)
    requires MapsTo(fr1, fr, child, n, n + 1, mem, flags) && flags < PGSIZE && n < PAGES
    ensures Accounted(free0, fr, free, child, n + 1, {})
  {
    EntryParts(mem, flags);
    assert Pte(fr, child, n) == Entry(mem, flags);
    hide Owns, Pte, FrameOf, Entry;
    forall f: nat | Taken(free0, free, f)
      ensures Owns(fr, child, f) || InPages(fr, child, Below(n + 1), f)
    {
      assert Taken(free0, free1, f) || Taken(free1, free, f);
      if InPages(fr1, child, Below(n), f) {
        var p :| p in Below(n) && FrameOf(Pte(fr1, child, p)) == f;
        assert Pte(fr, child, p) == Pte(fr1, child, p);
        assert p in Below(n + 1);
      }
      assert n in Below(n + 1);
    }
  }

  lemma PagesIs(newsz: nat, oldsz: nat)
    ensures Pages(newsz) == (newsz + PGSIZE - 1) / PGSIZE
    ensures forall a: nat :: a * PGSIZE < oldsz <==> a < Pages(oldsz)
  {
    forall a: nat
      ensures a * PGSIZE < oldsz <==> a < Pages(oldsz)
    {
      PageUnder(oldsz, a);
    }
  }

  lemma PageUnder(sz: nat, a: nat)
    ensures a * PGSIZE < sz <==> a < Pages(sz)
  {
  }

  lemma PageWithin(oldsz: nat, a: nat)
    requires a * PGSIZE < oldsz <= KERNBASE
    ensures a < Pages(oldsz) <= USER_PAGES <= PAGES
  {
  }

  lemma UnmappedParts(fr0: Frames, free0: seq<nat>, dir: nat, done: set<nat>, fr: Frames, free: seq<nat>, a: nat)
    requires Unmapped(fr0, free0, dir, done, fr, free) && a < PAGES
    ensures MemOk(fr, free) && SpaceOk(fr, free, dir)
    ensures HasTable(fr0, dir, a / ENTRIES) <==> Present(Word(fr, dir, a / ENTRIES))
    ensures a !in done ==> Pte(fr, dir, a) == Pte(fr0, dir, a)
  {
  }

  lemma UnmappedSpace(fr0: Frames, free0: seq<nat>, dir: nat, done: set<nat>, fr: Frames, free: seq<nat>)
    requires Unmapped(fr0, free0, dir, done, fr, free)
    ensures MemOk(fr, free) && SpaceOk(fr, free, dir)
  {
  }

  lemma VisitStep(fr: Frames, dir: nat, a: nat, hi: nat)
    requires a < hi
    ensures HasTable(fr, dir, a / ENTRIES) ==>
              forall p: nat :: Visited(fr, dir, a, hi, p) <==> p == a || Visited(fr, dir, a + 1, hi, p)
    ensures !HasTable(fr, dir, a / ENTRIES) ==>
              forall p: nat :: Visited(fr, dir, a, hi, p) <==> Visited(fr, dir, a + ENTRIES, hi, p)
  {
  }

  lemma NoneVisited(fr: Frames, dir: nat, a: nat, hi: nat)
    requires a >= hi
    ensures forall p: nat :: !Visited(fr, dir, a, hi, p)
  {
  }

  lemma UserRange()
    ensures Pages(0) == 0 && Pages(KERNBASE) == USER_PAGES
  {
  }

  /** freevm starts at page 0, so deallocuvm misses no user page. */
  lemma AllUserPages(fr: Frames, dir: nat, done: set<nat>)
    requires forall p: nat :: p in done <==> Visited(fr, dir, 0, USER_PAGES, p) && Present(Pte(fr, dir, p))
    ensures done == UserPages(fr, dir)
  {
    hide Pte, Present;
    forall p: nat
      ensures p in done <==> p in UserPages(fr, dir)
    {
      if p < USER_PAGES && Present(Pte(fr, dir, p)) {
        PresentHasTable(fr, dir, p);
        AllVisited(fr, dir, 0, USER_PAGES, p);
      }
      if Visited(fr, dir, 0, USER_PAGES, p) {
        VisitedRange(fr, dir, 0, USER_PAGES, p);
      }
    }
  }

  lemma FreedDir(fr1: Frames, free1: seq<nat>, dir: nat, i: nat, fr: Frames, free: seq<nat>)
    requires TablesFreed(fr1, free1, dir, i, fr, free)
    ensures dir in fr
  {
  }

  /** The pages copied so far, and no others, are the child's to give back. */
  lemma ChildPagesOwn(data: nat, fr0: Frames, free0: seq<nat>, parent: nat, fr: Frames, free: seq<nat>, child: nat,
                      n: nat)
    requires CopyInv(data, fr0, free0, parent, fr, free, child, n) && n <= USER_PAGES
    ensures PagesOwn(fr, free, child, 0, USER_PAGES) && UserPages(fr, child) == Below(n)
  {
    hide Pte, Owns, FrameOf, MemOk, SpaceOk;
    NotPresent(0);
    forall p: nat | p < USER_PAGES
      ensures if p < n then Copied(fr0, free0, parent, fr, free, child, p) else !Present(Pte(fr, child, p))
    {
      if p >= n {
        assert Pte(fr, child, p) == KernelPte(data, p) == 0;
      }
    }
    hide KernelPte, Present;
  }

  /** After freevm all is as before the copy, but for the lost frame. */
  lemma CopyUndone(data: nat, fr0: Frames, free0: seq<nat>, parent: nat, fr1: Frames, free1: seq<nat>, child: nat,
                   n: nat, lost: set<nat>, fr: Frames, free: seq<nat>)
    requires CopyInv(data, fr0, free0, parent, fr1, free1, child, n) && Accounted(free0, fr1, free1, child, n, lost)
    requires SpaceFreed(fr1, free1, child, UserPages(fr1, child), fr, free) && UserPages(fr1, child) == Below(n)
    requires forall f :: f in lost ==> f in free0 && f !in free1 && LostOnly(fr1, child, n, f)
    ensures forall f: nat :: f in free <==> f in free0 && f !in lost
    ensures OldKept(fr0, free0, fr) && Within(free0, free)
  {
    hide Pte, Owns, FrameOf, MemOk, SpaceOk, KernelFrom, UserPages, Present;
    forall f: nat
      ensures f in free <==> f in free0 && f !in lost
    {
      if f in free1 {
        SuffixIn(free0, free1, f);
      }
      if InPages(fr1, child, Below(n), f) {
        var p :| p in Below(n) && FrameOf(Pte(fr1, child, p)) == f;
        assert Copied(fr0, free0, parent, fr1, free1, child, p);
      }
      if f in free0 && f !in free1 {
        assert Taken(free0, free1, f);
      }
    }
    forall f: nat | f in fr0 && f !in free0
      ensures Kept(fr0, fr, f)
    {
      assert Kept(fr0, fr1, f) && Kept(fr1, fr, f);
    }
  }

  /** Frame f belongs neither to the child's directory nor to its pages. */
  ghost predicate LostOnly(fr: Frames, child: nat, n: nat, f: nat) {
    !Owns(fr, child, f) && !InPages(fr, child, Below(n), f)
  }

  lemma NotPresent(w: nat)
    requires w == 0
    ensures !Present(w)
  {
  }

  lemma InvParts(data: nat, fr0: Frames, free0: seq<nat>, parent: nat, fr: Frames, free: seq<nat>, child: nat, n: nat)
    requires CopyInv(data, fr0, free0, parent, fr, free, child, n)
    ensures MemOk(fr, free) && SpaceOk(fr, free, child) && Suffix(free0, free) && fr.Keys == fr0.Keys
    ensures KernelFrom(data, fr, child, n) && OldKept(fr0, free0, fr) && ChildNew(free0, fr, free, child)
  {
  }

  lemma TableThere(fr: Frames, free: seq<nat>, dir: nat, page: nat)
    requires SpaceOk(fr, free, dir) && page < PAGES
    ensures Present(Word(fr, dir, page / ENTRIES)) ==>
              IsFrame(fr, TableFor(fr, dir, page)) && Pte(fr, dir, page) == fr[TableFor(fr, dir, page)][page % ENTRIES]
    ensures !Present(Word(fr, dir, page / ENTRIES)) ==> Pte(fr, dir, page) == 0
  {
    assert TableOk(fr, dir, page / ENTRIES);
  }

  /** The parent's frames were in use, so it is as it was. */
  lemma ParentKept(fr0: Frames, free0: seq<nat>, fr: Frames, free: seq<nat>, parent: nat)
    requires SpaceOk(fr0, free0, parent) && OldKept(fr0, free0, fr) && Within(free0, free)
    ensures SpaceOk(fr, free, parent)
    ensures forall q: nat :: q < PAGES ==> Pte(fr, parent, q) == Pte(fr0, parent, q)
  {
    forall f: nat | f in fr0 && Owns(fr0, parent, f)
      ensures f in fr && fr[f] == fr0[f]
    {
      assert Kept(fr0, fr, f);
    }
    SameDir(fr0, fr, parent);
    forall q: nat | q < PAGES
      ensures Pte(fr, parent, q) == Pte(fr0, parent, q)
    {
      SamePte(fr0, fr, parent, q);
    }
  }

  /** Nothing is free that was in use. */
  ghost predicate Within(free0: seq<nat>, free: seq<nat>) {
    forall f: nat :: f in free ==> f in free0
  }

  lemma SuffixWithin(free0: seq<nat>, free: seq<nat>)
    requires Suffix(free0, free)
    ensures Within(free0, free)
  {
  }

  /** None of the first n pages is in frame f. */
  ghost predicate Avoids(fr: Frames, child: nat, n: nat, f: nat) {
    forall p: nat :: p < n ==> FrameOf(Pte(fr, child, p)) != f
  }

  /** Filling a frame just taken from the free list disturbs nothing. */
  lemma FrameFilled(data: nat, fr0: Frames, free0: seq<nat>, parent: nat, fr: Frames, free: seq<nat>, child: nat,
                    n: nat, bytes: seq<nat>)
    requires CopyInv(data, fr0, free0, parent, fr, free, child, n) && free != [] && |bytes| == ENTRIES && n <= PAGES
    ensures CopyInv(data, fr0, free0, parent, fr[free[0] := bytes], free[1..], child, n)
    ensures Taken(free0, free[1..], free[0]) && !Owns(fr[free[0] := bytes], child, free[0])
    ensures Avoids(fr[free[0] := bytes], child, n, free[0])
  {
    var f, fr', free' := free[0], fr[free[0] := bytes], free[1..];
    FilledSpace(fr, free, child, bytes);
    Popped(free, fr);
    assert f in free && f in fr;
    SuffixIn(free0, free, f);
    assert Suffix(free0, free') by {
      assert free' == free0[|free0| - |free'|..];
    }
    assert MemOk(fr', free');
    forall p: nat | p < n
      ensures Copied(fr0, free0, parent, fr', free', child, p) && FrameOf(Pte(fr', child, p)) != f
    {
      assert Copied(fr0, free0, parent, fr, free, child, p);
    }
    forall g: nat | g in fr0 && g !in free0
      ensures Kept(fr0, fr', g)
    {
      assert Kept(fr0, fr, g);
    }
    assert fr'.Keys == fr0.Keys;
  }

  lemma FilledSpace(fr: Frames, free: seq<nat>, dir: nat, bytes: seq<nat>)
    requires SpaceOk(fr, free, dir) && free != []
    ensures var fr' := fr[free[0] := bytes];
            && SpaceOk(fr', free[1..], dir) && (forall f: nat :: Owns(fr', dir, f) <==> Owns(fr, dir, f))
            && forall q: nat :: q < PAGES ==> Pte(fr', dir, q) == Pte(fr, dir, q)
  {
    var fr' := fr[free[0] := bytes];
    assert free[0] in free;
    SameDir(fr, fr', dir);
    forall q: nat | q < PAGES
      ensures Pte(fr', dir, q) == Pte(fr, dir, q)
    {
      SamePte(fr, fr', dir, q);
    }
    forall f: nat | Owns(fr', dir, f)
      ensures f !in free[1..]
    {
      assert f !in free;
    }
  }

  /** Mapping the filled frame copies one more page. */
  lemma PageCopied(data: nat, fr0: Frames, free0: seq<nat>, parent: nat, fr1: Frames, free1: seq<nat>, child: nat,
                   n: nat,
                   f: nat, flags: nat, fr: Frames, free: seq<nat>)
    requires CopyInv(data, fr0, free0, parent, fr1, free1, child, n) && n < PAGES
    requires MemOk(fr, free) && SpaceOk(fr, free, child) && Grew(fr1, free1, child, fr, free)
    requires MapsTo(fr1, fr, child, n, n + 1, f, flags)
    requires Taken(free0, free1, f) && !Owns(fr1, child, f) && f in fr1
    requires Avoids(fr1, child, n, f)
    requires var w := Pte(fr0, parent, n);
             Present(w) && flags == FlagsOf(w) && FrameOf(w) in fr0 && fr1[f] == fr0[FrameOf(w)]
    ensures CopyInv(data, fr0, free0, parent, fr, free, child, n + 1)
  {
    hide Pte, Entry, Owns, Taken, MemOk, SpaceOk, OldKept, ChildNew, Suffix, Grew;
    ChildGrew(fr0, free0, fr1, free1, child, fr, free);
    FlagsPresent(Pte(fr0, parent, n));
    EntryParts(f, flags);
    assert Pte(fr, child, n) == Entry(f, flags);
    forall p: nat | p < n
      ensures Pte(fr, child, p) == Pte(fr1, child, p)
    {
    }
    forall p: nat | p < n + 1
      ensures Copied(fr0, free0, parent, fr, free, child, p)
    {
      if p < n {
        assert Copied(fr0, free0, parent, fr1, free1, child, p);
        StillPrivate(free0, fr1, free1, child, fr, free, FrameOf(Pte(fr1, child, p)));
      } else {
        StillPrivate(free0, fr1, free1, child, fr, free, f);
      }
    }
    hide Copied, FlagsOf, Present, KernelPte;
  }

  lemma FlagsPresent(w: nat)
    requires Present(w)
    ensures FlagsOf(w) % 2 == 1 && FlagsOf(w) < PGSIZE
  {
  }

  lemma StillPrivate(free0: seq<nat>, fr1: Frames, free1: seq<nat>, child: nat, fr: Frames, free: seq<nat>, g: nat)
    requires Grew(fr1, free1, child, fr, free) && Taken(free0, free1, g) && !Owns(fr1, child, g) && g in fr1
    ensures Taken(free0, free, g) && !Owns(fr, child, g) && g in fr && fr[g] == fr1[g]
  {
    if g in free {
      SuffixIn(free1, free, g);
    }
    assert Kept(fr1, fr, g);
  }

  lemma CopyStart(data: nat, fr0: Frames, free0: seq<nat>, parent: nat, fr: Frames, free: seq<nat>, child: nat)
    requires MemOk(fr, free) && SpaceOk(fr, free, child) && Suffix(free0, free) && fr.Keys == fr0.Keys
    requires KernelFrom(data, fr, child, 0) && OldKept(fr0, free0, fr) && ChildNew(free0, fr, free, child)
    ensures CopyInv(data, fr0, free0, parent, fr, free, child, 0)
  {
  }

  lemma UserFrame(fr0: Frames, free0: seq<nat>, parent: nat, n: nat, fr: Frames, p: nat)
    requires UserOk(fr0, free0, parent, n) && p < n && Present(Pte(fr0, parent, p)) && OldKept(fr0, free0, fr)
    ensures FrameOf(Pte(fr0, parent, p)) in fr0 && Kept(fr0, fr, FrameOf(Pte(fr0, parent, p)))
  {
  }

  lemma UserUnmapped(data: nat, fr: Frames, child: nat, n: nat)
    requires KernelFrom(data, fr, child, n) && n < KERNBASE / PGSIZE
    ensures Pte(fr, child, n) == 0
  {
  }

  function Pages(sz: nat): nat {
    (sz + PGSIZE - 1) / PGSIZE
  }

  lemma PageBelow(sz: nat, page: nat)
    requires sz <= KERNBASE && page <= Pages(sz)
    ensures page * PGSIZE < sz <==> page < Pages(sz)
    ensures page < Pages(sz) ==> page < KERNBASE / PGSIZE && page * PGSIZE + PGSIZE <= WORD
    ensures page * PGSIZE / PGSIZE == page && (page * PGSIZE + PGSIZE - 1) / PGSIZE == page &&
            page * PGSIZE % PGSIZE == 0
  {
  }

  lemma FrameAddress(f: nat)
    ensures f * PGSIZE % PGSIZE == 0 && f * PGSIZE / PGSIZE == f
  {
  }

  lemma FrameWhole(fr: Frames, free: seq<nat>, f: nat)
    requires MemOk(fr, free) && f in fr
    ensures |fr[f]| == ENTRIES
  {
  }

  lemma DirFrame(fr: Frames, free: seq<nat>, dir: nat)
    requires SpaceOk(fr, free, dir)
    ensures IsFrame(fr, dir)
  {
  }

  lemma NewFrame(fr: Frames, free: seq<nat>, dir: nat, f: nat)
    requires SpaceOk(fr, free, dir) && f in free
    ensures f != dir && IsFrame(fr, dir)
  {
    assert Owns(fr, dir, dir);
  }

  lemma AddTableIs(fr: Frames, dir: nat, d: nat, f: nat, fr': Frames)
    requires IsFrame(fr, dir) && d < ENTRIES && f != dir
    requires dir in fr[f := ZeroFrame()] && |fr[f := ZeroFrame()][dir]| == ENTRIES
    requires fr' == fr[f := ZeroFrame()][dir := fr[f := ZeroFrame()][dir][d := Entry(f, 7)]]
    ensures fr' == AddTable(fr, dir, d, f)
  {
  }

  lemma PageRange(va: nat, size: nat)
    requires 0 < size && va + size <= WORD
    ensures va / PGSIZE <= (va + size - 1) / PGSIZE < PAGES && (va + size - 1) % WORD == va + size - 1
  {
  }

  lemma PteIs(fr: Frames, dir: nat, page: nat)
    requires Present(Word(fr, dir, page / ENTRIES)) && IsFrame(fr, TableFor(fr, dir, page))
    ensures Pte(fr, dir, page) == fr[TableFor(fr, dir, page)][page % ENTRIES]
  {
  }

  lemma NothingChanged(fr: Frames, free: seq<nat>)
    ensures OldKept(fr, free, fr) && Suffix(free, free)
  {
  }

  lemma NewDir(fr: Frames, free: seq<nat>)
    requires MemOk(fr, free) && free != []
    ensures var fr' := fr[free[0] := ZeroFrame()];
            && MemOk(fr', free[1..]) && SpaceOk(fr', free[1..], free[0]) && Suffix(free, free[1..]) &&
               fr'.Keys == fr.Keys
            && OldKept(fr, free, fr') && ChildNew(free, fr', free[1..], free[0])
            && forall q: nat :: Pte(fr', free[0], q) == 0
  {
    var dir := free[0];
    var fr' := fr[dir := ZeroFrame()];
    Popped(free, fr);
    EmptyDir(fr', dir);
    assert dir in free && dir in fr;
    assert fr'.Keys == fr.Keys;
  }

  lemma RowArguments(data: nat, k: nat)
    requires DataOk(data) && k < 4
    ensures var m := KmapAt(data, k);
            && 0 < Size(m) && m.virt + Size(m) <= WORD && m.start % PGSIZE == 0 && m.perm < PGSIZE
  {
    Rows(data);
  }

  /** What was true of the child's frames stays true while its directory grows. */
  lemma ChildGrew(fr0: Frames, free0: seq<nat>, fr1: Frames, free1: seq<nat>, dir: nat, fr: Frames, free: seq<nat>)
    requires Grew(fr1, free1, dir, fr, free) && Suffix(free0, free1) && fr1.Keys == fr0.Keys
    requires OldKept(fr0, free0, fr1) && ChildNew(free0, fr1, free1, dir)
    ensures Suffix(free0, free) && fr.Keys == fr0.Keys && OldKept(fr0, free0, fr) && ChildNew(free0, fr, free, dir)
  {
    assert free == free0[|free0| - |free|..];
    forall f: nat | f in fr0 && f !in free0
      ensures Kept(fr0, fr, f)
    {
      assert Kept(fr0, fr1, f);
      if f in free1 {
        SuffixIn(free0, free1, f);
      }
      assert Kept(fr1, fr, f);
    }
    forall f: nat | Owns(fr, dir, f)
      ensures Taken(free0, free, f)
    {
      if f in free {
        SuffixIn(free1, free, f);
      }
      if f in free1 {
        SuffixIn(free0, free1, f);
      }
    }
  }

  lemma NoRemap(data: nat, k: nat, fr: Frames, dir: nat, r: Mapping)
    requires DataOk(data) && k < 4
    requires forall q: nat :: q < PAGES ==> Pte(fr, dir, q) == MappedBy(data, k, q)
    requires var m := KmapAt(data, k);
             r == Remap ==>
               exists q: nat :: InRange(m.virt / PGSIZE, (m.virt + Size(m) - 1) / PGSIZE, q) && Present(Pte(fr, dir, q))
    ensures r != Remap
  {
    hide Pte, MappedBy;
    var m := KmapAt(data, k);
    RowArguments(data, k);
    PageRange(m.virt, Size(m));
    if q: nat :| InRange(m.virt / PGSIZE, (m.virt + Size(m) - 1) / PGSIZE, q) && Present(Pte(fr, dir, q)) {
      assert InRow(data, k, q);
      RowsApart(data, k, q);
    }
  }

  lemma RowMapped(data: nat, k: nat, fr1: Frames, fr: Frames, dir: nat)
    requires DataOk(data) && k < 4
    requires forall q: nat :: q < PAGES ==> Pte(fr1, dir, q) == MappedBy(data, k, q)
    requires var m := KmapAt(data, k);
             MapsTo(fr1, fr, dir, m.virt / PGSIZE, (m.virt + Size(m) - 1) / PGSIZE + 1, m.start / PGSIZE, m.perm)
    ensures forall q: nat :: q < PAGES ==> Pte(fr, dir, q) == MappedBy(data, k + 1, q)
  {
    RowRange(data, k);
    hide Pte, Entry, KmapAt, Size, FirstPage, LastPage;
  }

  lemma RowRange(data: nat, k: nat)
    requires DataOk(data) && k < 4
    ensures var m := KmapAt(data, k);
            FirstPage(data, k) == m.virt / PGSIZE && LastPage(data, k) == (m.virt + Size(m) - 1) / PGSIZE
  {
    RowArguments(data, k);
    hide KmapAt, Size;
    PageRange(KmapAt(data, k).virt, Size(KmapAt(data, k)));
  }

  lemma NothingMapped(data: nat)
    requires DataOk(data)
    ensures forall q: nat :: MappedBy(data, 0, q) == 0
  {
  }

  /** What a successful copy means for page p: same bytes and flags, in a frame nobody else has. */
  lemma ChildIsPrivateCopy(data: nat, fr0: Frames, free0: seq<nat>, parent: nat, fr: Frames, free: seq<nat>, child: nat,
                           n: nat, p: nat, q: nat)
    requires CopyInv(data, fr0, free0, parent, fr, free, child, n) && UserOk(fr0, free0, parent, n)
    requires SpaceOk(fr0, free0, parent) && p < n <= KERNBASE / PGSIZE && q < PAGES
    requires forall k: nat :: k < n ==> Present(Pte(fr0, parent, k))
    ensures var c := Pte(fr, child, p); var w := Pte(fr0, parent, p);
            && Present(c) && FlagsOf(c) == FlagsOf(w)
            && FrameOf(c) in fr && FrameOf(w) in fr && fr[FrameOf(c)] == fr[FrameOf(w)] == fr0[FrameOf(w)]
            && FrameOf(c) !in free && !Owns(fr, child, FrameOf(c)) && !Owns(fr0, parent, FrameOf(c))
    ensures q < n ==> FrameOf(Pte(fr, child, p)) != FrameOf(Pte(fr0, parent, q))
    ensures q < n && q != p ==> FrameOf(Pte(fr, child, p)) != FrameOf(Pte(fr, child, q))
    ensures q >= n ==> Pte(fr, child, q) == KernelPte(data, q)
    ensures n <= q < KERNBASE / PGSIZE ==> Pte(fr, child, q) == 0
  {
    hide Pte;
    assert Copied(fr0, free0, parent, fr, free, child, p);
    assert Kept(fr0, fr, FrameOf(Pte(fr0, parent, p)));
  }

  // ---- memory over several calls

  /** A copy and then freevm of the child, as fork and wait do: the same frames are free, those in use are unchanged. */
  method CopyThenFree(m: Machine, parent: nat, sz: nat, data: nat) returns (r: Copy, panicked: bool)
    requires m.Valid() && SpaceOk(m.fr, m.free, parent) && DataOk(data) && sz <= KERNBASE
    requires UserOk(m.fr, m.free, parent, Pages(sz))
    modifies m
    ensures r.Child? ==> !panicked && forall f: nat :: f in m.free <==> f in old(m.free)
    ensures r.Child? ==> m.Valid() && OldKept(old(m.fr), old(m.free), m.fr)
  {
    hide MemOk, SpaceOk, OldKept, UserOk, CopyInv, Pages, Accounted, CopyCost, PagesOwn, SpaceFreed, UserPages, Owns;
    ghost var fr0, free0 := m.fr, m.free;
    panicked := false;
    ghost var lost;
    r, lost := m.CopyUvm(parent, sz, data);
    if r.Child? {
      ghost var n := Pages(sz);
      PagesAtMost(sz);
      InvParts(data, fr0, free0, parent, m.fr, m.free, r.dir, n);
      ChildPagesOwn(data, fr0, free0, parent, m.fr, m.free, r.dir, n);
      ghost var fr1, free1 := m.fr, m.free;
      panicked := m.FreeVm(r.dir);
      CopyUndone(data, fr0, free0, parent, fr1, free1, r.dir, n, {}, m.fr, m.free);
    }
  }

  lemma PagesAtMost(sz: nat)
    requires sz <= KERNBASE
    ensures Pages(sz) <= USER_PAGES
  {
  }

  /**
   With 133 frames at the start, as many as setupkvm, one page with its table and a copy but for one frame need:
   the first process gets its page and the copy of it fails and loses the frame it had filled.
   */
  method LastFrameIsLost(m: Machine, data: nat) returns (r: Copy, ghost lost: set<nat>)
    requires m.Valid() && DataOk(data) && |m.free| == 2 * KVM_FRAMES + 3
    modifies m
    ensures r.CopyFailed? && |lost| == 1 && forall f :: f in lost ==> f in old(m.free) && f !in m.free
  {
    hide MemOk, SpaceOk, Grew, Pte, OldKept, ChildNew, KernelFrom, UserOk, CopyInv, MapsTo, Accounted, UserTables;
    hide GotTables, NewTables, Suffix;
    ghost var free0 := m.free;
    var ok, dir := m.SetupKvm(data);
    SuffixWithin(free0, m.free);
    ghost var fr1, free1 := m.fr, m.free;
    FirstPageFree(data, fr1, free1, dir);
    OneTableMore(fr1, dir, 0);
    var got, mem := m.Kalloc();
    FrameAddress(mem);
    var mapped := m.MapPages(dir, 0, PGSIZE, mem * PGSIZE, 6);
    FirstPageMapped(fr1, free1, dir, mem, m.fr, m.free);
    assert Pages(PGSIZE) == 1 && CopyCost(1) == 2;
    r, lost := m.CopyUvm(dir, PGSIZE, data);
  }

  lemma FirstPageFree(data: nat, fr: Frames, free: seq<nat>, dir: nat)
    requires MemOk(fr, free) && SpaceOk(fr, free, dir) && KernelFrom(data, fr, dir, 0) && free != []
    ensures !Present(Pte(fr, dir, 0)) && SpaceOk(fr, free[1..], dir) && free[0] in fr && free[0] !in free[1..]
  {
    Popped(free, fr);
    assert Pte(fr, dir, 0) == KernelPte(data, 0);
    assert free[0] in free;
  }

  lemma FirstPageMapped(fr1: Frames, free1: seq<nat>, dir: nat, mem: nat, fr: Frames, free: seq<nat>)
    requires free1 != [] && mem == free1[0] && mem in fr1 && mem !in free1[1..]
    requires Grew(fr1, free1[1..], dir, fr, free) && MapsTo(fr1, fr, dir, 0, 1, mem, 6)
    ensures UserOk(fr, free, dir, 1) && Present(Pte(fr, dir, 0)) && Within(free1, free)
  {
    EntryParts(mem, 6);
    assert Pte(fr, dir, 0) == Entry(mem, 6);
    hide Entry, Pte;
    SuffixWithin(free1[1..], free);
  }
}
