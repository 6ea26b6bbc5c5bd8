/**
 Two-level page tables in physical memory, as xv6/vm.c builds them. A frame is 1024
 words; pages and frames are numbers, so page p starts at address 4096 * p.
 */
module PageTable {

  const ENTRIES: nat := 1024
  const PGSIZE: nat := 4096

  type Frames = map<nat, seq<nat>>

  function Word(fr: Frames, f: nat, i: nat): nat {
    if f in fr && i < |fr[f]| then fr[f][i] else 0
  }

  /** PTE_P, PTE_ADDR and PTE_FLAGS of an entry. */
  predicate Present(w: nat) {
    w % 2 == 1
  }

  function FrameOf(w: nat): nat {
    w / PGSIZE
  }

  function FlagsOf(w: nat): nat {
    w % PGSIZE
  }

  /** pa | perm | PTE_P for a page-aligned pa. */
  function Entry(frame: nat, perm: nat): nat {
    frame * PGSIZE + if perm % 2 == 1 then perm else perm + 1
  }

  lemma EntryParts(frame: nat, perm: nat)
    requires perm < PGSIZE
    ensures Present(Entry(frame, perm)) && FrameOf(Entry(frame, perm)) == frame
    ensures FlagsOf(Entry(frame, perm)) == if perm % 2 == 1 then perm else perm + 1
  {
    var flags := if perm % 2 == 1 then perm else perm + 1;
    assert flags % 2 == 1 && flags < PGSIZE;
    assert Entry(frame, perm) == 2 * (frame * 2048 + flags / 2) + 1;
  }

  /** The entry that translates a page; 0 when there is no table for it. */
  function Pte(fr: Frames, dir: nat, page: nat): nat {
    var pde := Word(fr, dir, page / ENTRIES);
    if Present(pde) then Word(fr, FrameOf(pde), page % ENTRIES) else 0
  }

  /** The translation of an address as the hardware makes it: ten bits pick a table, ten bits an entry of it. */
  lemma PteIsWalk(fr: Frames, dir: nat, va: nat)
    requires va < 0x1_0000_0000 && dir in fr && |fr[dir]| == ENTRIES
    ensures va / 0x40_0000 < |fr[dir]|
    ensures var pde := fr[dir][va / 0x40_0000];
            && (pde % 2 == 0 ==> Pte(fr, dir, va / 0x1000) == 0)
            && (pde % 2 == 1 && pde / 0x1000 in fr && |fr[pde / 0x1000]| == ENTRIES ==>
                  Pte(fr, dir, va / 0x1000) == fr[pde / 0x1000][va / 0x1000 % 0x400])
  {
    assert va / 0x1000 / ENTRIES == va / 0x40_0000;
  }

  function TableFor(fr: Frames, dir: nat, page: nat): nat {
    FrameOf(Word(fr, dir, page / ENTRIES))
  }

  predicate IsFrame(fr: Frames, f: nat) {
    f in fr && |fr[f]| == ENTRIES
  }

  /** The directory's entry d leads to a table of its own. */
  predicate TableOk(fr: Frames, dir: nat, d: nat) {
    Present(Word(fr, dir, d)) ==> FrameOf(Word(fr, dir, d)) != dir && IsFrame(fr, FrameOf(Word(fr, dir, d)))
  }

  predicate TablesApart(fr: Frames, dir: nat, d: nat, e: nat) {
    Present(Word(fr, dir, d)) && Present(Word(fr, dir, e)) && d != e ==>
      FrameOf(Word(fr, dir, d)) != FrameOf(Word(fr, dir, e))
  }

  ghost predicate DirOk(fr: Frames, dir: nat) {
    && IsFrame(fr, dir)
    && (forall d: nat :: d < ENTRIES ==> TableOk(fr, dir, d))
    && (forall d: nat, e: nat :: d < ENTRIES && e < ENTRIES ==> TablesApart(fr, dir, d, e))
  }

  predicate Leads(fr: Frames, dir: nat, d: nat, f: nat) {
    Present(Word(fr, dir, d)) && FrameOf(Word(fr, dir, d)) == f
  }

  /** The frames a page directory is made of. */
  ghost predicate Owns(fr: Frames, dir: nat, f: nat) {
    f == dir || exists d: nat :: d < ENTRIES && Leads(fr, dir, d, f)
  }

  lemma Joined(page: nat)
    ensures page == (page / ENTRIES) * ENTRIES + page % ENTRIES && page % ENTRIES < ENTRIES
  {
  }

  /** Memory that agrees on a directory's frames gives the same translation. */
  lemma SamePte(fr: Frames, fr': Frames, dir: nat, page: nat)
    requires DirOk(fr, dir) && page / ENTRIES < ENTRIES
    requires forall f: nat :: f in fr && Owns(fr, dir, f) ==> f in fr' && fr'[f] == fr[f]
    ensures Pte(fr', dir, page) == Pte(fr, dir, page)
  {
    var d := page / ENTRIES;
    assert Owns(fr, dir, dir) && TableOk(fr, dir, d);
    var w := Word(fr, dir, d);
    if Present(w) {
      assert Leads(fr, dir, d, FrameOf(w));
      assert Owns(fr, dir, FrameOf(w));
    }
  }

  lemma SameDir(fr: Frames, fr': Frames, dir: nat)
    requires DirOk(fr, dir)
    requires forall f: nat :: f in fr && Owns(fr, dir, f) ==> f in fr' && fr'[f] == fr[f]
    ensures DirOk(fr', dir) && forall f: nat :: Owns(fr', dir, f) <==> Owns(fr, dir, f)
  {
    assert Owns(fr, dir, dir);
    forall d: nat
      ensures Word(fr', dir, d) == Word(fr, dir, d)
    {
    }
    forall d: nat | d < ENTRIES
      ensures TableOk(fr', dir, d)
    {
      assert TableOk(fr, dir, d);
      if Present(Word(fr, dir, d)) {
        assert Leads(fr, dir, d, FrameOf(Word(fr, dir, d)));
        assert Owns(fr, dir, FrameOf(Word(fr, dir, d)));
      }
    }
    forall d: nat, e: nat | d < ENTRIES && e < ENTRIES
      ensures TablesApart(fr', dir, d, e)
    {
      assert TablesApart(fr, dir, d, e);
    }
    forall f: nat
      ensures Owns(fr', dir, f) <==> Owns(fr, dir, f)
    {
      SameOwner(fr, fr', dir, f);
    }
  }

  lemma SameOwner(fr: Frames, fr': Frames, dir: nat, f: nat)
    requires forall d: nat :: Word(fr', dir, d) == Word(fr, dir, d)
    ensures Owns(fr', dir, f) <==> Owns(fr, dir, f)
  {
    if d: nat :| d < ENTRIES && Leads(fr, dir, d, f) {
      assert Leads(fr', dir, d, f);
    }
    if d: nat :| d < ENTRIES && Leads(fr', dir, d, f) {
      assert Leads(fr, dir, d, f);
    }
  }

  // ---- writing an entry ----

  function SetWord(fr: Frames, f: nat, i: nat, w: nat): Frames
    requires IsFrame(fr, f) && i < ENTRIES
  {
    var words: seq<nat> := fr[f][i := w];
    fr[f := words]
  }

  /** Writing an entry of the table for `page` changes that page's translation and no other. */
  lemma SetPte(fr: Frames, dir: nat, page: nat, w: nat, q: nat)
    requires DirOk(fr, dir) && page / ENTRIES < ENTRIES && q / ENTRIES < ENTRIES
    requires Present(Word(fr, dir, page / ENTRIES))
    ensures IsFrame(fr, TableFor(fr, dir, page)) && TableFor(fr, dir, page) != dir
    ensures Pte(SetWord(fr, TableFor(fr, dir, page), page % ENTRIES, w), dir, q) ==
            if q == page then w else Pte(fr, dir, q)
  {
    assert TableOk(fr, dir, page / ENTRIES) && TableOk(fr, dir, q / ENTRIES);
    assert TablesApart(fr, dir, page / ENTRIES, q / ENTRIES);
    if q != page && q / ENTRIES == page / ENTRIES {
      Joined(q);
      Joined(page);
      assert q % ENTRIES != page % ENTRIES;
    }
  }

  lemma SetPteDir(fr: Frames, dir: nat, page: nat, w: nat)
    requires DirOk(fr, dir) && page / ENTRIES < ENTRIES && Present(Word(fr, dir, page / ENTRIES))
    ensures IsFrame(fr, TableFor(fr, dir, page)) && TableFor(fr, dir, page) != dir &&
            Owns(fr, dir, TableFor(fr, dir, page))
    ensures DirOk(SetWord(fr, TableFor(fr, dir, page), page % ENTRIES, w), dir)
    ensures forall f: nat :: Owns(SetWord(fr, TableFor(fr, dir, page), page % ENTRIES, w), dir, f) <==> Owns(fr, dir, f)
  {
    var d := page / ENTRIES;
    assert TableOk(fr, dir, d);
    var t := FrameOf(Word(fr, dir, d));
    assert Leads(fr, dir, d, t);
    var fr' := SetWord(fr, t, page % ENTRIES, w);
    forall e: nat
      ensures Word(fr', dir, e) == Word(fr, dir, e)
    {
    }
    forall e: nat | e < ENTRIES
      ensures TableOk(fr', dir, e)
    {
      assert TableOk(fr, dir, e);
    }
    forall e: nat, g: nat | e < ENTRIES && g < ENTRIES
      ensures TablesApart(fr', dir, e, g)
    {
      assert TablesApart(fr, dir, e, g);
    }
    forall f: nat
      ensures Owns(fr', dir, f) <==> Owns(fr, dir, f)
    {
      SameOwner(fr, fr', dir, f);
    }
  }

  // ---- adding a table ----

  function ZeroFrame(): seq<nat> {
    seq(ENTRIES, _ => 0)
  }

  /** A zeroed frame becomes the table of directory entry d. */
  function AddTable(fr: Frames, dir: nat, d: nat, f: nat): Frames
    requires IsFrame(fr, dir) && d < ENTRIES
  {
    var fr1 := fr[f := ZeroFrame()];
    var words: seq<nat> := fr[dir][d := Entry(f, 7)];
    fr1[dir := words]
  }

  lemma AddTableWords(fr: Frames, dir: nat, d: nat, f: nat, e: nat)
    requires IsFrame(fr, dir) && d < ENTRIES && f != dir
    ensures Word(AddTable(fr, dir, d, f), dir, e) == if e == d then Entry(f, 7) else Word(fr, dir, e)
    ensures IsFrame(AddTable(fr, dir, d, f), dir) && IsFrame(AddTable(fr, dir, d, f), f)
  {
  }

  lemma AddTablePte(fr: Frames, dir: nat, d: nat, f: nat, q: nat)
    requires DirOk(fr, dir) && d < ENTRIES && !Owns(fr, dir, f) && !Present(Word(fr, dir, d)) && q / ENTRIES < ENTRIES
    ensures Pte(AddTable(fr, dir, d, f), dir, q) == Pte(fr, dir, q)
  {
    var fr' := AddTable(fr, dir, d, f);
    var e := q / ENTRIES;
    AddTableWords(fr, dir, d, f, e);
    EntryParts(f, 7);
    if e == d {
      assert Word(fr', f, q % ENTRIES) == 0;
    } else {
      assert TableOk(fr, dir, e);
      if Present(Word(fr, dir, e)) {
        assert Leads(fr, dir, e, FrameOf(Word(fr, dir, e)));
      }
    }
  }

  lemma AddTableDir(fr: Frames, dir: nat, d: nat, f: nat)
    requires DirOk(fr, dir) && d < ENTRIES && !Owns(fr, dir, f) && !Present(Word(fr, dir, d))
    ensures DirOk(AddTable(fr, dir, d, f), dir)
    ensures Present(Word(AddTable(fr, dir, d, f), dir, d)) && FrameOf(Word(AddTable(fr, dir, d, f), dir, d)) == f
  {
    var fr' := AddTable(fr, dir, d, f);
    EntryParts(f, 7);
    AddTableWords(fr, dir, d, f, d);
    forall e: nat | e < ENTRIES
      ensures TableOk(fr', dir, e)
    {
      AddTableWords(fr, dir, d, f, e);
      assert TableOk(fr, dir, e);
      if e != d && Present(Word(fr, dir, e)) {
        assert Leads(fr, dir, e, FrameOf(Word(fr, dir, e)));
      }
    }
    forall e: nat, g: nat | e < ENTRIES && g < ENTRIES
      ensures TablesApart(fr', dir, e, g)
    {
      AddTableWords(fr, dir, d, f, e);
      AddTableWords(fr, dir, d, f, g);
      assert TablesApart(fr, dir, e, g);
      if e != d && Present(Word(fr, dir, e)) {
        assert Leads(fr, dir, e, FrameOf(Word(fr, dir, e)));
      }
      if g != d && Present(Word(fr, dir, g)) {
        assert Leads(fr, dir, g, FrameOf(Word(fr, dir, g)));
      }
    }
  }

  lemma AddTableOwns(fr: Frames, dir: nat, d: nat, f: nat, g: nat)
    requires DirOk(fr, dir) && d < ENTRIES && f != dir && !Present(Word(fr, dir, d))
    ensures Owns(AddTable(fr, dir, d, f), dir, g) <==> Owns(fr, dir, g) || g == f
  {
    var fr' := AddTable(fr, dir, d, f);
    EntryParts(f, 7);
    AddTableWords(fr, dir, d, f, d);
    if g == f {
      assert Leads(fr', dir, d, f);
    }
    if e: nat :| e < ENTRIES && Leads(fr, dir, e, g) {
      AddTableWords(fr, dir, d, f, e);
      assert Leads(fr', dir, e, g);
    }
    if e: nat :| e < ENTRIES && Leads(fr', dir, e, g) {
      AddTableWords(fr, dir, d, f, e);
      assert e == d || Leads(fr, dir, e, g);
    }
  }

  /** An empty directory translates nothing and owns only itself. */
  lemma EmptyDir(fr: Frames, dir: nat)
    requires dir in fr && fr[dir] == ZeroFrame()
    ensures DirOk(fr, dir) && (forall page: nat :: Pte(fr, dir, page) == 0)
    ensures forall f: nat :: Owns(fr, dir, f) <==> f == dir
  {
    assert forall d: nat :: Word(fr, dir, d) == 0;
    assert forall d: nat, f: nat :: !Leads(fr, dir, d, f);
  }
}
