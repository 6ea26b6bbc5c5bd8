/**
 The Kernighan and Ritchie allocator of xv6/umalloc.c (section 8.7 of The C
 Programming Language, 2nd edition).

 Addresses count Header-sized units. The free list is circular and threaded
 through the block headers; `Free lists` below are its address-ordered contents,
 starting at the static header `base`, which lies below the heap.
 */
module FreeList {

  datatype Header = Header(ptr: nat, size: nat)
  datatype Blk = Blk(addr: nat, size: nat)

  predicate InBlk(b: Blk, u: nat) {
    b.addr <= u < b.addr + b.size
  }

  predicate Disjoint(a: Blk, b: Blk) {
    a.addr + a.size <= b.addr || b.addr + b.size <= a.addr
  }

  /** Increasing addresses, no overlap, and no two blocks touching. */
  predicate Sorted(fl: seq<Blk>) {
    forall i, j :: 0 <= i < j < |fl| ==> fl[i].addr + fl[i].size < fl[j].addr
  }

  ghost predicate Covers(fl: seq<Blk>, u: nat) {
    exists i :: 0 <= i < |fl| && InBlk(fl[i], u)
  }

  function NextAddr(fl: seq<Blk>, i: nat): nat
    requires i < |fl|
  {
    if i + 1 == |fl| then fl[0].addr else fl[i + 1].addr
  }

  predicate LinkAt(hdr: map<nat, Header>, fl: seq<Blk>, i: nat)
    requires i < |fl|
  {
    fl[i].addr in hdr && hdr[fl[i].addr] == Header(NextAddr(fl, i), fl[i].size)
  }

  /** The headers in memory form the circular list `fl`. */
  ghost predicate Linked(hdr: map<nat, Header>, fl: seq<Blk>) {
    forall i :: 0 <= i < |fl| ==> LinkAt(hdr, fl, i)
  }

  /** Where block `b` goes: after fl[k], before fl[k + 1], overlapping neither. */
  predicate Slot(fl: seq<Blk>, k: nat, b: Blk) {
    && k < |fl|
    && 1 <= b.size
    && fl[k].addr < b.addr
    && fl[k].addr + fl[k].size <= b.addr
    && (k + 1 < |fl| ==> b.addr + b.size <= fl[k + 1].addr)
  }

  /** Put `b` after fl[k], merged with the neighbours it touches. */
  function Insert(fl: seq<Blk>, k: nat, b: Blk): seq<Blk>
    requires Slot(fl, k, b)
  {
    var joinRight := k + 1 < |fl| && b.addr + b.size == fl[k + 1].addr;
    var m := Blk(b.addr, if joinRight then b.size + fl[k + 1].size else b.size);
    var rest := if joinRight then fl[k + 2..] else fl[k + 1..];
    if fl[k].addr + fl[k].size == b.addr
    then fl[..k] + [Blk(fl[k].addr, fl[k].size + m.size)] + rest
    else fl[..k + 1] + [m] + rest
  }

  lemma InsertSorted(fl: seq<Blk>, k: nat, b: Blk)
    requires Sorted(fl) && Slot(fl, k, b)
    ensures Sorted(Insert(fl, k, b))
    ensures |Insert(fl, k, b)| >= 1 && Insert(fl, k, b)[0].addr == fl[0].addr
    ensures fl[0].addr + fl[0].size < b.addr ==> Insert(fl, k, b)[0] == fl[0]
  {
    hide Sorted;
    var left, right := fl[k].addr + fl[k].size == b.addr, k + 1 < |fl| && b.addr + b.size == fl[k + 1].addr;
    var size := if right then b.size + fl[k + 1].size else b.size;
    var n := if right then k + 2 else k + 1;
    Neighbours(fl, k);
    if left {
      var whole := Blk(fl[k].addr, fl[k].size + size);
      SortedAround(fl, k, whole, n);
      assert Insert(fl, k, b) == fl[..k] + [whole] + fl[n..];
    } else {
      SortedAround(fl, k + 1, Blk(b.addr, size), n);
      assert Insert(fl, k, b) == fl[..k + 1] + [Blk(b.addr, size)] + fl[n..];
    }
  }

  /** Sorted lists on both sides of a block that lies between them. */
  lemma SortedAround(fl: seq<Blk>, m: nat, b: Blk, n: nat)
    requires Sorted(fl) && m <= n <= |fl|
    requires m > 0 ==> fl[m - 1].addr + fl[m - 1].size < b.addr
    requires n < |fl| ==> b.addr + b.size < fl[n].addr
    ensures Sorted(fl[..m] + [b] + fl[n..])
  {
    var s := fl[..m] + [b] + fl[n..];
    forall i, j | 0 <= i < j < |s|
      ensures s[i].addr + s[i].size < s[j].addr
    {
      assert i < m ==> s[i].addr + s[i].size <= fl[m - 1].addr + fl[m - 1].size;
      assert j > m ==> fl[n].addr <= s[j].addr;
    }
  }

  lemma Neighbours(fl: seq<Blk>, k: nat)
    requires Sorted(fl) && k < |fl|
    ensures k > 0 ==> fl[k - 1].addr + fl[k - 1].size < fl[k].addr
    ensures k + 1 < |fl| ==> fl[k].addr + fl[k].size < fl[k + 1].addr
    ensures k + 2 < |fl| ==> fl[k + 1].addr + fl[k + 1].size < fl[k + 2].addr
  {
  }

  lemma CoversConcat(a: seq<Blk>, b: seq<Blk>, u: nat)
    ensures Covers(a + b, u) <==> Covers(a, u) || Covers(b, u)
  {
    if Covers(a, u) {
      var i :| 0 <= i < |a| && InBlk(a[i], u);
      assert (a + b)[i] == a[i];
    }
    if Covers(b, u) {
      var i :| 0 <= i < |b| && InBlk(b[i], u);
      assert (a + b)[|a| + i] == b[i];
    }
  }

  lemma CoversOne(b: Blk, u: nat)
    ensures Covers([b], u) <==> InBlk(b, u)
  {
    assert InBlk(b, u) ==> InBlk([b][0], u);
  }

  lemma CoversThree(a: seq<Blk>, m: Blk, c: seq<Blk>, u: nat)
    ensures Covers(a + [m] + c, u) <==> Covers(a, u) || InBlk(m, u) || Covers(c, u)
    ensures !Covers([], u)
  {
    CoversConcat(a + [m], c, u);
    CoversConcat(a, [m], u);
    CoversOne(m, u);
  }

  /** Merging loses no unit and invents none: the list covers what it did, plus the new block. */
  lemma InsertCovers(fl: seq<Blk>, k: nat, b: Blk, u: nat)
    requires Slot(fl, k, b)
    ensures Covers(Insert(fl, k, b), u) <==> Covers(fl, u) || InBlk(b, u)
  {
    hide Covers;
    var joinRight := k + 1 < |fl| && b.addr + b.size == fl[k + 1].addr;
    var m := Blk(b.addr, if joinRight then b.size + fl[k + 1].size else b.size);
    var rest := if joinRight then fl[k + 2..] else fl[k + 1..];
    assert Covers(fl, u) <==> Covers(fl[..k], u) || InBlk(fl[k], u) || Covers(fl[k + 1..], u) by {
      assert fl == fl[..k] + [fl[k]] + fl[k + 1..];
      CoversThree(fl[..k], fl[k], fl[k + 1..], u);
    }
    assert Covers(fl[k + 1..], u) || InBlk(b, u) <==> InBlk(m, u) || Covers(rest, u) by {
      if joinRight {
        assert fl[k + 1..] == [] + [fl[k + 1]] + rest;
        CoversThree([], fl[k + 1], rest, u);
      }
    }
    if fl[k].addr + fl[k].size == b.addr {
      CoversThree(fl[..k], Blk(fl[k].addr, fl[k].size + m.size), rest, u);
    } else {
      assert fl[..k + 1] == fl[..k] + [fl[k]] + [];
      CoversThree(fl[..k], fl[k], [], u);
      CoversThree(fl[..k + 1], m, rest, u);
    }
  }

  // ---- the pointer updates of free()

  /** What free() writes: first the header of the block, then the header before it. */
  function FreeWrites(hdr: map<nat, Header>, p: nat, bp: nat): map<nat, Header>
    requires p in hdr && bp in hdr && hdr[p].ptr in hdr
  {
    var right := hdr[p].ptr;
    var h1 :=
      if bp + hdr[bp].size == right
      then hdr[bp := Header(hdr[right].ptr, hdr[bp].size + hdr[right].size)]
      else hdr[bp := Header(right, hdr[bp].size)];
    if p + h1[p].size == bp
    then h1[p := Header(h1[bp].ptr, h1[p].size + h1[bp].size)]
    else h1[p := Header(bp, h1[p].size)]
  }

  predicate Increasing(fl: seq<Blk>) {
    forall i, j :: 0 <= i < j < |fl| ==> fl[i].addr < fl[j].addr
  }

  function Splice(fl: seq<Blk>, k: nat, b: Blk): seq<Blk>
    requires k < |fl|
  {
    fl[..k + 1] + [b] + fl[k + 1..]
  }

  function Merge(fl: seq<Blk>, k: nat): seq<Blk>
    requires k + 1 < |fl|
  {
    fl[..k] + [Blk(fl[k].addr, fl[k].size + fl[k + 1].size)] + fl[k + 2..]
  }

  lemma SpliceLinks(hdr: map<nat, Header>, fl: seq<Blk>, k: nat, b: Blk)
    requires Increasing(fl) && Linked(hdr, fl) && k < |fl| && fl[k].addr < b.addr
    requires k + 1 < |fl| ==> b.addr < fl[k + 1].addr
    ensures Increasing(Splice(fl, k, b)) && LinkAt(hdr, fl, k)
    ensures var p := fl[k].addr;
      Linked(hdr[b.addr := Header(hdr[p].ptr, b.size)][p := Header(b.addr, hdr[p].size)], Splice(fl, k, b))
  {
    assert LinkAt(hdr, fl, k);
    var p := fl[k].addr;
    var hdr' := hdr[b.addr := Header(hdr[p].ptr, b.size)][p := Header(b.addr, hdr[p].size)];
    var fl' := Splice(fl, k, b);
    forall i | 0 <= i < |fl'|
      ensures LinkAt(hdr', fl', i)
    {
      if i <= k {
        assert fl'[i] == fl[i] && LinkAt(hdr, fl, i);
      } else if i > k + 1 {
        assert fl'[i] == fl[i - 1] && LinkAt(hdr, fl, i - 1);
      }
    }
  }

  lemma MergeLinks(hdr: map<nat, Header>, fl: seq<Blk>, k: nat)
    requires Increasing(fl) && Linked(hdr, fl) && k + 1 < |fl|
    ensures Increasing(Merge(fl, k)) && LinkAt(hdr, fl, k) && LinkAt(hdr, fl, k + 1)
    ensures var p, q := fl[k].addr, fl[k + 1].addr;
      Linked(hdr[p := Header(hdr[q].ptr, hdr[p].size + hdr[q].size)], Merge(fl, k))
  {
    assert LinkAt(hdr, fl, k) && LinkAt(hdr, fl, k + 1);
    var p, q := fl[k].addr, fl[k + 1].addr;
    var hdr' := hdr[p := Header(hdr[q].ptr, hdr[p].size + hdr[q].size)];
    var fl' := Merge(fl, k);
    forall i | 0 <= i < |fl'|
      ensures LinkAt(hdr', fl', i)
    {
      if i < k {
        assert fl'[i] == fl[i] && LinkAt(hdr, fl, i);
      } else if i > k {
        assert fl'[i] == fl[i + 1] && LinkAt(hdr, fl, i + 1);
      }
    }
  }

  /** The list after the first half of free(): `b` is in, merged with its right neighbour. */
  function InsertRight(fl: seq<Blk>, k: nat, b: Blk): seq<Blk>
    requires Slot(fl, k, b)
  {
    if k + 1 < |fl| && b.addr + b.size == fl[k + 1].addr
    then Merge(Splice(fl, k, b), k + 1)
    else Splice(fl, k, b)
  }

  /** Its headers, with fl[k] linked to `b`. */
  function WritesRight(hdr: map<nat, Header>, p: nat, bp: nat): map<nat, Header>
    requires p in hdr && bp in hdr && hdr[p].ptr in hdr
  {
    var right := hdr[p].ptr;
    var h :=
      if bp + hdr[bp].size == right
      then hdr[bp := Header(hdr[right].ptr, hdr[bp].size + hdr[right].size)]
      else hdr[bp := Header(right, hdr[bp].size)];
    h[p := Header(bp, hdr[p].size)]
  }

  lemma InsertFromRight(fl: seq<Blk>, k: nat, b: Blk)
    requires Slot(fl, k, b)
    ensures var f := InsertRight(fl, k, b);
      && k + 1 < |f| && f[k] == fl[k] && f[k + 1].addr == b.addr
      && Insert(fl, k, b) == if fl[k].addr + fl[k].size == b.addr then Merge(f, k) else f
  {
  }

  lemma RightLinks(hdr: map<nat, Header>, fl: seq<Blk>, k: nat, b: Blk)
    requires Sorted(fl) && Slot(fl, k, b) && Linked(hdr, fl)
    requires b.addr in hdr && hdr[b.addr].size == b.size
    ensures LinkAt(hdr, fl, k) && NextAddr(fl, k) in hdr
    ensures Increasing(InsertRight(fl, k, b)) && Linked(WritesRight(hdr, fl[k].addr, b.addr), InsertRight(fl, k, b))
  {
    assert Increasing(fl);
    hide Sorted;
    assert LinkAt(hdr, fl, k) && LinkAt(hdr, fl, if k + 1 == |fl| then 0 else k + 1);
    var p, right := fl[k].addr, NextAddr(fl, k);
    assert fl[0].addr <= p;
    SpliceLinks(hdr, fl, k, b);
    if k + 1 < |fl| && b.addr + b.size == right {
      var f1 := Splice(fl, k, b);
      var h1 := hdr[b.addr := Header(right, b.size)][p := Header(b.addr, hdr[p].size)];
      assert f1[k + 1] == b && f1[k + 2] == fl[k + 1];
      MergeLinks(h1, f1, k + 1);
      assert WritesRight(hdr, p, b.addr) == h1[b.addr := Header(h1[right].ptr, h1[b.addr].size + h1[right].size)];
    }
  }

  /** The header writes of free() turn the linked list for `fl` into the one for `Insert(fl, k, b)`. */
  lemma FreeLinks(hdr: map<nat, Header>, fl: seq<Blk>, k: nat, b: Blk)
    requires Sorted(fl) && Slot(fl, k, b) && Linked(hdr, fl)
    requires b.addr in hdr && hdr[b.addr].size == b.size
    ensures LinkAt(hdr, fl, k) && NextAddr(fl, k) in hdr
    ensures Linked(FreeWrites(hdr, fl[k].addr, b.addr), Insert(fl, k, b))
  {
    RightLinks(hdr, fl, k, b);
    InsertFromRight(fl, k, b);
    var p := fl[k].addr;
    var h, f := WritesRight(hdr, p, b.addr), InsertRight(fl, k, b);
    if p + fl[k].size == b.addr {
      MergeLinks(h, f, k);
      assert FreeWrites(hdr, p, b.addr) == h[p := Header(h[b.addr].ptr, h[p].size + h[b.addr].size)];
    }
  }

  // ---- the pointer updates of malloc()

  /** Taking a whole block out of the list. */
  function Remove(fl: seq<Blk>, k: nat): seq<Blk>
    requires k < |fl|
  {
    fl[..k] + fl[k + 1..]
  }

  /** Taking the tail end of a block. */
  function Shrink(fl: seq<Blk>, k: nat, n: nat): seq<Blk>
    requires k < |fl| && n < fl[k].size
  {
    fl[k := Blk(fl[k].addr, fl[k].size - n)]
  }

  lemma RemoveLinks(hdr: map<nat, Header>, fl: seq<Blk>, k: nat)
    requires Sorted(fl) && Linked(hdr, fl) && 1 <= k < |fl|
    ensures Sorted(Remove(fl, k)) && LinkAt(hdr, fl, k - 1) && LinkAt(hdr, fl, k)
    ensures var p := fl[k - 1].addr;
      Linked(hdr[p := Header(hdr[fl[k].addr].ptr, hdr[p].size)], Remove(fl, k))
  {
    assert LinkAt(hdr, fl, k - 1) && LinkAt(hdr, fl, k);
    var p, fl' := fl[k - 1].addr, Remove(fl, k);
    var hdr' := hdr[p := Header(hdr[fl[k].addr].ptr, hdr[p].size)];
    forall i | 0 <= i < |fl'|
      ensures LinkAt(hdr', fl', i)
    {
      if i < k {
        assert fl'[i] == fl[i] && LinkAt(hdr, fl, i);
      } else {
        assert fl'[i] == fl[i + 1] && LinkAt(hdr, fl, i + 1);
      }
    }
  }

  lemma ShrinkLinks(hdr: map<nat, Header>, fl: seq<Blk>, k: nat, n: nat, tail: Header)
    requires Sorted(fl) && Linked(hdr, fl) && k < |fl| && 1 <= n < fl[k].size
    ensures Sorted(Shrink(fl, k, n)) && LinkAt(hdr, fl, k)
    ensures var p := fl[k].addr;
      Linked(hdr[p := Header(hdr[p].ptr, hdr[p].size - n)][p + fl[k].size - n := tail], Shrink(fl, k, n))
  {
    assert LinkAt(hdr, fl, k);
    var p, fl' := fl[k].addr, Shrink(fl, k, n);
    var hdr' := hdr[p := Header(hdr[p].ptr, hdr[p].size - n)][p + fl[k].size - n := tail];
    forall i | 0 <= i < |fl'| ensures LinkAt(hdr', fl', i) {
      assert LinkAt(hdr, fl, i);
    }
  }
}

/**
 The heap invariant: free blocks, live blocks and the units obtained from sbrk.
 */
module HeapInvariant {
  import opened FreeList

  function Units(b: Blk): set<nat> {
    set u | b.addr <= u < b.addr + b.size && InBlk(b, u)
  }

  ghost predicate LiveCovers(live: map<nat, nat>, u: nat) {
    exists a :: a in live && InBlk(Blk(a, live[a]), u)
  }

  /** Apart from every free block and from every live block. */
  ghost predicate Apart(fl: seq<Blk>, live: map<nat, nat>, b: Blk) {
    && (forall i :: 0 <= i < |fl| ==> Disjoint(fl[i], b))
    && (forall a :: a in live ==> Disjoint(Blk(a, live[a]), b))
  }

  ghost predicate BlocksOk(base: nat, fl: seq<Blk>, live: map<nat, nat>) {
    && fl != [] && fl[0] == Blk(base, 0) && Sorted(fl)
    && (forall i :: 1 <= i < |fl| ==> 1 <= fl[i].size)
    && (forall a :: a in live ==> base < a && 1 <= live[a])
    && (forall i, a :: 0 <= i < |fl| && a in live ==> Disjoint(fl[i], Blk(a, live[a])))
    && (forall a, b :: a in live && b in live && a != b ==> Disjoint(Blk(a, live[a]), Blk(b, live[b])))
  }

  /** `arena` is tiled exactly by the free and the live blocks: no unit is lost, none is in two blocks. */
  ghost predicate HeapInv(base: nat, fl: seq<Blk>, live: map<nat, nat>, arena: set<nat>) {
    && BlocksOk(base, fl, live)
    && (forall u: nat :: u in arena <==> Covers(fl, u) || LiveCovers(live, u))
  }

  lemma FreeBlockInv(base: nat, fl: seq<Blk>, live: map<nat, nat>, arena: set<nat>, k: nat, b: Blk)
    requires HeapInv(base, fl, live, arena) && Slot(fl, k, b) && Apart(fl, live, b)
    ensures HeapInv(base, Insert(fl, k, b), live, arena + Units(b))
  {
    InsertSorted(fl, k, b);
    var fl' := Insert(fl, k, b);
    InsertBlocks(base, fl, live, k, b);
    forall u: nat ensures u in arena + Units(b) <==> Covers(fl', u) || LiveCovers(live, u) {
      InsertCovers(fl, k, b, u);
    }
  }

  lemma InsertBlocks(base: nat, fl: seq<Blk>, live: map<nat, nat>, k: nat, b: Blk)
    requires BlocksOk(base, fl, live) && Slot(fl, k, b) && Apart(fl, live, b)
    ensures BlocksOk(base, Insert(fl, k, b), live)
  {
    InsertSorted(fl, k, b);
    var fl' := Insert(fl, k, b);
    assert base < b.addr by { assert k > 0 ==> fl[0].addr < fl[k].addr; }
    forall i, a | 0 <= i < |fl'| && a in live ensures Disjoint(fl'[i], Blk(a, live[a])) {
      assert Disjoint(Blk(a, live[a]), b) && Disjoint(fl[k], Blk(a, live[a]));
      if k + 1 < |fl| {
        assert Disjoint(fl[k + 1], Blk(a, live[a]));
      }
      InsertElement(fl, k, b, i);
    }
  }

  /** Every block of the new list is an old one, or a merge of touching ones around `b`. */
  lemma InsertElement(fl: seq<Blk>, k: nat, b: Blk, i: nat)
    requires Slot(fl, k, b) && i < |Insert(fl, k, b)|
    ensures var x := Insert(fl, k, b)[i];
      || (i < |fl| && x == fl[i])
      || (1 <= i <= |fl| && x == fl[i - 1])
      || (i + 1 < |fl| && x == fl[i + 1])
      || ((x.addr == b.addr || (x.addr == fl[k].addr && fl[k].addr + fl[k].size == b.addr))
          && (x.addr + x.size == b.addr + b.size
              || (k + 1 < |fl| && b.addr + b.size == fl[k + 1].addr &&
                   x.addr + x.size == fl[k + 1].addr + fl[k + 1].size)))
  {
  }

  /** A live block that is being freed no longer counts as live; its units are pending. */
  lemma DropLive(base: nat, fl: seq<Blk>, live: map<nat, nat>, arena: set<nat>, a: nat)
    requires HeapInv(base, fl, live, arena) && a in live
    ensures var b := Blk(a, live[a]);
      HeapInv(base, fl, live - {a}, arena - Units(b)) && Apart(fl, live - {a}, b) && Units(b) <= arena
  {
    var b, live' := Blk(a, live[a]), live - {a};
    assert BlocksOk(base, fl, live');
    forall u: nat ensures u in arena - Units(b) <==> Covers(fl, u) || LiveCovers(live', u) {
      if LiveCovers(live, u) && !InBlk(b, u) {
        var c :| c in live && InBlk(Blk(c, live[c]), u);
        assert c in live' && InBlk(Blk(c, live'[c]), u);
      }
      if LiveCovers(live', u) {
        var c :| c in live' && InBlk(Blk(c, live'[c]), u);
        assert InBlk(Blk(c, live[c]), u) && Disjoint(Blk(c, live[c]), b);
      }
    }
  }

  /** The free list after malloc() took `n` units from the end of block k. */
  function Take(fl: seq<Blk>, k: nat, n: nat): seq<Blk>
    requires k < |fl| && n <= fl[k].size
  {
    if n == fl[k].size then Remove(fl, k) else Shrink(fl, k, n)
  }

  function Taken(fl: seq<Blk>, k: nat, n: nat): Blk
    requires k < |fl| && n <= fl[k].size
  {
    Blk(fl[k].addr + fl[k].size - n, n)
  }

  lemma TakeCovers(fl: seq<Blk>, k: nat, n: nat, u: nat)
    requires Sorted(fl) && k < |fl| && 1 <= n <= fl[k].size
    ensures Covers(Take(fl, k, n), u) <==> Covers(fl, u) && !InBlk(Taken(fl, k, n), u)
  {
    var rest := Blk(fl[k].addr, fl[k].size - n);
    assert fl == fl[..k] + [fl[k]] + fl[k + 1..];
    CoversThree(fl[..k], fl[k], fl[k + 1..], u);
    assert InBlk(fl[k], u) ==> !Covers(fl[..k], u) && !Covers(fl[k + 1..], u);
    if n == fl[k].size {
      CoversConcat(fl[..k], fl[k + 1..], u);
    } else {
      assert Shrink(fl, k, n) == fl[..k] + [rest] + fl[k + 1..];
      CoversThree(fl[..k], rest, fl[k + 1..], u);
    }
  }

  lemma TakeBlocks(base: nat, fl: seq<Blk>, live: map<nat, nat>, k: nat, n: nat)
    requires BlocksOk(base, fl, live) && k < |fl| && 1 <= n <= fl[k].size
    ensures BlocksOk(base, Take(fl, k, n), live) && Apart(Take(fl, k, n), live, Taken(fl, k, n))
  {
    var fl' := Take(fl, k, n);
    forall i | 0 <= i < |fl'|
      ensures fl'[i].addr + fl'[i].size <= Taken(fl, k, n).addr || fl[k].addr + fl[k].size <= fl'[i].addr
    {
    }
    forall i, a | 0 <= i < |fl'| && a in live ensures Disjoint(fl'[i], Blk(a, live[a])) {
      assert Disjoint(fl[k], Blk(a, live[a]));
      assert n == fl[k].size ==> fl'[i] == if i < k then fl[i] else fl[i + 1];
    }
  }

  /** A block taken from the free list becomes live: the tiling of the arena is kept. */
  lemma TakeInv(base: nat, fl: seq<Blk>, live: map<nat, nat>, arena: set<nat>, k: nat, n: nat)
    requires HeapInv(base, fl, live, arena) && k < |fl| && 1 <= n <= fl[k].size
    ensures var b := Taken(fl, k, n);
      b.addr !in live && HeapInv(base, Take(fl, k, n), live[b.addr := n], arena)
  {
    var b, fl' := Taken(fl, k, n), Take(fl, k, n);
    TakeBlocks(base, fl, live, k, n);
    var live' := live[b.addr := n];
    assert BlocksOk(base, fl', live') by {
      assert base < b.addr by { assert k > 0 ==> fl[0].addr < fl[k].addr; }
    }
    forall u: nat ensures u in arena <==> Covers(fl', u) || LiveCovers(live', u) {
      TakeCovers(fl, k, n, u);
      LiveAdd(live, b, u);
      if InBlk(b, u) {
        assert InBlk(fl[k], u);
      }
    }
  }

  /** Freeing a block right after malloc() carved it restores the free list exactly. */
  lemma FreeUndoesTake(base: nat, fl: seq<Blk>, k: nat, n: nat, live: map<nat, nat>)
    requires BlocksOk(base, fl, live) && k < |fl| && 1 <= n <= fl[k].size
    ensures var fl', b := Take(fl, k, n), Taken(fl, k, n);
      var i := if n == fl[k].size then k - 1 else k;
      0 <= i && Slot(fl', i, b) && Insert(fl', i, b) == fl
  {
    Neighbours(fl, k);
    if n == fl[k].size {
      RemoveInsert(fl, k);
    } else {
      ShrinkInsert(fl, k, n);
    }
  }

  lemma RemoveInsert(fl: seq<Blk>, k: nat)
    requires 0 < k < |fl| && Sorted(fl) && 1 <= fl[k].size
    ensures Slot(Remove(fl, k), k - 1, fl[k]) && Insert(Remove(fl, k), k - 1, fl[k]) == fl
  {
    Neighbours(fl, k);
    hide Sorted;
    var fl' := Remove(fl, k);
    assert fl'[k - 1] == fl[k - 1] && (k < |fl'| ==> fl'[k] == fl[k + 1]);
    assert fl'[..k] == fl[..k] && fl'[k..] == fl[k + 1..];
    assert fl[..k] + [fl[k]] + fl[k + 1..] == fl;
  }

  lemma ShrinkInsert(fl: seq<Blk>, k: nat, n: nat)
    requires 0 < k < |fl| && Sorted(fl) && 1 <= n < fl[k].size
    ensures var fl' := Shrink(fl, k, n);
            Slot(fl', k, Taken(fl, k, n)) && Insert(fl', k, Taken(fl, k, n)) == fl
  {
    Neighbours(fl, k);
    hide Sorted;
    var fl' := Shrink(fl, k, n);
    assert fl'[..k] == fl[..k] && fl'[k + 1..] == fl[k + 1..];
    assert fl[..k] + [fl[k]] + fl[k + 1..] == fl;
  }

  lemma LiveAdd(live: map<nat, nat>, b: Blk, u: nat)
    requires b.addr !in live
    ensures LiveCovers(live[b.addr := b.size], u) <==> LiveCovers(live, u) || InBlk(b, u)
  {
    var live' := live[b.addr := b.size];
    if LiveCovers(live, u) {
      var c :| c in live && InBlk(Blk(c, live[c]), u);
      assert c in live' && InBlk(Blk(c, live'[c]), u);
    }
    if InBlk(b, u) {
      assert InBlk(Blk(b.addr, live'[b.addr]), u);
    }
  }
}

/** malloc, free and morecore. */
module Umalloc {
  import opened FreeList
  import opened HeapInvariant

  const HEADER: nat := 8 // sizeof(Header)
  const WORD: nat := 0x1_0000_0000

  /** nunits, in 32-bit unsigned arithmetic. */
  function UnitsFor(nbytes: nat): nat {
    (nbytes + HEADER - 1) % WORD / HEADER + 1
  }

  /** The argument of sbrk, an int, for `nu` units. */
  function SbrkArg(nu: nat): int {
    var n := nu * HEADER % WORD;
    if n < WORD / 2 then n else n - WORD
  }

  /** Requests for which neither computation overflows. */
  predicate Fits(nbytes: nat) {
    nbytes <= 0x7FFF_FFF0
  }

  /** Exactly these requests get a block with enough room and a growth request of the right size. */
  lemma FitsExactly(nbytes: nat)
    requires nbytes < WORD
    ensures Fits(nbytes) <==>
      && nbytes <= (UnitsFor(nbytes) - 1) * HEADER
      && SbrkArg(UnitsFor(nbytes)) == UnitsFor(nbytes) * HEADER
  {
  }

  /** The request gets the least number of units that holds it and a header. */
  lemma UnitsLeast(nbytes: nat)
    requires Fits(nbytes)
    ensures UnitsFor(0) == 1 && UnitsFor(nbytes) >= 1
    ensures nbytes <= (UnitsFor(nbytes) - 1) * HEADER
    ensures nbytes > 0 ==> (UnitsFor(nbytes) - 2) * HEADER < nbytes
  {
  }

  ghost predicate AddrOf(fl: seq<Blk>, i: nat, p: nat) {
    i < |fl| && fl[i].addr == p
  }

  ghost predicate OnList(fl: seq<Blk>, p: nat) {
    exists i :: AddrOf(fl, i, p)
  }

  /** Steps from list position i to position t, going round. */
  function Distance(n: nat, i: nat, t: nat): nat
    requires i < n && t < n
  {
    if i <= t then t - i else n - i + t
  }

  function After(n: nat, i: nat): nat
    requires i < n
  {
    if i + 1 == n then 0 else i + 1
  }

  /** The list position after which a block belongs. */
  lemma {:induction false} FindSlot(fl: seq<Blk>, b: Blk) returns (t: nat)
    requires fl != [] && Sorted(fl) && fl[0].addr < b.addr && 1 <= b.size
    requires forall i :: 0 <= i < |fl| ==> Disjoint(fl[i], b)
    requires forall i :: 1 <= i < |fl| ==> 1 <= fl[i].size
    ensures Slot(fl, t, b)
    ensures forall i :: 0 <= i < |fl| ==> (fl[i].addr < b.addr <==> i <= t)
  {
    t := |fl| - 1;
    while fl[t].addr > b.addr
      invariant 0 <= t < |fl|
      invariant t + 1 < |fl| ==> b.addr < fl[t + 1].addr
    {
      t := t - 1;
    }
    assert Disjoint(fl[t], b);
    if t + 1 < |fl| {
      assert Disjoint(fl[t + 1], b);
    }
  }

  /** The search loop of free(): from any point of the list it stops at the place where the block belongs. */
  method Search(ghost base: nat, hdr: map<nat, Header>, ghost fl: seq<Blk>, ghost live: map<nat, nat>,
                ghost arena: set<nat>, freep: nat, b: Blk)
    returns (p: nat, ghost t: nat)
    requires HeapInv(base, fl, live, arena) && Linked(hdr, fl) && OnList(fl, freep)
    requires Apart(fl, live, b) && base < b.addr && 1 <= b.size
    ensures Slot(fl, t, b) && AddrOf(fl, t, p)
  {
    hide Covers, LiveCovers;
    t := FindSlot(fl, b);
    ghost var i :| AddrOf(fl, i, freep);
    p := freep;
    assert LinkAt(hdr, fl, i);
    while !(b.addr > p && b.addr < hdr[p].ptr)
      invariant AddrOf(fl, i, p) && LinkAt(hdr, fl, i)
      decreases Distance(|fl|, i, t)
    {
      if p >= hdr[p].ptr && (b.addr > p || b.addr < hdr[p].ptr) {
        break;
      }
      p := hdr[p].ptr;
      i := After(|fl|, i);
      assert LinkAt(hdr, fl, i);
    }
    assert i == t;
  }

  /** Headers of live blocks are not headers of free blocks. */
  lemma LiveNotFree(base: nat, fl: seq<Blk>, live: map<nat, nat>, i: nat)
    requires BlocksOk(base, fl, live) && i < |fl|
    ensures fl[i].addr !in live
  {
  }

  lemma InsertKeepsPlace(fl: seq<Blk>, k: nat, b: Blk)
    requires Slot(fl, k, b)
    ensures AddrOf(Insert(fl, k, b), k, fl[k].addr)
  {
  }

  /** Everything the allocator maintains once it is initialised. */
  ghost predicate HeapOk(base: nat, brk: nat, hdr: map<nat, Header>, freep: nat,
                         fl: seq<Blk>, live: map<nat, nat>, arena: set<nat>) {
    && 0 < base < brk
    && HeapInv(base, fl, live, arena)
    && (forall u :: u in arena ==> base < u < brk)
    && (forall a :: a in live ==> a in hdr && hdr[a].size == live[a])
    && Linked(hdr, fl)
    && OnList(fl, freep)
  }

  /** A block that is neither free nor live, with its header in place. */
  ghost predicate Pending(base: nat, brk: nat, hdr: map<nat, Header>, fl: seq<Blk>, live: map<nat, nat>, b: Blk) {
    && b.addr in hdr && hdr[b.addr].size == b.size && 1 <= b.size
    && base < b.addr && b.addr + b.size <= brk && b.addr !in live
    && Apart(fl, live, b)
  }

  lemma ReleaseInv(base: nat, hdr: map<nat, Header>, fl: seq<Blk>, live: map<nat, nat>, arena: set<nat>, k: nat, b: Blk)
    requires HeapInv(base, fl, live, arena) && Linked(hdr, fl) && Slot(fl, k, b) && Apart(fl, live, b)
    requires b.addr in hdr && hdr[b.addr].size == b.size && b.addr !in live
    requires forall a :: a in live ==> a in hdr && hdr[a].size == live[a]
    ensures fl[k].addr in hdr && hdr[fl[k].addr].ptr in hdr
    ensures var hdr' := FreeWrites(hdr, fl[k].addr, b.addr);
      && HeapInv(base, Insert(fl, k, b), live, arena + Units(b))
      && Linked(hdr', Insert(fl, k, b))
      && AddrOf(Insert(fl, k, b), k, fl[k].addr)
      && forall a :: a in live ==> a in hdr' && hdr'[a].size == live[a]
  {
    FreeLinks(hdr, fl, k, b);
    FreeBlockInv(base, fl, live, arena, k, b);
    InsertKeepsPlace(fl, k, b);
    LiveNotFree(base, fl, live, k);
  }

  lemma FrameLinked(hdr: map<nat, Header>, fl: seq<Blk>, p: nat, h: Header)
    requires Linked(hdr, fl) && forall i :: 0 <= i < |fl| ==> fl[i].addr != p
    ensures Linked(hdr[p := h], fl)
  {
    var hdr' := hdr[p := h];
    forall i | 0 <= i < |fl| ensures LinkAt(hdr', fl, i) {
      assert LinkAt(hdr, fl, i);
    }
  }

  /** Memory above the old break is apart from everything the allocator holds. */
  lemma FreshBlock(base: nat, fl: seq<Blk>, live: map<nat, nat>, arena: set<nat>, brk: nat, b: Blk)
    requires HeapInv(base, fl, live, arena) && base < brk <= b.addr && forall u :: u in arena ==> u < brk
    ensures Apart(fl, live, b) && b.addr !in live && arena !! Units(b)
    ensures forall i :: 0 <= i < |fl| ==> fl[i].addr != b.addr
  {
    forall i | 1 <= i < |fl| ensures fl[i].addr + fl[i].size <= brk {
      assert InBlk(fl[i], fl[i].addr + fl[i].size - 1);
      assert Covers(fl, fl[i].addr + fl[i].size - 1);
    }
    forall a | a in live ensures a + live[a] <= brk {
      assert InBlk(Blk(a, live[a]), a + live[a] - 1);
      assert LiveCovers(live, a + live[a] - 1);
    }
  }

  lemma ReleaseOk(base: nat, brk: nat, hdr: map<nat, Header>, freep: nat,
                  fl: seq<Blk>, live: map<nat, nat>, arena: set<nat>, k: nat, b: Blk)
    requires HeapOk(base, brk, hdr, freep, fl, live, arena) && Pending(base, brk, hdr, fl, live, b) && Slot(fl, k, b)
    ensures fl[k].addr in hdr && hdr[fl[k].addr].ptr in hdr
    ensures HeapOk(base, brk, FreeWrites(hdr, fl[k].addr, b.addr), fl[k].addr, Insert(fl, k, b), live, arena + Units(b))
  {
    hide HeapInv, Linked, Insert, FreeWrites;
    ReleaseInv(base, hdr, fl, live, arena, k, b);
  }

  lemma DropOk(base: nat, brk: nat, hdr: map<nat, Header>, freep: nat,
               fl: seq<Blk>, live: map<nat, nat>, arena: set<nat>, a: nat)
    requires HeapOk(base, brk, hdr, freep, fl, live, arena) && a in live
    ensures var b := Blk(a, live[a]);
      && HeapOk(base, brk, hdr, freep, fl, live - {a}, arena - Units(b))
      && Pending(base, brk, hdr, fl, live - {a}, b)
      && arena - Units(b) + Units(b) == arena
  {
    hide Linked, OnList, Covers, LiveCovers;
    DropLive(base, fl, live, arena, a);
    assert a + live[a] - 1 in Units(Blk(a, live[a]));
  }

  lemma GrowOk(base: nat, brk: nat, hdr: map<nat, Header>, freep: nat,
               fl: seq<Blk>, live: map<nat, nat>, arena: set<nat>, b: Blk)
    requires HeapOk(base, brk, hdr, freep, fl, live, arena) && brk <= b.addr && 1 <= b.size
    ensures var hdr' := hdr[b.addr := Header(0, b.size)];
      && HeapOk(base, b.addr + b.size, hdr', freep, fl, live, arena)
      && Pending(base, b.addr + b.size, hdr', fl, live, b)
      && arena !! Units(b)
  {
    hide HeapInv, Linked, OnList;
    FreshBlock(base, fl, live, arena, brk, b);
    FrameLinked(hdr, fl, b.addr, Header(0, b.size));
  }

  /** What malloc() writes when block `p`, after `prevp`, can give `n` units. (The tail's ptr field is left unset.) */
  function TakeWrites(hdr: map<nat, Header>, prevp: nat, p: nat, n: nat): map<nat, Header>
    requires p in hdr && prevp in hdr && n <= hdr[p].size
  {
    if hdr[p].size == n
    then hdr[prevp := Header(hdr[p].ptr, hdr[prevp].size)]
    else hdr[p := Header(hdr[p].ptr, hdr[p].size - n)][p + hdr[p].size - n := Header(0, n)]
  }

  lemma TakeLinks(hdr: map<nat, Header>, fl: seq<Blk>, k: nat, n: nat)
    requires Sorted(fl) && Linked(hdr, fl) && 1 <= k < |fl| && 1 <= n <= fl[k].size
    ensures LinkAt(hdr, fl, k - 1) && LinkAt(hdr, fl, k)
    ensures Linked(TakeWrites(hdr, fl[k - 1].addr, fl[k].addr, n), Take(fl, k, n))
    ensures AddrOf(Take(fl, k, n), k - 1, fl[k - 1].addr)
  {
    assert LinkAt(hdr, fl, k - 1) && LinkAt(hdr, fl, k);
    if n == fl[k].size {
      RemoveLinks(hdr, fl, k);
    } else {
      ShrinkLinks(hdr, fl, k, n, Header(0, n));
    }
  }

  lemma TakeHeaders(base: nat, hdr: map<nat, Header>, fl: seq<Blk>, live: map<nat, nat>, k: nat, n: nat)
    requires BlocksOk(base, fl, live) && 1 <= k < |fl| && 1 <= n <= fl[k].size
    requires LinkAt(hdr, fl, k - 1) && LinkAt(hdr, fl, k) && Taken(fl, k, n).addr !in live
    requires forall a :: a in live ==> a in hdr && hdr[a].size == live[a]
    ensures var hdr' := TakeWrites(hdr, fl[k - 1].addr, fl[k].addr, n);
      var live' := live[Taken(fl, k, n).addr := n];
      forall a :: a in live' ==> a in hdr' && hdr'[a].size == live'[a]
  {
    LiveNotFree(base, fl, live, k);
    LiveNotFree(base, fl, live, k - 1);
    assert fl[k - 1].addr < fl[k].addr;
    hide BlocksOk;
  }

  lemma TakeOk(base: nat, brk: nat, hdr: map<nat, Header>, freep: nat,
               fl: seq<Blk>, live: map<nat, nat>, arena: set<nat>, k: nat, n: nat)
    requires HeapOk(base, brk, hdr, freep, fl, live, arena) && k < |fl| && 1 <= n <= fl[k].size
    ensures 1 <= k && LinkAt(hdr, fl, k - 1) && LinkAt(hdr, fl, k)
    ensures HeapOk(base, brk, TakeWrites(hdr, fl[k - 1].addr, fl[k].addr, n), fl[k - 1].addr,
                   Take(fl, k, n), live[Taken(fl, k, n).addr := n], arena)
  {
    hide Linked, Take, TakeWrites, Covers, LiveCovers, Sorted;
    TakeInv(base, fl, live, arena, k, n);
    assert BlocksOk(base, fl, live);
    TakeLinks(hdr, fl, k, n);
    TakeHeaders(base, hdr, fl, live, k, n);
  }

  /** The first malloc links `base` to itself. */
  lemma InitOk(base: nat, brk: nat, hdr: map<nat, Header>)
    requires 0 < base < brk
    ensures HeapOk(base, brk, hdr[base := Header(base, 0)], base, [Blk(base, 0)], map[], {})
  {
    var fl := [Blk(base, 0)];
    assert LinkAt(hdr[base := Header(base, 0)], fl, 0);
    assert AddrOf(fl, 0, base);
  }

  /** List positions already looked at, when the scan started after position f and i is next. */
  predicate Scanned(f: nat, i: nat, j: nat) {
    if f < i then f < j < i else f < j || j < i
  }

  ghost predicate NoneFits(fl: seq<Blk>, f: nat, i: nat, n: nat) {
    forall j :: 0 <= j < |fl| && Scanned(f, i, j) ==> fl[j].size < n
  }

  ghost predicate SomeFits(fl: seq<Blk>, n: nat) {
    exists j :: 0 <= j < |fl| && n <= fl[j].size
  }

  /** Once the scan is back at its start and fl[f] is too small as well, nothing fits. */
  lemma ScanComplete(fl: seq<Blk>, f: nat, n: nat)
    requires f < |fl| && NoneFits(fl, f, f, n) && fl[f].size < n
    ensures !SomeFits(fl, n)
  {
  }

  lemma ScannedSmall(fl: seq<Blk>, f: nat, i: nat, n: nat)
    requires NoneFits(fl, f, i, n)
    ensures forall j :: 0 <= j < |fl| && (if f < i then f < j < i else f < j || j < i) ==> fl[j].size < n
  {
  }

  lemma AllSmall(fl: seq<Blk>, n: nat)
    requires !SomeFits(fl, n)
    ensures forall j :: 0 <= j < |fl| ==> fl[j].size < n
  {
  }

  lemma ScanStep(fl: seq<Blk>, f: nat, i: nat, n: nat)
    requires f < |fl| && i < |fl| && i != f && NoneFits(fl, f, i, n) && fl[i].size < n
    ensures NoneFits(fl, f, After(|fl|, i), n)
    ensures Distance(|fl|, After(|fl|, i), f) < Distance(|fl|, i, f)
  {
  }

  lemma ScanStart(fl: seq<Blk>, f: nat, n: nat)
    requires f < |fl|
    ensures NoneFits(fl, f, After(|fl|, f), n)
  {
  }

  lemma GrownFits(fl: seq<Blk>, k: nat, b: Blk, n: nat)
    requires Slot(fl, k, b) && n <= b.size
    ensures SomeFits(Insert(fl, k, b), n)
  {
    var fl' := Insert(fl, k, b);
    var j := if fl[k].addr + fl[k].size == b.addr then k else k + 1;
    assert n <= fl'[j].size;
  }

  class Allocator {
    const base: nat
    var hdr: map<nat, Header>
    var freep: nat // 0 before the first malloc
    var brk: nat   // the heap lies between base and brk

    ghost var fl: seq<Blk>
    ghost var live: map<nat, nat>
    ghost var arena: set<nat>
    ghost var cores: nat // successful calls of sbrk

    ghost predicate Ready()
      reads this
    {
      HeapOk(base, brk, hdr, freep, fl, live, arena)
    }

    ghost predicate Valid()
      reads this
    {
      if freep == 0 then 0 < base < brk && fl == [Blk(base, 0)] && live == map[] && arena == {} else Ready()
    }

    constructor (base: nat, brk: nat)
      requires 0 < base < brk
      ensures Valid() && this.base == base && this.brk == brk && freep == 0 && cores == 0
    {
      this.base, this.brk := base, brk;
      hdr, freep := map[], 0;
      fl, live, arena, cores := [Blk(base, 0)], map[], {}, 0;
    }

    /** free() for a block that is in neither the free list nor the live set. */
    method Release(bp: nat) returns (ghost k: nat)
      requires Ready() && bp in hdr && Pending(base, brk, hdr, fl, live, Blk(bp, hdr[bp].size))
      modifies this`hdr, this`freep, this`fl, this`arena
      ensures Ready()
      ensures var b := Blk(bp, old(hdr[bp].size));
        && Slot(old(fl), k, b) && fl == Insert(old(fl), k, b)
        && freep == old(fl)[k].addr && arena == old(arena) + Units(b)
    {
      var b := Blk(bp, hdr[bp].size);
      var p: nat;
      p, k := Search(base, hdr, fl, live, arena, freep, b);
      hide HeapOk, HeapInv, Linked, Insert, Pending;
      ReleaseOk(base, brk, hdr, freep, fl, live, arena, k, b);
      ghost var hdr0 := hdr;
      if bp + hdr[bp].size == hdr[p].ptr {
        hdr := hdr[bp := Header(hdr[hdr[p].ptr].ptr, hdr[bp].size + hdr[hdr[p].ptr].size)];
      } else {
        hdr := hdr[bp := Header(hdr[p].ptr, hdr[bp].size)];
      }
      if p + hdr[p].size == bp {
        hdr := hdr[p := Header(hdr[bp].ptr, hdr[p].size + hdr[bp].size)];
      } else {
        hdr := hdr[p := Header(bp, hdr[p].size)];
      }
      assert hdr == FreeWrites(hdr0, p, bp);
      freep := p;
      fl := Insert(fl, k, b);
      arena := arena + Units(b);
    }

    /** free(ap): the block stops being live and its units go back to the free list, merged with what they touch. */
    method Free(ap: nat) returns (ghost k: nat)
      requires Valid() && 1 <= ap && ap - 1 in live
      modifies this`hdr, this`freep, this`fl, this`live, this`arena
      ensures Valid() && live == old(live) - {ap - 1} && arena == old(arena)
      ensures Slot(old(fl), k, Blk(ap - 1, old(live)[ap - 1]))
      ensures fl == Insert(old(fl), k, Blk(ap - 1, old(live)[ap - 1]))
    {
      hide HeapOk, Insert, Pending;
      var bp := ap - 1;
      ghost var b := Blk(bp, live[bp]);
      DropOk(base, brk, hdr, freep, fl, live, arena, bp);
      live := live - {bp};
      arena := arena - Units(b);
      PendingHeader(base, brk, hdr, fl, live, b);
      k := Release(bp);
      ReadyIsSet(base, brk, hdr, freep, fl, live, arena);
    }

    /** sbrk, in units: fails, or returns memory above everything obtained before. */
    method Sbrk(nu: nat) returns (p: nat)
      requires 0 < brk
      modifies this`brk
      ensures p == 0 ==> brk == old(brk)
      ensures p != 0 ==> old(brk) <= p && brk == p + nu
    {
      var fail: bool, gap: nat := *, *;
      if fail {
        return 0;
      }
      p := brk + gap;
      brk := p + nu;
    }

    method Morecore(nunits: nat) returns (p: nat, ghost b: Blk, ghost k: nat)
      requires Ready() && 0 < brk
      modifies this`hdr, this`freep, this`brk, this`fl, this`arena, this`cores
      ensures Ready()
      ensures p == 0 ==> fl == old(fl) && freep == old(freep) && arena == old(arena) && cores == old(cores)
      ensures p != 0 ==> p == freep && cores == old(cores) + 1
      ensures p != 0 ==> Slot(old(fl), k, b) && fl == Insert(old(fl), k, b)
      ensures p != 0 ==> b.size == if nunits < 4096 then 4096 else nunits
      ensures p != 0 ==> arena == old(arena) + Units(b) && old(arena) !! Units(b)
    {
      hide HeapOk, Insert, Pending;
      var nu := nunits;
      if nu < 4096 {
        nu := 4096;
      }
      p := Sbrk(nu);
      b, k := Blk(p, nu), 0;
      if p == 0 {
        return;
      }
      GrowOk(base, old(brk), hdr, freep, fl, live, arena, b);
      hdr := hdr[p := Header(0, nu)];
      k := Release(p);
      cores := cores + 1;
      p := freep;
      ReadyIsSet(base, brk, hdr, freep, fl, live, arena);
    }

    /** The allocation step of malloc: unlink the block at `p`, or cut off its tail. */
    method Carve(prevp: nat, p: nat, nunits: nat, ghost k: nat) returns (r: nat)
      requires Ready() && AddrOf(fl, k, p) && (k > 0 ==> AddrOf(fl, k - 1, prevp)) && 1 <= nunits <= fl[k].size
      modifies this`hdr, this`freep, this`fl, this`live
      ensures Valid() && fl == Take(old(fl), k, nunits)
      ensures r == Taken(old(fl), k, nunits).addr + 1 && live == old(live)[r - 1 := nunits] && freep == prevp
    {
      hide HeapOk, Take;
      TakeOk(base, brk, hdr, freep, fl, live, arena, k, nunits);
      var q := p;
      if hdr[p].size == nunits {
        hdr := hdr[prevp := Header(hdr[p].ptr, hdr[prevp].size)];
      } else {
        hdr := hdr[p := Header(hdr[p].ptr, hdr[p].size - nunits)];
        q := p + hdr[p].size;
        hdr := hdr[q := Header(0, nunits)];
      }
      freep := prevp;
      live := live[q := nunits];
      fl := Take(fl, k, nunits);
      ReadyIsSet(base, brk, hdr, freep, fl, live, arena);
      r := q + 1;
    }

    /**
     malloc. A null result means that sbrk failed and no free block was big enough.
     Otherwise the block is the tail of a free block of `from`, which is the free list
     before the call, or, only if nothing there fitted, that list with one new block
     from sbrk added.
     */
    method Malloc(nbytes: nat)
      returns (r: nat, ghost from: seq<Blk>, ghost f: nat, ghost k: nat, ghost j: nat, ghost b: Blk)
      requires Valid() && Fits(nbytes)
      modifies this
      ensures Valid()
      ensures cores == old(cores) ==> from == old(fl) && arena == old(arena)
      ensures cores != old(cores) ==> cores == old(cores) + 1
      ensures cores != old(cores) || r == 0 ==> forall i :: 0 <= i < |old(fl)| ==> old(fl)[i].size < UnitsFor(nbytes)
      ensures cores != old(cores) ==> Slot(old(fl), j, b) && from == Insert(old(fl), j, b)
      ensures cores != old(cores) ==> b.size == if UnitsFor(nbytes) < 4096 then 4096 else UnitsFor(nbytes)
      ensures cores != old(cores) ==> arena == old(arena) + Units(b) && old(arena) !! Units(b)
      ensures r == 0 ==>
                cores == old(cores) && fl == old(fl) && live == old(live)
      ensures r != 0 ==>
        && k < |from| && UnitsFor(nbytes) <= from[k].size
        && fl == Take(from, k, UnitsFor(nbytes))
        && r == Taken(from, k, UnitsFor(nbytes)).addr + 1
        && r - 1 + UnitsFor(nbytes) == from[k].addr + from[k].size
        && live == old(live)[r - 1 := UnitsFor(nbytes)]
        && nbytes <= (UnitsFor(nbytes) - 1) * HEADER
      ensures r != 0 && cores == old(cores) ==> AddrOf(from, f, if old(freep) == 0 then base else old(freep))
      ensures r != 0 ==> 0 < k && freep == from[k - 1].addr
      ensures r != 0 ==> forall i :: 0 <= i < |from| && (if f < k then f < i < k else f < i || i < k) ==>
                           from[i].size < UnitsFor(nbytes)
    {
      hide HeapOk, Insert, Take, SomeFits, NoneFits, Slot, Units, Distance;
      FitsExactly(nbytes);
      var nunits := (nbytes + HEADER - 1) % WORD / HEADER + 1;
      from, f, k, j, b := fl, 0, 0, 0, Blk(0, 0);
      if freep == 0 {
        InitOk(base, brk, hdr);
        hdr := hdr[base := Header(base, 0)];
        freep := base;
      }
      var prevp: nat := freep;
      f := Position(base, brk, hdr, freep, fl, live, arena, freep);
      ghost var i := After(|fl|, f);
      ScanStart(fl, f, nunits);
      var p: nat := hdr[prevp].ptr;
      ghost var more := false;
      while true
        invariant Ready() && freep != 0 && live == old(live) && from == fl
        invariant !more ==> freep == if old(freep) == 0 then base else old(freep)
        invariant AddrOf(fl, f, freep) && AddrOf(fl, i, p) && (i > 0 ==> AddrOf(fl, i - 1, prevp))
        invariant NoneFits(fl, f, i, nunits)
        invariant !more ==> fl == old(fl) && arena == old(arena) && cores == old(cores)
        invariant more ==> SomeFits(fl, nunits) && cores == old(cores) + 1
        invariant more ==> forall i :: 0 <= i < |old(fl)| ==> old(fl)[i].size < nunits
        invariant more ==> Slot(old(fl), j, b) && fl == Insert(old(fl), j, b)
        invariant more ==> b.size == if nunits < 4096 then 4096 else nunits
        invariant more ==> arena == old(arena) + Units(b) && old(arena) !! Units(b)
        decreases !more, Distance(|fl|, i, f)
      {
        LinkOf(base, brk, hdr, freep, fl, live, arena, i);
        if hdr[p].size >= nunits {
          k := i;
          ScannedSmall(fl, f, i, nunits);
          BaseHasNoRoom(base, brk, hdr, freep, fl, live, arena);
          r := Carve(prevp, p, nunits, i);
          return;
        }
        if p == freep {
          SamePlace(base, brk, hdr, freep, fl, live, arena, i, f);
          ScanComplete(fl, f, nunits);
          AllSmall(fl, nunits);
          p, b, j := Morecore(nunits);
          if p == 0 {
            r := 0;
            return;
          }
          GrownFits(old(fl), j, b, nunits);
          more := true;
          from := fl;
          f := Position(base, brk, hdr, freep, fl, live, arena, freep);
          i := f;
          LinkOf(base, brk, hdr, freep, fl, live, arena, i);
          ScanStart(fl, f, nunits);
        } else {
          ScanStep(fl, f, i, nunits);
        }
        prevp := p;
        p := hdr[p].ptr;
        i := After(|fl|, i);
      }
    }
  }

  lemma Position(base: nat, brk: nat, hdr: map<nat, Header>, freep: nat,
                 fl: seq<Blk>, live: map<nat, nat>, arena: set<nat>, p: nat) returns (i: nat)
    requires HeapOk(base, brk, hdr, freep, fl, live, arena) && p == freep
    ensures AddrOf(fl, i, p) && LinkAt(hdr, fl, i)
  {
    i :| AddrOf(fl, i, p);
    assert LinkAt(hdr, fl, i);
  }

  /** The static header is the first block of the list and has no units. */
  lemma BaseHasNoRoom(base: nat, brk: nat, hdr: map<nat, Header>, freep: nat,
                      fl: seq<Blk>, live: map<nat, nat>, arena: set<nat>)
    requires HeapOk(base, brk, hdr, freep, fl, live, arena)
    ensures fl != [] && fl[0] == Blk(base, 0)
  {
  }

  lemma LinkOf(base: nat, brk: nat, hdr: map<nat, Header>, freep: nat,
               fl: seq<Blk>, live: map<nat, nat>, arena: set<nat>, i: nat)
    requires HeapOk(base, brk, hdr, freep, fl, live, arena) && i < |fl|
    ensures LinkAt(hdr, fl, i)
  {
  }

  lemma SamePlace(base: nat, brk: nat, hdr: map<nat, Header>, freep: nat,
                  fl: seq<Blk>, live: map<nat, nat>, arena: set<nat>, i: nat, j: nat)
    requires HeapOk(base, brk, hdr, freep, fl, live, arena) && i < |fl| && j < |fl| && fl[i].addr == fl[j].addr
    ensures i == j && brk > 0
  {
  }

  lemma PendingHeader(base: nat, brk: nat, hdr: map<nat, Header>, fl: seq<Blk>, live: map<nat, nat>, b: Blk)
    requires Pending(base, brk, hdr, fl, live, b)
    ensures b.addr in hdr && hdr[b.addr].size == b.size
  {
  }

  lemma ReadyIsSet(base: nat, brk: nat, hdr: map<nat, Header>, freep: nat,
                   fl: seq<Blk>, live: map<nat, nat>, arena: set<nat>)
    requires HeapOk(base, brk, hdr, freep, fl, live, arena)
    ensures freep != 0
  {
  }
}
