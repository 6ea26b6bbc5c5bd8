/**
 File contents in xv6/fs.c: what the operations on blocks and slots do to the bytes
 of every file.
 */
module FsContent {
  import opened LittleEndian
  import opened FsBits
  import opened FsModel

  /** The n-th data block of a file. */
  function DataBlock(fs: Fs, i: nat, bn: nat): Block
    requires InodesOk(fs) && i in fs.inodes && bn < MAXFILE && Slot(fs, i, DataSlot(bn)) < |fs.blocks|
  {
    fs.blocks[Slot(fs, i, DataSlot(bn))]
  }

  lemma SlotInRange(sb: Super, fs: Fs, owner: Owners, i: nat, s: nat)
    requires InodesOk(fs) && OwnersOk(sb, fs, owner) && |fs.blocks| == sb.size && 1 <= sb.firstData <= sb.size &&
             IsSlot(fs, i, s)
    ensures Slot(fs, i, s) < |fs.blocks|
    ensures Slot(fs, i, s) != 0 ==> sb.firstData <= Slot(fs, i, s) && owner[Slot(fs, i, s)] == (i, s)
  {
  }

  /** A data block of a file is still there, with the same contents. */
  ghost predicate BlockKept(fs: Fs, fs': Fs, i: nat, bn: nat)
    requires InodesOk(fs) && InodesOk(fs') && i in fs.inodes && bn < MAXFILE
  {
    HasBlock(fs, i, bn) ==>
      && i in fs'.inodes && HasBlock(fs', i, bn)
      && Slot(fs, i, DataSlot(bn)) < |fs.blocks| && Slot(fs', i, DataSlot(bn)) < |fs'.blocks|
      && DataBlock(fs', i, bn) == DataBlock(fs, i, bn)
  }

  ghost predicate DataKept(fs: Fs, fs': Fs) {
    && InodesOk(fs) && InodesOk(fs') && fs.inodes.Keys == fs'.inodes.Keys
    && (forall i :: i in fs.inodes ==> fs'.inodes[i].size == fs.inodes[i].size)
    && forall i: nat, bn: nat :: i in fs.inodes && bn < MAXFILE ==> BlockKept(fs, fs', i, bn)
  }

  lemma DataKeptTrans(a: Fs, b: Fs, c: Fs)
    requires DataKept(a, b) && DataKept(b, c)
    ensures DataKept(a, c)
  {
    forall i: nat, bn: nat | i in a.inodes && bn < MAXFILE ensures BlockKept(a, c, i, bn) {
      assert BlockKept(a, b, i, bn) && BlockKept(b, c, i, bn);
    }
  }

  /** Slots that named a block name it still, and no block that belongs to file data changed. */
  lemma KeptFromSlots(sb: Super, fs: Fs, fs': Fs, owner: Owners)
    requires InodesOk(fs) && InodesOk(fs') && fs.inodes.Keys == fs'.inodes.Keys && OwnersOk(sb, fs, owner)
    requires |fs.blocks| == sb.size == |fs'.blocks| && 1 <= sb.firstData <= sb.size
    requires forall i :: i in fs.inodes ==> fs'.inodes[i].size == fs.inodes[i].size
    requires forall j: nat, t: nat :: IsSlot(fs, j, t) && Slot(fs, j, t) != 0 ==>
               IsSlot(fs', j, t) && Slot(fs', j, t) == Slot(fs, j, t)
    requires forall b :: b in owner && owner[b].1 != NDIRECT ==> fs'.blocks[b] == fs.blocks[b]
    ensures DataKept(fs, fs')
  {
    forall i: nat, bn: nat | i in fs.inodes && bn < MAXFILE ensures BlockKept(fs, fs', i, bn) {
      assert IsSlot(fs, i, DataSlot(bn));
      SlotInRange(sb, fs, owner, i, DataSlot(bn));
    }
  }

  lemma AllocKeepsData(sb: Super, fs: Fs, owner: Owners, loose: set<nat>, b: nat)
    requires FsInv(sb, fs, owner, loose) && b < sb.size && !InUse(sb, fs.blocks, b)
    ensures DataKept(fs, fs.(blocks := Allocated(sb, fs.blocks, b)))
  {
    AllocInv(sb, fs, owner, loose, b);
    AllocatedElsewhere(sb, fs.blocks, b);
    KeptFromSlots(sb, fs, fs.(blocks := Allocated(sb, fs.blocks, b)), owner);
  }

  /** Attaching a block to an empty slot keeps all data. */
  lemma AttachKeepsData(sb: Super, fs: Fs, fs': Fs, owner: Owners, loose: set<nat>, i: nat, s: nat, b: nat)
    requires FsInv(sb, fs, owner, loose) && OneSlotSet(fs, fs', i, s, b) && |fs'.blocks| == |fs.blocks|
    requires forall a :: a in owner && owner[a].1 != NDIRECT ==> fs'.blocks[a] == fs.blocks[a]
    ensures DataKept(fs, fs')
  {
    KeptFromSlots(sb, fs, fs', owner);
  }

  /** bmap on a file: nothing else changes but, at most, one block is added to slot s of inode i. */
  ghost predicate OnlyGrew(fs: Fs, fs': Fs, i: nat) {
    && DataKept(fs, fs') && |fs'.blocks| == |fs.blocks|
    && i in fs.inodes && fs'.inodes[i] == fs.inodes[i].(addrs := fs'.inodes[i].addrs)
    && forall j :: j in fs.inodes && j != i ==> fs'.inodes[j] == fs.inodes[j]
  }

  lemma OnlyGrewRefl(sb: Super, fs: Fs, owner: Owners, loose: set<nat>, i: nat)
    requires FsInv(sb, fs, owner, loose) && i in fs.inodes
    ensures OnlyGrew(fs, fs, i)
  {
    forall j: nat, bn: nat | j in fs.inodes && bn < MAXFILE ensures BlockKept(fs, fs, j, bn) {
      SlotInRange(sb, fs, owner, j, DataSlot(bn));
    }
  }

  lemma OnlyGrewTrans(a: Fs, b: Fs, c: Fs, i: nat)
    requires OnlyGrew(a, b, i) && OnlyGrew(b, c, i)
    ensures OnlyGrew(a, c, i)
  {
    DataKeptTrans(a, b, c);
  }

  /** balloc followed by storing the address in a direct slot. */
  lemma GrowDirect(sb: Super, fs: Fs, owner: Owners, i: nat, s: nat, b: nat)
    requires FsInv(sb, fs, owner, {}) && i in fs.inodes && s < NDIRECT && fs.inodes[i].addrs[s] == 0
    requires b < sb.size && !InUse(sb, fs.blocks, b)
    ensures var fs' := SetAddr(fs.(blocks := Allocated(sb, fs.blocks, b)), i, s, b);
      && FsInv(sb, fs', owner[b := (i, s)], {}) && OnlyGrew(fs, fs', i)
      && Slot(fs', i, s) == b && 0 < b && fs'.blocks[b] == ZeroBlock()
  {
    AllocInv(sb, fs, owner, {}, b);
    AllocKeepsData(sb, fs, owner, {}, b);
    var fs1 := fs.(blocks := Allocated(sb, fs.blocks, b));
    AttachDirect(sb, fs1, owner, {b}, i, s, b);
    var fs' := SetAddr(fs1, i, s, b);
    AttachKeepsData(sb, fs1, fs', owner, {b}, i, s, b);
    DataKeptTrans(fs, fs1, fs');
    assert {b} - {b} == {};
    assert {} + {b} == {b};
  }

  lemma GrowIndirectBlock(sb: Super, fs: Fs, owner: Owners, i: nat, b: nat)
    requires FsInv(sb, fs, owner, {}) && i in fs.inodes && fs.inodes[i].addrs[NDIRECT] == 0
    requires b < sb.size && !InUse(sb, fs.blocks, b)
    ensures var fs' := SetAddr(fs.(blocks := Allocated(sb, fs.blocks, b)), i, NDIRECT, b);
      && FsInv(sb, fs', owner[b := (i, NDIRECT)], {}) && OnlyGrew(fs, fs', i) && 0 < b
      && forall s :: NDIRECT < s < SLOTS ==> Slot(fs', i, s) == 0
  {
    AllocInv(sb, fs, owner, {}, b);
    AllocKeepsData(sb, fs, owner, {}, b);
    var fs1 := fs.(blocks := Allocated(sb, fs.blocks, b));
    AttachIndirectBlock(sb, fs1, owner, {b}, i, b);
    var fs' := SetAddr(fs1, i, NDIRECT, b);
    AttachKeepsData(sb, fs1, fs', owner, {b}, i, NDIRECT, b);
    DataKeptTrans(fs, fs1, fs');
    assert {b} - {b} == {};
    assert {} + {b} == {b};
    forall s | NDIRECT < s < SLOTS ensures Slot(fs', i, s) == 0 {
      ZeroEntry(s - NDIRECT - 1);
    }
  }

  lemma AllocStep(sb: Super, fs: Fs, owner: Owners, i: nat, b: nat)
    requires FsInv(sb, fs, owner, {}) && i in fs.inodes && b < sb.size && !InUse(sb, fs.blocks, b)
    ensures var fs1 := fs.(blocks := Allocated(sb, fs.blocks, b));
      && 0 < b && FsInv(sb, fs1, owner, {b}) && OnlyGrew(fs, fs1, i) && SameSlots(fs, fs1)
      && fs1.blocks[b] == ZeroBlock()
      && (0 < fs.inodes[i].addrs[NDIRECT] < |fs.blocks| ==>
            fs.inodes[i].addrs[NDIRECT] != b &&
            fs1.blocks[fs.inodes[i].addrs[NDIRECT]] == fs.blocks[fs.inodes[i].addrs[NDIRECT]])
  {
    AllocInv(sb, fs, owner, {}, b);
    AllocKeepsData(sb, fs, owner, {}, b);
    AllocatedElsewhere(sb, fs.blocks, b);
    SlotInRange(sb, fs, owner, i, NDIRECT);
    assert {} + {b} == {b};
  }

  lemma PutIndirectKeepsData(sb: Super, fs: Fs, owner: Owners, loose: set<nat>, i: nat, k: nat, b: nat)
    requires FsInv(sb, fs, owner, loose) && i in fs.inodes && k < NINDIRECT && b < 0x1_0000_0000
    requires 0 < fs.inodes[i].addrs[NDIRECT] < |fs.blocks|
    requires OneSlotSet(fs, PutIndirect(fs, fs.inodes[i].addrs[NDIRECT], k, b), i, NDIRECT + 1 + k, b)
    ensures OnlyGrew(fs, PutIndirect(fs, fs.inodes[i].addrs[NDIRECT], k, b), i)
  {
    hide Put32;
    SlotInRange(sb, fs, owner, i, NDIRECT);
    AttachKeepsData(sb, fs, PutIndirect(fs, fs.inodes[i].addrs[NDIRECT], k, b), owner, loose, i, NDIRECT + 1 + k, b);
  }

  lemma GrowIndirect(sb: Super, fs: Fs, owner: Owners, i: nat, k: nat, b: nat)
    requires FsInv(sb, fs, owner, {}) && i in fs.inodes && k < NINDIRECT && sb.size < 0x1_0000_0000
    requires 0 < fs.inodes[i].addrs[NDIRECT] < |fs.blocks| && Slot(fs, i, NDIRECT + 1 + k) == 0
    requires b < sb.size && !InUse(sb, fs.blocks, b)
    ensures var fs' := PutIndirect(fs.(blocks := Allocated(sb, fs.blocks, b)), fs.inodes[i].addrs[NDIRECT], k, b);
      && FsInv(sb, fs', owner[b := (i, NDIRECT + 1 + k)], {}) && OnlyGrew(fs, fs', i)
      && Slot(fs', i, NDIRECT + 1 + k) == b && 0 < b && fs'.blocks[b] == ZeroBlock()
      && fs.blocks[fs.inodes[i].addrs[NDIRECT]] == Allocated(sb, fs.blocks, b)[fs.inodes[i].addrs[NDIRECT]]
  {
    AllocStep(sb, fs, owner, i, b);
    hide Allocated, InUse, FsInv, Slot, OnlyGrew, Put32;
    var fs1 := fs.(blocks := Allocated(sb, fs.blocks, b));
    assert IsSlot(fs, i, NDIRECT + 1 + k);
    AttachIndirect(sb, fs1, owner, {b}, i, k, b);
    PutIndirectKeepsData(sb, fs1, owner, {b}, i, k, b);
    OnlyGrewTrans(fs, fs1, PutIndirect(fs1, fs.inodes[i].addrs[NDIRECT], k, b), i);
    assert {b} - {b} == {};
  }

  // ---- bytes

  /** The byte of file i at position p. */
  function ByteAt(fs: Fs, i: nat, p: nat): Byte
    requires InodesOk(fs) && i in fs.inodes && p / BSIZE < MAXFILE && Slot(fs, i, DataSlot(p / BSIZE)) < |fs.blocks|
  {
    DataBlock(fs, i, p / BSIZE)[p % BSIZE]
  }

  predicate ReadsByte(fs: Fs, i: nat, p: nat, x: Byte)
    requires InodesOk(fs) && i in fs.inodes
  {
    && p / BSIZE < MAXFILE && HasBlock(fs, i, p / BSIZE) && Slot(fs, i, DataSlot(p / BSIZE)) < |fs.blocks|
    && ByteAt(fs, i, p) == x
  }

  /** `data` is the contents of file i from position p0 on. */
  ghost predicate ReadsAs(fs: Fs, i: nat, p0: nat, data: seq<Byte>)
    requires InodesOk(fs) && i in fs.inodes
  {
    forall k :: 0 <= k < |data| ==> ReadsByte(fs, i, p0 + k, data[k])
  }

  lemma SameBlock(p: nat, n: nat)
    requires n < BSIZE - p % BSIZE
    ensures (p + n) / BSIZE == p / BSIZE && (p + n) % BSIZE == p % BSIZE + n
  {
  }

  lemma ReadChunk(fs: Fs, i: nat, p0: nat, data: seq<Byte>, bytes: seq<Byte>)
    requires InodesOk(fs) && i in fs.inodes && ReadsAs(fs, i, p0, data)
    requires var p := p0 + |data|;
      && p / BSIZE < MAXFILE && HasBlock(fs, i, p / BSIZE) && Slot(fs, i, DataSlot(p / BSIZE)) < |fs.blocks|
      && |bytes| <= BSIZE - p % BSIZE
      && bytes == DataBlock(fs, i, p / BSIZE)[p % BSIZE..p % BSIZE + |bytes|]
    ensures ReadsAs(fs, i, p0, data + bytes)
  {
    var p, all := p0 + |data|, data + bytes;
    forall k | 0 <= k < |all| ensures ReadsByte(fs, i, p0 + k, all[k]) {
      if k < |data| {
        assert ReadsByte(fs, i, p0 + k, data[k]);
      } else {
        SameBlock(p, k - |data|);
        assert p + (k - |data|) == p0 + k && all[k] == bytes[k - |data|];
      }
    }
  }

  // ---- writing

  ghost predicate ByteKept(fs0: Fs, fs: Fs, i: nat, q: nat)
    requires InodesOk(fs0) && InodesOk(fs) && i in fs0.inodes && i in fs.inodes && q / BSIZE < MAXFILE
  {
    HasBlock(fs0, i, q / BSIZE) ==>
      Slot(fs0, i, DataSlot(q / BSIZE)) < |fs0.blocks| && ReadsByte(fs, i, q, ByteAt(fs0, i, q))
  }

  /**
   `src` has been written to file i from position p0 on: it reads back, every other byte of the file
   is unchanged, and so is every block of every other file.
   */
  ghost predicate Wrote(fs0: Fs, fs: Fs, i: nat, p0: nat, src: seq<Byte>) {
    && InodesOk(fs0) && InodesOk(fs) && fs0.inodes.Keys == fs.inodes.Keys && i in fs.inodes
    && ReadsAs(fs, i, p0, src)
    && (forall q :: 0 <= q < MAXFILE * BSIZE && !(p0 <= q < p0 + |src|) ==> ByteKept(fs0, fs, i, q))
    && (forall j: nat, bn: nat :: j in fs0.inodes && j != i && bn < MAXFILE ==> BlockKept(fs0, fs, j, bn))
  }

  lemma WroteNothing(sb: Super, fs: Fs, owner: Owners, loose: set<nat>, i: nat, p0: nat)
    requires FsInv(sb, fs, owner, loose) && i in fs.inodes
    ensures Wrote(fs, fs, i, p0, [])
  {
    forall q | 0 <= q < MAXFILE * BSIZE ensures ByteKept(fs, fs, i, q) {
      SlotInRange(sb, fs, owner, i, DataSlot(q / BSIZE));
    }
    forall j: nat, bn: nat | j in fs.inodes && bn < MAXFILE ensures BlockKept(fs, fs, j, bn) {
      SlotInRange(sb, fs, owner, j, DataSlot(bn));
    }
  }

  lemma ByteFromBlock(fs: Fs, fs': Fs, i: nat, p: nat, x: Byte)
    requires DataKept(fs, fs') && i in fs.inodes && ReadsByte(fs, i, p, x)
    ensures ReadsByte(fs', i, p, x)
  {
    assert BlockKept(fs, fs', i, p / BSIZE);
  }

  /** Allocating and attaching blocks keeps what was written. */
  lemma WroteKept(fs0: Fs, fs: Fs, fs': Fs, i: nat, p0: nat, src: seq<Byte>)
    requires Wrote(fs0, fs, i, p0, src) && DataKept(fs, fs')
    ensures Wrote(fs0, fs', i, p0, src)
  {
    hide ByteAt, HasBlock;
    forall k | 0 <= k < |src| ensures ReadsByte(fs', i, p0 + k, src[k]) {
      ByteFromBlock(fs, fs', i, p0 + k, src[k]);
    }
    forall q | 0 <= q < MAXFILE * BSIZE && !(p0 <= q < p0 + |src|) ensures ByteKept(fs0, fs', i, q) {
      assert ByteKept(fs0, fs, i, q);
      if HasBlock(fs0, i, q / BSIZE) {
        ByteFromBlock(fs, fs', i, q, ByteAt(fs0, i, q));
      }
    }
    forall j: nat, bn: nat | j in fs0.inodes && j != i && bn < MAXFILE ensures BlockKept(fs0, fs', j, bn) {
      assert BlockKept(fs0, fs, j, bn) && BlockKept(fs, fs', j, bn);
    }
  }

  /** The data block of one file that holds position p gets new contents x. */
  function PutData(fs: Fs, i: nat, p: nat, x: Block): Fs
    requires InodesOk(fs) && i in fs.inodes && p / BSIZE < MAXFILE && Slot(fs, i, DataSlot(p / BSIZE)) < |fs.blocks|
  {
    fs.(blocks := fs.blocks[Slot(fs, i, DataSlot(p / BSIZE)) := x])
  }

  lemma PutDataBlock(sb: Super, fs: Fs, owner: Owners, loose: set<nat>, i: nat, p: nat, x: Block, j: nat, bn: nat)
    requires FsInv(sb, fs, owner, loose) && i in fs.inodes && p / BSIZE < MAXFILE && HasBlock(fs, i, p / BSIZE)
    requires Slot(fs, i, DataSlot(p / BSIZE)) < |fs.blocks|
    requires j in fs.inodes && bn < MAXFILE && HasBlock(fs, j, bn)
    ensures InodesOk(PutData(fs, i, p, x)) && HasBlock(PutData(fs, i, p, x), j, bn)
    ensures Slot(PutData(fs, i, p, x), j, DataSlot(bn)) == Slot(fs, j, DataSlot(bn)) < |fs.blocks|
    ensures DataBlock(PutData(fs, i, p, x), j, bn) == if j == i && bn == p / BSIZE then x else DataBlock(fs, j, bn)
  {
    WriteDataInv(sb, fs, owner, loose, i, p / BSIZE, x);
    assert IsSlot(fs, j, DataSlot(bn)) && IsSlot(fs, i, DataSlot(p / BSIZE));
    SlotInRange(sb, fs, owner, j, DataSlot(bn));
    SlotInRange(sb, fs, owner, i, DataSlot(p / BSIZE));
  }

  lemma PutDataByte(sb: Super, fs: Fs, owner: Owners, loose: set<nat>, i: nat, p: nat, bytes: seq<Byte>, x: Block,
                    q: nat, y: Byte)
    requires FsInv(sb, fs, owner, loose) && i in fs.inodes && p / BSIZE < MAXFILE && HasBlock(fs, i, p / BSIZE)
    requires Slot(fs, i, DataSlot(p / BSIZE)) < |fs.blocks| && |bytes| <= BSIZE - p % BSIZE
    requires ChunkIn(DataBlock(fs, i, p / BSIZE), x, p % BSIZE, bytes)
    requires ReadsByte(fs, i, q, y) && !(p <= q < p + |bytes|)
    ensures InodesOk(PutData(fs, i, p, x)) && ReadsByte(PutData(fs, i, p, x), i, q, y)
  {
    PutDataBlock(sb, fs, owner, loose, i, p, x, i, q / BSIZE);
    if q / BSIZE == p / BSIZE {
      assert q - p == q % BSIZE - p % BSIZE;
    }
  }

  /** Block x is `old_` with `bytes` at `offset`. */
  ghost predicate ChunkIn(old_: Block, x: Block, offset: nat, bytes: seq<Byte>)
    requires offset + |bytes| <= BSIZE
  {
    && (forall k :: 0 <= k < |bytes| ==> x[offset + k] == bytes[k])
    && (forall k :: 0 <= k < BSIZE && !(offset <= k < offset + |bytes|) ==> x[k] == old_[k])
  }

  lemma PutDataNew(sb: Super, fs: Fs, owner: Owners, loose: set<nat>, i: nat, p: nat, bytes: seq<Byte>, x: Block,
                   k: nat)
    requires FsInv(sb, fs, owner, loose) && i in fs.inodes && p / BSIZE < MAXFILE && HasBlock(fs, i, p / BSIZE)
    requires Slot(fs, i, DataSlot(p / BSIZE)) < |fs.blocks| && |bytes| <= BSIZE - p % BSIZE
    requires ChunkIn(DataBlock(fs, i, p / BSIZE), x, p % BSIZE, bytes) && k < |bytes|
    ensures InodesOk(PutData(fs, i, p, x)) && ReadsByte(PutData(fs, i, p, x), i, p + k, bytes[k])
  {
    SameBlock(p, k);
    PutDataBlock(sb, fs, owner, loose, i, p, x, i, p / BSIZE);
  }

  lemma WroteChunk(sb: Super, fs0: Fs, fs: Fs, owner: Owners, loose: set<nat>, i: nat, p0: nat,
                   src: seq<Byte>, bytes: seq<Byte>, x: Block)
    requires FsInv(sb, fs, owner, loose) && Wrote(fs0, fs, i, p0, src)
    requires var p := p0 + |src|;
      p / BSIZE < MAXFILE && HasBlock(fs, i, p / BSIZE) && Slot(fs, i, DataSlot(p / BSIZE)) < |fs.blocks| &&
      |bytes| <= BSIZE - p % BSIZE
    requires var p := p0 + |src|;
      ChunkIn(DataBlock(fs, i, p / BSIZE), x, p % BSIZE, bytes)
    ensures Wrote(fs0, PutData(fs, i, p0 + |src|, x), i, p0, src + bytes)
  {
    hide ByteAt, FsInv, ChunkIn, Slot, ReadsByte, DataBlock, HasBlock;
    var p, all := p0 + |src|, src + bytes;
    var fs' := PutData(fs, i, p, x);
    InodesAfterPut(fs, i, p, x);
    forall k | 0 <= k < |all| ensures ReadsByte(fs', i, p0 + k, all[k]) {
      if k < |src| {
        assert ReadsByte(fs, i, p0 + k, src[k]);
        PutDataByte(sb, fs, owner, loose, i, p, bytes, x, p0 + k, src[k]);
      } else {
        PutDataNew(sb, fs, owner, loose, i, p, bytes, x, k - |src|);
        assert p + (k - |src|) == p0 + k;
      }
    }
    forall q | 0 <= q < MAXFILE * BSIZE && !(p0 <= q < p0 + |all|) ensures ByteKept(fs0, fs', i, q) {
      assert ByteKept(fs0, fs, i, q);
      if HasBlock(fs0, i, q / BSIZE) {
        PutDataByte(sb, fs, owner, loose, i, p, bytes, x, q, ByteAt(fs0, i, q));
      }
    }
    forall j: nat, bn: nat | j in fs0.inodes && j != i && bn < MAXFILE ensures BlockKept(fs0, fs', j, bn) {
      assert BlockKept(fs0, fs, j, bn);
      if HasBlock(fs0, j, bn) {
        PutDataBlock(sb, fs, owner, loose, i, p, x, j, bn);
      }
    }
  }

  lemma InodesAfterPut(fs: Fs, i: nat, p: nat, x: Block)
    requires InodesOk(fs) && i in fs.inodes && p / BSIZE < MAXFILE && Slot(fs, i, DataSlot(p / BSIZE)) < |fs.blocks|
    ensures InodesOk(PutData(fs, i, p, x)) && PutData(fs, i, p, x).inodes == fs.inodes
    ensures |PutData(fs, i, p, x).blocks| == |fs.blocks|
  {
  }

  // ---- changing the size

  function Resize(fs: Fs, i: nat, size: nat): Fs
    requires i in fs.inodes
  {
    fs.(inodes := fs.inodes[i := fs.inodes[i].(size := size)])
  }

  lemma ResizeSlot(fs: Fs, i: nat, size: nat, j: nat, s: nat)
    requires InodesOk(fs) && i in fs.inodes && IsSlot(fs, j, s)
    ensures InodesOk(Resize(fs, i, size)) && IsSlot(Resize(fs, i, size), j, s)
    ensures Slot(Resize(fs, i, size), j, s) == Slot(fs, j, s)
  {
  }

  lemma ResizeInv(sb: Super, fs: Fs, owner: Owners, loose: set<nat>, i: nat, size: nat)
    requires FsInv(sb, fs, owner, loose) && i in fs.inodes && size <= MAXFILE * BSIZE
    requires forall bn :: 0 <= bn < MAXFILE && bn * BSIZE < size ==> HasBlock(fs, i, bn)
    ensures FsInv(sb, Resize(fs, i, size), owner, loose)
  {
    var fs' := Resize(fs, i, size);
    assert SameSlots(fs, fs') by {
      forall j: nat, s: nat | IsSlot(fs, j, s) ensures IsSlot(fs', j, s) && Slot(fs', j, s) == Slot(fs, j, s) {
        ResizeSlot(fs, i, size, j, s);
      }
    }
    OwnersFrame(sb, fs, fs', owner);
    forall j | j in fs'.inodes ensures fs'.inodes[j].size <= MAXFILE * BSIZE && Backed(fs', j) {
      assert Backed(fs, j);
      forall bn | 0 <= bn < MAXFILE && bn * BSIZE < fs'.inodes[j].size ensures HasBlock(fs', j, bn) {
        assert HasBlock(fs, j, bn);
        assert IsSlot(fs, j, DataSlot(bn));
      }
    }
  }

  lemma ResizeByte(fs: Fs, i: nat, size: nat, p: nat, x: Byte)
    requires InodesOk(fs) && i in fs.inodes && ReadsByte(fs, i, p, x)
    ensures InodesOk(Resize(fs, i, size)) && ReadsByte(Resize(fs, i, size), i, p, x)
  {
    ResizeSlot(fs, i, size, i, DataSlot(p / BSIZE));
  }

  lemma WroteResize(fs0: Fs, fs: Fs, i: nat, p0: nat, src: seq<Byte>, size: nat)
    requires Wrote(fs0, fs, i, p0, src)
    ensures Wrote(fs0, Resize(fs, i, size), i, p0, src)
  {
    hide ByteAt, ReadsByte;
    var fs' := Resize(fs, i, size);
    forall k | 0 <= k < |src| ensures ReadsByte(fs', i, p0 + k, src[k]) {
      ResizeByte(fs, i, size, p0 + k, src[k]);
    }
    forall q | 0 <= q < MAXFILE * BSIZE && !(p0 <= q < p0 + |src|) ensures ByteKept(fs0, fs', i, q) {
      assert ByteKept(fs0, fs, i, q);
      if HasBlock(fs0, i, q / BSIZE) {
        ResizeByte(fs, i, size, q, ByteAt(fs0, i, q));
      }
    }
    forall j: nat, bn: nat | j in fs0.inodes && j != i && bn < MAXFILE ensures BlockKept(fs0, fs', j, bn) {
      assert BlockKept(fs0, fs, j, bn);
      ResizeSlot(fs, i, size, j, DataSlot(bn));
    }
  }

  /** A write that starts inside or at the end of the file leaves no block missing below its end. */
  lemma WrittenIsBacked(sb: Super, fs0: Fs, fs: Fs, owner0: Owners, i: nat, p0: nat, src: seq<Byte>, bn: nat)
    requires FsInv(sb, fs0, owner0, {}) && Wrote(fs0, fs, i, p0, src)
    requires p0 <= fs0.inodes[i].size && bn < MAXFILE && bn * BSIZE < p0 + |src|
    ensures HasBlock(fs, i, bn)
  {
    var q := bn * BSIZE;
    assert q / BSIZE == bn;
    if p0 <= q {
      assert ReadsByte(fs, i, p0 + (q - p0), src[q - p0]);
    } else {
      assert Backed(fs0, i);
      assert HasBlock(fs0, i, bn);
      assert ByteKept(fs0, fs, i, q);
    }
  }

  // ---- files as byte sequences

  ghost predicate CanRead(fs: Fs, i: nat, p: nat)
    requires InodesOk(fs) && i in fs.inodes
  {
    p / BSIZE < MAXFILE && HasBlock(fs, i, p / BSIZE) && Slot(fs, i, DataSlot(p / BSIZE)) < |fs.blocks|
  }

  ghost predicate Readable(fs: Fs, i: nat) {
    && InodesOk(fs) && i in fs.inodes
    && forall p :: 0 <= p < fs.inodes[i].size ==> CanRead(fs, i, p)
  }

  lemma InvReadable(sb: Super, fs: Fs, owner: Owners, loose: set<nat>, i: nat)
    requires FsInv(sb, fs, owner, loose) && i in fs.inodes
    ensures Readable(fs, i)
  {
    forall p | 0 <= p < fs.inodes[i].size ensures CanRead(fs, i, p) {
      assert Backed(fs, i);
      assert p / BSIZE * BSIZE <= p;
      assert HasBlock(fs, i, p / BSIZE);
      SlotInRange(sb, fs, owner, i, DataSlot(p / BSIZE));
    }
  }

  /** The bytes of a file, from the first to the last. */
  ghost function Contents(fs: Fs, i: nat): seq<Byte>
    requires Readable(fs, i)
  {
    seq(fs.inodes[i].size, p requires 0 <= p < fs.inodes[i].size => assert CanRead(fs, i, p); ByteAt(fs, i, p))
  }

  /** Where a byte of a file is, told by the inode's own fields: in a direct block, or behind the indirect block. */
  lemma ContentsByte(sb: Super, fs: Fs, owner: Owners, i: nat, p: nat)
    requires FsInv(sb, fs, owner, {}) && i in fs.inodes && p < fs.inodes[i].size
    ensures Readable(fs, i) && |Contents(fs, i)| == fs.inodes[i].size
    ensures var addrs := fs.inodes[i].addrs; var bn := p / BSIZE;
            && |addrs| == NDIRECT + 1
            && (bn < NDIRECT ==>
                  addrs[bn] < |fs.blocks| && Contents(fs, i)[p] == fs.blocks[addrs[bn]][p % BSIZE])
            && (bn >= NDIRECT ==>
                  && bn - NDIRECT < NINDIRECT && addrs[NDIRECT] < |fs.blocks|
                  && var b := Get32(fs.blocks[addrs[NDIRECT]], 4 * (bn - NDIRECT));
                     b < |fs.blocks| && Contents(fs, i)[p] == fs.blocks[b][p % BSIZE])
  {
    InvReadable(sb, fs, owner, {}, i);
    assert CanRead(fs, i, p);
    assert Contents(fs, i)[p] == ByteAt(fs, i, p);
  }

  /** What readi returns is a slice of the file. */
  lemma ReadIsSlice(fs: Fs, i: nat, off: nat, data: seq<Byte>)
    requires Readable(fs, i) && ReadsAs(fs, i, off, data) && off + |data| <= fs.inodes[i].size
    ensures data == Contents(fs, i)[off..off + |data|]
  {
    forall k | 0 <= k < |data| ensures data[k] == Contents(fs, i)[off + k] {
      assert ReadsByte(fs, i, off + k, data[k]);
    }
  }

  /** The file with `src` in place of what it had at `off`, longer if it has to be. */
  ghost function Update(old_: seq<Byte>, off: nat, src: seq<Byte>): seq<Byte>
    requires off <= |old_|
  {
    old_[..off] + src + (if off + |src| < |old_| then old_[off + |src|..] else [])
  }

  /** What writei does to the file is this update. */
  lemma WriteIsUpdate(fs0: Fs, fs: Fs, i: nat, off: nat, src: seq<Byte>)
    requires Readable(fs0, i) && Readable(fs, i) && Wrote(fs0, fs, i, off, src)
    requires off <= fs0.inodes[i].size && fs0.inodes[i].size <= MAXFILE * BSIZE
    requires fs.inodes[i].size == if off + |src| > fs0.inodes[i].size then off + |src| else fs0.inodes[i].size
    ensures Contents(fs, i) == Update(Contents(fs0, i), off, src)
  {
    var new_ := Update(Contents(fs0, i), off, src);
    assert |new_| == fs.inodes[i].size;
    forall p | 0 <= p < |new_| ensures Contents(fs, i)[p] == new_[p] {
      assert CanRead(fs, i, p);
      if off <= p < off + |src| {
        assert ReadsByte(fs, i, off + (p - off), src[p - off]);
      } else {
        assert CanRead(fs0, i, p);
        assert ByteKept(fs0, fs, i, p);
      }
    }
  }

  /** Other files are untouched. */
  lemma WriteKeepsOthers(fs0: Fs, fs: Fs, i: nat, off: nat, src: seq<Byte>, j: nat)
    requires Readable(fs0, j) && Readable(fs, j) && Wrote(fs0, fs, i, off, src) && j != i
    requires fs.inodes[j].size == fs0.inodes[j].size
    ensures Contents(fs, j) == Contents(fs0, j)
  {
    forall p | 0 <= p < fs0.inodes[j].size ensures Contents(fs, j)[p] == Contents(fs0, j)[p] {
      assert CanRead(fs0, j, p);
      assert BlockKept(fs0, fs, j, p / BSIZE);
    }
  }
}
