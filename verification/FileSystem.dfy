/**
 The block allocator and the inode operations of xv6/fs.c.
 */
module FileSystem {
  import opened LittleEndian
  import opened FsBits
  import opened FsModel
  import opened FsContent

  const WORD: nat := 0x1_0000_0000

  lemma BitPlace(sb: Super, b: nat, bi: nat)
    requires b % BPB == 0 && bi < BPB
    ensures BitmapBlock(sb, b + bi) == BitmapBlock(sb, b) && (b + bi) % BPB == bi
  {
  }

  class FileSystem {
    const sb: Super
    var blocks: seq<Block>
    var inodes: map<nat, Inode>  // in-memory inodes
    var dinodes: map<nat, Inode> // inodes as stored in the inode blocks
    ghost var owner: Owners

    ghost function F(): Fs
      reads this
    {
      Fs(blocks, inodes)
    }

    /** `loose` blocks are allocated but not yet stored in an inode or indirect block. */
    ghost predicate Inv(loose: set<nat>)
      reads this
    {
      SuperOk(sb, |blocks|) && sb.size < WORD && InodesOk(F()) && FsInv(sb, F(), owner, loose)
    }

    constructor (sb: Super, blocks: seq<Block>, inodes: map<nat, Inode>, ghost owner: Owners)
      requires sb.size < WORD && FsInv(sb, Fs(blocks, inodes), owner, {})
      ensures Inv({}) && this.sb == sb && F() == Fs(blocks, inodes) && dinodes == inodes
    {
      this.sb, this.blocks, this.inodes, dinodes := sb, blocks, inodes, inodes;
      this.owner := owner;
    }

    /** balloc: the lowest free block, marked used and zeroed; `ok` is false where the C code panics, out of blocks. */
    method Balloc(ghost loose: set<nat>) returns (ok: bool, r: nat)
      requires Inv(loose)
      modifies this`blocks
      ensures SuperOk(sb, |old(blocks)|)
      ensures !ok <==> forall b :: 0 <= b < sb.size ==> InUse(sb, old(blocks), b)
      ensures !ok ==> blocks == old(blocks)
      ensures ok ==> r < sb.size && !InUse(sb, old(blocks), r) && forall b :: 0 <= b < r ==> InUse(sb, old(blocks), b)
      ensures ok ==> blocks == Allocated(sb, old(blocks), r)
      ensures ok ==> Inv(loose + {r}) && r !in loose && r !in owner
    {
      hide FsInv, InUse, MarkUsed, Bit, SetBit;
      var b := 0;
      while b < sb.size
        invariant 0 <= b && b % BPB == 0
        invariant blocks == old(blocks)
        invariant forall c :: 0 <= c < b && c < sb.size ==> InUse(sb, blocks, c)
      {
        var bi := 0;
        while bi < BPB && b + bi < sb.size
          invariant 0 <= bi <= BPB && blocks == old(blocks)
          invariant forall c :: 0 <= c < b + bi && c < sb.size ==> InUse(sb, blocks, c)
        {
          var m := BitmapBlock(sb, b);
          BitPlace(sb, b, bi);
          InUseIs(sb, blocks, b + bi, m, bi);
          if !Bit(blocks[m][bi / 8], bi % 8) {
            AllocInv(sb, F(), owner, loose, b + bi);
            MarkUsedIs(sb, blocks, b + bi, m, bi);
            ByteRange(blocks[m][bi / 8], bi % 8);
            blocks := blocks[m := blocks[m][bi / 8 := SetBit(blocks[m][bi / 8], bi % 8)]];
            blocks := blocks[b + bi := ZeroBlock()];
            return true, b + bi;
          }
          bi := bi + 1;
        }
        b := b + BPB;
      }
      return false, 0;
    }

    /** bfree: clears the bit; `ok` is false where the C code panics because the block is free already. */
    method Bfree(b: nat) returns (ok: bool)
      requires SuperOk(sb, |blocks|) && b < sb.size
      modifies this`blocks
      ensures SuperOk(sb, |old(blocks)|) && ok == InUse(sb, old(blocks), b)
      ensures blocks == if ok then MarkFree(sb, old(blocks), b) else old(blocks)
    {
      hide ClearBit, Bit;
      var m := BitmapBlock(sb, b);
      var bi := b % BPB;
      if !Bit(blocks[m][bi / 8], bi % 8) {
        return false;
      }
      ByteRange(blocks[m][bi / 8], bi % 8);
      blocks := blocks[m := blocks[m][bi / 8 := ClearBit(blocks[m][bi / 8], bi % 8)]];
      return true;
    }

    /** iupdate: the in-memory inode goes to the disk. */
    method Iupdate(i: nat)
      requires i in inodes
      modifies this`dinodes
      ensures dinodes == old(dinodes)[i := inodes[i]]
    {
      dinodes := dinodes[i := inodes[i]];
    }

    /** bmap for a direct block. */
    method BmapDirect(i: nat, bn: nat) returns (ok: bool, addr: nat)
      requires Inv({}) && i in inodes && bn < NDIRECT
      modifies this`blocks, this`inodes, this`owner
      ensures Mapped(sb, old(F()), old(owner), F(), owner, i, bn, ok, addr)
      ensures ok ==> i in inodes && |inodes[i].addrs| == NDIRECT + 1 && addr == inodes[i].addrs[bn]
    {
      hide FsInv, OnlyGrew, Allocated;
      OnlyGrewRefl(sb, F(), owner, {}, i);
      addr := inodes[i].addrs[bn];
      if addr == 0 {
        ghost var fs := F();
        ok, addr := Balloc({});
        if !ok {
          return;
        }
        GrowDirect(sb, fs, owner, i, bn, addr);
        inodes := inodes[i := inodes[i].(addrs := inodes[i].addrs[bn := addr])];
        owner := owner[addr := (i, bn)];
      }
      MappedRange(sb, F(), owner, i, bn);
      ok := true;
    }

    /** bmap for entry k of the indirect block, allocating that block first if there is none. */
    method BmapIndirect(i: nat, k: nat) returns (ok: bool, addr: nat)
      requires Inv({}) && i in inodes && k < NINDIRECT
      modifies this`blocks, this`inodes, this`owner
      ensures Mapped(sb, old(F()), old(owner), F(), owner, i, NDIRECT + k, ok, addr)
      ensures ok ==> i in inodes && |inodes[i].addrs| == NDIRECT + 1 && inodes[i].addrs[NDIRECT] < |blocks|
      ensures ok ==> addr == Get32(blocks[inodes[i].addrs[NDIRECT]], 4 * k)
    {
      hide FsInv, OnlyGrew, Allocated, AllUsed, Get32, Put32, InUse;
      ghost var fs0 := F();
      OnlyGrewRefl(sb, fs0, owner, {}, i);
      MappedRange(sb, fs0, owner, i, NDIRECT + k);
      IndirectInRange(sb, fs0, owner, i);
      addr := inodes[i].addrs[NDIRECT];
      if addr == 0 {
        ok, addr := Balloc({});
        if !ok {
          AllUsedIs(sb, blocks);
          return;
        }
        GrowIndirectBlock(sb, fs0, owner, i, addr);
        inodes := inodes[i := inodes[i].(addrs := inodes[i].addrs[NDIRECT := addr])];
        owner := owner[addr := (i, NDIRECT)];
      }
      ghost var fs1 := F();
      IndirectInRange(sb, fs1, owner, i);
      var a := Get32(blocks[addr], 4 * k);
      if a == 0 {
        var b;
        ok, b := Balloc({});
        if !ok {
          AllUsedIs(sb, blocks);
          return;
        }
        GrowIndirect(sb, fs1, owner, i, k, b);
        blocks := blocks[addr := Put32(blocks[addr], 4 * k, b)];
        owner := owner[b := (i, NDIRECT + 1 + k)];
        a := b;
        OnlyGrewTrans(fs0, fs1, F(), i);
      }
      MappedRange(sb, F(), owner, i, NDIRECT + k);
      addr := a;
      ok := true;
    }

    /** bmap: the disk address of the n-th block of a file, allocated if there is none. */
    method Bmap(i: nat, bn: nat) returns (ok: bool, addr: nat)
      requires Inv({}) && i in inodes
      modifies this`blocks, this`inodes, this`owner
      ensures bn >= MAXFILE ==> !ok && F() == old(F()) && owner == old(owner)
      ensures bn < MAXFILE ==> Mapped(sb, old(F()), old(owner), F(), owner, i, bn, ok, addr)
      ensures ok ==> bn < MAXFILE && i in inodes && |inodes[i].addrs| == NDIRECT + 1
      ensures ok && bn < NDIRECT ==> addr == inodes[i].addrs[bn]
      ensures ok && bn >= NDIRECT ==>
                inodes[i].addrs[NDIRECT] < |blocks| &&
                addr == Get32(blocks[inodes[i].addrs[NDIRECT]], 4 * (bn - NDIRECT))
    {
      hide Mapped;
      if bn < NDIRECT {
        ok, addr := BmapDirect(i, bn);
      } else if bn - NDIRECT < NINDIRECT {
        ok, addr := BmapIndirect(i, bn - NDIRECT);
      } else {
        ok, addr := false, 0;
      }
    }

    /**
     readi: -1 if the range starts beyond the end or wraps around 32 bits, otherwise the bytes of the
     file from `off` on, cut at its end. Nothing changes.
     */
    method Readi(i: nat, off: nat, n: nat) returns (r: int, data: seq<Byte>)
      requires Inv({}) && i in inodes && off < WORD && n < WORD
      modifies this`blocks, this`inodes, this`owner
      ensures F() == old(F()) && owner == old(owner)
      ensures r == -1 <==> off > inodes[i].size || off + n >= WORD
      ensures r != -1 ==> r == |data| == if off + n > inodes[i].size then inodes[i].size - off else n
      ensures r != -1 ==> ReadsAs(F(), i, off, data)
    {
      hide FsInv, ReadsAs, OnlyGrew, AllUsed;
      ghost var fs0 := F();
      if off > inodes[i].size || (off + n) % WORD < off {
        return -1, [];
      }
      var m := n;
      if off + n > inodes[i].size {
        m := inodes[i].size - off;
      }
      data := [];
      ReadsNothing(fs0, i, off);
      while |data| < m
        invariant F() == fs0 && owner == old(owner) && Inv({}) && i in inodes
        invariant |data| <= m && ReadsAs(fs0, i, off, data)
      {
        var p := off + |data|;
        BackedAt(sb, fs0, owner, i, p);
        var ok, addr := Bmap(i, p / BSIZE);
        var c := BSIZE - p % BSIZE;
        if m - |data| < c {
          c := m - |data|;
        }
        var bytes := blocks[addr][p % BSIZE..p % BSIZE + c];
        ReadChunk(fs0, i, off, data, bytes);
        data := data + bytes;
      }
      r := |data|;
    }

    /** The loop of writei. It allocates only at or beyond the end of the file. */
    method WriteBytes(i: nat, src: seq<Byte>, off: nat) returns (ok: bool)
      requires Inv({}) && i in inodes && off <= inodes[i].size && off + |src| <= MAXFILE * BSIZE
      modifies this`blocks, this`inodes, this`owner
      ensures ok ==> Inv({}) && Wrote(old(F()), F(), i, off, src)
      ensures ok ==> SameButAddrs(old(inodes), inodes, i)
      ensures ok && inodes[i] != old(inodes)[i] ==> off + |src| > old(inodes)[i].size
      ensures !ok ==> AllUsed(sb, blocks)
    {
      hide FsInv, Wrote, OnlyGrew, AllUsed, BlockKept, ChunkIn, DataKept, HasBlock;
      ghost var fs0, owner0 := F(), owner;
      WroteNothing(sb, fs0, owner, {}, i, off);
      var tot := 0;
      while tot < |src|
        invariant 0 <= tot <= |src| && Inv({}) && SameButAddrs(old(inodes), inodes, i)
        invariant Wrote(fs0, F(), i, off, src[..tot])
        invariant inodes[i] != old(inodes)[i] ==> off + tot > old(inodes)[i].size
      {
        var p := off + tot;
        ghost var fs1, owner1 := F(), owner;
        var addr;
        ok, addr := Bmap(i, p / BSIZE);
        if !ok {
          return;
        }
        ghost var fs2 := F();
        OnlyGrewIs(fs1, fs2, i);
        if p < fs1.inodes[i].size {
          BackedAt(sb, fs1, owner1, i, p);
        }
        WroteKept(fs0, fs1, fs2, i, off, src[..tot]);
        var m := BSIZE - p % BSIZE;
        if |src| - tot < m {
          m := |src| - tot;
        }
        var bytes := src[tot..tot + m];
        var x: Block := CopyInto(blocks[addr], p % BSIZE, bytes);
        ChunkInIs(blocks[addr], x, p % BSIZE, bytes);
        WriteDataInv(sb, fs2, owner, {}, i, p / BSIZE, x);
        WroteChunk(sb, fs0, fs2, owner, {}, i, off, src[..tot], bytes, x);
        assert src[..tot] + bytes == src[..tot + m];
        blocks := blocks[addr := x];
        tot := tot + m;
      }
      assert src[..tot] == src;
      ok := true;
    }

    /**
     writei: -1 if the range starts beyond the end, wraps around 32 bits or passes the maximum file
     size; otherwise the bytes are in the file, the size covers them, every other byte of this and of
     every other file is as before, and the inode on disk lists every block the file owns.
     `ok` is false where the C code panics, out of blocks.
     */
    method Writei(i: nat, src: seq<Byte>, off: nat) returns (ok: bool, r: int)
      requires Inv({}) && i in inodes && off < WORD && |src| < WORD
      modifies this`blocks, this`inodes, this`dinodes, this`owner
      ensures ok && r == -1 <==> off > old(inodes)[i].size || off + |src| >= WORD || off + |src| > MAXFILE * BSIZE
      ensures r == -1 ==> F() == old(F()) && owner == old(owner) && dinodes == old(dinodes)
      ensures ok && r != -1 ==> Inv({}) && i in inodes && r == |src| && Wrote(old(F()), F(), i, off, src)
      ensures ok && r != -1 ==>
        inodes[i].size == if |src| > 0 && off + |src| > old(inodes)[i].size then off + |src| else old(inodes)[i].size
      ensures ok && r != -1 ==> forall j :: j in old(inodes) && j != i ==> j in inodes && inodes[j] == old(inodes)[j]
      ensures ok && i in old(dinodes) && old(dinodes)[i] == old(inodes)[i] ==> i in dinodes && dinodes[i] == inodes[i]
      ensures dinodes == old(dinodes) || (i in inodes && dinodes == old(dinodes)[i := inodes[i]])
      ensures !ok ==> AllUsed(sb, blocks)
    {
      hide FsInv, Wrote, AllUsed;
      ghost var fs0, owner0 := F(), owner;
      if off > inodes[i].size || (off + |src|) % WORD < off {
        return true, -1;
      }
      if off + |src| > MAXFILE * BSIZE {
        return true, -1;
      }
      ok := WriteBytes(i, src, off);
      r := |src|;
      if !ok {
        return;
      }
      var end := off + |src|;
      if |src| > 0 && end > inodes[i].size {
        ghost var fs1 := F();
        forall bn | 0 <= bn < MAXFILE && bn * BSIZE < end ensures HasBlock(fs1, i, bn) {
          WrittenIsBacked(sb, fs0, fs1, owner0, i, off, src, bn);
        }
        ResizeInv(sb, fs1, owner, {}, i, end);
        WroteResize(fs0, fs1, i, off, src, end);
        inodes := inodes[i := inodes[i].(size := end)];
        Iupdate(i);
      }
    }

    /** First half of itrunc: the direct blocks. The inode's size still stands, so the invariant is about size 0. */
    method FreeDirect(i: nat) returns (ok: bool)
      requires Inv({}) && i in inodes
      modifies this`blocks, this`inodes, this`owner
      ensures ok && |blocks| == |old(blocks)| && i in inodes && InodesOk(F()) && FsInv(sb, Resize(F(), i, 0), owner, {})
      ensures SameButAddrs(old(inodes), inodes, i)
      ensures inodes[i].addrs[NDIRECT] == old(inodes)[i].addrs[NDIRECT]
      ensures forall d :: 0 <= d < NDIRECT ==> inodes[i].addrs[d] == 0
      ensures forall b :: sb.firstData <= b < sb.size ==> blocks[b] == old(blocks)[b]
      ensures forall b :: b in old(owner) && old(owner)[b].0 != i ==> b in owner
      ensures forall b :: b in owner ==> b in old(owner) && owner[b] == old(owner)[b]
    {
      hide FsInv, MarkFree, InUse, Slot, IsSlot;
      EmptyInv(sb, F(), owner, i);
      var d := 0;
      while d < NDIRECT
        invariant 0 <= d <= NDIRECT && |blocks| == |old(blocks)| && SuperOk(sb, |blocks|)
        invariant SameButAddrs(old(inodes), inodes, i) && InodesOk(F()) && FsInv(sb, Resize(F(), i, 0), owner, {})
        invariant forall e :: 0 <= e < d ==> inodes[i].addrs[e] == 0
        invariant inodes[i].addrs[NDIRECT] == old(inodes)[i].addrs[NDIRECT]
        invariant forall b :: sb.firstData <= b < sb.size ==> blocks[b] == old(blocks)[b]
        invariant forall b :: b in old(owner) && old(owner)[b].0 != i ==> b in owner
        invariant forall b :: b in owner ==> b in old(owner) && owner[b] == old(owner)[b]
      {
        var b := inodes[i].addrs[d];
        if b != 0 {
          ghost var g := Resize(F(), i, 0);
          FreeOneDirect(sb, g, owner, i, d);
          ok := Bfree(b);
          inodes := inodes[i := inodes[i].(addrs := inodes[i].addrs[d := 0])];
          owner := owner - {b};
          assert Resize(F(), i, 0) == SetAddr(g, i, d, 0).(blocks := blocks);
        }
        d := d + 1;
      }
      ok := true;
    }

    /** Second half of itrunc: every block the indirect block names, then the indirect block itself. */
    method FreeIndirect(i: nat) returns (ok: bool)
      requires SuperOk(sb, |blocks|) && i in inodes && InodesOk(F()) && FsInv(sb, Resize(F(), i, 0), owner, {})
      requires inodes[i].addrs[NDIRECT] != 0
      modifies this`blocks, this`inodes, this`owner
      ensures ok && |blocks| == |old(blocks)| && i in inodes && InodesOk(F()) && FsInv(sb, Resize(F(), i, 0), owner, {})
      ensures inodes == old(inodes)[i := old(inodes)[i].(addrs := old(inodes)[i].addrs[NDIRECT := 0])]
      ensures forall b :: sb.firstData <= b < sb.size ==> blocks[b] == old(blocks)[b]
      ensures forall b :: b in old(owner) && old(owner)[b].0 != i ==> b in owner
      ensures forall b :: b in owner ==> b in old(owner) && owner[b] == old(owner)[b]
    {
      hide FsInv, MarkFree, InUse, EntriesFrom, IndirectEntry;
      ghost var g := Resize(F(), i, 0);
      DetachIndirect(sb, g, owner, i);
      IndirectOwners(sb, g, owner, i);
      var a := inodes[i].addrs[NDIRECT];
      var blk := blocks[a];
      ghost var g' := SetAddr(g, i, NDIRECT, 0);
      ghost var owner' := owner - (EntriesFrom(blk, 0) + {a});
      var j := 0;
      while j < NINDIRECT
        invariant 0 <= j <= NINDIRECT && |blocks| == |old(blocks)| && inodes == old(inodes) && owner == old(owner)
        invariant FsInv(sb, g'.(blocks := blocks), owner', EntriesFrom(blk, j) + {a})
        invariant forall b :: sb.firstData <= b < sb.size ==> blocks[b] == old(blocks)[b]
      {
        EntriesStep(sb, g, owner, i, j);
        var e := EntryAt(blk, j);
        if e != 0 {
          ghost var loose := EntriesFrom(blk, j) + {a};
          FreeInv(sb, g'.(blocks := blocks), owner', loose, e);
          MarkFreeElsewhere(sb, blocks, e);
          ok := Bfree(e);
          assert loose - {e} == EntriesFrom(blk, j + 1) + {a};
        }
        j := j + 1;
      }
      NoEntries(blk);
      assert EntriesFrom(blk, NINDIRECT) + {a} == {a};
      FreeInv(sb, g'.(blocks := blocks), owner', {a}, a);
      MarkFreeElsewhere(sb, blocks, a);
      ok := Bfree(a);
      assert {a} - {a} == {};
      inodes := inodes[i := inodes[i].(addrs := inodes[i].addrs[NDIRECT := 0])];
      owner := owner';
      assert Resize(F(), i, 0) == g'.(blocks := blocks);
      ok := true;
    }

    /**
     itrunc: no panic, every block of the file is free again, nothing else is, and the empty inode is on disk.
     */
    method Itrunc(i: nat) returns (ok: bool)
      requires Inv({}) && i in inodes
      modifies this`blocks, this`inodes, this`dinodes, this`owner
      ensures ok && Inv({}) && i in inodes && dinodes == old(dinodes)[i := inodes[i]]
      ensures inodes == old(inodes)[i := old(inodes)[i].(size := 0, addrs := inodes[i].addrs)]
      ensures forall s :: 0 <= s < SLOTS ==> Slot(F(), i, s) == 0
      ensures forall b :: sb.firstData <= b < sb.size ==> blocks[b] == old(blocks)[b]
      ensures forall b :: b in old(owner) ==> (b in owner <==> old(owner)[b].0 != i)
      ensures forall b :: b in owner ==> b in old(owner) && owner[b] == old(owner)[b]
    {
      hide FsInv;
      ok := FreeDirect(i);
      if inodes[i].addrs[NDIRECT] != 0 {
        ok := FreeIndirect(i);
      }
      inodes := inodes[i := inodes[i].(size := 0)];
      assert F() == Resize(F(), i, 0);
      Iupdate(i);
      NothingOwned(sb, F(), owner, i);
    }
  }

  function EntryAt(blk: Block, j: nat): (e: nat)
    requires j < NINDIRECT
    ensures e == IndirectEntry(blk, j)
  {
    Get32(blk, 4 * j)
  }

  lemma NoEntries(blk: Block)
    ensures EntriesFrom(blk, NINDIRECT) == {}
  {
  }

  /** The indirect block and what it names belong to inode i. */
  lemma IndirectOwners(sb: Super, fs: Fs, owner: Owners, i: nat)
    requires FsInv(sb, fs, owner, {}) && i in fs.inodes && 0 < fs.inodes[i].addrs[NDIRECT] < |fs.blocks|
    ensures var a := fs.inodes[i].addrs[NDIRECT];
      forall b :: b in EntriesFrom(fs.blocks[a], 0) + {a} ==> b in owner && owner[b].0 == i
  {
    var a := fs.inodes[i].addrs[NDIRECT];
    assert IsSlot(fs, i, NDIRECT) && Slot(fs, i, NDIRECT) == a;
    forall b | b in EntriesFrom(fs.blocks[a], 0) ensures b in owner && owner[b].0 == i {
      var k :| 0 <= k < NINDIRECT && IndirectEntry(fs.blocks[a], k) == b && b != 0;
      assert IsSlot(fs, i, NDIRECT + 1 + k) && Slot(fs, i, NDIRECT + 1 + k) == b;
    }
  }

  lemma NothingOwned(sb: Super, fs: Fs, owner: Owners, i: nat)
    requires FsInv(sb, fs, owner, {}) && i in fs.inodes
    requires forall d :: 0 <= d <= NDIRECT ==> fs.inodes[i].addrs[d] == 0
    ensures forall s :: 0 <= s < SLOTS ==> Slot(fs, i, s) == 0
    ensures forall b :: b in owner ==> owner[b].0 != i
  {
    forall b | b in owner ensures owner[b].0 != i {
      assert Slot(fs, owner[b].0, owner[b].1) == b;
    }
  }

  lemma EmptyInv(sb: Super, fs: Fs, owner: Owners, i: nat)
    requires FsInv(sb, fs, owner, {}) && i in fs.inodes
    ensures FsInv(sb, Resize(fs, i, 0), owner, {})
  {
    ResizeInv(sb, fs, owner, {}, i, 0);
  }

  /** Freeing and clearing one direct block of an empty file. */
  lemma FreeOneDirect(sb: Super, fs: Fs, owner: Owners, i: nat, s: nat)
    requires FsInv(sb, fs, owner, {}) && i in fs.inodes && s < NDIRECT && fs.inodes[i].addrs[s] != 0 &&
             fs.inodes[i].size == 0
    ensures var b := fs.inodes[i].addrs[s];
      && b < sb.size && InUse(sb, fs.blocks, b) && b in owner && owner[b].0 == i
      && FsInv(sb, SetAddr(fs, i, s, 0).(blocks := MarkFree(sb, fs.blocks, b)), owner - {b}, {})
      && |MarkFree(sb, fs.blocks, b)| == |fs.blocks|
      && forall a :: sb.firstData <= a < sb.size ==> MarkFree(sb, fs.blocks, b)[a] == fs.blocks[a]
  {
    var b := fs.inodes[i].addrs[s];
    DetachDirect(sb, fs, owner, i, s);
    FreeInv(sb, SetAddr(fs, i, s, 0), owner - {b}, {b}, b);
    MarkFreeElsewhere(sb, fs.blocks, b);
    assert {b} - {b} == {};
  }

  /** A write and then a read: the slice of the updated contents, and every other file is as it was. */
  method WriteThenRead(f: FileSystem, i: nat, src: seq<Byte>, off: nat, at: nat, n: nat)
    returns (ok: bool, w: int, r: int, data: seq<Byte>)
    requires f.Inv({}) && i in f.inodes && off < WORD && |src| < WORD && at < WORD && n < WORD
    modifies f
    ensures ok && w == -1 <==>
            off > old(f.inodes)[i].size || off + |src| >= WORD || off + |src| > MAXFILE * BSIZE
    ensures ok && w != -1 ==> w == |src| && Readable(old(f.F()), i) && off <= old(f.inodes)[i].size
    ensures ok && w != -1 ==>
      var now := Update(Contents(old(f.F()), i), off, src);
      && (r == -1 <==> at > |now| || at + n >= WORD)
      && (r != -1 ==> data == now[at..if at + n > |now| then |now| else at + n])
    ensures ok && w != -1 ==> forall j :: j in old(f.inodes) && j != i ==>
      && Readable(old(f.F()), j) && Readable(f.F(), j)
      && Contents(f.F(), j) == Contents(old(f.F()), j)
    ensures !ok ==> AllUsed(f.sb, f.blocks)
  {
    hide FsInv, Wrote, AllUsed, Readable, Contents, ReadsAs;
    ghost var fs0 := f.F();
    forall j | j in f.inodes ensures Readable(fs0, j) {
      InvReadable(f.sb, fs0, f.owner, {}, j);
    }
    ContentsSize(fs0, i);
    ok, w := f.Writei(i, src, off);
    r, data := -1, [];
    if !ok || w == -1 {
      return;
    }
    ghost var fs1 := f.F();
    SizesInRange(f.sb, fs0, old(f.owner), i);
    InvReadable(f.sb, fs1, f.owner, {}, i);
    WriteIsUpdate(fs0, fs1, i, off, src);
    ContentsSize(fs1, i);
    forall j | j in old(f.inodes) && j != i
      ensures Readable(fs0, j) && Readable(fs1, j) && Contents(fs1, j) == Contents(fs0, j)
    {
      InvReadable(f.sb, fs1, f.owner, {}, j);
      WriteKeepsOthers(fs0, fs1, i, off, src, j);
    }
    r, data := f.Readi(i, at, n);
    if r != -1 {
      ReadIsSlice(fs1, i, at, data);
    }
  }

  lemma ContentsSize(fs: Fs, i: nat)
    requires Readable(fs, i)
    ensures i in fs.inodes && |Contents(fs, i)| == fs.inodes[i].size
  {
  }

  lemma SizesInRange(sb: Super, fs: Fs, owner: Owners, i: nat)
    requires FsInv(sb, fs, owner, {}) && i in fs.inodes
    ensures fs.inodes[i].size <= MAXFILE * BSIZE
  {
  }

  lemma ChunkInIs(buf: Block, x: Block, offset: nat, bytes: seq<Byte>)
    requires offset + |bytes| <= BSIZE
    requires forall j :: 0 <= j < |bytes| ==> x[offset + j] == bytes[j]
    requires forall j :: 0 <= j < BSIZE && !(offset <= j < offset + |bytes|) ==> x[j] == buf[j]
    ensures ChunkIn(buf, x, offset, bytes)
  {
  }

  /** Only the addresses of inode i may differ. */
  ghost predicate SameButAddrs(a: map<nat, Inode>, b: map<nat, Inode>, i: nat) {
    && a.Keys == b.Keys && i in a
    && b[i] == a[i].(addrs := b[i].addrs)
    && forall j :: j in a && j != i ==> b[j] == a[j]
  }

  lemma OnlyGrewIs(fs: Fs, fs': Fs, i: nat)
    requires OnlyGrew(fs, fs', i)
    ensures SameButAddrs(fs.inodes, fs'.inodes, i) && DataKept(fs, fs') && |fs'.blocks| == |fs.blocks|
  {
  }

  lemma ReadsNothing(fs: Fs, i: nat, p: nat)
    requires InodesOk(fs) && i in fs.inodes
    ensures ReadsAs(fs, i, p, [])
  {
  }

  /** Positions below the size have a block. */
  lemma BackedAt(sb: Super, fs: Fs, owner: Owners, i: nat, p: nat)
    requires FsInv(sb, fs, owner, {}) && i in fs.inodes && p < fs.inodes[i].size
    ensures p / BSIZE < MAXFILE && HasBlock(fs, i, p / BSIZE)
  {
    assert Backed(fs, i);
    assert p / BSIZE * BSIZE <= p;
  }

  lemma IndirectInRange(sb: Super, fs: Fs, owner: Owners, i: nat)
    requires FsInv(sb, fs, owner, {}) && i in fs.inodes
    ensures fs.inodes[i].addrs[NDIRECT] < |fs.blocks|
  {
    SlotInRange(sb, fs, owner, i, NDIRECT);
  }

  lemma AllUsedIs(sb: Super, blocks: seq<Block>)
    requires SuperOk(sb, |blocks|) && forall b :: 0 <= b < sb.size ==> InUse(sb, blocks, b)
    ensures AllUsed(sb, blocks)
  {
  }

  /** What bmap promises: the block is there, no data is lost; it fails only when every block is in use. */
  ghost predicate Mapped(sb: Super, fs: Fs, owner: Owners, fs': Fs, owner': Owners, i: nat, bn: nat, ok: bool,
                         addr: nat)
    requires SuperOk(sb, |fs.blocks|) && InodesOk(fs) && i in fs.inodes && bn < MAXFILE
  {
    && (ok ==>
          && FsInv(sb, fs', owner', {}) && OnlyGrew(fs, fs', i)
          && HasBlock(fs', i, bn) && addr == Slot(fs', i, DataSlot(bn)) < |fs'.blocks|
          && (HasBlock(fs, i, bn) ==> fs' == fs && owner' == owner)
          && (!HasBlock(fs, i, bn) ==> fs'.blocks[addr] == ZeroBlock()))
    && (!ok ==> !HasBlock(fs, i, bn) && AllUsed(sb, fs'.blocks))
  }

  ghost predicate AllUsed(sb: Super, blocks: seq<Block>) {
    SuperOk(sb, |blocks|) && forall b :: 0 <= b < sb.size ==> InUse(sb, blocks, b)
  }

  lemma MappedRange(sb: Super, fs: Fs, owner: Owners, i: nat, bn: nat)
    requires FsInv(sb, fs, owner, {}) && i in fs.inodes && bn < MAXFILE
    ensures Slot(fs, i, DataSlot(bn)) < |fs.blocks|
  {
    SlotInRange(sb, fs, owner, i, DataSlot(bn));
  }

  lemma InUseIs(sb: Super, blocks: seq<Block>, b: nat, m: nat, bi: nat)
    requires SuperOk(sb, |blocks|) && b < sb.size && m == BitmapBlock(sb, b) && bi == b % BPB
    ensures m < |blocks| && (InUse(sb, blocks, b) <==> Bit(blocks[m][bi / 8], bi % 8))
  {
  }

  lemma MarkUsedIs(sb: Super, blocks: seq<Block>, b: nat, m: nat, bi: nat)
    requires SuperOk(sb, |blocks|) && b < sb.size && m == BitmapBlock(sb, b) && bi == b % BPB
    ensures m < |blocks| && SetBit(blocks[m][bi / 8], bi % 8) < 256
    ensures MarkUsed(sb, blocks, b) == blocks[m := blocks[m][bi / 8 := SetBit(blocks[m][bi / 8], bi % 8)]]
  {
    ByteRange(blocks[m][bi / 8], bi % 8);
  }
}
