/**
 Reading, writing, seeking and truncating a normal file: SD/utility/SdFile.cpp.
 */
module SdFile {
  import opened LittleEndian
  import opened Sequences
  import opened FatCache
  import opened FatChain
  import opened FilePosition
  import opened FileWrite
  import opened SdVolume

  class SdFile {
    const vol: SdVolume
    const dirBlock: nat
    const dirIndex: nat
    // flags_ and type_
    var open: bool
    var canRead: bool
    var canWrite: bool
    var append: bool
    var syncAlways: bool
    var unbuffered: bool
    var dirDirty: bool

    var curPosition: nat
    var curCluster: nat
    var fileSize: nat
    var firstCluster: nat
    ghost var chain: seq<nat>

    ghost predicate Valid()
      reads this, vol
    {
      && vol.Valid()
      && FileOk(vol.v, vol.Fat(), EocMin(vol.v), chain, firstCluster, fileSize)
      && CurOk(vol.v, chain, curPosition, curCluster)
      && curPosition <= fileSize
      && DirOk(vol.v, |vol.card|, vol.Fat(), chain, dirBlock) && Recorded()
    }

    /** The directory entry, as the program sees it, is that of this file unless it is marked for sync. */
    ghost predicate Recorded()
      reads this, vol
    {
      EntryOk(vol.K(), dirBlock, dirIndex, dirDirty, firstCluster, fileSize)
    }

    /** An opened file: position 0, size and first cluster from its directory entry. */
    constructor (vol: SdVolume, dirBlock: nat, dirIndex: nat, first: nat, size: nat, ghost chain: seq<nat>,
                 canRead: bool, canWrite: bool, append: bool, syncAlways: bool)
      requires vol.Valid() && FileOk(vol.v, vol.Fat(), EocMin(vol.v), chain, first, size)
      requires DirOk(vol.v, |vol.card|, vol.Fat(), chain, dirBlock)
      requires EntryOk(vol.K(), dirBlock, dirIndex, false, first, size)
      ensures Valid() && this.vol == vol && curPosition == 0 && fileSize == size && this.chain == chain && open
    {
      this.vol, this.dirBlock, this.dirIndex := vol, dirBlock, dirIndex;
      open, this.canRead, this.canWrite, this.append := true, canRead, canWrite, append;
      this.syncAlways, unbuffered, dirDirty := syncAlways, false, false;
      curPosition, curCluster, fileSize, firstCluster := 0, 0, size, first;
      this.chain := chain;
    }

    /** seekSet: relative or from the start, it ends at the cluster that walking from the first one reaches. */
    method SeekSet(pos: nat) returns (ok: bool)
      requires Valid()
      modifies this`curPosition, this`curCluster, vol
      ensures vol.Valid() && SameView(vol.v, old(vol.K()), vol.K()) && vol.Fat() == old(vol.Fat())
      ensures ok ==> Valid() && curPosition == pos
      ensures Recorded() && (!old(vol.cacheDirty) ==> !vol.cacheDirty && vol.card == old(vol.card))
      ensures pos == 0 ==> vol.K() == old(vol.K()) && vol.ioErrors == old(vol.ioErrors)
      ensures ok == (open && pos <= fileSize && vol.ioErrors == old(vol.ioErrors)) && vol.ioErrors >= old(vol.ioErrors)
    {
      hide CacheOk, SameView, Table, IsChain, Index, DirOk, EntryOk;
      SameViewRefl(vol.v, vol.K());
      DirInRange(vol.v, |vol.card|, vol.Fat(), chain, dirBlock);
      if !open || pos > fileSize {
        return false;
      }
      if pos == 0 {
        curCluster := 0;
        curPosition := 0;
        return true;
      }
      TableSize(vol.v, vol.K());
      ghost var fat, k0 := vol.Fat(), vol.K();
      var nCur := Index(vol.v, if curPosition == 0 then 0xFFFF_FFFF else curPosition - 1);
      var nNew: nat := Index(vol.v, pos - 1);
      IndexMonotone(vol.v, pos - 1, fileSize - 1);
      ghost var i: nat := 0;
      ghost var target := nNew;
      if nNew < nCur || curPosition == 0 {
        curCluster := firstCluster;
      } else {
        i := nCur;
        nNew := nNew - nCur;
      }
      while nNew > 0
        invariant vol.Valid() && SameView(vol.v, k0, vol.K()) && vol.Fat() == fat && vol.ioErrors == old(vol.ioErrors)
        invariant i + nNew == target < |chain| && curCluster == chain[i]
        invariant Recorded() && (!old(vol.cacheDirty) ==> !vol.cacheDirty && vol.card == old(vol.card))
      {
        nNew := nNew - 1;
        ghost var k1 := vol.K();
        ChainStep(fat, EocMin(vol.v), chain, i);
        var value;
        ok, value := vol.FatGet(curCluster);
        SameEntry(vol.v, k1, vol.K(), dirBlock, dirIndex, dirDirty, firstCluster, fileSize);
        SameViewTrans(vol.v, k0, k1, vol.K());
        if !ok {
          return false;
        }
        curCluster := value;
        i := i + 1;
      }
      SameViewSize(vol.v, k0, vol.K());
      curPosition := pos;
      ok := true;
    }

    /** read: the next bytes of the file, as walking the chain from its start finds them. */
    method Read(nbyte: nat) returns (r: int, data: seq<Byte>)
      requires Valid()
      modifies this`curPosition, this`curCluster, vol
      ensures vol.Valid() && SameView(vol.v, old(vol.K()), vol.K()) && vol.Fat() == old(vol.Fat())
      ensures r == -1 <==> !(open && canRead && vol.ioErrors == old(vol.ioErrors))
      ensures r != -1 ==> Valid() && r == |data| && curPosition == old(curPosition) + r
      ensures r != -1 ==> r == if nbyte > fileSize - old(curPosition) then fileSize - old(curPosition) else nbyte
      ensures r != -1 ==> ChainOn(vol.v, chain) && ReadsAs(vol.v, old(vol.K()), chain, old(curPosition), data)
      ensures Recorded() && vol.ioErrors >= old(vol.ioErrors)
    {
      hide CacheOk, Table, IsChain, Index, BlockOfCluster, ByteAt, ReadsAs, SameView, View, DataBlock, CurOk, FileOk;
      hide ChainOn, DirOk, EntryOk;
      data := [];
      SameViewRefl(vol.v, vol.K());
      DirInRange(vol.v, |vol.card|, vol.Fat(), chain, dirBlock);
      if !open || !canRead {
        return -1, [];
      }
      TableSize(vol.v, vol.K());
      ghost var fat, k0, p0 := vol.Fat(), vol.K(), curPosition;
      FileIsOn(vol.v, fat, EocMin(vol.v), chain, firstCluster, fileSize);
      ReadNothing(vol.v, k0, chain, p0);
      var total := nbyte;
      if nbyte > fileSize - curPosition {
        total := fileSize - curPosition;
      }
      var toRead := total;
      while toRead > 0
        invariant vol.Valid() && SameView(vol.v, k0, vol.K()) && vol.Fat() == fat && vol.ioErrors == old(vol.ioErrors)
        invariant 0 <= toRead && |data| + toRead == total && curPosition == p0 + |data| &&
                  curPosition + toRead <= fileSize
        invariant CurOk(vol.v, chain, curPosition, curCluster)
        invariant FileOk(vol.v, fat, EocMin(vol.v), chain, firstCluster, fileSize)
        invariant ReadsAs(vol.v, k0, chain, p0, data) && Recorded()
      {
        var offset := curPosition % 512;
        ghost var ka := vol.K();
        var ok := EnterCluster();
        SameViewTrans(vol.v, k0, ka, vol.K());
        SameEntry(vol.v, ka, vol.K(), dirBlock, dirIndex, dirDirty, firstCluster, fileSize);
        if !ok {
          return -1, [];
        }
        var block := DataBlock(vol.v, curCluster, curPosition);
        DataBlockInRange(vol.v, |vol.card|, curCluster, curPosition);
        var n := toRead;
        if n > 512 - offset {
          n := 512 - offset;
        }
        ghost var k1 := vol.K();
        var bytes;
        ok, bytes := FetchChunk(block, offset, n);
        SameViewTrans(vol.v, k0, k1, vol.K());
        SameEntry(vol.v, k1, vol.K(), dirBlock, dirIndex, dirDirty, firstCluster, fileSize);
        SameViewAt(vol.v, k0, k1, block);
        if !ok {
          return -1, [];
        }
        ReadChunk(vol.v, k0, chain, p0, data, n, bytes);
        AdvanceInBlock(vol.v, chain, curPosition, n, curCluster);
        data := data + bytes;
        curPosition := curPosition + n;
        toRead := toRead - n;
      }
      SameViewSize(vol.v, k0, vol.K());
      r := total;
    }

    /** Part of a block, from the cache or, when buffering gains nothing, straight from the card. */
    method FetchChunk(block: nat, offset: nat, n: nat) returns (ok: bool, bytes: seq<Byte>)
      requires vol.Valid() && block < |vol.card| && !InFat2(vol.v, block) && offset + n <= 512
      modifies vol
      ensures vol.Valid() && SameView(vol.v, old(vol.K()), vol.K()) && vol.Fat() == old(vol.Fat())
      ensures ok ==> bytes == View(old(vol.K()), block)[offset..offset + n]
      ensures ok == (vol.ioErrors == old(vol.ioErrors)) && vol.ioErrors >= old(vol.ioErrors)
    {
      hide CacheOk, Table, SameView;
      SameViewRefl(vol.v, vol.K());
      if (unbuffered || n == 512) && block != vol.cacheBlock {
        ok, bytes := vol.ReadData(block, offset, n);
      } else {
        ok := vol.CacheRawBlock(block, false);
        SameViewSameTable(vol.v, old(vol.K()), vol.K());
        bytes := vol.cacheBuf[offset..offset + n];
      }
    }

    /** Start of the loop body of read: at a cluster start, move to the cluster of the next byte. */
    method EnterCluster() returns (ok: bool)
      requires vol.Valid() && FileOk(vol.v, vol.Fat(), EocMin(vol.v), chain, firstCluster, fileSize)
      requires CurOk(vol.v, chain, curPosition, curCluster) && curPosition < fileSize
      modifies this`curCluster, vol
      ensures vol.Valid() && SameView(vol.v, old(vol.K()), vol.K()) && vol.Fat() == old(vol.Fat())
      ensures ok ==> Index(vol.v, curPosition) < |chain| && curCluster == chain[Index(vol.v, curPosition)]
      ensures ok ==> 2 <= curCluster < vol.v.clusterCount + 2
      ensures ok == (vol.ioErrors == old(vol.ioErrors)) && vol.ioErrors >= old(vol.ioErrors)
    {
      hide CacheOk, SameView, Table, IsChain, Index;
      SameViewRefl(vol.v, vol.K());
      TableSize(vol.v, vol.K());
      IndexMonotone(vol.v, curPosition, fileSize - 1);
      ghost var fat := vol.Fat();
      ChainIsOn(vol.v, fat, EocMin(vol.v), chain);
      if curPosition % 512 == 0 && BlockOfCluster(vol.v, curPosition) == 0 {
        if curPosition == 0 {
          curCluster := firstCluster;
          assert Index(vol.v, 0) == 0 by { IndexZero(vol.v); }
        } else {
          IndexStep(vol.v, curPosition);
          ChainStep(fat, EocMin(vol.v), chain, Index(vol.v, curPosition - 1));
          var value;
          ok, value := vol.FatGet(curCluster);
          if !ok {
            return false;
          }
          curCluster := value;
        }
      } else {
        MidCluster(vol.v, chain, curPosition, curCluster);
      }
      ok := true;
    }

    /** addCluster: one free cluster joins the chain's end; it fails without an I/O error only when none is free. */
    method AddCluster() returns (ok: bool)
      requires vol.Valid() && FileOk(vol.v, vol.Fat(), EocMin(vol.v), chain, firstCluster, fileSize)
      requires DirOk(vol.v, |vol.card|, vol.Fat(), chain, dirBlock)
      requires Recorded() && if chain == [] then curCluster == 0 else curCluster == chain[|chain| - 1]
      modifies this`curCluster, this`firstCluster, this`dirDirty, this`chain, vol
      ensures vol.Valid() && SameData(vol.v, old(vol.K()), vol.K())
      ensures ok ==> chain == old(chain) + [curCluster] && vol.ioErrors == old(vol.ioErrors)
      ensures ok ==> FileOk(vol.v, vol.Fat(), EocMin(vol.v), chain, firstCluster, fileSize)
      ensures ok ==> DirOk(vol.v, |vol.card|, vol.Fat(), chain, dirBlock)
      ensures Recorded() && FatKept(old(vol.Fat()), old(chain), vol.Fat(), chain) && (!ok ==> chain == old(chain))
      ensures !ok ==> vol.ioErrors > old(vol.ioErrors) || DiskFull(vol.Fat())
    {
      hide CacheOk, Table, SameData, FileOk, IsChain, Allocate, DirOk, NothingFound, FatKept, UsedKept, FreeRun;
      hide EntryOk;
      DirInRange(vol.v, |vol.card|, vol.Fat(), chain, dirBlock);
      TableSize(vol.v, vol.K());
      ghost var fat := vol.Fat();
      SizeKept(vol.v, vol.K());
      FileEnd(vol.v, fat, EocMin(vol.v), chain, firstCluster, fileSize, curCluster);
      var r;
      ok, r := vol.AllocContiguous(1, curCluster);
      SameDataSize(vol.v, old(vol.K()), vol.K());
      SameEntry(vol.v, old(vol.K()), vol.K(), dirBlock, dirIndex, dirDirty, firstCluster, fileSize);
      if !ok {
        UsedKeptIsFatKept(fat, vol.Fat(), chain);
        if vol.ioErrors == old(vol.ioErrors) {
          NothingFoundOne(fat, if curCluster == 0 then old(vol.searchStart) else curCluster + 1);
        }
        return;
      }
      GrowFile(vol.v, fat, EocMin(vol.v), EocMark(vol.v), chain, firstCluster, fileSize, curCluster, r);
      GrowDir(vol.v, |vol.card|, fat, EocMark(vol.v), chain, curCluster, r, dirBlock);
      AllocateKeepsFat(fat, chain, curCluster, r, EocMark(vol.v));
      curCluster := r;
      chain := chain + [r];
      if firstCluster == 0 {
        MarkEntry(vol.K(), dirBlock, dirIndex, dirDirty, firstCluster, fileSize, curCluster, fileSize);
        firstCluster := curCluster;
        dirDirty := true;
      }
    }

    /**
     Start of the loop body of write: at a cluster start, move to the next cluster, adding one at the end
     of the chain. The result is 1, or what write returns: 0 if the FAT could not be read, -1 if no cluster
     could be added.
     */
    method EnterClusterForWrite() returns (status: int)
      requires vol.Valid() && FileOk(vol.v, vol.Fat(), EocMin(vol.v), chain, firstCluster, fileSize)
      requires DirOk(vol.v, |vol.card|, vol.Fat(), chain, dirBlock)
      requires CurOk(vol.v, chain, curPosition, curCluster) && Recorded()
      modifies this`curCluster, this`firstCluster, this`dirDirty, this`chain, vol
      ensures vol.Valid() && SameData(vol.v, old(vol.K()), vol.K()) && Recorded() && -1 <= status <= 1
      ensures status == 1 ==> old(chain) <= chain && vol.ioErrors == old(vol.ioErrors)
      ensures status == 1 ==> FileOk(vol.v, vol.Fat(), EocMin(vol.v), chain, firstCluster, fileSize)
      ensures status == 1 ==> DirOk(vol.v, |vol.card|, vol.Fat(), chain, dirBlock)
      ensures status == 1 ==> Index(vol.v, curPosition) < |chain| && curCluster == chain[Index(vol.v, curPosition)]
      ensures status == 1 ==> 2 <= curCluster < vol.v.clusterCount + 2
      ensures FatKept(old(vol.Fat()), old(chain), vol.Fat(), chain)
      ensures curPosition == 0 && old(chain) != [] ==> status == 1 && vol.K() == old(vol.K()) && chain == old(chain)
      ensures status != 1 ==> vol.ioErrors > old(vol.ioErrors) || DiskFull(vol.Fat())
    {
      hide CacheOk, Table, SameData, SameView, IsChain, Index, DirOk, DiskFull, FatKept, EntryOk;
      TableSize(vol.v, vol.K());
      SizeKept(vol.v, vol.K());
      DirInRange(vol.v, |vol.card|, vol.Fat(), chain, dirBlock);
      ghost var fat, eoc, k0 := vol.Fat(), EocMin(vol.v), vol.K();
      FatKeptRefl(fat, chain);
      ChainIsOn(vol.v, fat, eoc, chain);
      if BlockOfCluster(vol.v, curPosition) == 0 && curPosition % 512 == 0 {
        if curCluster == 0 {
          IndexZero(vol.v);
          if firstCluster == 0 {
            var ok := AddCluster();
            if !ok {
              return -1;
            }
          } else {
            curCluster := firstCluster;
          }
        } else {
          IndexStep(vol.v, curPosition);
          ChainStep(fat, eoc, chain, Index(vol.v, curPosition - 1));
          var ok, next := vol.FatGet(curCluster);
          SameViewIsSameData(vol.v, k0, vol.K());
          SameViewSize(vol.v, k0, vol.K());
          SameEntry(vol.v, k0, vol.K(), dirBlock, dirIndex, dirDirty, firstCluster, fileSize);
          if !ok {
            return 0;
          }
          if next >= (if vol.v.fat32 then 0x0FFF_FFF8 else 0xFFF8) {
            ghost var k1 := vol.K();
            ok := AddCluster();
            SameDataTrans(vol.v, k0, k1, vol.K());
            if !ok {
              return -1;
            }
          } else {
            curCluster := next;
          }
        }
      } else {
        MidCluster(vol.v, chain, curPosition, curCluster);
      }
      TableSize(vol.v, vol.K());
      ChainIsOn(vol.v, vol.Fat(), eoc, chain);
      status := 1;
    }

    /**
     Rest of the loop body of write: bytes into a block. A full block goes straight to the card and the cache
     forgets the block's number; a block that starts beyond the end of the file is not read first.
     The dirty mark stays, so the cache is lost (dirty with no block, which no later flush can write) exactly
     when it held this block dirty, or was lost before.
     */
    method PutChunk(block: nat, offset: nat, bytes: seq<Byte>) returns (ok: bool)
      requires vol.Valid() && block < |vol.card| && !InFat1(vol.v, block) && !InFat2(vol.v, block)
      requires 1 <= |bytes| && offset + |bytes| <= 512
      modifies vol
      ensures vol.Valid() && |vol.card| == |old(vol.card)| && vol.Fat() == old(vol.Fat())
      ensures OnlyAt(vol.v, old(vol.K()), vol.K(), block)
      ensures ok ==>
        ChunkPut(vol.v, old(vol.K()), vol.K(), block, offset, bytes, offset == 0 && curPosition >= fileSize)
      ensures ok && |bytes| < 512 ==> vol.cacheDirty && vol.cacheBlock == block
      ensures |bytes| == 512 ==>
        (vol.cacheDirty && vol.cacheBlock == NONE <==> old(vol.cacheDirty) && old(vol.cacheBlock) in {block, NONE})
      ensures ok == (vol.ioErrors == old(vol.ioErrors)) && vol.ioErrors >= old(vol.ioErrors)
    {
      hide CacheOk, Table;
      ghost var k0 := vol.K();
      if |bytes| == 512 {
        if vol.cacheBlock == block {
          vol.cacheBlock := NONE;
        }
        ok := vol.WriteBlock(block, bytes);
        DirectWrite(vol.v, k0, block, vol.card[block]);
        SameViewSameTableBut(vol.v, k0, vol.K(), block);
      } else {
        var blank := offset == 0 && curPosition >= fileSize;
        if blank {
          ok := vol.CacheFlush();
          SameViewSameTable(vol.v, k0, vol.K());
          if !ok {
            return;
          }
          ghost var k1 := vol.K();
          var buf: Block := CopyInto(vol.cacheBuf, offset, bytes);
          ReplaceBlock(vol.v, k1, block, buf);
          vol.cacheBlock := block;
          vol.cacheDirty := true;
          vol.cacheBuf := buf;
          SameViewSameTableBut(vol.v, k1, vol.K(), block);
        } else {
          ok := vol.CacheRawBlock(block, true);
          SameViewSameTable(vol.v, k0, vol.K());
          if !ok {
            return;
          }
          ghost var k1 := vol.K();
          var buf: Block := CopyInto(vol.cacheBuf, offset, bytes);
          EditCached(vol.v, k1, buf);
          vol.cacheBuf := buf;
          SameViewSameTableBut(vol.v, k1, vol.K(), block);
        }
      }
    }

    /** sync: afterwards the card holds everything, including the size and first cluster in the directory entry. */
    method Sync() returns (ok: bool)
      requires vol.Valid() && DirOk(vol.v, |vol.card|, vol.Fat(), chain, dirBlock) && Recorded()
      modifies this`dirDirty, vol
      ensures vol.Valid() && vol.Fat() == old(vol.Fat()) && SameBut(vol.v, old(vol.K()), vol.K(), dirBlock)
      ensures Recorded() && (ok ==> Synced(vol.v, vol.K()) && !vol.cacheDirty && !dirDirty)
      ensures ok ==> EntryRecords(View(vol.K(), dirBlock), dirIndex, firstCluster, fileSize)
      ensures EntryOnly(View(old(vol.K()), dirBlock), View(vol.K(), dirBlock), dirIndex)
      ensures old(vol.cacheDirty) && old(vol.cacheBlock) == NONE ==> !ok && vol.cacheDirty && vol.cacheBlock == NONE
      ensures ok == (open && vol.ioErrors == old(vol.ioErrors)) && vol.ioErrors >= old(vol.ioErrors)
    {
      hide CacheOk, Table, Synced, EntryRecords, EntryField;
      if !open {
        return false;
      }
      ghost var k0 := vol.K();
      if dirDirty {
        ok := vol.CacheRawBlock(dirBlock, true);
        SameViewSameTable(vol.v, k0, vol.K());
        if !ok {
          return false;
        }
        ghost var k1 := vol.K();
        var buf := UpdateEntry(vol.cacheBuf, dirIndex, firstCluster, fileSize);
        EditCached(vol.v, k1, buf);
        vol.cacheBuf := buf;
        SameViewSameTableBut(vol.v, k1, vol.K(), dirBlock);
        dirDirty := false;
      }
      ghost var k2 := vol.K();
      ok := vol.CacheFlush();
      SameViewSameTable(vol.v, k2, vol.K());
      assert View(vol.K(), dirBlock) == View(k2, dirBlock);
    }

    /** While write works: the bytes done are in the file from p0 on, and everything else is as k0 shows it. */
    ghost predicate Writing(k0: Cache, chain0: seq<nat>, p0: nat, done: seq<Byte>)
      reads this, vol
    {
      && vol.Valid() && VolumeOk(vol.v, |k0.card|) && |vol.card| == |k0.card|
      && FileOk(vol.v, vol.Fat(), EocMin(vol.v), chain, firstCluster, fileSize)
      && DirOk(vol.v, |vol.card|, vol.Fat(), chain, dirBlock) && CurOk(vol.v, chain, curPosition, curCluster)
      && chain0 <= chain && ChainOn(vol.v, chain) && curPosition == p0 + |done|
      && Wrote(vol.v, k0, vol.K(), chain0, chain, fileSize, p0, done)
    }

    /** The loop body of write: the next n bytes; the status is that of EnterClusterForWrite. */
    method WriteChunk(src: seq<Byte>, i: nat, ghost k0: Cache, ghost chain0: seq<nat>, ghost p0: nat)
      returns (status: int, n: nat)
      requires i < |src| && Writing(k0, chain0, p0, src[..i]) && Recorded()
      modifies this`curPosition, this`curCluster, this`firstCluster, this`dirDirty, this`chain, vol
      ensures vol.Valid() && |vol.card| == |k0.card| && -1 <= status <= 1 && Recorded()
      ensures FatKept(old(vol.Fat()), old(chain), vol.Fat(), chain)
      ensures status == 1 ==> 1 <= n <= |src| - i && Writing(k0, chain0, p0, src[..i + n])
      ensures status == 1 ==> EndCached(vol.v, vol.K(), curPosition, curCluster) && vol.ioErrors == old(vol.ioErrors)
      ensures status == 1 && old(curPosition) == 0 && |src| == 512 ==>
        n == 512 && (old(chain) != [] ==> LostBy(vol.v, old(vol.K()), vol.K(), old(chain)))
      ensures status != 1 ==> vol.ioErrors > old(vol.ioErrors) || DiskFull(vol.Fat())
    {
      hide CacheOk, Table, SameView, SameData, IsChain, Index, DirOk, FileOk, CurOk, Wrote, ChunkPut, DataBlock, View;
      hide SameBut, ChainOn, FatKept, EndCached, LostBy, DiskFull, EocMin, InFat1, InFat2, Owned, EntryOk, OnlyAt;
      ghost var v, k1, chain1 := vol.v, vol.K(), chain;
      var blockOffset := curPosition % 512;
      status := EnterClusterForWrite();
      SameDataSize(v, k1, vol.K());
      n := 0;
      if status != 1 {
        return;
      }
      ClusterEntered(v, k0, k1, vol.K(), chain0, chain1, chain, firstCluster, fileSize, p0, src[..i]);
      n := 512 - blockOffset;
      if n > |src| - i {
        n := |src| - i;
      }
      ghost var k2 := vol.K();
      var block := DataBlock(vol.v, curCluster, curPosition);
      DataBlockInRange(v, |vol.card|, curCluster, curPosition);
      NotDirBlock(v, |vol.card|, vol.Fat(), chain, dirBlock, curCluster, curPosition);
      var ok := PutChunk(block, blockOffset, src[i..i + n]);
      OtherBlock(v, k2, vol.K(), block, dirBlock, dirIndex, dirDirty, firstCluster, fileSize);
      if !ok {
        return -1, n;
      }
      ChunkDone(v, k0, k2, vol.K(), chain0, chain, fileSize, p0, src, i, n, curCluster);
      if |src| == 512 && curPosition == 0 && chain1 != [] {
        FirstBlockLost(v, k1, vol.K(), chain1, curCluster);
      }
      curPosition := curPosition + n;
    }

    /** The loop of write. */
    method WriteBytes(src: seq<Byte>, ghost k0: Cache, ghost chain0: seq<nat>) returns (r: int)
      requires Writing(k0, chain0, curPosition, []) && Recorded()
      modifies this`curPosition, this`curCluster, this`firstCluster, this`dirDirty, this`chain, vol
      ensures vol.Valid() && |vol.card| == |k0.card| && Recorded()
      ensures r == |src| ==> Writing(k0, chain0, old(curPosition), src) && vol.ioErrors == old(vol.ioErrors)
      ensures FatKept(old(vol.Fat()), old(chain), vol.Fat(), chain)
      ensures r == |src| > 0 ==> EndCached(vol.v, vol.K(), curPosition, curCluster)
      ensures r == |src| == 512 && old(curPosition) == 0 && old(chain) != [] ==>
        LostBy(vol.v, old(vol.K()), vol.K(), old(chain))
      ensures r != |src| ==> vol.ioErrors > old(vol.ioErrors) || DiskFull(vol.Fat())
    {
      hide Table, DirOk, FileOk, CurOk, Wrote, CacheOk, ChainOn, FatKept, EndCached, LostBy, DiskFull, EntryOk;
      ghost var fat0, chain1, p0, k00 := vol.Fat(), chain, curPosition, vol.K();
      FatKeptRefl(fat0, chain);
      var i := 0;
      assert src[..0] == [];
      while i < |src|
        invariant 0 <= i <= |src| && Writing(k0, chain0, p0, src[..i]) && vol.ioErrors == old(vol.ioErrors)
        invariant FatKept(fat0, chain1, vol.Fat(), chain) && Recorded()
        invariant i == 0 ==> vol.K() == k00 && chain == chain1
        invariant i > 0 ==> EndCached(vol.v, vol.K(), curPosition, curCluster)
        invariant |src| == 512 && p0 == 0 ==> i == 0 || i == 512
        invariant i == |src| == 512 && p0 == 0 && chain1 != [] ==> LostBy(vol.v, k00, vol.K(), chain1)
      {
        ghost var fat1, chain2 := vol.Fat(), chain;
        var status, n := WriteChunk(src, i, k0, chain0, p0);
        FatKeptTrans(fat0, chain1, fat1, chain2, vol.Fat(), chain);
        if status != 1 {
          return status;
        }
        i := i + n;
      }
      assert src[..i] == src;
      r := |src|;
    }

    /** The end of write: the size grows, and with O_SYNC everything goes to the card. */
    method FinishWrite(src: seq<Byte>, ghost k0: Cache, ghost chain0: seq<nat>, ghost size0: nat, ghost p0: nat)
      returns (ok: bool)
      requires vol.Valid() && FileOk(vol.v, vol.Fat(), EocMin(vol.v), chain, firstCluster, fileSize)
      requires DirOk(vol.v, |vol.card|, vol.Fat(), chain, dirBlock) && CurOk(vol.v, chain, curPosition, curCluster)
      requires Recorded() && open
      requires VolumeOk(vol.v, |k0.card|) && |vol.card| == |k0.card| && ChainOn(vol.v, chain) && chain0 <= chain
      requires Wrote(vol.v, k0, vol.K(), chain0, chain, size0, p0, src)
      modifies this`fileSize, this`dirDirty, vol
      ensures vol.Valid() && vol.Fat() == old(vol.Fat()) && (!syncAlways ==> ok && vol.K() == old(vol.K()))
      ensures fileSize == if curPosition > old(fileSize) then curPosition else old(fileSize)
      ensures ok ==> FileOk(vol.v, vol.Fat(), EocMin(vol.v), chain, firstCluster, fileSize)
      ensures ok ==> DirOk(vol.v, |vol.card|, vol.Fat(), chain, dirBlock)
      ensures ok ==> FileWritten(vol.v, k0, vol.K(), chain0, chain, size0, p0, src, dirBlock, dirIndex)
      ensures Recorded() && (ok && syncAlways ==> Synced(vol.v, vol.K()) && !dirDirty)
      ensures ok == (vol.ioErrors == old(vol.ioErrors)) && vol.ioErrors >= old(vol.ioErrors)
    {
      hide CacheOk, Table, IsChain, Index, DirOk, FileOk, CurOk, Wrote, View, SameBut, ChainOn, FileWritten, EntryOnly;
      hide EntryOk, Synced;
      ghost var k3, v := vol.K(), vol.v;
      if curPosition > fileSize {
        GrowSize(v, vol.Fat(), EocMin(v), chain, firstCluster, fileSize, curPosition, curCluster);
        MarkEntry(k3, dirBlock, dirIndex, dirDirty, firstCluster, fileSize, firstCluster, curPosition);
        fileSize := curPosition;
        dirDirty := true;
      }
      DirInRange(v, |vol.card|, vol.Fat(), chain, dirBlock);
      if syncAlways {
        ok := Sync();
        SameButSize(v, k3, vol.K(), dirBlock);
      } else {
        ok := true;
        SameButRefl(v, k3, dirBlock);
        EntryOnlyRefl(View(k3, dirBlock), dirIndex);
      }
      NotOwnedDir(v, |vol.card|, vol.Fat(), chain, dirBlock);
      WriteDone(v, k0, k3, vol.K(), chain0, chain, size0, p0, src, dirBlock, dirIndex);
    }

    /**
     write: the bytes replace those of the file from the current position on (from its end with O_APPEND), and
     the file grows as needed. No FAT entry in use outside the file and no other byte of the directory block
     changes. The result is the number of bytes on success; it fails only if the file is not open for writing,
     on an I/O error, or if the card is full.
     */
    method Write(src: seq<Byte>) returns (r: int)
      requires Valid()
      modifies this`curPosition, this`curCluster, this`firstCluster, this`fileSize, this`dirDirty, this`chain, vol
      ensures vol.Valid() && FatKept(old(vol.Fat()), old(chain), vol.Fat(), chain)
      ensures forall files :: OthersOk(old(vol.Fat()), EocMin(vol.v), files, old(chain)) ==>
        OthersOk(vol.Fat(), EocMin(vol.v), files, chain)
      ensures r == |src| ==>
        var start := if append then old(fileSize) else old(curPosition);
        && Valid() && curPosition == start + |src|
        && fileSize == (if curPosition > old(fileSize) then curPosition else old(fileSize))
        && FileWritten(vol.v, old(vol.K()), vol.K(), old(chain), chain, old(fileSize), start, src, dirBlock, dirIndex)
      ensures r == |src| ==> vol.ioErrors == old(vol.ioErrors)
      ensures Recorded() && (r == |src| && syncAlways ==> Synced(vol.v, vol.K()) && !dirDirty)
      ensures r == |src| > 0 && !syncAlways ==> EndCached(vol.v, vol.K(), curPosition, curCluster)
      ensures r == |src| == 512 && !syncAlways && !append && old(curPosition) == 0 && old(chain) != [] ==>
        LostBy(vol.v, old(vol.K()), vol.K(), old(chain))
      ensures r != |src| ==> !open || !canWrite || vol.ioErrors > old(vol.ioErrors) || DiskFull(vol.Fat())
    {
      hide CacheOk, Table, SameView, SameData, IsChain, Index, DirOk, FileOk, CurOk, Wrote, ChunkPut, DataBlock, View;
      hide SameBut, ChainOn, FileWritten, ByteAt, ReadsAs, Owned, FatKept, EndCached, LostBy, OthersOk, DiskFull;
      hide EntryOk, Synced;
      ghost var k0, chain0, size0, v, fat0 := vol.K(), chain, fileSize, vol.v, vol.Fat();
      FatKeptRefl(fat0, chain);
      if !open || !canWrite {
        return -1;
      }
      TableSize(v, k0);
      if append && curPosition != fileSize {
        var ok := SeekSet(fileSize);
        SameViewSize(v, k0, vol.K());
        if !ok {
          return -1;
        }
      } else {
        SameViewRefl(v, k0);
      }
      FileIsOn(v, vol.Fat(), EocMin(v), chain, firstCluster, fileSize);
      StartWriting(v, k0, vol.K(), chain, size0, curPosition);
      ghost var p0 := curPosition;
      r := WriteBytes(src, k0, chain0);
      OthersSurvive(fat0, EocMin(v), chain0, vol.Fat(), chain);
      if r != |src| {
        return;
      }
      var ok := FinishWrite(src, k0, chain0, size0, p0);
      if !ok {
        r := -1;
      }
    }

    /** The middle of truncate, for length 0: free the whole chain. */
    method FreeAll() returns (ok: bool)
      requires Valid() && curPosition == 0 && 0 < fileSize
      modifies this`firstCluster, this`chain, vol
      ensures vol.Valid() && SameData(vol.v, old(vol.K()), vol.K())
      ensures ok == (vol.ioErrors == old(vol.ioErrors)) && vol.ioErrors >= old(vol.ioErrors)
      ensures !ok ==> firstCluster == old(firstCluster)
      ensures ok ==> chain == [] && firstCluster == 0 && DirOk(vol.v, |vol.card|, vol.Fat(), chain, dirBlock)
      ensures ok ==> FileOk(vol.v, vol.Fat(), EocMin(vol.v), chain, firstCluster, 0)
      ensures ok ==> CurOk(vol.v, chain, 0, curCluster)
      ensures ok ==> forall i :: 0 <= i < |old(chain)| ==> IsFree(vol.Fat(), old(chain)[i])
      ensures ok ==> FatKept(old(vol.Fat()), old(chain), vol.Fat(), chain)
    {
      hide CacheOk, Table, SameData, SameView, IsChain, Index, Zero, FatKept, EntryOk;
      TableSize(vol.v, vol.K());
      ghost var fat, eoc, k0, ch, v := vol.Fat(), EocMin(vol.v), vol.K(), chain, vol.v;
      ChainIsOn(v, fat, eoc, ch);
      ghost var path;
      ok, path := vol.FreeChain(firstCluster);
      SameDataSize(v, k0, vol.K());
      NoChainMeansNone(fat, eoc, ch, firstCluster);
      if !ok {
        return;
      }
      ChainUnique(fat, eoc, path, ch);
      ZeroAll(v, |vol.card|, fat, ch, dirBlock);
      ZeroKeepsFat(fat, ch);
      firstCluster := 0;
      chain := [];
    }

    /** The middle of truncate, for other lengths: free the clusters after the current one and end the chain there. */
    method FreeAfterCurrent() returns (ok: bool)
      requires Valid() && 0 < curPosition
      modifies this`chain, vol
      ensures vol.Valid() && SameData(vol.v, old(vol.K()), vol.K())
      ensures ok == (vol.ioErrors == old(vol.ioErrors)) && vol.ioErrors >= old(vol.ioErrors)
      ensures ok ==> Index(vol.v, curPosition - 1) < |old(chain)|
      ensures ok ==> chain == old(chain)[..Index(vol.v, curPosition - 1) + 1]
      ensures ok ==> FileOk(vol.v, vol.Fat(), EocMin(vol.v), chain, firstCluster, curPosition)
      ensures ok ==> CurOk(vol.v, chain, curPosition, curCluster)
      ensures ok ==> DirOk(vol.v, |vol.card|, vol.Fat(), chain, dirBlock)
      ensures ok ==> forall i :: |chain| <= i < |old(chain)| ==> IsFree(vol.Fat(), old(chain)[i])
      ensures ok ==> FatKept(old(vol.Fat()), old(chain), vol.Fat(), chain)
    {
      hide CacheOk, Table, SameData, SameView, IsChain, Index, Zero, DirOk, FatKept, EntryOk;
      TableSize(vol.v, vol.K());
      ghost var fat, eoc, k0, ch, v := vol.Fat(), EocMin(vol.v), vol.K(), chain, vol.v;
      ghost var k := Index(v, curPosition - 1);
      ChainStep(fat, eoc, ch, k);
      CutFile(v, |vol.card|, fat, eoc, ch, k, EocMark(v), firstCluster, curPosition, curCluster, dirBlock);
      CutKeepsFat(fat, ch, k, EocMark(v));
      FatKeptRefl(fat, ch);
      var toFree;
      ok, toFree := vol.FatGet(curCluster);
      SameViewIsSameData(v, k0, vol.K());
      SameViewSize(v, k0, vol.K());
      if !ok {
        return;
      }
      chain := ch[..k + 1];
      if !(toFree >= (if vol.v.fat32 then 0x0FFF_FFF8 else 0xFFF8)) {
        ghost var k1 := vol.K();
        ghost var path;
        ok, path := vol.FreeChain(toFree);
        SameDataTrans(v, k0, k1, vol.K());
        SuffixChain(fat, eoc, ch, k + 1);
        NoChainMeansNone(fat, eoc, ch[k + 1..], toFree);
        if !ok {
          return;
        }
        ChainUnique(fat, eoc, path, ch[k + 1..]);
        ghost var k2 := vol.K();
        ok := vol.FatPut(curCluster, 0x0FFF_FFFF);
        SameDataTrans(v, k0, k2, vol.K());
        SameDataSize(v, k0, vol.K());
      } else {
        assert ch[..k + 1] == ch;
      }
    }

    /** The end of truncate: the new size goes to the directory entry on the card, and the position is set. */
    method FinishTruncate(length: nat, newPos: nat) returns (ok: bool)
      requires vol.Valid() && FileOk(vol.v, vol.Fat(), EocMin(vol.v), chain, firstCluster, length)
      requires CurOk(vol.v, chain, length, curCluster) && curPosition == length && newPos <= length && open
      requires DirOk(vol.v, |vol.card|, vol.Fat(), chain, dirBlock)
      requires EntryOk(vol.K(), dirBlock, dirIndex, true, firstCluster, length)
      modifies this`curPosition, this`curCluster, this`fileSize, this`dirDirty, vol
      ensures vol.Valid() && vol.Fat() == old(vol.Fat()) && SameBut(vol.v, old(vol.K()), vol.K(), dirBlock)
      ensures Recorded() && EntryOnly(View(old(vol.K()), dirBlock), View(vol.K(), dirBlock), dirIndex)
      ensures ok ==> Valid() && fileSize == length && curPosition == newPos
      ensures ok ==> Synced(vol.v, vol.K()) && !dirDirty
      ensures ok == (vol.ioErrors == old(vol.ioErrors)) && vol.ioErrors >= old(vol.ioErrors)
    {
      hide CacheOk, Table, SameData, SameView, IsChain, Index, DirOk, FileOk, CurOk, SameBut;
      hide EntryOnly, View, EntryOk, Synced, EntryRecords;
      ghost var k0, v := vol.K(), vol.v;
      DirInRange(v, |vol.card|, vol.Fat(), chain, dirBlock);
      fileSize := length;
      dirDirty := true;
      ok := Sync();
      SameButSize(v, k0, vol.K(), dirBlock);
      if !ok {
        return;
      }
      ghost var k1 := vol.K();
      ok := SeekSet(newPos);
      SameViewIsSameData(v, k1, vol.K());
      SameDataIsSameBut(v, k1, vol.K(), dirBlock);
      SameDataAt(v, k1, vol.K(), dirBlock);
      SameButTrans(v, k0, k1, vol.K(), dirBlock);
      StillSynced(v, vol.K());
    }

    /**
     truncate: the file keeps its first `length` bytes, the clusters behind them are free, and the position
     stays or moves to the new end. No FAT entry in use outside the file and no other byte of the directory
     block changes. The card then holds everything, the entry with the new size and first cluster included.
     It fails only as its documentation says.
     */
    method Truncate(length: nat) returns (ok: bool)
      requires Valid()
      modifies this`curPosition, this`curCluster, this`firstCluster, this`fileSize, this`dirDirty, this`chain, vol
      ensures vol.Valid()
      ensures ok == (open && canWrite && length <= old(fileSize) && vol.ioErrors == old(vol.ioErrors))
      ensures ok ==> Valid() && fileSize == length
      ensures ok && 0 < old(fileSize) ==>
        Synced(vol.v, vol.K()) && EntryRecords(View(vol.K(), dirBlock), dirIndex, firstCluster, length)
      ensures Recorded()
      ensures ok ==> curPosition == if old(curPosition) > length then length else old(curPosition)
      ensures ok ==> chain <= old(chain) && (length == 0 && 0 < old(fileSize) ==> chain == [])
      ensures ok && 0 < length ==> |chain| == Index(vol.v, length - 1) + 1
      ensures ok && 0 < old(fileSize) ==> forall i :: |chain| <= i < |old(chain)| ==> IsFree(vol.Fat(), old(chain)[i])
      ensures ok ==> SameBut(vol.v, old(vol.K()), vol.K(), dirBlock)
      ensures ok ==> EntryOnly(View(old(vol.K()), dirBlock), View(vol.K(), dirBlock), dirIndex)
      ensures ok ==> FatKept(old(vol.Fat()), old(chain), vol.Fat(), chain)
      ensures ok ==> forall files :: OthersOk(old(vol.Fat()), EocMin(vol.v), files, old(chain)) ==>
        OthersOk(vol.Fat(), EocMin(vol.v), files, chain)
    {
      hide CacheOk, Table, SameData, SameView, IsChain, Index, DirOk, FileOk, CurOk, SameBut, IsFree;
      hide FatKept, OthersOk, EntryOnly, View, EntryOk, Synced, EntryRecords;
      if !open || !canWrite {
        return false;
      }
      if length > fileSize {
        return false;
      }
      ghost var k0, v, fat0 := vol.K(), vol.v, vol.Fat();
      DirInRange(v, |vol.card|, fat0, chain, dirBlock);
      EntryOnlyRefl(View(k0, dirBlock), dirIndex);
      if fileSize == 0 {
        SameButRefl(v, k0, dirBlock);
        FatKeptRefl(fat0, chain);
        return true;
      }
      var newPos := if curPosition > length then length else curPosition;
      ok := SeekSet(length);
      SameViewIsSameData(v, k0, vol.K());
      if !ok {
        return;
      }
      ghost var k1 := vol.K();
      if length == 0 {
        ok := FreeAll();
      } else {
        ok := FreeAfterCurrent();
      }
      SameDataTrans(v, k0, k1, vol.K());
      SameDataIsSameBut(v, k0, vol.K(), dirBlock);
      SameDataAt(v, k0, vol.K(), dirBlock);
      SameEntry(v, k0, vol.K(), dirBlock, dirIndex, dirDirty, old(firstCluster), fileSize);
      if !ok {
        return;
      }
      MarkEntry(vol.K(), dirBlock, dirIndex, dirDirty, old(firstCluster), fileSize, firstCluster, length);
      OthersSurvive(fat0, EocMin(v), old(chain), vol.Fat(), chain);
      ghost var k2 := vol.K();
      ok := FinishTruncate(length, newPos);
      SameButTrans(v, k0, k2, vol.K(), dirBlock);
      if ok {
        CleanEntry(vol.K(), dirBlock, dirIndex, firstCluster, length);
      }
    }
  }

  lemma SameButTrans(v: Volume, a: Cache, b: Cache, c: Cache, dir: nat)
    requires SameBut(v, a, b, dir) && SameBut(v, b, c, dir)
    ensures SameBut(v, a, c, dir)
  {
    forall n | 0 <= n < |a.card| && !InFat1(v, n) && !InFat2(v, n) && n != dir ensures View(c, n) == View(a, n) {
      assert View(b, n) == View(a, n);
    }
  }

  lemma NoChainMeansNone(fat: seq<nat>, eoc: nat, ch: seq<nat>, c: nat)
    requires IsChain(fat, eoc, ch) && ch[0] == c
    ensures !NoChain(fat, eoc, c)
  {
  }

  lemma ZeroAll(v: Volume, cardSize: nat, fat: seq<nat>, ch: seq<nat>, dir: nat)
    requires 1 <= v.blocksPerCluster && DirOk(v, cardSize, fat, ch, dir)
    requires forall i :: 0 <= i < |ch| ==> ch[i] < |fat|
    ensures DirOk(v, cardSize, Zero(fat, ch), [], dir)
    ensures forall i :: 0 <= i < |ch| ==> IsFree(Zero(fat, ch), ch[i])
  {
  }

  lemma CutFile(v: Volume, cardSize: nat, fat: seq<nat>, eoc: nat, ch: seq<nat>, k: nat, mark: nat,
                first: nat, length: nat, cur: nat, dir: nat)
    requires 1 <= v.blocksPerCluster && IsChain(fat, eoc, ch) && ch[0] == first && first != 0 && eoc <= mark
    requires 0 < length && k == Index(v, length - 1) < |ch| && cur == ch[k]
    requires DirOk(v, cardSize, fat, ch, dir)
    ensures cur < |fat|
    ensures var fat', ch' := Cut(fat, ch, k, mark), ch[..k + 1];
      && FileOk(v, fat', eoc, ch', first, length) && CurOk(v, ch', length, cur) && DirOk(v, cardSize, fat', ch', dir)
      && forall i :: k < i < |ch| ==> IsFree(fat', ch[i])
  {
    hide Index;
    CutChain(fat, eoc, ch, k, mark);
    var fat', ch' := Cut(fat, ch, k, mark), ch[..k + 1];
    assert cur in ch;
    assert ch'[0] == ch[0];
    if v.dataStart <= dir {
      var c := ClusterOf(v, dir);
      assert c !in ch' && c !in ch[k + 1..] && c != cur;
    }
  }

  /** The fields of a 32-byte directory entry that sync writes. */
  ghost predicate EntryRecords(b: Block, index: nat, first: nat, size: nat)
    requires 32 * index + 32 <= BLOCK
  {
    && Get16(b, 32 * index + 20) == first / 0x1_0000 % 0x1_0000
    && Get16(b, 32 * index + 26) == first % 0x1_0000
    && Get32(b, 32 * index + 28) == size % 0x1_0000_0000
  }

  /** Directory entry `index` of block `dir` is there, and records the file unless `dirty`. */
  ghost predicate EntryOk(k: Cache, dir: nat, index: nat, dirty: bool, first: nat, size: nat) {
    && dir < |k.card| && 32 * index + 32 <= BLOCK
    && (!dirty ==> EntryRecords(View(k, dir), index, first, size))
  }

  lemma SameEntry(v: Volume, k: Cache, k': Cache, dir: nat, index: nat, dirty: bool, first: nat, size: nat)
    requires SameData(v, k, k') || SameView(v, k, k')
    requires EntryOk(k, dir, index, dirty, first, size) && !InFat1(v, dir) && !InFat2(v, dir)
    ensures EntryOk(k', dir, index, dirty, first, size)
  {
  }

  lemma MarkEntry(k: Cache, dir: nat, index: nat, dirty: bool, first: nat, size: nat, first': nat, size': nat)
    requires EntryOk(k, dir, index, dirty, first, size)
    ensures EntryOk(k, dir, index, true, first', size')
  {
  }

  lemma CleanEntry(k: Cache, dir: nat, index: nat, first: nat, size: nat)
    requires EntryOk(k, dir, index, false, first, size)
    ensures EntryRecords(View(k, dir), index, first, size)
  {
  }

  /** No block but b was changed. */
  ghost predicate OnlyAt(v: Volume, k: Cache, k': Cache, b: nat) {
    && |k'.card| == |k.card|
    && forall n :: 0 <= n < |k.card| && !InFat2(v, n) && n != b ==> View(k', n) == View(k, n)
  }

  lemma OtherBlock(v: Volume, k: Cache, k': Cache, b: nat, dir: nat, index: nat, dirty: bool, first: nat, size: nat)
    requires OnlyAt(v, k, k', b) && b != dir && !InFat2(v, dir) && EntryOk(k, dir, index, dirty, first, size)
    ensures EntryOk(k', dir, index, dirty, first, size)
  {
  }

  lemma NotDirBlock(v: Volume, cardSize: nat, fat: seq<nat>, chain: seq<nat>, dir: nat, cur: nat, p: nat)
    requires 1 <= v.blocksPerCluster && DirOk(v, cardSize, fat, chain, dir) && cur in chain && 2 <= cur
    ensures DataBlock(v, cur, p) != dir && !InFat2(v, dir)
  {
    DataBlockCluster(v, cur, p);
  }

  lemma StillSynced(v: Volume, k: Cache)
    requires VolumeOk(v, |k.card|) && CacheOk(v, k) && !k.dirty
    ensures Synced(v, k)
  {
    CleanIsSynced(v, k);
  }

  /** The assignments of sync to the directory entry. */
  method UpdateEntry(buf: Block, index: nat, first: nat, size: nat) returns (r: Block)
    requires 32 * index + 32 <= BLOCK
    ensures EntryRecords(r, index, first, size) && EntryOnly(buf, r, index)
  {
    var at := 32 * index;
    var r1 := Put32(buf, at + 28, size % 0x1_0000_0000);
    var r2 := Put16(r1, at + 26, first % 0x1_0000);
    r := Put16(r2, at + 20, first / 0x1_0000 % 0x1_0000);
    PutGet32(buf, at + 28, size % 0x1_0000_0000, at + 28);
    PutGet16(r1, at + 26, first % 0x1_0000, at + 26);
    PutGet16(r2, at + 20, first / 0x1_0000 % 0x1_0000, at + 20);
    PutGet16(r2, at + 20, first / 0x1_0000 % 0x1_0000, at + 26);
  }

  /** The last block a write ended inside of is in the cache, dirty. */
  ghost predicate EndCached(v: Volume, k: Cache, pos: nat, cur: nat) {
    0 < pos && pos % 512 != 0 ==>
      1 <= v.blocksPerCluster && 2 <= cur && k.dirty && k.block == DataBlock(v, cur, pos - 1)
  }

  lemma ClusterEntered(v: Volume, k0: Cache, k: Cache, k': Cache, chain0: seq<nat>, chain: seq<nat>,
                       chain': seq<nat>, first: nat, size: nat, p0: nat, src: seq<Byte>)
    requires VolumeOk(v, |k0.card|) && |k.card| == |k0.card| && ChainOn(v, chain) && chain0 <= chain <= chain'
    requires Wrote(v, k0, k, chain0, chain, size, p0, src) && SameData(v, k, k') && |k'.card| == |k.card|
    requires FileOk(v, Table(v, k'), EocMin(v), chain', first, size)
    ensures chain0 <= chain' && ChainOn(v, chain') && Wrote(v, k0, k', chain0, chain', size, p0, src)
  {
    hide Wrote, ChainOn, FileOk, SameData, SameBut, Table;
    TableSize(v, k');
    FileIsOn(v, Table(v, k'), EocMin(v), chain', first, size);
    SameDataIsSameBut(v, k, k', |k.card|);
    WroteGrow(v, k0, k, k', chain0, chain, chain', size, p0, src);
  }

  /** After n bytes from i on are in their block, the first i + n bytes are written. */
  lemma ChunkDone(v: Volume, k0: Cache, k: Cache, k': Cache, chain0: seq<nat>, chain: seq<nat>,
                  size: nat, p0: nat, src: seq<Byte>, i: nat, n: nat, cur: nat)
    requires VolumeOk(v, |k0.card|) && |k.card| == |k0.card| && ChainOn(v, chain) && chain0 <= chain
    requires 1 <= n <= 512 - (p0 + i) % 512 && i + n <= |src| && Wrote(v, k0, k, chain0, chain, size, p0, src[..i])
    requires Index(v, p0 + i) < |chain| && 2 <= cur == chain[Index(v, p0 + i)]
    requires ChunkPut(v, k, k', DataBlock(v, cur, p0 + i), (p0 + i) % 512, src[i..i + n],
                      (p0 + i) % 512 == 0 && p0 + i >= size)
    requires n < 512 ==> k'.dirty && k'.block == DataBlock(v, cur, p0 + i)
    ensures Wrote(v, k0, k', chain0, chain, size, p0, src[..i + n])
    ensures CurOk(v, chain, p0 + i + n, cur) && EndCached(v, k', p0 + i + n, cur)
  {
    hide Wrote, ChainOn, ChunkPut, CurOk, EndCached, DataBlock, Index;
    WroteChunk(v, k0, k, k', chain0, chain, size, p0, src[..i], src[i..i + n], (p0 + i) % 512 == 0 && p0 + i >= size);
    assert src[..i] + src[i..i + n] == src[..i + n];
    AdvanceInBlock(v, chain, p0 + i, n, cur);
    EndIsCached(v, k', p0 + i, n, cur);
  }

  lemma EndIsCached(v: Volume, k: Cache, p: nat, n: nat, cur: nat)
    requires 1 <= v.blocksPerCluster && 2 <= cur && 1 <= n <= 512 - p % 512
    requires n < 512 ==> k.dirty && k.block == DataBlock(v, cur, p)
    ensures EndCached(v, k, p + n, cur)
  {
    if (p + n) % 512 != 0 {
      SameBlock(v, p, n - 1);
    }
  }

  /**
   The cache is lost: dirty, but with no block number. A full write of the file's first block loses it
   exactly if it held that block dirty, or was lost before.
   */
  ghost predicate LostBy(v: Volume, k: Cache, k': Cache, chain: seq<nat>) {
    && chain != [] && 1 <= v.blocksPerCluster && 2 <= chain[0]
    && (k'.dirty && k'.block == NONE <==> k.dirty && k.block in {DataBlock(v, chain[0], 0), NONE})
  }

  lemma FirstBlockLost(v: Volume, k: Cache, k': Cache, chain: seq<nat>, cur: nat)
    requires chain != [] && 1 <= v.blocksPerCluster && 2 <= cur == chain[Index(v, 0)] && Index(v, 0) < |chain|
    requires k'.dirty && k'.block == NONE <==> k.dirty && k.block in {DataBlock(v, cur, 0), NONE}
    ensures LostBy(v, k, k', chain)
  {
    IndexZero(v);
  }

  lemma DirInRange(v: Volume, cardSize: nat, fat: seq<nat>, chain: seq<nat>, dir: nat)
    requires 1 <= v.blocksPerCluster && DirOk(v, cardSize, fat, chain, dir)
    ensures dir < cardSize && !InFat1(v, dir) && !InFat2(v, dir)
  {
  }

  lemma EntryOnlyRefl(b: Block, index: nat)
    ensures EntryOnly(b, b, index)
  {
  }

  lemma SameDataAt(v: Volume, k: Cache, k': Cache, b: nat)
    requires SameData(v, k, k') && b < |k.card| && !InFat1(v, b) && !InFat2(v, b)
    ensures |k'.card| == |k.card| && View(k', b) == View(k, b)
  {
  }

  lemma OthersSurvive(fat: seq<nat>, eoc: nat, chain: seq<nat>, fat': seq<nat>, chain': seq<nat>)
    requires FatKept(fat, chain, fat', chain') && 1 <= eoc
    ensures forall files :: OthersOk(fat, eoc, files, chain) ==> OthersOk(fat', eoc, files, chain')
  {
    forall files | OthersOk(fat, eoc, files, chain)
      ensures OthersOk(fat', eoc, files, chain')
    {
      OtherFilesSurvive(fat, eoc, files, chain, fat', chain');
    }
  }

  /**
   A write of part of the first block, a seek back and a write of the whole block lose the cache: the block
   number is forgotten and the dirty mark is not, so that no later sync succeeds.
   */
  method OverwriteLosesCache(f: SdFile, part: seq<Byte>, whole: seq<Byte>) returns (written: bool, synced: bool)
    requires f.Valid() && f.open && f.canWrite && !f.append && !f.syncAlways && f.curPosition == 0
    requires 1 <= |part| < 512 && |whole| == 512
    modifies f, f.vol
    ensures f.vol.Valid() && (written ==> !synced && f.vol.cacheDirty && f.vol.cacheBlock == NONE)
    ensures !written ==> f.vol.ioErrors > old(f.vol.ioErrors) || DiskFull(f.vol.Fat())
  {
    hide CacheOk, Table, IsChain, DirOk, FileOk, FileWritten, FatKept, OthersOk, View, SameView, DiskFull;
    hide EndCached, LostBy, CurOk, Index, DataBlock, SameBut, EntryOnly, EntryRecords, Synced;
    written, synced := false, false;
    var r := f.Write(part);
    if r != |part| {
      return;
    }
    FirstBlock(f.vol.v, f.vol.K(), f.chain, |part|, f.curCluster);
    var ok := f.SeekSet(0);
    ghost var k, chain := f.vol.K(), f.chain;
    r := f.Write(whole);
    if r != |whole| {
      return;
    }
    LostNow(f.vol.v, k, f.vol.K(), chain);
    written := true;
    synced := f.Sync();
  }

  /** What a write and a sync leave on the card: everything, and the entry with the file's size and first cluster. */
  method WriteThenSync(f: SdFile, src: seq<Byte>) returns (r: int, ok: bool)
    requires f.Valid()
    modifies f, f.vol
    ensures f.Recorded()
    ensures r == |src| && ok ==>
      var start := if f.append then old(f.fileSize) else old(f.curPosition);
      && f.fileSize == (if start + |src| > old(f.fileSize) then start + |src| else old(f.fileSize))
      && Synced(f.vol.v, f.vol.K()) && f.dirBlock < |f.vol.card| && 32 * f.dirIndex + 32 <= BLOCK
      && EntryRecords(f.vol.card[f.dirBlock], f.dirIndex, f.firstCluster, f.fileSize)
      && (f.firstCluster == 0 <==> f.chain == []) && (f.chain != [] ==> f.chain[0] == f.firstCluster)
    ensures r == |src| ==> ok == (f.open && f.vol.ioErrors == old(f.vol.ioErrors))
  {
    hide CacheOk, Table, IsChain, DirOk, FileWritten, FatKept, OthersOk, DiskFull, EndCached, LostBy, CurOk, Index;
    hide SameBut, EntryOnly, EntryRecords;
    DirInRange(f.vol.v, |f.vol.card|, f.vol.Fat(), f.chain, f.dirBlock);
    r := f.Write(src);
    ok := false;
    if r == |src| {
      DirInRange(f.vol.v, |f.vol.card|, f.vol.Fat(), f.chain, f.dirBlock);
      ok := f.Sync();
    }
  }

  lemma LostNow(v: Volume, k: Cache, k': Cache, chain: seq<nat>)
    requires LostBy(v, k, k', chain) && k.dirty && k.block == DataBlock(v, chain[0], 0)
    ensures k'.dirty && k'.block == NONE
  {
  }

  lemma FirstBlock(v: Volume, k: Cache, chain: seq<nat>, n: nat, cur: nat)
    requires 1 <= v.blocksPerCluster && 1 <= n < 512 && CurOk(v, chain, n, cur) && EndCached(v, k, n, cur)
    ensures chain != [] && 2 <= chain[0] && k.dirty && k.block == DataBlock(v, chain[0], 0)
  {
    IndexZero(v);
    SameBlock(v, 0, n - 1);
  }

  /** What a successful write means for the contents of the file and for all other bytes of the card. */
  ghost predicate FileWritten(v: Volume, k0: Cache, k: Cache, chain0: seq<nat>, chain: seq<nat>,
                              size0: nat, p0: nat, src: seq<Byte>, dir: nat, index: nat)
  {
    && VolumeOk(v, |k0.card|) && |k.card| == |k0.card| && dir < |k.card|
    && chain0 <= chain && ChainOn(v, chain0) && ChainOn(v, chain)
    && ReadsAs(v, k, chain, p0, src)
    && (forall q :: 0 <= q < size0 && !(p0 <= q < p0 + |src|) && Index(v, q) < |chain0| ==>
          ByteAt(v, k, chain, q) == ByteAt(v, k0, chain0, q))
    && (forall b :: 0 <= b < |k0.card| && !InFat1(v, b) && !InFat2(v, b) && !Owned(v, chain, b) && b != dir ==>
          View(k, b) == View(k0, b))
    && EntryOnly(View(k0, dir), View(k, dir), index)
  }

  lemma WriteDone(v: Volume, k0: Cache, k3: Cache, k: Cache, chain0: seq<nat>, chain: seq<nat>,
                  size0: nat, p0: nat, src: seq<Byte>, dir: nat, index: nat)
    requires VolumeOk(v, |k0.card|) && |k3.card| == |k0.card| && ChainOn(v, chain) && chain0 <= chain
    requires Wrote(v, k0, k3, chain0, chain, size0, p0, src)
    requires SameBut(v, k3, k, dir) && !Owned(v, chain, dir)
    requires dir < |k3.card| == |k.card| && !InFat1(v, dir) && !InFat2(v, dir)
    requires EntryOnly(View(k3, dir), View(k, dir), index)
    ensures FileWritten(v, k0, k, chain0, chain, size0, p0, src, dir, index)
  {
    assert View(k3, dir) == View(k0, dir);
    WroteFrame(v, k0, k3, k, chain0, chain, chain, size0, p0, src, dir);
  }

  /** Moving the position by a seek leaves the contents as they are. */
  lemma StartWriting(v: Volume, k0: Cache, k: Cache, chain: seq<nat>, size: nat, p: nat)
    requires VolumeOk(v, |k0.card|) && ChainOn(v, chain) && SameView(v, k0, k)
    ensures |k.card| == |k0.card| && Wrote(v, k0, k, chain, chain, size, p, [])
  {
    WroteNothing(v, k0, chain, size, p);
    assert SameBut(v, k0, k, |k0.card|);
    WroteGrow(v, k0, k0, k, chain, chain, chain, size, p, []);
  }

  lemma SameDataIsSameBut(v: Volume, k: Cache, k': Cache, dir: nat)
    requires SameData(v, k, k')
    ensures SameBut(v, k, k', dir)
  {
  }

  lemma SameButRefl(v: Volume, k: Cache, dir: nat)
    ensures SameBut(v, k, k, dir)
  {
  }

  lemma GrowSize(v: Volume, fat: seq<nat>, eoc: nat, chain: seq<nat>, first: nat, size: nat, pos: nat, cur: nat)
    requires 1 <= v.blocksPerCluster && FileOk(v, fat, eoc, chain, first, size) && CurOk(v, chain, pos, cur) && 0 < pos
    ensures FileOk(v, fat, eoc, chain, first, pos)
  {
  }

  lemma SameViewSize(v: Volume, k: Cache, k': Cache)
    requires SameView(v, k, k')
    ensures |k'.card| == |k.card|
  {
  }

  lemma SizeKept(v: Volume, k: Cache)
    ensures SameData(v, k, k)
  {
  }

  lemma SameDataSize(v: Volume, k: Cache, k': Cache)
    requires SameData(v, k, k')
    ensures |k'.card| == |k.card|
  {
  }

  lemma FileEnd(v: Volume, fat: seq<nat>, eoc: nat, chain: seq<nat>, first: nat, size: nat, cur: nat)
    requires 1 <= v.blocksPerCluster && FileOk(v, fat, eoc, chain, first, size)
    requires if chain == [] then cur == 0 else cur == chain[|chain| - 1]
    ensures cur == 0 || IsCluster(fat, cur)
  {
    if chain != [] {
      assert IsCluster(fat, chain[|chain| - 1]);
    }
  }

  lemma SameViewAt(v: Volume, k: Cache, k': Cache, b: nat)
    requires SameView(v, k, k') && b < |k.card| && !InFat2(v, b)
    ensures |k.card| == |k'.card| && View(k', b) == View(k, b)
  {
  }

  lemma FileIsOn(v: Volume, fat: seq<nat>, eoc: nat, chain: seq<nat>, first: nat, size: nat)
    requires 1 <= v.blocksPerCluster && |fat| == v.clusterCount + 2 && FileOk(v, fat, eoc, chain, first, size)
    ensures ChainOn(v, chain)
  {
    ChainIsOn(v, fat, eoc, chain);
  }

  lemma IndexZero(v: Volume)
    requires 1 <= v.blocksPerCluster
    ensures Index(v, 0) == 0
  {
  }

  lemma ReadNothing(v: Volume, k: Cache, chain: seq<nat>, p0: nat)
    requires VolumeOk(v, |k.card|) && ChainOn(v, chain)
    ensures ReadsAs(v, k, chain, p0, [])
  {
  }
}
