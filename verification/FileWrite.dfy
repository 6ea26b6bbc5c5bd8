/**
 What a write does to the contents of a file, position by position.
 */
module FileWrite {
  import opened LittleEndian
  import opened Sequences
  import opened FatCache
  import opened FatChain
  import opened FilePosition

  /** The cluster that a block of the data area is in. */
  function ClusterOf(v: Volume, b: nat): nat
    requires 1 <= v.blocksPerCluster && v.dataStart <= b
  {
    (b - v.dataStart) / v.blocksPerCluster + 2
  }

  predicate Owned(v: Volume, chain: seq<nat>, b: nat)
    requires 1 <= v.blocksPerCluster
  {
    v.dataStart <= b && ClusterOf(v, b) in chain
  }

  lemma DataBlockCluster(v: Volume, c: nat, p: nat)
    requires 1 <= v.blocksPerCluster && 2 <= c
    ensures v.dataStart <= DataBlock(v, c, p) && ClusterOf(v, DataBlock(v, c, p)) == c
  {
    MulMonotone(0, c - 2, v.blocksPerCluster);
    DivUnique((c - 2) * v.blocksPerCluster + BlockOfCluster(v, p), v.blocksPerCluster, c - 2, BlockOfCluster(v, p));
  }

  /** Two positions of one file in the same block of the card are in the same 512 bytes of the file. */
  lemma SameBlockPositions(v: Volume, chain: seq<nat>, p: nat, q: nat)
    requires ChainOn(v, chain) && Index(v, p) < |chain| && Index(v, q) < |chain|
    requires DataBlock(v, chain[Index(v, p)], p) == DataBlock(v, chain[Index(v, q)], q)
    ensures p / 512 == q / 512
  {
    DataBlockInjective(v, chain[Index(v, p)], p, chain[Index(v, q)], q);
    assert Index(v, p) == Index(v, q);
    PositionUnique(v, p, q);
  }

  /** Block B of the card now holds `bytes` from `offset` on; unless it is blank, the rest of it is as before. */
  ghost predicate ChunkPut(v: Volume, k: Cache, k': Cache, b: nat, offset: nat, bytes: seq<Byte>, blank: bool)
    requires offset + |bytes| <= 512
  {
    && |k'.card| == |k.card| && b < |k.card|
    && (forall j :: 0 <= j < |bytes| ==> View(k', b)[offset + j] == bytes[j])
    && (!blank ==> forall j :: 0 <= j < 512 && !(offset <= j < offset + |bytes|) ==> View(k', b)[j] == View(k, b)[j])
    && (forall n :: 0 <= n < |k.card| && !InFat2(v, n) && n != b ==> View(k', n) == View(k, n))
  }

  /** One chunk, seen as a change of the file. */
  lemma ByteAfterChunk(v: Volume, k: Cache, k': Cache, chain: seq<nat>, p: nat, bytes: seq<Byte>, blank: bool, q: nat)
    requires VolumeOk(v, |k.card|) && ChainOn(v, chain) && Index(v, p) < |chain| && Index(v, q) < |chain|
    requires |bytes| <= 512 - p % 512
    requires ChunkPut(v, k, k', DataBlock(v, chain[Index(v, p)], p), p % 512, bytes, blank)
    requires blank ==> p % 512 == 0 && q < p + |bytes|
    ensures ByteAt(v, k', chain, q) == if p <= q < p + |bytes| then bytes[q - p] else ByteAt(v, k, chain, q)
  {
    var b := DataBlock(v, chain[Index(v, p)], p);
    var c := DataBlock(v, chain[Index(v, q)], q);
    DataBlockInRange(v, |k.card|, chain[Index(v, q)], q);
    if p <= q < p + |bytes| {
      ByteInBlock(v, k', chain, p, q - p);
    } else if c == b {
      SameBlockPositions(v, chain, p, q);
      BlockOffsets(p, q);
    }
    hide DataBlock, Index, BlockOfCluster;
  }

  lemma BlockOffsets(p: nat, q: nat)
    requires p / 512 == q / 512
    ensures q - p == q % 512 - p % 512
  {
  }

  /**
   `src` has been written from position p0 on. Every byte of the old contents (below
   `size0`) outside that range is unchanged, and so is every block of other files.
   */
  ghost predicate Wrote(v: Volume, k0: Cache, k: Cache, chain0: seq<nat>, chain: seq<nat>,
                        size0: nat, p0: nat, src: seq<Byte>)
    requires VolumeOk(v, |k0.card|) && |k.card| == |k0.card| && ChainOn(v, chain) && chain0 <= chain
  {
    && ChainOn(v, chain0)
    && ReadsAs(v, k, chain, p0, src)
    && (forall q :: 0 <= q < size0 && !(p0 <= q < p0 + |src|) && Index(v, q) < |chain0| ==>
          ByteAt(v, k, chain, q) == ByteAt(v, k0, chain0, q))
    && OthersKept(v, k0, k, chain)
  }

  ghost predicate OthersKept(v: Volume, k0: Cache, k: Cache, chain: seq<nat>)
    requires 1 <= v.blocksPerCluster
  {
    && |k.card| == |k0.card|
    && forall b :: 0 <= b < |k0.card| && !InFat1(v, b) && !InFat2(v, b) && !Owned(v, chain, b) ==>
       View(k, b) == View(k0, b)
  }

  lemma WroteNothing(v: Volume, k: Cache, chain: seq<nat>, size: nat, p: nat)
    requires VolumeOk(v, |k.card|) && ChainOn(v, chain)
    ensures Wrote(v, k, k, chain, chain, size, p, [])
  {
  }

  lemma WroteChunk(v: Volume, k0: Cache, k: Cache, k': Cache, chain0: seq<nat>, chain: seq<nat>,
                   size0: nat, p0: nat, src: seq<Byte>, bytes: seq<Byte>, blank: bool)
    requires VolumeOk(v, |k0.card|) && |k.card| == |k0.card| && ChainOn(v, chain) && chain0 <= chain
    requires Wrote(v, k0, k, chain0, chain, size0, p0, src)
    requires var p := p0 + |src|;
      Index(v, p) < |chain| && 1 <= |bytes| <= 512 - p % 512 && (blank ==> p % 512 == 0 && size0 <= p)
    requires var p := p0 + |src|;
      ChunkPut(v, k, k', DataBlock(v, chain[Index(v, p)], p), p % 512, bytes, blank)
    ensures Wrote(v, k0, k', chain0, chain, size0, p0, src + bytes)
  {
    var p := p0 + |src|;
    WroteChunkReads(v, k, k', chain, p0, src, bytes, blank);
    forall q | 0 <= q < size0 && !(p0 <= q < p0 + |src + bytes|) && Index(v, q) < |chain0|
      ensures ByteAt(v, k', chain, q) == ByteAt(v, k0, chain0, q)
    {
      ByteAfterChunk(v, k, k', chain, p, bytes, blank, q);
    }
    DataBlockCluster(v, chain[Index(v, p)], p);
    hide Index, BlockOfCluster, DataBlock, ReadsAs, ByteAt;
    assert OthersKept(v, k0, k', chain);
  }

  lemma WroteChunkReads(v: Volume, k: Cache, k': Cache, chain: seq<nat>, p0: nat,
                        src: seq<Byte>, bytes: seq<Byte>, blank: bool)
    requires VolumeOk(v, |k.card|) && ChainOn(v, chain) && ReadsAs(v, k, chain, p0, src)
    requires var p := p0 + |src|;
      Index(v, p) < |chain| && 1 <= |bytes| <= 512 - p % 512 && (blank ==> p % 512 == 0)
    requires var p := p0 + |src|;
      ChunkPut(v, k, k', DataBlock(v, chain[Index(v, p)], p), p % 512, bytes, blank)
    ensures ReadsAs(v, k', chain, p0, src + bytes)
  {
    assert |k'.card| == |k.card|;
    hide Index, BlockOfCluster, DataBlock, ByteAt, ChunkPut;
    var p := p0 + |src|;
    var all := src + bytes;
    forall i | 0 <= i < |all| ensures ReadsByte(v, k', chain, p0, all, i) {
      if i < |src| {
        assert ReadsByte(v, k, chain, p0, src, i);
      } else {
        ByteInBlock(v, k, chain, p, i - |src|);
        assert p + (i - |src|) == p0 + i && (src + bytes)[i] == bytes[i - |src|];
      }
      ByteAfterChunk(v, k, k', chain, p, bytes, blank, p0 + i);
    }
  }

  /** The view of every block outside the FATs, except `dir`, is the same. */
  ghost predicate SameBut(v: Volume, k: Cache, k': Cache, dir: nat) {
    && |k.card| == |k'.card|
    && forall b :: 0 <= b < |k.card| && !InFat1(v, b) && !InFat2(v, b) && b != dir ==> View(k', b) == View(k, b)
  }

  /** The bytes of directory entry `index` that sync writes: first cluster (20-21, 26-27) and size (28-31). */
  predicate EntryField(index: nat, j: nat) {
    32 * index + 20 <= j < 32 * index + 22 || 32 * index + 26 <= j < 32 * index + 32
  }

  /** Every other byte of the directory block is as before. */
  ghost predicate EntryOnly(b: Block, b': Block, index: nat) {
    forall j: nat :: j < BLOCK && !EntryField(index, j) ==> b'[j] == b[j]
  }

  lemma ByteFrame(v: Volume, k: Cache, k': Cache, chain: seq<nat>, chain': seq<nat>, dir: nat, q: nat)
    requires VolumeOk(v, |k.card|) && ChainOn(v, chain') && ChainOn(v, chain) && chain <= chain' &&
             Index(v, q) < |chain|
    requires SameBut(v, k, k', dir) && !Owned(v, chain', dir)
    ensures ByteAt(v, k', chain', q) == ByteAt(v, k, chain, q)
  {
    var c := chain[Index(v, q)];
    assert chain'[Index(v, q)] == c;
    DataBlockInRange(v, |k.card|, c, q);
    DataBlockCluster(v, c, q);
  }

  /** New clusters at the end of the chain, changes of the FAT and of the directory entry keep what was written. */
  lemma WroteFrame(v: Volume, k0: Cache, k: Cache, k': Cache, chain0: seq<nat>, chain: seq<nat>, chain': seq<nat>,
                   size0: nat, p0: nat, src: seq<Byte>, dir: nat)
    requires VolumeOk(v, |k0.card|) && |k.card| == |k0.card| && ChainOn(v, chain) && chain0 <= chain
    requires Wrote(v, k0, k, chain0, chain, size0, p0, src)
    requires SameBut(v, k, k', dir) && ChainOn(v, chain') && chain <= chain' && !Owned(v, chain', dir)
    ensures ReadsAs(v, k', chain', p0, src)
    ensures forall q :: 0 <= q < size0 && !(p0 <= q < p0 + |src|) && Index(v, q) < |chain0| ==>
          ByteAt(v, k', chain', q) == ByteAt(v, k0, chain0, q)
  {
    hide Index, ByteAt, Owned, SameBut;
    assert |k'.card| == |k.card| by { SameButSize(v, k, k', dir); }
    forall i | 0 <= i < |src| ensures ReadsByte(v, k', chain', p0, src, i) {
      assert ReadsByte(v, k, chain, p0, src, i);
      ByteFrame(v, k, k', chain, chain', dir, p0 + i);
    }
    forall q | 0 <= q < size0 && !(p0 <= q < p0 + |src|) && Index(v, q) < |chain0|
      ensures ByteAt(v, k', chain', q) == ByteAt(v, k0, chain0, q)
    {
      ByteFrame(v, k, k', chain, chain', dir, q);
    }
  }

  lemma SameButSize(v: Volume, k: Cache, k': Cache, dir: nat)
    requires SameBut(v, k, k', dir)
    ensures |k'.card| == |k.card|
  {
  }

  lemma WroteGrow(v: Volume, k0: Cache, k: Cache, k': Cache, chain0: seq<nat>, chain: seq<nat>, chain': seq<nat>,
                  size0: nat, p0: nat, src: seq<Byte>)
    requires VolumeOk(v, |k0.card|) && |k.card| == |k0.card| && ChainOn(v, chain) && chain0 <= chain
    requires Wrote(v, k0, k, chain0, chain, size0, p0, src)
    requires SameBut(v, k, k', |k.card|) && ChainOn(v, chain') && chain <= chain'
    ensures |k'.card| == |k0.card| && chain0 <= chain' && Wrote(v, k0, k', chain0, chain', size0, p0, src)
  {
    hide Index, ByteAt, ReadsAs;
    NotOwnedOutside(v, |k.card|, chain');
    WroteFrame(v, k0, k, k', chain0, chain, chain', size0, p0, src, |k.card|);
    assert OthersKept(v, k0, k', chain');
  }

  lemma NotOwnedOutside(v: Volume, cardSize: nat, chain: seq<nat>)
    requires VolumeOk(v, cardSize) && ChainOn(v, chain)
    ensures !Owned(v, chain, cardSize)
  {
    var n := v.blocksPerCluster;
    if Owned(v, chain, cardSize) {
      var x := cardSize - v.dataStart;
      DivMonotone(v.clusterCount * n, x, n);
      DivUnique(v.clusterCount * n, n, v.clusterCount, 0);
    }
  }

  // ---- growing a file

  /** The directory entry is in a block of its own: outside the FATs, in no cluster of this file, not in free space. */
  predicate DirOk(v: Volume, cardSize: nat, fat: seq<nat>, chain: seq<nat>, dir: nat)
    requires 1 <= v.blocksPerCluster
  {
    && dir < cardSize && !InFat1(v, dir) && !InFat2(v, dir)
    && (v.dataStart <= dir ==> ClusterOf(v, dir) !in chain && !IsFree(fat, ClusterOf(v, dir)))
  }

  lemma GrowFile(v: Volume, fat: seq<nat>, eoc: nat, mark: nat, chain: seq<nat>, first: nat, size: nat, cur: nat,
                 r: nat)
    requires 1 <= v.blocksPerCluster && FileOk(v, fat, eoc, chain, first, size)
    requires FreeRun(fat, r, 1) && 1 <= eoc <= mark
    requires if chain == [] then cur == 0 else cur == chain[|chain| - 1]
    ensures cur == 0 || cur < |fat|
    ensures FileOk(v, Allocate(fat, cur, r, 1, mark), eoc, chain + [r], if first == 0 then r else first, size)
  {
    var fat' := LinkRun(fat, r, 1, mark);
    assert Run(r, 1) == [r];
    if chain == [] {
      NewRunIsChain(fat, fat', eoc, r, 1, mark);
      assert [] + [r] == [r];
    } else {
      assert IsCluster(fat, chain[|chain| - 1]);
      GrownChain(fat, eoc, chain, r, 1, mark);
    }
  }

  lemma GrowDir(v: Volume, cardSize: nat, fat: seq<nat>, mark: nat, chain: seq<nat>, cur: nat, r: nat, dir: nat)
    requires 1 <= v.blocksPerCluster && DirOk(v, cardSize, fat, chain, dir) && FreeRun(fat, r, 1)
    requires cur == 0 || cur < |fat|
    requires 1 <= mark
    ensures DirOk(v, cardSize, Allocate(fat, cur, r, 1, mark), chain + [r], dir)
  {
    assert IsFree(fat, r);
  }

  lemma NotOwnedDir(v: Volume, cardSize: nat, fat: seq<nat>, chain: seq<nat>, dir: nat)
    requires 1 <= v.blocksPerCluster && DirOk(v, cardSize, fat, chain, dir)
    ensures !Owned(v, chain, dir)
  {
  }

  ghost predicate DiskFull(fat: seq<nat>) {
    forall c :: 2 <= c < |fat| ==> !IsFree(fat, c)
  }
}
