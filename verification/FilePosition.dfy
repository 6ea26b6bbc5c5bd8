/**
 Positions in a file of SD/utility/SdFile.cpp: which cluster of the chain, which
 block of the card and which byte of the block a position is in.

 Cluster sizes are powers of two in the source, which shifts and masks; here the
 same numbers are written with division and remainder.
 */
module FilePosition {
  import opened LittleEndian
  import opened Sequences
  import opened FatCache
  import opened FatChain

  /** Index in the chain of the cluster that holds byte p. */
  function Index(v: Volume, p: nat): nat
    requires 1 <= v.blocksPerCluster
  {
    p / 512 / v.blocksPerCluster
  }

  function BlockOfCluster(v: Volume, p: nat): nat
    requires 1 <= v.blocksPerCluster
  {
    p / 512 % v.blocksPerCluster
  }

  predicate AtClusterStart(v: Volume, p: nat)
    requires 1 <= v.blocksPerCluster
  {
    p % 512 == 0 && BlockOfCluster(v, p) == 0
  }

  lemma DivStep(q: nat, n: nat)
    requires 1 <= q && 1 <= n
    ensures (q - 1) / n == if q % n == 0 then q / n - 1 else q / n
  {
    var d, r := q / n, q % n;
    assert q == d * n + r;
    if r == 0 {
      assert q - 1 == (d - 1) * n + (n - 1);
      DivUnique(q - 1, n, d - 1, n - 1);
    } else {
      DivUnique(q - 1, n, d, r - 1);
    }
  }

  lemma {:induction false} MulMonotone(a: int, b: int, n: nat)
    requires a <= b
    ensures a * n <= b * n
    decreases b - a
  {
    if a < b {
      MulMonotone(a, b - 1, n);
      assert b * n == (b - 1) * n + n;
    }
  }

  lemma DivUnique(x: int, n: int, d: int, r: int)
    requires 1 <= n && 0 <= r < n && x == d * n + r
    ensures x / n == d && x % n == r
  {
    var e := x / n;
    assert x == e * n + x % n;
    if d < e {
      MulMonotone(d + 1, e, n);
    } else if e < d {
      MulMonotone(e + 1, d, n);
    }
  }

  /** Going one byte forward enters the next cluster exactly at a cluster start. */
  lemma IndexStep(v: Volume, p: nat)
    requires 1 <= v.blocksPerCluster && 1 <= p
    ensures Index(v, p) == Index(v, p - 1) + if AtClusterStart(v, p) then 1 else 0
  {
    if p % 512 == 0 {
      assert (p - 1) / 512 == p / 512 - 1;
      DivStep(p / 512, v.blocksPerCluster);
    }
  }

  lemma DivMonotone(a: nat, b: nat, n: nat)
    requires a <= b && 1 <= n
    ensures a / n <= b / n
  {
    assert a == a / n * n + a % n && b == b / n * n + b % n;
    if b / n < a / n {
      MulMonotone(b / n + 1, a / n, n);
    }
  }

  lemma IndexMonotone(v: Volume, p: nat, q: nat)
    requires 1 <= v.blocksPerCluster && p <= q
    ensures Index(v, p) <= Index(v, q)
  {
    DivMonotone(p / 512, q / 512, v.blocksPerCluster);
  }

  /** Bytes of one block are in one cluster. */
  lemma SameBlock(v: Volume, p: nat, n: nat)
    requires 1 <= v.blocksPerCluster && n <= 511 - p % 512
    ensures (p + n) / 512 == p / 512 && (p + n) % 512 == p % 512 + n
    ensures Index(v, p + n) == Index(v, p) && BlockOfCluster(v, p + n) == BlockOfCluster(v, p)
  {
  }

  // ---- blocks of the card

  /** clusterStartBlock(c) + blockOfCluster(p). */
  function DataBlock(v: Volume, c: nat, p: nat): nat
    requires 1 <= v.blocksPerCluster && 2 <= c
  {
    v.dataStart + (c - 2) * v.blocksPerCluster + BlockOfCluster(v, p)
  }

  lemma DataBlockInRange(v: Volume, cardSize: nat, c: nat, p: nat)
    requires VolumeOk(v, cardSize) && 2 <= c < v.clusterCount + 2
    ensures v.dataStart <= DataBlock(v, c, p) < cardSize
    ensures !InFat1(v, DataBlock(v, c, p)) && !InFat2(v, DataBlock(v, c, p))
  {
    ClusterInRange(v, cardSize, c);
    BlockInCluster(v, p);
    hide BlockOfCluster, InFat1, InFat2;
    FatsBelowData(v, cardSize, DataBlock(v, c, p));
  }

  lemma ClusterInRange(v: Volume, cardSize: nat, c: nat)
    requires VolumeOk(v, cardSize) && 2 <= c < v.clusterCount + 2
    ensures 0 <= (c - 2) * v.blocksPerCluster
    ensures v.dataStart + (c - 2) * v.blocksPerCluster + v.blocksPerCluster <= cardSize
  {
    var n := v.blocksPerCluster;
    MulMonotone(0, c - 2, n);
    MulMonotone(c - 1, v.clusterCount, n);
    assert (c - 1) * n == (c - 2) * n + n;
  }

  lemma BlockInCluster(v: Volume, p: nat)
    requires 1 <= v.blocksPerCluster
    ensures 0 <= BlockOfCluster(v, p) < v.blocksPerCluster
  {
  }

  lemma FatsBelowData(v: Volume, cardSize: nat, b: nat)
    requires VolumeOk(v, cardSize) && v.dataStart <= b
    ensures !InFat1(v, b) && !InFat2(v, b)
  {
  }

  /** Where the blocks of a file are: the data area starts with cluster 2, and blocks and clusters follow in order. */
  lemma DataBlockPlaces(v: Volume, c: nat, p: nat)
    requires 1 <= v.blocksPerCluster && 2 <= c
    ensures DataBlock(v, 2, 0) == v.dataStart
    ensures DataBlock(v, c + 1, p) == DataBlock(v, c, p) + v.blocksPerCluster
    ensures Index(v, p + 512) == Index(v, p) ==> DataBlock(v, c, p + 512) == DataBlock(v, c, p) + 1
    ensures Index(v, p + 512) != Index(v, p) ==>
              Index(v, p + 512) == Index(v, p) + 1 && DataBlock(v, c, p + 512) == DataBlock(v, c, 0)
  {
    var n := v.blocksPerCluster;
    assert 0 / 512 / n == 0 && 0 / 512 % n == 0 by {
      DivUnique(0, n, 0, 0);
    }
    assert (c + 1 - 2) * n == (c - 2) * n + n;
    var q, r := p / 512 / n, p / 512 % n;
    assert (p + 512) / 512 == p / 512 + 1 == q * n + r + 1;
    if r + 1 < n {
      DivUnique(p / 512 + 1, n, q, r + 1);
    } else {
      assert q * n + n == (q + 1) * n;
      DivUnique(p / 512 + 1, n, q + 1, 0);
    }
  }

  /** Different clusters, and different blocks of a cluster, are different blocks of the card. */
  lemma DataBlockInjective(v: Volume, c: nat, p: nat, d: nat, q: nat)
    requires 1 <= v.blocksPerCluster && 2 <= c && 2 <= d && DataBlock(v, c, p) == DataBlock(v, d, q)
    ensures c == d && BlockOfCluster(v, p) == BlockOfCluster(v, q)
  {
    var n := v.blocksPerCluster;
    var x := (c - 2) * n + BlockOfCluster(v, p);
    DivUnique(x, n, c - 2, BlockOfCluster(v, p));
    DivUnique(x, n, d - 2, BlockOfCluster(v, q));
  }

  /** Cluster and block determine the 512 bytes a position is in; with its byte in the block, the position. */
  lemma PositionUnique(v: Volume, p: nat, q: nat)
    requires 1 <= v.blocksPerCluster
    requires Index(v, p) == Index(v, q) && BlockOfCluster(v, p) == BlockOfCluster(v, q)
    ensures p / 512 == q / 512 && (p % 512 == q % 512 ==> p == q)
  {
    assert p / 512 == p / 512 / v.blocksPerCluster * v.blocksPerCluster + p / 512 % v.blocksPerCluster;
    assert q / 512 == q / 512 / v.blocksPerCluster * v.blocksPerCluster + q / 512 % v.blocksPerCluster;
  }

  ghost predicate ChainOn(v: Volume, chain: seq<nat>) {
    1 <= v.blocksPerCluster && Distinct(chain) && forall i :: 0 <= i < |chain| ==> 2 <= chain[i] < v.clusterCount + 2
  }

  /** The byte of a file at position p, found by walking the chain from the start. */
  function ByteAt(v: Volume, k: Cache, chain: seq<nat>, p: nat): Byte
    requires VolumeOk(v, |k.card|) && ChainOn(v, chain) && Index(v, p) < |chain|
  {
    DataBlockInRange(v, |k.card|, chain[Index(v, p)], p);
    View(k, DataBlock(v, chain[Index(v, p)], p))[p % 512]
  }

  /** Byte p of a file, told by the volume's geometry. */
  lemma ByteOnCard(v: Volume, k: Cache, chain: seq<nat>, p: nat)
    requires VolumeOk(v, |k.card|) && ChainOn(v, chain) && p / 512 / v.blocksPerCluster < |chain|
    ensures var n := v.blocksPerCluster; var b := v.dataStart + (chain[p / 512 / n] - 2) * n + p / 512 % n;
            0 <= b < |k.card| && ByteAt(v, k, chain, p) == View(k, b)[p % 512]
  {
    DataBlockInRange(v, |k.card|, chain[Index(v, p)], p);
  }

  // ---- the position invariant

  /** curCluster_ is the chain element holding byte curPosition_ - 1, or 0 at position 0. */
  predicate CurOk(v: Volume, chain: seq<nat>, pos: nat, cur: nat)
    requires 1 <= v.blocksPerCluster
  {
    if pos == 0 then cur == 0 else Index(v, pos - 1) < |chain| && cur == chain[Index(v, pos - 1)]
  }

  /** firstCluster_ starts the chain, and the chain is long enough for the size. */
  predicate FileOk(v: Volume, fat: seq<nat>, eoc: nat, chain: seq<nat>, first: nat, size: nat)
    requires 1 <= v.blocksPerCluster
  {
    && (first == 0 <==> chain == [])
    && (chain != [] ==> IsChain(fat, eoc, chain) && chain[0] == first)
    && (size > 0 ==> Index(v, size - 1) < |chain|)
  }

  lemma ChainStep(fat: seq<nat>, eoc: nat, chain: seq<nat>, i: nat)
    requires IsChain(fat, eoc, chain) && i < |chain| && |fat| <= eoc
    ensures 2 <= chain[i] < |fat| && (fat[chain[i]] >= eoc <==> i + 1 == |chain|)
    ensures i + 1 < |chain| ==> fat[chain[i]] == chain[i + 1]
  {
    assert IsCluster(fat, chain[i]);
    if i + 1 < |chain| {
      assert Links(fat, chain, i);
      assert IsCluster(fat, chain[i + 1]);
    }
  }

  lemma ChainIsOn(v: Volume, fat: seq<nat>, eoc: nat, chain: seq<nat>)
    requires 1 <= v.blocksPerCluster && |fat| == v.clusterCount + 2 && (chain != [] ==> IsChain(fat, eoc, chain))
    ensures ChainOn(v, chain)
  {
    forall i | 0 <= i < |chain| ensures 2 <= chain[i] < v.clusterCount + 2 {
      assert IsCluster(fat, chain[i]);
    }
  }

  /** After moving n bytes inside one block, the current cluster is the one the block is in. */
  lemma AdvanceInBlock(v: Volume, chain: seq<nat>, p: nat, n: nat, cur: nat)
    requires 1 <= v.blocksPerCluster && 1 <= n <= 512 - p % 512
    requires Index(v, p) < |chain| && cur == chain[Index(v, p)]
    ensures CurOk(v, chain, p + n, cur)
  {
    SameBlock(v, p, n - 1);
  }

  /** Inside a cluster, the current cluster already is the one the next byte is in. */
  lemma MidCluster(v: Volume, chain: seq<nat>, p: nat, cur: nat)
    requires 1 <= v.blocksPerCluster && CurOk(v, chain, p, cur) && !AtClusterStart(v, p)
    ensures Index(v, p) < |chain| && cur == chain[Index(v, p)]
  {
    IndexStep(v, p);
  }

  // ---- reading

  predicate ReadsByte(v: Volume, k: Cache, chain: seq<nat>, p0: nat, data: seq<Byte>, i: nat)
    requires VolumeOk(v, |k.card|) && ChainOn(v, chain) && i < |data|
  {
    Index(v, p0 + i) < |chain| && data[i] == ByteAt(v, k, chain, p0 + i)
  }

  /** `data` is the contents of the file from position p0 on. */
  ghost predicate ReadsAs(v: Volume, k: Cache, chain: seq<nat>, p0: nat, data: seq<Byte>)
    requires VolumeOk(v, |k.card|) && ChainOn(v, chain)
  {
    forall i :: 0 <= i < |data| ==> ReadsByte(v, k, chain, p0, data, i)
  }

  /** Neighbouring bytes of a block are neighbouring bytes of the file. */
  lemma ByteInBlock(v: Volume, k: Cache, chain: seq<nat>, p: nat, j: nat)
    requires VolumeOk(v, |k.card|) && ChainOn(v, chain) && Index(v, p) < |chain| && j < 512 - p % 512
    ensures Index(v, p + j) == Index(v, p) && DataBlock(v, chain[Index(v, p)], p) < |k.card|
    ensures ByteAt(v, k, chain, p + j) == View(k, DataBlock(v, chain[Index(v, p)], p))[p % 512 + j]
  {
    hide View;
    SameBlock(v, p, j);
    DataBlockInRange(v, |k.card|, chain[Index(v, p)], p);
    hide Index, BlockOfCluster;
  }

  lemma ReadChunk(v: Volume, k: Cache, chain: seq<nat>, p0: nat, data: seq<Byte>, n: nat, bytes: seq<Byte>)
    requires VolumeOk(v, |k.card|) && ChainOn(v, chain) && ReadsAs(v, k, chain, p0, data)
    requires var p := p0 + |data|;
      Index(v, p) < |chain| && n <= 512 - p % 512
    requires var p := p0 + |data|;
      DataBlock(v, chain[Index(v, p)], p) < |k.card| &&
      bytes == View(k, DataBlock(v, chain[Index(v, p)], p))[p % 512..p % 512 + n]
    ensures ReadsAs(v, k, chain, p0, data + bytes)
  {
    hide Index, BlockOfCluster, ByteAt, DataBlock, View;
    var p := p0 + |data|;
    var all := data + bytes;
    forall i | 0 <= i < |all| ensures ReadsByte(v, k, chain, p0, all, i) {
      if i < |data| {
        assert ReadsByte(v, k, chain, p0, data, i);
      } else {
        ByteInBlock(v, k, chain, p, i - |data|);
        assert p + (i - |data|) == p0 + i && (data + bytes)[i] == bytes[i - |data|];
      }
    }
  }
}
