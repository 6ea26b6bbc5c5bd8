/**
 The one-block write-back cache of SD/utility/SdVolume.cpp and the FAT entries
 seen through it. FAT16 and FAT32 entry formats follow the section "FAT Data
 Structure" of Microsoft's FAT32 File System Specification.
 */
module FatCache {
  import opened LittleEndian

  const BLOCK: nat := 512
  const NONE: nat := 0xFFFF_FFFF // cacheBlockNumber_ when nothing is cached

  type Block = b: seq<Byte> | |b| == BLOCK witness seq(BLOCK, i => 0)
  type Card = seq<Block>

  /** Fields of SdVolume that init() sets and nothing changes afterwards. */
  datatype Volume = Volume(
    fat32: bool, fatStart: nat, blocksPerFat: nat, fatCount: nat, clusterCount: nat,
    dataStart: nat, blocksPerCluster: nat)

  /** cacheBlockNumber_, cacheBuffer_, cacheDirty_, cacheMirrorBlock_, and the card below them. */
  datatype Cache = Cache(card: Card, block: nat, buf: Block, dirty: bool, mirror: nat)

  /** FAT entries in one block. */
  function PerBlock(v: Volume): nat {
    if v.fat32 then 128 else 256
  }

  predicate VolumeOk(v: Volume, cardSize: nat) {
    && 1 <= v.fatStart && 1 <= v.fatCount
    && v.fatStart + v.blocksPerFat <= cardSize < NONE
    && (2 <= v.fatCount ==> v.fatStart + 2 * v.blocksPerFat <= cardSize)
    && (v.clusterCount + 1) / PerBlock(v) < v.blocksPerFat
    && v.fatStart + (if 2 <= v.fatCount then 2 else 1) * v.blocksPerFat <= v.dataStart
    && 1 <= v.blocksPerCluster
    && v.dataStart + v.clusterCount * v.blocksPerCluster <= cardSize
    && v.clusterCount < (if v.fat32 then 0x0FFF_FFF6 else 65525)
  }

  function FatBlock(v: Volume, c: nat): nat {
    v.fatStart + c / PerBlock(v)
  }

  predicate InFat1(v: Volume, b: nat) {
    v.fatStart <= b < v.fatStart + v.blocksPerFat
  }

  predicate InFat2(v: Volume, b: nat) {
    2 <= v.fatCount && v.fatStart + v.blocksPerFat <= b < v.fatStart + 2 * v.blocksPerFat
  }

  /** Block contents as the program sees them. */
  function View(k: Cache, b: nat): Block
    requires b < |k.card|
  {
    if b == k.block then k.buf else k.card[b]
  }

  function Entry(v: Volume, b: Block, c: nat): nat {
    if v.fat32 then Get32(b, 4 * (c % 128)) % 0x1000_0000 else Get16(b, 2 * (c % 256))
  }

  function PutEntry(v: Volume, b: Block, c: nat, value: nat): Block {
    if v.fat32 then Put32(b, 4 * (c % 128), value % 0x1_0000_0000) else Put16(b, 2 * (c % 256), value % 0x1_0000)
  }

  /** What fatGet returns after fatPut stored `value`. */
  function Stored(v: Volume, value: nat): nat {
    if v.fat32 then value % 0x1000_0000 else value % 0x1_0000
  }

  /** The FAT as a table: entry c for every cluster number, 0 and 1 included. */
  ghost function Table(v: Volume, k: Cache): seq<nat>
    requires VolumeOk(v, |k.card|)
  {
    seq(v.clusterCount + 2, c requires 0 <= c < v.clusterCount + 2 =>
      FatBlockInRange(v, |k.card|, c); Entry(v, View(k, FatBlock(v, c)), c))
  }

  /** The FAT on the card: entry c is the 16-bit or 32-bit little-endian word number c, of which FAT32 uses 28 bits. */
  lemma TableOnCard(v: Volume, k: Cache, c: nat)
    requires VolumeOk(v, |k.card|) && c < v.clusterCount + 2
    ensures |Table(v, k)| == v.clusterCount + 2
    ensures !v.fat32 ==>
              var b := v.fatStart + 2 * c / 512; var at := 2 * c % 512;
              && b < |k.card| && at + 1 < 512
              && Table(v, k)[c] == View(k, b)[at] as int + 256 * (View(k, b)[at + 1] as int)
    ensures v.fat32 ==>
              var b := v.fatStart + 4 * c / 512; var at := 4 * c % 512;
              && b < |k.card| && at + 3 < 512
              && Table(v, k)[c] == View(k, b)[at] as int + 0x100 * (View(k, b)[at + 1] as int) +
                                   0x1_0000 * (View(k, b)[at + 2] as int) +
                                   0x100_0000 * (View(k, b)[at + 3] as int % 16)
  {
    FatBlockInRange(v, |k.card|, c);
    TableAt(v, k, c);
    hide VolumeOk, Table;
    WordPlace(c);
    if v.fat32 {
      Low28(View(k, FatBlock(v, c)), 4 * (c % 128));
    }
  }

  lemma TableAt(v: Volume, k: Cache, c: nat)
    requires VolumeOk(v, |k.card|) && c < v.clusterCount + 2
    ensures |Table(v, k)| == v.clusterCount + 2 && FatBlock(v, c) < |k.card|
    ensures Table(v, k)[c] == Entry(v, View(k, FatBlock(v, c)), c)
  {
    FatBlockInRange(v, |k.card|, c);
  }

  lemma WordPlace(c: nat)
    ensures 4 * c / 512 == c / 128 && 4 * c % 512 == 4 * (c % 128)
    ensures 2 * c / 512 == c / 256 && 2 * c % 512 == 2 * (c % 256)
  {
  }

  lemma Low28(b: Block, at: nat)
    requires at + 4 <= BLOCK
    ensures Get32(b, at) % 0x1000_0000 ==
            b[at] as int + 0x100 * (b[at + 1] as int) + 0x1_0000 * (b[at + 2] as int) +
            0x100_0000 * (b[at + 3] as int % 16)
  {
    var low := b[at] as int + 0x100 * (b[at + 1] as int) + 0x1_0000 * (b[at + 2] as int);
    var q, r := b[at + 3] as int / 16, b[at + 3] as int % 16;
    assert Get32(b, at) == 0x1000_0000 * q + (low + 0x100_0000 * r);
    assert 0 <= low + 0x100_0000 * r < 0x1000_0000;
  }

  lemma TableSize(v: Volume, k: Cache)
    requires VolumeOk(v, |k.card|)
    ensures |Table(v, k)| == v.clusterCount + 2
  {
  }

  lemma FatBlockInRange(v: Volume, cardSize: nat, c: nat)
    requires VolumeOk(v, cardSize) && c < v.clusterCount + 2
    ensures InFat1(v, FatBlock(v, c)) && FatBlock(v, c) < cardSize
    ensures FatBlock(v, c) + v.blocksPerFat < v.fatStart + 2 * v.blocksPerFat
    ensures 2 <= v.fatCount ==> FatBlock(v, c) + v.blocksPerFat < cardSize
  {
  }

  /**
   A clean cache agrees with the card (a dirty cache may have lost its block number,
   see SdFile.Write); a pending mirror write belongs to the cached
   FAT block; and every block of the second FAT equals its original, except the one
   whose write is pending.
   */
  ghost predicate CacheOk(v: Volume, k: Cache) {
    && VolumeOk(v, |k.card|)
    && (k.block == NONE || k.block < |k.card|)
    && (k.block < |k.card| && !k.dirty ==> k.buf == k.card[k.block])
    && !InFat2(v, k.block)
    && (k.mirror != 0 <==> k.dirty && InFat1(v, k.block) && 2 <= v.fatCount)
    && (k.mirror != 0 ==> k.mirror == k.block + v.blocksPerFat)
    && (2 <= v.fatCount ==>
          forall b: nat :: InFat1(v, b) && !(k.dirty && b == k.block) ==> Mirrored(v, k, b))
  }

  predicate Mirrored(v: Volume, k: Cache, b: nat)
    requires VolumeOk(v, |k.card|) && 2 <= v.fatCount && InFat1(v, b)
  {
    k.card[b + v.blocksPerFat] == k.card[b]
  }

  /** Every block outside the second FAT reads the same. */
  ghost predicate SameView(v: Volume, k: Cache, k': Cache) {
    && |k.card| == |k'.card|
    && forall b :: 0 <= b < |k.card| && !InFat2(v, b) ==> View(k', b) == View(k, b)
  }

  lemma SameViewSameTable(v: Volume, k: Cache, k': Cache)
    requires VolumeOk(v, |k.card|) && SameView(v, k, k')
    ensures Table(v, k') == Table(v, k)
  {
    forall c | 0 <= c < v.clusterCount + 2 ensures Table(v, k')[c] == Table(v, k)[c] {
      FatBlockInRange(v, |k.card|, c);
      assert View(k', FatBlock(v, c)) == View(k, FatBlock(v, c));
    }
  }

  /** The FAT does not depend on blocks outside it. */
  lemma SameViewSameTableBut(v: Volume, k: Cache, k': Cache, b: nat)
    requires VolumeOk(v, |k.card|) && |k'.card| == |k.card| && !InFat1(v, b)
    requires forall n :: 0 <= n < |k.card| && !InFat2(v, n) && n != b ==> View(k', n) == View(k, n)
    ensures Table(v, k') == Table(v, k)
  {
    forall c | 0 <= c < v.clusterCount + 2 ensures Table(v, k')[c] == Table(v, k)[c] {
      FatBlockInRange(v, |k.card|, c);
      assert View(k', FatBlock(v, c)) == View(k, FatBlock(v, c));
    }
  }

  /** Storing an entry changes that entry of the table and nothing else. */
  lemma PutEntryTable(v: Volume, k: Cache, k': Cache, c: nat, value: nat)
    requires VolumeOk(v, |k.card|) && c < v.clusterCount + 2 && |k'.card| == |k.card|
    requires View(k', FatBlock(v, c)) == PutEntry(v, View(k, FatBlock(v, c)), c, value)
    requires forall b :: 0 <= b < |k.card| && !InFat2(v, b) && b != FatBlock(v, c) ==> View(k', b) == View(k, b)
    ensures Table(v, k') == Table(v, k)[c := Stored(v, value)]
  {
    forall d | 0 <= d < v.clusterCount + 2
      ensures Table(v, k')[d] == if d == c then Stored(v, value) else Table(v, k)[d]
    {
      FatBlockInRange(v, |k.card|, d);
      if FatBlock(v, d) == FatBlock(v, c) {
        PutEntryEntry(v, View(k, FatBlock(v, c)), c, value, d);
      }
    }
  }

  lemma MaskAgain(value: nat)
    ensures value % 0x1_0000_0000 % 0x1000_0000 == value % 0x1000_0000
  {
    assert value == value / 0x1_0000_0000 * 16 * 0x1000_0000 + value % 0x1_0000_0000;
  }

  /** Two clusters in one FAT block are the same or have different slots. */
  lemma SlotsDiffer(c: nat, d: nat, n: nat)
    requires 0 < n && c / n == d / n
    ensures c % n == d % n <==> c == d
  {
    assert c == c / n * n + c % n && d == d / n * n + d % n;
  }

  lemma PutEntryEntry(v: Volume, b: Block, c: nat, value: nat, d: nat)
    requires FatBlock(v, c) == FatBlock(v, d)
    ensures Entry(v, PutEntry(v, b, c, value), d) == if d == c then Stored(v, value) else Entry(v, b, d)
  {
    hide Get32, Put32, Get16, Put16;
    SlotsDiffer(c, d, PerBlock(v));
    if v.fat32 {
      PutGet32(b, 4 * (c % 128), value % 0x1_0000_0000, 4 * (d % 128));
      MaskAgain(value);
    } else {
      PutGet16(b, 2 * (c % 256), value % 0x1_0000, 2 * (d % 256));
    }
  }

  // ---- the card writes of cacheFlush

  /** Writing the cached dirty block home, even badly, does not change what the program sees. */
  lemma WriteHome(v: Volume, k: Cache, x: Block)
    requires CacheOk(v, k) && k.dirty && k.block < |k.card|
    ensures var k' := k.(card := k.card[k.block := x]);
      CacheOk(v, k') && SameView(v, k, k')
  {
    var k' := k.(card := k.card[k.block := x]);
    if 2 <= v.fatCount {
      forall b: nat | InFat1(v, b) && b != k.block ensures Mirrored(v, k', b) {
        assert Mirrored(v, k, b);
        assert b + v.blocksPerFat != k.block by { assert InFat2(v, b + v.blocksPerFat); }
      }
    }
  }

  lemma WriteMirror(v: Volume, k: Cache, x: Block)
    requires CacheOk(v, k) && k.mirror != 0
    ensures k.mirror < |k.card|
    ensures var k' := k.(card := k.card[k.mirror := x]);
      CacheOk(v, k') && SameView(v, k, k')
  {
    var k' := k.(card := k.card[k.mirror := x]);
    forall b: nat | InFat1(v, b) && b != k.block ensures Mirrored(v, k', b) {
      assert Mirrored(v, k, b);
    }
  }

  lemma MarkClean(v: Volume, k: Cache)
    requires CacheOk(v, k) && k.dirty && k.block < |k.card| && k.card[k.block] == k.buf
    requires k.mirror != 0 ==> k.mirror < |k.card| && k.card[k.mirror] == k.buf
    ensures var k' := k.(dirty := false, mirror := 0);
      CacheOk(v, k') && SameView(v, k, k')
  {
    var k' := k.(dirty := false, mirror := 0);
    if 2 <= v.fatCount {
      forall b: nat | InFat1(v, b) ensures Mirrored(v, k', b) {
        assert b != k.block ==> Mirrored(v, k, b);
      }
    }
  }

  /** Both copies of the FAT are on the card, equal, and up to date. */
  ghost predicate Synced(v: Volume, k: Cache) {
    && VolumeOk(v, |k.card|)
    && (forall b :: 0 <= b < |k.card| && !InFat2(v, b) ==> k.card[b] == View(k, b))
    && (2 <= v.fatCount ==> forall b: nat :: InFat1(v, b) ==> Mirrored(v, k, b))
  }

  lemma CleanIsSynced(v: Volume, k: Cache)
    requires CacheOk(v, k) && !k.dirty
    ensures Synced(v, k)
  {
  }

  // ---- changes of the cached block

  lemma LoadBlock(v: Volume, k: Cache, b: nat)
    requires CacheOk(v, k) && !k.dirty && b < |k.card| && !InFat2(v, b)
    ensures var k' := k.(block := b, buf := k.card[b]);
      CacheOk(v, k') && SameView(v, k, k')
  {
    var k' := k.(block := b, buf := k.card[b]);
    if 2 <= v.fatCount {
      forall x: nat | InFat1(v, x) ensures Mirrored(v, k', x) {
        assert Mirrored(v, k, x);
      }
    }
  }

  /** Putting new contents for a block that is not part of a FAT into the clean cache. */
  lemma ReplaceBlock(v: Volume, k: Cache, b: nat, x: Block)
    requires CacheOk(v, k) && !k.dirty && b < |k.card| && !InFat2(v, b) && !InFat1(v, b)
    ensures var k' := k.(block := b, buf := x, dirty := true);
      CacheOk(v, k') && forall n :: 0 <= n < |k.card| ==> View(k', n) == if n == b then x else View(k, n)
  {
    var k' := k.(block := b, buf := x, dirty := true);
    if 2 <= v.fatCount {
      forall y: nat | InFat1(v, y) ensures Mirrored(v, k', y) {
        assert Mirrored(v, k, y);
      }
    }
  }

  lemma MarkDirty(v: Volume, k: Cache)
    requires CacheOk(v, k) && k.block < |k.card| && !InFat1(v, k.block)
    ensures CacheOk(v, k.(dirty := true)) && SameView(v, k, k.(dirty := true))
  {
    var k' := k.(dirty := true);
    if 2 <= v.fatCount {
      forall x: nat | InFat1(v, x) ensures Mirrored(v, k', x) {
        assert Mirrored(v, k, x);
      }
    }
  }

  /** fatPut on the cached block. */
  function StoreEntry(v: Volume, k: Cache, c: nat, value: nat): Cache {
    k.(buf := PutEntry(v, k.buf, c, value), dirty := true,
       mirror := if v.fatCount > 1 then FatBlock(v, c) + v.blocksPerFat else k.mirror)
  }

  lemma StoreEntryOk(v: Volume, k: Cache, c: nat, value: nat)
    requires CacheOk(v, k) && c < v.clusterCount + 2 && k.block == FatBlock(v, c)
    ensures CacheOk(v, StoreEntry(v, k, c, value))
    ensures Table(v, StoreEntry(v, k, c, value)) == Table(v, k)[c := Stored(v, value)]
    ensures forall b :: 0 <= b < |k.card| && b != FatBlock(v, c) ==> View(StoreEntry(v, k, c, value), b) == View(k, b)
  {
    FatBlockInRange(v, |k.card|, c);
    var k' := StoreEntry(v, k, c, value);
    if 2 <= v.fatCount {
      forall x: nat | InFat1(v, x) && x != k.block ensures Mirrored(v, k', x) {
        assert Mirrored(v, k, x);
      }
    }
    PutEntryTable(v, k, k', c, value);
  }

  lemma CachedEntry(v: Volume, k: Cache, c: nat)
    requires CacheOk(v, k) && c < v.clusterCount + 2 && k.block == FatBlock(v, c)
    ensures Entry(v, k.buf, c) == Table(v, k)[c]
  {
    FatBlockInRange(v, |k.card|, c);
  }

  /** Changing the cached dirty block, when it is not part of a FAT. */
  lemma EditCached(v: Volume, k: Cache, x: Block)
    requires CacheOk(v, k) && k.dirty && k.block < |k.card| && !InFat1(v, k.block)
    ensures CacheOk(v, k.(buf := x))
    ensures forall n :: 0 <= n < |k.card| && n != k.block ==> View(k.(buf := x), n) == View(k, n)
  {
    var k' := k.(buf := x);
    if 2 <= v.fatCount {
      forall y: nat | InFat1(v, y) ensures Mirrored(v, k', y) {
        assert Mirrored(v, k, y);
      }
    }
  }

  /** Writing a block outside the FATs straight to the card; if it was cached the cache forgets its number. */
  lemma DirectWrite(v: Volume, k: Cache, b: nat, x: Block)
    requires CacheOk(v, k) && b < |k.card| && !InFat1(v, b) && !InFat2(v, b)
    ensures var k' := k.(card := k.card[b := x], block := if k.block == b then NONE else k.block);
      && CacheOk(v, k')
      && View(k', b) == x
      && forall n :: 0 <= n < |k.card| && n != b ==> View(k', n) == View(k, n)
  {
    var k' := k.(card := k.card[b := x], block := if k.block == b then NONE else k.block);
    if 2 <= v.fatCount {
      forall y: nat | InFat1(v, y) && !(k.dirty && y == k.block) ensures Mirrored(v, k', y) {
        assert Mirrored(v, k, y);
        assert InFat2(v, y + v.blocksPerFat);
      }
    }
  }
}
