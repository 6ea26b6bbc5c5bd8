/**
 The cache and FAT operations of SD/utility/SdVolume.cpp. Reads and writes of the
 card can fail at any time; a failed write may leave anything in the block it was
 writing.
 */
module SdVolume {
  import opened LittleEndian
  import opened Sequences
  import opened FatCache
  import opened FatChain

  /** The smallest entry that isEOC accepts, and the entry that fatPutEOC leaves. */
  function EocMin(v: Volume): nat {
    if v.fat32 then 0x0FFF_FFF8 else 0xFFF8
  }

  function EocMark(v: Volume): nat {
    Stored(v, 0x0FFF_FFFF)
  }

  /** Blocks outside both FATs: directories and file data. */
  ghost predicate SameData(v: Volume, k: Cache, k': Cache) {
    && |k.card| == |k'.card|
    && forall b :: 0 <= b < |k.card| && !InFat1(v, b) && !InFat2(v, b) ==> View(k', b) == View(k, b)
  }

  class SdVolume {
    const v: Volume
    var card: Card
    var cacheBlock: nat
    var cacheBuf: Block
    var cacheDirty: bool
    var cacheMirror: nat
    var searchStart: nat // allocSearchStart_
    ghost var ioErrors: nat

    ghost function K(): Cache
      reads this
    {
      Cache(card, cacheBlock, cacheBuf, cacheDirty, cacheMirror)
    }

    ghost predicate Consistent()
      reads this
    {
      VolumeOk(v, |card|) && CacheOk(v, K())
    }

    /** The FAT as the program sees it. */
    ghost function Fat(): seq<nat>
      requires VolumeOk(v, |card|)
      reads this
    {
      Table(v, K())
    }

    /** Between operations the cluster before the next search start is in use, so no free run crosses the start. */
    ghost predicate Valid()
      reads this
    {
      Consistent() && StartOk(Fat(), searchStart)
    }

    constructor (v: Volume, card: Card)
      requires VolumeOk(v, |card|)
      requires 2 <= v.fatCount ==>
                 forall b: nat :: InFat1(v, b) ==> Mirrored(v, Cache(card, NONE, card[0], false, 0), b)
      ensures Valid() && this.v == v && this.card == card && K().block == NONE
    {
      this.v, this.card := v, card;
      cacheBlock, cacheBuf, cacheDirty, cacheMirror := NONE, card[0], false, 0;
      searchStart := 2;
    }

    /** The card refuses block numbers that it does not have. */
    method WriteBlock(b: nat, data: Block) returns (ok: bool)
      modifies this`card, this`ioErrors
      ensures |card| == |old(card)|
      ensures b < |card| ==> card == old(card)[b := card[b]] && (ok ==> card[b] == data)
      ensures b >= |card| ==> card == old(card) && !ok
      ensures ioErrors == old(ioErrors) + if ok then 0 else 1
    {
      ok := *;
      ok := ok && b < |card|;
      var x: Block := data;
      if !ok {
        x := *;
        ioErrors := ioErrors + 1;
      }
      if b < |card| {
        card := card[b := x];
      }
    }

    method ReadBlock(b: nat) returns (ok: bool, data: Block)
      requires b < |card|
      modifies this`ioErrors
      ensures ok ==> data == card[b]
      ensures ioErrors == old(ioErrors) + if ok then 0 else 1
    {
      ok, data := *, card[b];
      if !ok {
        ioErrors := ioErrors + 1;
      }
    }

    /** Reads part of a block without the cache. */
    method ReadData(b: nat, offset: nat, count: nat) returns (ok: bool, bytes: seq<Byte>)
      requires b < |card| && offset + count <= BLOCK
      modifies this`ioErrors
      ensures ok ==> bytes == card[b][offset..offset + count]
      ensures ioErrors == old(ioErrors) + if ok then 0 else 1
    {
      ok, bytes := *, card[b][offset..offset + count];
      if !ok {
        ioErrors := ioErrors + 1;
      }
    }

    /** After a successful flush the card holds everything and the second FAT equals the first. */
    method CacheFlush() returns (ok: bool)
      requires Consistent()
      modifies this`card, this`cacheDirty, this`cacheMirror, this`ioErrors
      ensures Consistent() && SameView(v, old(K()), K())
      ensures ok ==> !cacheDirty && Synced(v, K())
      ensures old(cacheDirty) && cacheBlock == NONE ==> !ok && cacheDirty
      ensures !old(cacheDirty) ==> !cacheDirty && card == old(card)
      ensures ok == (ioErrors == old(ioErrors)) && ioErrors >= old(ioErrors)
    {
      hide CacheOk, SameView, Synced;
      SameViewRefl(v, K());
      if cacheDirty {
        ghost var k0 := K();
        ok := WriteBlock(cacheBlock, cacheBuf);
        if cacheBlock < |card| {
          WriteHome(v, k0, card[k0.block]);
        }
        if !ok {
          return false;
        }
        if cacheMirror != 0 {
          ghost var k1 := K();
          WriteMirror(v, k1, cacheBuf);
          ok := WriteBlock(cacheMirror, cacheBuf);
          WriteMirror(v, k1, card[k1.mirror]);
          SameViewTrans(v, k0, k1, K());
          if !ok {
            return false;
          }
        }
        ghost var k2 := K();
        MarkClean(v, k2);
        cacheMirror := 0;
        cacheDirty := false;
        SameViewTrans(v, k0, k2, K());
      }
      CleanIsSynced(v, K());
      ok := true;
    }

    /** Brings a block into the cache; `write` marks it dirty. FAT blocks are only ever changed by FatPut. */
    method CacheRawBlock(b: nat, write: bool) returns (ok: bool)
      requires Consistent() && b < |card| && !InFat2(v, b) && (write ==> !InFat1(v, b))
      modifies this`card, this`cacheBlock, this`cacheBuf, this`cacheDirty, this`cacheMirror, this`ioErrors
      ensures Consistent() && SameView(v, old(K()), K())
      ensures ok ==> cacheBlock == b && cacheBuf == View(old(K()), b) && (write ==> cacheDirty)
      ensures old(cacheDirty) && old(cacheBlock) == NONE ==> !ok && cacheDirty && cacheBlock == NONE
      ensures !old(cacheDirty) && !write ==> !cacheDirty && card == old(card)
      ensures ok == (ioErrors == old(ioErrors)) && ioErrors >= old(ioErrors)
    {
      hide CacheOk, Synced;
      ghost var k0 := K();
      if cacheBlock != b {
        ok := CacheFlush();
        if !ok {
          return false;
        }
        var data;
        ok, data := ReadBlock(b);
        if !ok {
          return false;
        }
        LoadBlock(v, K(), b);
        SameViewTrans(v, k0, K(), K().(block := b, buf := data));
        cacheBuf := data;
        cacheBlock := b;
      }
      if write {
        MarkDirty(v, K());
        SameViewTrans(v, k0, K(), K().(dirty := true));
        cacheDirty := true;
      }
      ok := true;
    }

    /** Caches a zero block for `b` without reading the card. */
    method CacheZeroBlock(b: nat) returns (ok: bool)
      requires Consistent() && b < |card| && !InFat1(v, b) && !InFat2(v, b)
      modifies this`card, this`cacheBlock, this`cacheBuf, this`cacheDirty, this`cacheMirror, this`ioErrors
      ensures Consistent() && |card| == |old(card)| && Fat() == old(Fat())
      ensures ok ==> cacheBlock == b && cacheDirty
      ensures ok ==> forall i :: 0 <= i < BLOCK ==> View(K(), b)[i] == 0
      ensures forall n :: 0 <= n < |card| && !InFat2(v, n) && !(ok && n == b) ==> View(K(), n) == View(old(K()), n)
    {
      hide CacheOk, Synced, Table;
      ghost var k0 := K();
      ok := CacheFlush();
      SameViewSameTable(v, k0, K());
      if !ok {
        return;
      }
      ghost var k1 := K();
      var buf := cacheBuf;
      for i := 0 to BLOCK
        invariant forall j :: 0 <= j < i ==> buf[j] == 0
      {
        buf := buf[i := 0];
      }
      ReplaceBlock(v, k1, b, buf);
      cacheBuf := buf;
      cacheBlock := b;
      cacheDirty := true;
      SameViewSameTableBut(v, k1, K(), b);
    }

    /** Reads a FAT entry: exactly table lookup, for every cluster number of the FAT and no other. */
    method FatGet(c: nat) returns (ok: bool, value: nat)
      requires Consistent()
      modifies this`card, this`cacheBlock, this`cacheBuf, this`cacheDirty, this`cacheMirror, this`ioErrors
      ensures Consistent() && SameView(v, old(K()), K()) && Fat() == old(Fat())
      ensures ok ==> c < v.clusterCount + 2 && value == Fat()[c]
      ensures !old(cacheDirty) ==> !cacheDirty && card == old(card)
      ensures ok == (c < v.clusterCount + 2 && ioErrors == old(ioErrors)) && ioErrors >= old(ioErrors)
    {
      hide CacheOk, SameView, Table;
      value := 0;
      SameViewRefl(v, K());
      if c > v.clusterCount + 1 {
        return false, 0;
      }
      FatBlockInRange(v, |card|, c);
      var lba := v.fatStart + c / PerBlock(v);
      if lba != cacheBlock {
        ok := CacheRawBlock(lba, false);
        SameViewSameTable(v, old(K()), K());
        if !ok {
          return false, 0;
        }
      }
      CachedEntry(v, K(), c);
      value := if v.fat32 then Get32(cacheBuf, 4 * (c % 128)) % 0x1000_0000 else Get16(cacheBuf, 2 * (c % 256));
      ok := true;
    }

    /** Stores a FAT entry: exactly table update, refused for the reserved clusters and outside the FAT. */
    method FatPut(c: nat, value: nat) returns (ok: bool)
      requires Consistent()
      modifies this`card, this`cacheBlock, this`cacheBuf, this`cacheDirty, this`cacheMirror, this`ioErrors
      ensures Consistent() && |card| == |old(card)|
      ensures ok == (2 <= c < v.clusterCount + 2 && ioErrors == old(ioErrors)) && ioErrors >= old(ioErrors)
      ensures Fat() == if ok then old(Fat())[c := Stored(v, value)] else old(Fat())
      ensures SameData(v, old(K()), K())
    {
      hide CacheOk, Table;
      if c < 2 {
        return false;
      }
      if c > v.clusterCount + 1 {
        return false;
      }
      FatBlockInRange(v, |card|, c);
      var lba := v.fatStart + c / PerBlock(v);
      if lba != cacheBlock {
        ok := CacheRawBlock(lba, false);
        SameViewSameTable(v, old(K()), K());
        if !ok {
          return false;
        }
      }
      StoreEntryOk(v, K(), c, value);
      ghost var k1 := K();
      if v.fat32 {
        cacheBuf := Put32(cacheBuf, 4 * (c % 128), value % 0x1_0000_0000);
      } else {
        cacheBuf := Put16(cacheBuf, 2 * (c % 256), value % 0x1_0000);
      }
      cacheDirty := true;
      if v.fatCount > 1 {
        cacheMirror := lba + v.blocksPerFat;
      }
      assert K() == StoreEntry(v, k1, c, value);
      ok := true;
    }

    /** The search loop of allocContiguous. */
    method FindRun(count: nat, start: nat) returns (ok: bool, bgn: nat)
      requires Consistent() && 2 <= start
      modifies this`card, this`cacheBlock, this`cacheBuf, this`cacheDirty, this`cacheMirror, this`ioErrors
      ensures Consistent() && SameView(v, old(K()), K()) && Fat() == old(Fat())
      ensures ok ==> 1 <= count && FreeRun(Fat(), bgn, count) && ioErrors == old(ioErrors)
      ensures ok ==> !NothingFound(Fat(), count, start) && FirstFrom(Fat(), count, start, bgn)
      ensures !ok && 1 <= count && ioErrors == old(ioErrors) ==> NothingFound(Fat(), count, start)
      ensures ioErrors >= old(ioErrors)
    {
      hide CacheOk, SameView, Table, SearchInv, NothingFound, FreeRun, NoRun, FirstFrom;
      TableSize(v, K());
      ghost var fat := Fat();
      SameViewRefl(v, K());
      var end: nat;
      bgn, end := start, start;
      var n: nat := 0;
      ghost var wrapped := false;
      if 1 <= count {
        SearchStart(fat, count, start);
      }
      while true
        invariant Consistent() && SameView(v, old(K()), K()) && Fat() == fat && ioErrors == old(ioErrors)
        invariant 2 <= bgn <= end && n <= v.clusterCount
        invariant end > |fat| ==> n == 0 && end == start && !wrapped
        invariant 1 <= count ==> SearchInv(fat, count, start, wrapped, Clamp(|fat|, bgn), Clamp(|fat|, end), n)
        decreases v.clusterCount - n
      {
        if n >= v.clusterCount {
          if 1 <= count {
            SearchFailed(fat, count, start, wrapped, Clamp(|fat|, bgn), Clamp(|fat|, end), n);
          }
          return false, bgn;
        }
        if end > v.clusterCount + 1 {
          if 1 <= count {
            SearchWrap(fat, count, start, wrapped, Clamp(|fat|, bgn), n);
          }
          wrapped := true;
          bgn, end := 2, 2;
        }
        ghost var k0 := K();
        var f: nat;
        ok, f := FatGet(end);
        SameViewTrans(v, old(K()), k0, K());
        if !ok {
          return false, bgn;
        }
        if f != 0 {
          if 1 <= count {
            SearchUsed(fat, count, start, wrapped, bgn, end, n);
          }
          bgn := end + 1;
        } else if end - bgn + 1 == count {
          SearchFound(fat, count, start, wrapped, bgn, end, n);
          return true, bgn;
        } else if 1 <= count {
          SearchFree(fat, count, start, wrapped, bgn, end, n);
        }
        n := n + 1;
        end := end + 1;
      }
    }

    /** The linking loop of allocContiguous: the run, in ascending order, to the end mark. */
    method LinkClusters(bgn: nat, count: nat) returns (ok: bool)
      requires Consistent() && 1 <= count && FreeRun(Fat(), bgn, count)
      modifies this`card, this`cacheBlock, this`cacheBuf, this`cacheDirty, this`cacheMirror, this`ioErrors
      ensures Consistent() && SameData(v, old(K()), K())
      ensures ok ==> Fat() == LinkRun(old(Fat()), bgn, count, EocMark(v))
      ensures UsedKept(old(Fat()), Fat())
      ensures ok == (ioErrors == old(ioErrors)) && ioErrors >= old(ioErrors)
    {
      hide CacheOk, Table, LinkRun, SameData, UsedKept;
      TableSize(v, K());
      ghost var fat, k0, last := Fat(), K(), bgn + count - 1;
      var end := bgn + count - 1;
      UsedKeptRefl(fat);
      ok := FatPut(end, 0x0FFF_FFFF);
      if !ok {
        return;
      }
      LinkRunOne(fat, end, EocMark(v));
      LinkRunKeepsUsed(fat, bgn, count, count - 1, EocMark(v));
      while end > bgn
        invariant Consistent() && SameData(v, k0, K()) && ioErrors == old(ioErrors)
        invariant bgn <= end <= last
        invariant Fat() == LinkRun(fat, end, last - end + 1, EocMark(v)) && UsedKept(fat, Fat())
      {
        ghost var k1 := K();
        ok := FatPut(end - 1, end);
        SameDataTrans(v, k0, k1, K());
        if !ok {
          return;
        }
        LinkRunStep(fat, end, last - end + 1, EocMark(v));
        LinkRunKeepsUsed(fat, bgn, count, end - 1 - bgn, EocMark(v));
        StoredCluster(v, end);
        end := end - 1;
      }
      ok := true;
    }

    /**
     allocContiguous. On success the run r .. r + count - 1 was free and is now a chain,
     linked after cluster `cur` unless that is 0. Without I/O errors, for `cur` 0 or in use,
     it succeeds exactly when there is a free run of `count` clusters anywhere.
     */
    method AllocContiguous(count: nat, cur: nat) returns (ok: bool, r: nat)
      requires Valid()
      modifies this
      ensures Valid() && SameData(v, old(K()), K()) && |Fat()| == |old(Fat())|
      ensures ok ==> 1 <= count && FreeRun(old(Fat()), r, count) && (cur == 0 || IsCluster(old(Fat()), cur))
      ensures ok ==> Fat() == Allocate(old(Fat()), cur, r, count, EocMark(v)) && ioErrors == old(ioErrors)
      ensures !ok ==> UsedKept(old(Fat()), Fat())
      ensures ioErrors == old(ioErrors) && (cur == 0 || IsUsed(old(Fat()), cur)) ==>
                (ok <==> 1 <= count && HasRun(old(Fat()), count)) && (!ok ==> Fat() == old(Fat()))
      ensures !ok && ioErrors == old(ioErrors) && 1 <= count && (cur == 0 || IsCluster(old(Fat()), cur)) ==>
        && NothingFound(old(Fat()), count, if cur == 0 then old(searchStart) else cur + 1)
        && Fat() == old(Fat())
      ensures ok ==> !NothingFound(old(Fat()), count, if cur == 0 then old(searchStart) else cur + 1)
      ensures ok ==> FirstFrom(old(Fat()), count, if cur == 0 then old(searchStart) else cur + 1, r)
      ensures searchStart == if ok && cur == 0 && count == 1 then r + 1 else old(searchStart)
      ensures ioErrors >= old(ioErrors)
    {
      hide CacheOk, Table, LinkRun, SameData, UsedKept, NothingFound, FreeRun, HasRun, StartOk, Allocate, FirstFrom;
      TableSize(v, K());
      ghost var fat, k0 := Fat(), K();
      var start, setStart := cur + 1, false;
      if cur == 0 {
        start := searchStart;
        setStart := 1 == count;
      }
      UsedKeptRefl(fat);
      StartBounds(fat, searchStart);
      if 1 <= count && (cur == 0 || IsUsed(fat, cur)) {
        FailsIffNoRun(fat, count, start);
      }
      ok, r := FindRun(count, start);
      SameViewIsSameData(v, k0, K());
      if !ok {
        return;
      }
      ghost var k1 := K();
      ok := LinkClusters(r, count);
      SameDataTrans(v, k0, k1, K());
      TableSize(v, K());
      StartKept(fat, Fat(), searchStart);
      if !ok {
        return;
      }
      RunBounds(fat, r, count);
      StoredCluster(v, r);
      if cur != 0 {
        ghost var k2, linked := K(), Fat();
        ok := FatPut(cur, r);
        SameDataTrans(v, k0, k2, K());
        TableSize(v, K());
        if !ok {
          return;
        }
        StartLinked(linked, cur, r, searchStart);
      }
      AllocateIs(fat, cur, r, count, EocMark(v));
      if setStart {
        searchStart := r + 1;
      }
    }

    /**
     freeChain. It stops on every FAT contents. Without I/O errors it succeeds exactly
     when a chain starts at c, and then frees that chain and nothing else.
     */
    method FreeChain(c: nat) returns (ok: bool, ghost path: seq<nat>)
      requires Valid()
      modifies this
      ensures Valid() && SameData(v, old(K()), K()) && searchStart == 2
      ensures Fat() == Zero(old(Fat()), path)
      ensures ok ==> IsChain(old(Fat()), EocMin(v), path) && path[0] == c && ioErrors == old(ioErrors)
      ensures !ok && ioErrors == old(ioErrors) ==> NoChain(old(Fat()), EocMin(v), c)
      ensures ioErrors >= old(ioErrors)
    {
      hide CacheOk, Table, SameData, Zero, FreeWalk, IsChain;
      TableSize(v, K());
      searchStart := 2;
      ghost var fat, k0, eoc := Fat(), K(), EocMin(v);
      path := [];
      ghost var doomed := false;
      var cluster := c;
      WalkStart(fat, c);
      SameViewIsSameData(v, k0, K());
      while true
        invariant Consistent() && SameData(v, k0, K()) && searchStart == 2 && ioErrors == old(ioErrors)
        invariant Fat() == Zero(fat, path)
        invariant if doomed then cluster == 0 && NoChain(fat, eoc, c) else FreeWalk(fat, c, path, cluster)
        invariant path != [] ==> cluster < eoc
        decreases Unvisited(fat, path), !doomed
      {
        ghost var k1 := K();
        var next: nat;
        ok, next := FatGet(cluster);
        SameDataTrans(v, k0, k1, K());
        if !ok {
          if !doomed && ioErrors == old(ioErrors) {
            OutsideFat(fat, eoc, c, path, cluster);
          }
          return;
        }
        ghost var k2 := K();
        ok := FatPut(cluster, 0);
        SameDataTrans(v, k0, k2, K());
        if !ok {
          if !doomed && ioErrors == old(ioErrors) {
            BrokenWalk(fat, eoc, c, path, cluster);
          }
          return;
        }
        if cluster in path {
          RevisitWalk(fat, c, path, cluster);
          CyclicWalk(fat, eoc, c, path, cluster);
          doomed := true;
        } else {
          ExtendWalk(fat, c, path, cluster);
          ghost var before := path;
          path := path + [cluster];
          UnvisitedShrinks(fat, before, cluster);
        }
        cluster := next;
        if cluster >= (if v.fat32 then 0x0FFF_FFF8 else 0xFFF8) {
          WalkIsChain(fat, eoc, c, path, cluster);
          return true, path;
        }
      }
    }
  }

  lemma RunBounds(fat: seq<nat>, bgn: nat, n: nat)
    requires FreeRun(fat, bgn, n) && 1 <= n
    ensures 2 <= bgn < |fat|
  {
  }

  /** What AllocContiguous needs of Allocate: its definition, and that a run of one leaves its cluster in use. */
  lemma AllocateIs(fat: seq<nat>, cur: nat, r: nat, count: nat, mark: nat)
    requires FreeRun(fat, r, count) && 1 <= count && 1 <= mark && (cur == 0 || cur < |fat|)
    ensures var linked := LinkRun(fat, r, count, mark);
            && |linked| == |fat|
            && Allocate(fat, cur, r, count, mark) == (if cur == 0 then linked else linked[cur := r])
            && (count == 1 ==> StartOk(linked, r + 1))
  {
  }

  lemma StartBounds(fat: seq<nat>, start: nat)
    requires StartOk(fat, start)
    ensures 2 <= start
  {
  }

  lemma StartKept(fat: seq<nat>, fat': seq<nat>, start: nat)
    requires StartOk(fat, start) && UsedKept(fat, fat')
    ensures StartOk(fat', start)
  {
  }

  lemma StartLinked(fat: seq<nat>, cur: nat, r: nat, start: nat)
    requires StartOk(fat, start) && cur < |fat| && 1 <= r
    ensures StartOk(fat[cur := r], start)
  {
  }

  lemma UsedKeptRefl(fat: seq<nat>)
    ensures UsedKept(fat, fat)
  {
  }

  lemma StoredCluster(v: Volume, c: nat)
    requires c < v.clusterCount + 2 && v.clusterCount < (if v.fat32 then 0x0FFF_FFF6 else 65525)
    ensures Stored(v, c) == c
  {
  }

  lemma SameViewIsSameData(v: Volume, k: Cache, k': Cache)
    requires SameView(v, k, k')
    ensures SameData(v, k, k')
  {
  }

  lemma SameDataTrans(v: Volume, a: Cache, b: Cache, c: Cache)
    requires SameData(v, a, b) && (SameData(v, b, c) || SameView(v, b, c))
    ensures SameData(v, a, c)
  {
    forall n | 0 <= n < |a.card| && !InFat1(v, n) && !InFat2(v, n) ensures View(c, n) == View(a, n) {
      assert View(b, n) == View(a, n);
    }
  }

  lemma SameViewRefl(v: Volume, k: Cache)
    ensures SameView(v, k, k)
  {
  }

  lemma SameViewTrans(v: Volume, a: Cache, b: Cache, c: Cache)
    requires SameView(v, a, b) && SameView(v, b, c)
    ensures SameView(v, a, c)
  {
    forall n | 0 <= n < |a.card| && !InFat2(v, n) ensures View(c, n) == View(a, n) {
      assert View(b, n) == View(a, n);
    }
  }
}
