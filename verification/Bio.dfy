/**
 The buffer cache of xv6/bio.c: a ring of buffers threaded through next and prev,
 most recently released first.
 */
module BufferRing {
  import opened Sequences

  const NBUF: nat := 30
  /** bcache.head is one more node of the ring. */
  const HEAD: nat := NBUF

  /** The nodes in order, starting and ending at the head. */
  function Node(ring: seq<nat>, i: nat): nat
    requires i <= |ring| + 1
  {
    if i == 0 || i == |ring| + 1 then HEAD else ring[i - 1]
  }

  predicate Link(next: seq<nat>, prev: seq<nat>, a: nat, b: nat) {
    a < |next| && b < |prev| && next[a] == b && prev[b] == a
  }

  predicate LinkAt(next: seq<nat>, prev: seq<nat>, ring: seq<nat>, i: nat)
    requires i <= |ring|
  {
    Link(next, prev, Node(ring, i), Node(ring, i + 1))
  }

  predicate Buffers(ring: seq<nat>) {
    (forall i :: 0 <= i < |ring| ==> ring[i] < NBUF) && (forall i, j :: 0 <= i < j < |ring| ==> ring[i] != ring[j])
  }

  /** The links form a ring through exactly these buffers, in this order, both ways. */
  predicate Ring(next: seq<nat>, prev: seq<nat>, ring: seq<nat>) {
    |next| == NBUF + 1 && |prev| == NBUF + 1 && Buffers(ring) &&
    forall i: nat :: i <= |ring| ==> LinkAt(next, prev, ring, i)
  }

  lemma WithoutNode(ring: seq<nat>, k: nat, i: nat)
    requires k < |ring| && i <= |ring|
    ensures Node(Without(ring, k), i) == Node(ring, if i <= k then i else i + 1)
  {
  }

  lemma NodesDistinct(ring: seq<nat>, i: nat, j: nat)
    requires Buffers(ring) && i <= |ring| && j <= |ring| && i != j
    ensures Node(ring, i) != Node(ring, j)
  {
  }

  lemma NodesDistinctUp(ring: seq<nat>, i: nat, j: nat)
    requires Buffers(ring) && 0 < i <= |ring| + 1 && 0 < j <= |ring| + 1 && i != j
    ensures Node(ring, i) != Node(ring, j)
  {
  }

  /** brelse's first two assignments take the buffer out of the ring. */
  lemma Unlink(next: seq<nat>, prev: seq<nat>, ring: seq<nat>, k: nat)
    requires Ring(next, prev, ring) && k < |ring|
    ensures ring[k] < |next| && next[ring[k]] < |prev| && prev[ring[k]] < |next|
    ensures Ring(next[prev[ring[k]] := next[ring[k]]], prev[next[ring[k]] := prev[ring[k]]], Without(ring, k))
  {
    var b := ring[k];
    assert LinkAt(next, prev, ring, k) && LinkAt(next, prev, ring, k + 1);
    var next', prev', ring' := next[prev[b] := next[b]], prev[next[b] := prev[b]], Without(ring, k);
    forall i: nat | i <= |ring'|
      ensures LinkAt(next', prev', ring', i)
    {
      UnlinkAt(next, prev, ring, k, i);
    }
    WithoutBuffers(ring, k);
  }

  lemma WithoutBuffers(ring: seq<nat>, k: nat)
    requires Buffers(ring) && k < |ring|
    ensures Buffers(Without(ring, k))
    ensures forall i :: 0 <= i < |ring| - 1 ==> Without(ring, k)[i] != ring[k]
  {
    var ring' := Without(ring, k);
    assert forall i :: 0 <= i < |ring'| ==> ring'[i] == ring[if i < k then i else i + 1];
  }

  lemma UnlinkAt(next: seq<nat>, prev: seq<nat>, ring: seq<nat>, k: nat, i: nat)
    requires Ring(next, prev, ring) && k < |ring| && i < |ring|
    ensures ring[k] < |next| && next[ring[k]] < |prev| && prev[ring[k]] < |next|
    ensures LinkAt(next[prev[ring[k]] := next[ring[k]]], prev[next[ring[k]] := prev[ring[k]]], Without(ring, k), i)
  {
    var b := ring[k];
    assert LinkAt(next, prev, ring, k) && LinkAt(next, prev, ring, k + 1);
    WithoutNode(ring, k, i);
    WithoutNode(ring, k, i + 1);
    var o := if i <= k then i else i + 1;
    if i != k {
      assert LinkAt(next, prev, ring, o);
      NodesDistinct(ring, o, k);
      NodesDistinctUp(ring, o + 1, k + 2);
    }
  }

  /** Put a buffer that is in no ring behind the head. */
  function PushNext(next: seq<nat>, b: nat): seq<nat>
    requires |next| == NBUF + 1 && b < NBUF
  {
    next[b := next[HEAD]][HEAD := b]
  }

  function PushPrev(next: seq<nat>, prev: seq<nat>, b: nat): seq<nat>
    requires |next| == NBUF + 1 == |prev| && b < NBUF && next[HEAD] < |prev|
  {
    prev[b := HEAD][next[HEAD] := b]
  }

  lemma PushFront(next: seq<nat>, prev: seq<nat>, ring: seq<nat>, b: nat)
    requires Ring(next, prev, ring) && b < NBUF && (forall i :: 0 <= i < |ring| ==> ring[i] != b)
    ensures next[HEAD] < |prev| && Ring(PushNext(next, b), PushPrev(next, prev, b), [b] + ring)
  {
    assert LinkAt(next, prev, ring, 0);
    var next', prev', ring' := PushNext(next, b), PushPrev(next, prev, b), [b] + ring;
    forall i: nat | i <= |ring'|
      ensures LinkAt(next', prev', ring', i)
    {
      PushAt(next, prev, ring, b, i);
    }
  }

  lemma PushAt(next: seq<nat>, prev: seq<nat>, ring: seq<nat>, b: nat, i: nat)
    requires Ring(next, prev, ring) && b < NBUF && (forall i :: 0 <= i < |ring| ==> ring[i] != b)
    requires i <= |ring| + 1
    ensures next[HEAD] < |prev| && LinkAt(PushNext(next, b), PushPrev(next, prev, b), [b] + ring, i)
  {
    assert LinkAt(next, prev, ring, 0);
    var ring' := [b] + ring;
    if i >= 2 {
      assert LinkAt(next, prev, ring, i - 1);
      assert Node(ring', i) == Node(ring, i - 1) && Node(ring', i + 1) == Node(ring, i);
      NodesDistinct(ring, i - 1, 0);
      NodesDistinctUp(ring, i, 1);
    }
  }

  lemma Neighbours(next: seq<nat>, prev: seq<nat>, ring: seq<nat>, i: nat)
    requires Ring(next, prev, ring) && i <= |ring|
    ensures Node(ring, i) < |next| && next[Node(ring, i)] == Node(ring, i + 1)
    ensures Node(ring, i + 1) < |prev| && prev[Node(ring, i + 1)] == Node(ring, i)
    ensures Node(ring, i) == HEAD <==> i == 0
    ensures Node(ring, i + 1) == HEAD <==> i == |ring|
  {
    assert LinkAt(next, prev, ring, i);
  }
}

module BufferCache {
  import opened LittleEndian
  import opened Sequences
  import opened BufferRing

  type Data = seq<Byte>
  datatype Key = Key(dev: int, blockno: nat)

  /** The device number binit leaves, (uint)-1 in the source. */
  const NODEV: int := -1

  datatype Buf = Buf(key: Key, busy: bool, valid: bool, dirty: bool, data: Data)

  function OnDisk(disk: map<Key, Data>, k: Key): Data {
    if k in disk then disk[k] else []
  }

  predicate Sound(bufs: seq<Buf>, ring: seq<nat>) {
    |bufs| == NBUF && Buffers(ring)
  }

  /** The position of the first buffer from the front that holds the block, or |ring|. */
  predicate IsCached(bufs: seq<Buf>, ring: seq<nat>, k: Key, p: nat)
    requires Sound(bufs, ring)
  {
    p <= |ring| && (p < |ring| ==> bufs[ring[p]].key == k) && forall i :: 0 <= i < p ==> bufs[ring[i]].key != k
  }

  predicate Recyclable(b: Buf) {
    !b.busy && !b.dirty
  }

  /** The buffer released longest ago that can be recycled, or |ring|. */
  predicate IsVictim(bufs: seq<Buf>, ring: seq<nat>, p: nat)
    requires Sound(bufs, ring)
  {
    p <= |ring| &&
    (if p == |ring| then forall i :: 0 <= i < |ring| ==> !Recyclable(bufs[ring[i]])
     else Recyclable(bufs[ring[p]]) && forall i :: p < i < |ring| ==> !Recyclable(bufs[ring[i]]))
  }

  datatype Got = Sleep | NoBuffers | Got(b: nat)

  /** What bget answers and leaves, given where its two scans end. */
  predicate GetsFrom(bufs: seq<Buf>, ring: seq<nat>, k: Key, p: nat, v: nat, r: Got, bufs': seq<Buf>)
    requires Sound(bufs, ring)
  {
    && IsCached(bufs, ring, k, p)
    && if p < |ring| then
         if bufs[ring[p]].busy then r == Sleep && bufs' == bufs
         else r == Got(ring[p]) && bufs' == bufs[ring[p] := bufs[ring[p]].(busy := true)]
       else
         IsVictim(bufs, ring, v) &&
         if v < |ring|
         then r == Got(ring[v]) && bufs' == bufs[ring[v] := Buf(k, true, false, false, bufs[ring[v]].data)]
         else r == NoBuffers && bufs' == bufs
  }

  ghost predicate Gets(bufs: seq<Buf>, ring: seq<nat>, k: Key, r: Got, bufs': seq<Buf>)
    requires Sound(bufs, ring)
  {
    exists p: nat, v: nat :: GetsFrom(bufs, ring, k, p, v, r, bufs')
  }

  /** What bread adds to bget: a buffer that is not valid is synchronised with the disk. */
  predicate Filled(mid: seq<Buf>, disk: map<Key, Data>, k: Key, r: Got, bufs: seq<Buf>, disk': map<Key, Data>) {
    if !r.Got? then bufs == mid && disk' == disk
    else
      && r.b < |mid| && mid[r.b].busy && mid[r.b].key == k
      && if mid[r.b].valid then bufs == mid && disk' == disk
         else if mid[r.b].dirty then
           bufs == mid[r.b := mid[r.b].(valid := true, dirty := false)] && disk' == disk[k := mid[r.b].data]
         else bufs == mid[r.b := mid[r.b].(valid := true, data := OnDisk(disk, k))] && disk' == disk
  }

  /** NBUF different buffers are all the buffers. */
  lemma Permutation(ring: seq<nat>, b: nat) returns (p: nat)
    requires Buffers(ring) && |ring| == NBUF && b < NBUF
    ensures p < NBUF && ring[p] == b
  {
    if !(exists i: nat :: i < |ring| && ring[i] == b) {
      Pigeons([b] + ring, NBUF);
    }
    p :| p < |ring| && ring[p] == b;
  }

  lemma {:induction false} Pigeons(ix: seq<nat>, n: nat)
    requires forall i :: 0 <= i < |ix| ==> ix[i] < n
    requires Distinct(ix)
    ensures |ix| <= n
    decreases n
  {
    assert |ix| > 0 ==> ix[0] < n;
    if n > 0 && |ix| > 0 {
      if i: nat :| i < |ix| && ix[i] == n - 1 {
        var rest := ix[..i] + ix[i + 1..];
        assert forall j :: 0 <= j < |rest| ==> rest[j] == ix[if j < i then j else j + 1];
        Pigeons(rest, n - 1);
      } else {
        Pigeons(ix, n - 1);
      }
    }
  }

  /** The ring has every buffer, so what is true of the ring is true of all buffers. */
  lemma AllInRing(bufs: seq<Buf>, ring: seq<nat>, p: nat, v: nat, k: Key)
    requires Sound(bufs, ring) && |ring| == NBUF && IsCached(bufs, ring, k, p) && IsVictim(bufs, ring, v)
    ensures p == NBUF <==> forall i :: 0 <= i < NBUF ==> bufs[i].key != k
    ensures v == NBUF <==> forall i :: 0 <= i < NBUF ==> bufs[i].busy || bufs[i].dirty
  {
    if p == NBUF || v == NBUF {
      forall i: nat | i < NBUF
        ensures p == NBUF ==> bufs[i].key != k
        ensures v == NBUF ==> bufs[i].busy || bufs[i].dirty
      {
        var at := Permutation(ring, i);
      }
    }
  }

  lemma GotBuffer(bufs: seq<Buf>, ring: seq<nat>, k: Key, r: Got, bufs': seq<Buf>)
    requires Sound(bufs, ring) && Gets(bufs, ring, k, r, bufs') && r.Got?
    ensures r.b < NBUF == |bufs'| && bufs'[r.b].busy && bufs'[r.b].key == k && !bufs[r.b].busy
  {
  }

  class Cache {
    var buf: seq<Buf>
    var next: seq<nat>
    var prev: seq<nat>
    var disk: map<Key, Data>
    ghost var ring: seq<nat>

    ghost predicate Valid()
      reads this
    {
      |buf| == NBUF && Ring(next, prev, ring) && |ring| == NBUF
    }

    /** binit */
    constructor (disk: map<Key, Data>)
      ensures Valid() && this.disk == disk && ring == seq(NBUF, i requires 0 <= i < NBUF => NBUF - 1 - i)
      ensures forall i :: 0 <= i < NBUF ==> buf[i] == Buf(Key(NODEV, 0), false, false, false, [])
    {
      this.disk := disk;
      buf := seq(NBUF, _ => Buf(Key(NODEV, 0), false, false, false, []));
      next := seq(NBUF + 1, _ => HEAD);
      prev := seq(NBUF + 1, _ => HEAD);
      ring := [];
      new;
      assert LinkAt(next, prev, ring, 0);
      var b := 0;
      while b < NBUF
        invariant 0 <= b <= NBUF && Ring(next, prev, ring)
        invariant ring == seq(b, i requires 0 <= i < b => b - 1 - i)
        invariant this.disk == disk && buf == seq(NBUF, _ => Buf(Key(NODEV, 0), false, false, false, []))
      {
        PushFront(next, prev, ring, b);
        var first := next[HEAD];
        ghost var next0, prev0 := next, prev;
        next := next[b := first];
        prev := prev[b := HEAD];
        prev := prev[first := b];
        next := next[HEAD := b];
        assert next == PushNext(next0, b) && prev == PushPrev(next0, prev0, b);
        ring := [b] + ring;
        b := b + 1;
      }
    }

    /** The first loop of bget, from the most recently released buffer. */
    method FindCached(k: Key) returns (b: nat, ghost p: nat)
      requires Valid()
      ensures IsCached(buf, ring, k, p) && b == Node(ring, p + 1)
    {
      p := 0;
      Neighbours(next, prev, ring, 0);
      b := next[HEAD];
      while b != HEAD
        invariant 0 <= p <= |ring| && b == Node(ring, p + 1)
        invariant forall i :: 0 <= i < p ==> buf[ring[i]].key != k
        decreases |ring| - p
      {
        Neighbours(next, prev, ring, p);
        if buf[b].key == k {
          return;
        }
        Neighbours(next, prev, ring, p + 1);
        b := next[b];
        p := p + 1;
      }
    }

    /** The second loop of bget, from the buffer released longest ago. */
    method FindVictim() returns (b: nat, ghost p: nat)
      requires Valid()
      ensures IsVictim(buf, ring, p) && b == Node(ring, p + 1)
    {
      ghost var at := |ring|;
      Neighbours(next, prev, ring, |ring|);
      b := prev[HEAD];
      while b != HEAD
        invariant 0 <= at <= |ring| && b == Node(ring, at)
        invariant forall i :: at <= i < |ring| ==> !Recyclable(buf[ring[i]])
        decreases at
      {
        if !buf[b].busy && !buf[b].dirty {
          p := at - 1;
          return;
        }
        Neighbours(next, prev, ring, at - 1);
        b := prev[b];
        at := at - 1;
      }
      Neighbours(next, prev, ring, at);
      p := |ring|;
    }

    /** bget, up to the first sleep: after one the caller looks again. */
    method Bget(k: Key) returns (r: Got)
      requires Valid()
      modifies this`buf
      ensures Valid() && Gets(old(buf), ring, k, r, buf)
      ensures r == Sleep ==> buf == old(buf) && exists i :: 0 <= i < NBUF && buf[i].key == k && buf[i].busy
      ensures r == NoBuffers <==>
              forall i :: 0 <= i < NBUF ==> old(buf)[i].key != k && (old(buf)[i].busy || old(buf)[i].dirty)
      ensures r == NoBuffers ==> buf == old(buf)
      ensures r.Got? ==> r.b < NBUF && !old(buf)[r.b].busy
      ensures r.Got? && old(buf)[r.b].key == k ==> buf == old(buf)[r.b := old(buf)[r.b].(busy := true)]
      ensures r.Got? && old(buf)[r.b].key != k ==>
        && (forall i :: 0 <= i < NBUF ==> old(buf)[i].key != k) && !old(buf)[r.b].dirty
        && (forall i, j :: 0 <= i < j < NBUF && ring[i] == r.b ==> old(buf)[ring[j]].busy || old(buf)[ring[j]].dirty)
        && buf == old(buf)[r.b := Buf(k, true, false, false, old(buf)[r.b].data)]
    {
      var b, p := FindCached(k);
      ghost var v := 0;
      if b != HEAD {
        if !buf[b].busy {
          buf := buf[b := buf[b].(busy := true)];
          r := Got(b);
        } else {
          r := Sleep;
        }
      } else {
        b, v := FindVictim();
        AllInRing(buf, ring, p, v, k);
        if b != HEAD {
          buf := buf[b := Buf(k, true, false, false, buf[b].data)];
          r := Got(b);
        } else {
          r := NoBuffers;
        }
      }
      assert GetsFrom(old(buf), ring, k, p, v, r, buf);
    }

    /** iderw on the synchronous disk, whose device and range tests are left out. */
    method Iderw(b: nat) returns (panicked: bool)
      requires Valid() && b < NBUF
      modifies this`buf, this`disk
      ensures Valid() && (panicked <==> !old(buf[b].busy) || (old(buf[b].valid) && !old(buf[b].dirty)))
      ensures panicked ==> buf == old(buf) && disk == old(disk)
      ensures !panicked && old(buf[b].dirty) ==>
                disk == old(disk)[old(buf[b].key) := old(buf[b].data)] &&
                buf == old(buf)[b := old(buf[b]).(dirty := false, valid := true)]
      ensures !panicked && !old(buf[b].dirty) ==>
                disk == old(disk) &&
                buf == old(buf)[b := old(buf[b]).(valid := true, data := OnDisk(disk, old(buf[b].key)))]
    {
      if !buf[b].busy || (buf[b].valid && !buf[b].dirty) {
        return true;
      }
      if buf[b].dirty {
        disk := disk[buf[b].key := buf[b].data];
        buf := buf[b := buf[b].(dirty := false)];
      } else {
        buf := buf[b := buf[b].(data := OnDisk(disk, buf[b].key))];
      }
      buf := buf[b := buf[b].(valid := true)];
      panicked := false;
    }

    /** bwrite */
    method Bwrite(b: nat) returns (panicked: bool)
      requires Valid() && b < NBUF
      modifies this`buf, this`disk
      ensures Valid() && (panicked <==> !old(buf[b].busy))
      ensures panicked ==> buf == old(buf) && disk == old(disk)
      ensures !panicked ==> disk == old(disk)[buf[b].key := buf[b].data] &&
                            buf == old(buf)[b := old(buf[b]).(dirty := false, valid := true)]
    {
      if !buf[b].busy {
        return true;
      }
      buf := buf[b := buf[b].(dirty := true)];
      panicked := Iderw(b);
    }

    /** bread, when bget does not sleep. */
    method Bread(k: Key) returns (r: Got)
      requires Valid()
      modifies this`buf, this`disk
      ensures Valid()
      ensures exists mid: seq<Buf> :: Gets(old(buf), ring, k, r, mid) && Filled(mid, old(disk), k, r, buf, disk)
      ensures !r.Got? ==> buf == old(buf) && disk == old(disk)
      ensures r == NoBuffers <==>
              forall i :: 0 <= i < NBUF ==> old(buf)[i].key != k && (old(buf)[i].busy || old(buf)[i].dirty)
      ensures r.Got? ==> r.b < NBUF && buf[r.b].key == k && buf[r.b].busy && buf[r.b].valid && !old(buf)[r.b].busy
      ensures r.Got? ==> forall i :: 0 <= i < NBUF && i != r.b ==> buf[i] == old(buf)[i]
      ensures r.Got? && old(buf)[r.b].key == k && old(buf)[r.b].valid ==>
                buf[r.b].data == old(buf)[r.b].data && buf[r.b].dirty == old(buf)[r.b].dirty && disk == old(disk)
      ensures r.Got? && (old(buf)[r.b].key != k || (!old(buf)[r.b].valid && !old(buf)[r.b].dirty)) ==>
                buf[r.b].data == (if k in disk then disk[k] else []) && !buf[r.b].dirty && disk == old(disk)
    {
      r := Bget(k);
      ghost var mid := buf;
      if r.Got? {
        GotBuffer(old(buf), ring, k, r, mid);
        if !buf[r.b].valid {
          var panicked := Iderw(r.b);
        }
      }
      assert Gets(old(buf), ring, k, r, mid);
    }

    /** brelse: the buffer becomes the most recently released one. */
    method Brelse(b: nat, ghost k: nat) returns (panicked: bool)
      requires Valid() && b < NBUF && k < |ring| && ring[k] == b
      modifies this`buf, this`next, this`prev, this`ring
      ensures Valid() && (panicked <==> !old(buf[b].busy))
      ensures panicked ==> buf == old(buf) && ring == old(ring)
      ensures !panicked ==> buf == old(buf)[b := old(buf[b]).(busy := false)] && ring == [b] + Without(old(ring), k)
    {
      if !buf[b].busy {
        return true;
      }
      Unlink(next, prev, ring, k);
      WithoutBuffers(ring, k);
      ghost var next0, prev0 := next[prev[b] := next[b]], prev[next[b] := prev[b]];
      ghost var ring0 := Without(ring, k);
      var n, p := next[b], prev[b];
      prev := prev[n := p];
      next := next[p := n];
      PushFront(next, prev, ring0, b);
      var first := next[HEAD];
      next := next[b := first];
      prev := prev[b := HEAD];
      prev := prev[first := b];
      next := next[HEAD := b];
      assert next == PushNext(next0, b) && prev == PushPrev(next0, prev0, b);
      ring := [b] + ring0;
      buf := buf[b := buf[b].(busy := false)];
      panicked := false;
    }
  }
}

/** Every interleaving of processes that use the cache. */
module BufferRuns {
  import opened LittleEndian
  import opened Sequences
  import opened BufferRing
  import opened BufferCache

  const NOBODY: int := -1

  /**
   holder: who has each buffer; touched: it was changed and neither logged nor written since;
   stamp: when it was last released.
   */
  datatype State = State(
    bufs: seq<Buf>, ring: seq<nat>, disk: map<Key, Data>,
    holder: seq<int>, touched: seq<bool>, stamp: seq<nat>, clock: nat)

  datatype Step =
    | Get(pid: nat, k: Key, p: nat, v: nat, b: nat)
    | Load(pid: nat, b: nat)
    | Change(pid: nat, b: nat, k: Key, data: Data)
    | Log(pid: nat, b: nat)
    | Write(pid: nat, b: nat)
    | Release(pid: nat, b: nat, at: nat)

  predicate Sized(s: State) {
    Sound(s.bufs, s.ring) && |s.ring| == NBUF && |s.holder| == NBUF && |s.touched| == NBUF && |s.stamp| == NBUF
  }

  predicate Holds(s: State, pid: nat, b: nat)
    requires Sized(s)
  {
    b < NBUF && s.holder[b] == pid && s.bufs[b].busy
  }

  /** The bufs bget leaves when it returns buffer b. */
  function AfterGet(s: State, k: Key, p: nat, b: nat): seq<Buf>
    requires Sized(s) && b < NBUF
  {
    if p < NBUF then s.bufs[b := s.bufs[b].(busy := true)]
    else s.bufs[b := Buf(k, true, false, false, s.bufs[b].data)]
  }

  /** Callers use only buffers that bread gave them. */
  predicate Enabled(s: State, e: Step)
    requires Sized(s)
  {
    match e
    case Get(pid, k, p, v, b) =>
      k.dev >= 0 && b < NBUF && GetsFrom(s.bufs, s.ring, k, p, v, Got(b), AfterGet(s, k, p, b))
    case Load(pid, b) => Holds(s, pid, b) && !s.bufs[b].valid
    case Change(pid, b, k, data) => Holds(s, pid, b) && s.bufs[b].valid && s.bufs[b].key == k
    case Log(pid, b) => Holds(s, pid, b) && s.bufs[b].valid
    case Write(pid, b) => Holds(s, pid, b) && s.bufs[b].valid
    case Release(pid, b, at) => Holds(s, pid, b) && s.bufs[b].valid && at < NBUF && s.ring[at] == b
  }

  function Next(s: State, e: Step): State
    requires Sized(s) && Enabled(s, e)
  {
    match e
    case Get(pid, k, p, v, b) =>
      s.(bufs := AfterGet(s, k, p, b), holder := s.holder[b := pid],
         touched := if p < NBUF then s.touched else s.touched[b := false])
    case Load(pid, b) =>
      var x := s.bufs[b];
      if x.dirty then s.(bufs := s.bufs[b := x.(dirty := false, valid := true)], disk := s.disk[x.key := x.data])
      else s.(bufs := s.bufs[b := x.(valid := true, data := OnDisk(s.disk, x.key))])
    case Change(pid, b, k, data) =>
      s.(bufs := s.bufs[b := s.bufs[b].(data := data)], touched := s.touched[b := true])
    case Log(pid, b) =>
      s.(bufs := s.bufs[b := s.bufs[b].(dirty := true)], touched := s.touched[b := false])
    case Write(pid, b) =>
      var x := s.bufs[b];
      s.(bufs := s.bufs[b := x.(dirty := false, valid := true)], disk := s.disk[x.key := x.data],
         touched := s.touched[b := false])
    case Release(pid, b, at) =>
      s.(bufs := s.bufs[b := s.bufs[b].(busy := false)], ring := [b] + Without(s.ring, at),
         holder := s.holder[b := NOBODY], stamp := s.stamp[b := s.clock], clock := s.clock + 1)
  }

  function Start(disk: map<Key, Data>): State {
    State(seq(NBUF, _ => Buf(Key(NODEV, 0), false, false, false, [])),
          seq(NBUF, i requires 0 <= i < NBUF => NBUF - 1 - i), disk, seq(NBUF, _ => NOBODY),
          seq(NBUF, _ => false), seq(NBUF, i requires 0 <= i < NBUF => i), NBUF)
  }

  datatype Result = Stuck | Reached(s: State)

  ghost function Exec(s: State, steps: seq<Step>): (r: Result)
    decreases |steps|
  {
    if steps == [] then Reached(s)
    else
      var before := Exec(s, steps[..|steps| - 1]);
      var e := steps[|steps| - 1];
      if before.Stuck? || !Sized(before.s) || !Enabled(before.s, e) then Stuck else Reached(Next(before.s, e))
  }

  // ---- what holds for every caller

  /** No block of a real device is in two buffers. */
  predicate Unique(bufs: seq<Buf>) {
    forall i, j :: 0 <= i < j < |bufs| && bufs[i].key.dev >= 0 ==> bufs[i].key != bufs[j].key
  }

  predicate HolderOk(s: State, i: nat)
    requires Sized(s) && i < NBUF
  {
    (s.bufs[i].busy <==> s.holder[i] != NOBODY) && (s.bufs[i].dirty ==> s.bufs[i].valid) &&
    (s.bufs[i].valid || s.bufs[i].busy ==> s.bufs[i].key.dev >= 0)
  }

  /** The ring is in order of last release, latest first. */
  predicate Ordered(s: State)
    requires Sized(s)
  {
    (forall i, j :: 0 <= i < j < NBUF ==> s.stamp[s.ring[i]] > s.stamp[s.ring[j]]) &&
    (forall i :: 0 <= i < NBUF ==> s.stamp[i] < s.clock)
  }

  ghost predicate Inv(s: State) {
    Sized(s) && Unique(s.bufs) && Ordered(s) && forall i: nat :: i < NBUF ==> HolderOk(s, i)
  }

  lemma InRing(s: State, b: nat) returns (p: nat)
    requires Sized(s) && b < NBUF
    ensures p < NBUF && s.ring[p] == b
  {
    p := Permutation(s.ring, b);
  }

  lemma GetKeepsUnique(s: State, e: Step)
    requires Inv(s) && e.Get? && Enabled(s, e)
    ensures Unique(Next(s, e).bufs)
  {
    if e.p == NBUF {
      forall i: nat | i < NBUF
        ensures s.bufs[i].key != e.k
      {
        var p := InRing(s, i);
      }
    }
  }

  lemma StepKeepsUnique(s: State, e: Step)
    requires Inv(s) && Enabled(s, e)
    ensures Unique(Next(s, e).bufs)
  {
    if e.Get? {
      GetKeepsUnique(s, e);
    } else {
      var s' := Next(s, e);
      assert forall i :: 0 <= i < NBUF ==> s'.bufs[i].key == s.bufs[i].key;
    }
  }

  lemma ReleaseKeepsOrder(s: State, e: Step)
    requires Sized(s) && Ordered(s) && e.Release? && Enabled(s, e)
    ensures Sized(Next(s, e)) && Ordered(Next(s, e))
  {
    var s' := Next(s, e);
    WithoutBuffers(s.ring, e.at);
    forall i, j | 0 <= i < j < NBUF
      ensures s'.stamp[s'.ring[i]] > s'.stamp[s'.ring[j]]
    {
      ReleasedOrder(s, e, i, j);
    }
  }

  lemma ReleasedOrder(s: State, e: Step, i: nat, j: nat)
    requires Sized(s) && Ordered(s) && e.Release? && Enabled(s, e) && i < j < NBUF
    ensures var s' := Next(s, e);
            Sized(s') && s'.stamp[s'.ring[i]] > s'.stamp[s'.ring[j]]
  {
    var s' := Next(s, e);
    WithoutBuffers(s.ring, e.at);
    var rest := Without(s.ring, e.at);
    var oj := if j - 1 < e.at then j - 1 else j;
    assert s'.ring[j] == rest[j - 1] == s.ring[oj];
    if i > 0 {
      var oi := if i - 1 < e.at then i - 1 else i;
      assert s'.ring[i] == rest[i - 1] == s.ring[oi];
    }
  }

  lemma StepKeepsHolder(s: State, e: Step, i: nat)
    requires Inv(s) && Enabled(s, e) && i < NBUF && Sized(Next(s, e))
    ensures HolderOk(Next(s, e), i)
  {
    hide Unique, Ordered;
    assert HolderOk(s, i);
  }

  lemma StepSized(s: State, e: Step)
    requires Inv(s) && Enabled(s, e)
    ensures Sized(Next(s, e)) && Ordered(Next(s, e))
  {
    hide HolderOk, Unique;
    if e.Release? {
      ReleaseKeepsOrder(s, e);
    }
  }

  lemma StepKeepsInv(s: State, e: Step)
    requires Inv(s) && Enabled(s, e)
    ensures Inv(Next(s, e))
  {
    hide HolderOk, Unique, Ordered, Sized, Enabled, Next;
    StepSized(s, e);
    StepKeepsUnique(s, e);
    forall i: nat | i < NBUF
      ensures HolderOk(Next(s, e), i)
    {
      StepKeepsHolder(s, e, i);
    }
  }

  lemma StartInv(disk: map<Key, Data>)
    ensures Inv(Start(disk))
  {
  }

  lemma {:induction false} RunKeepsInv(disk: map<Key, Data>, steps: seq<Step>)
    ensures Exec(Start(disk), steps).Reached? ==> Inv(Exec(Start(disk), steps).s)
    decreases |steps|
  {
    hide Inv, Start, Enabled, Next, Sized;
    if steps == [] {
      StartInv(disk);
    } else {
      RunKeepsInv(disk, steps[..|steps| - 1]);
      var before := Exec(Start(disk), steps[..|steps| - 1]);
      var e := steps[|steps| - 1];
      if before.Reached? && Sized(before.s) && Enabled(before.s, e) {
        StepKeepsInv(before.s, e);
      }
    }
  }

  /** In every run a block of a real device is in at most one buffer. */
  lemma OneBufferPerBlock(disk: map<Key, Data>, steps: seq<Step>, i: nat, j: nat)
    requires Exec(Start(disk), steps).Reached? && i < NBUF && j < NBUF
    ensures var s := Exec(Start(disk), steps).s;
            Sized(s) && (s.bufs[i].key == s.bufs[j].key && s.bufs[i].key.dev >= 0 ==> i == j)
  {
    RunKeepsInv(disk, steps);
  }

  /** A buffer somebody has is given to nobody else, and a pinned one keeps its block and its data. */
  lemma HeldAndPinnedStay(disk: map<Key, Data>, steps: seq<Step>, e: Step, i: nat)
    requires Exec(Start(disk), steps).Reached? && i < NBUF
    requires Sized(Exec(Start(disk), steps).s) && Enabled(Exec(Start(disk), steps).s, e)
    ensures var s := Exec(Start(disk), steps).s; var s' := Next(s, e);
            && |s'.bufs| == NBUF == |s'.holder|
            && (e.Get? && s.holder[i] != NOBODY ==> e.b != i && s'.holder[i] == s.holder[i])
            && (!e.Get? ==> s.holder[e.b] == e.pid)
            && (s.bufs[i].dirty ==> s'.bufs[i].valid && s'.bufs[i].key == s.bufs[i].key)
            && (s.bufs[i].dirty && !(e.Change? && e.b == i) ==> s'.bufs[i].data == s.bufs[i].data)
            && (s.bufs[i].dirty && !(e.Write? && e.b == i) ==> s'.bufs[i].dirty)
  {
    RunKeepsInv(disk, steps);
    var s := Exec(Start(disk), steps).s;
    hide Ordered, Unique;
    assert HolderOk(s, i) && HolderOk(s, e.b);
  }

  /** The ring lists every buffer once, latest release first. */
  lemma RingIsByRelease(disk: map<Key, Data>, steps: seq<Step>, i: nat, j: nat)
    requires Exec(Start(disk), steps).Reached? && i < j < NBUF
    ensures var s := Exec(Start(disk), steps).s;
            Sized(s) && s.stamp[s.ring[i]] > s.stamp[s.ring[j]] && exists p: nat :: p < NBUF && s.ring[p] == i
  {
    RunKeepsInv(disk, steps);
    var p := Permutation(Exec(Start(disk), steps).s.ring, i);
  }

  lemma {:induction false} FirstCached(bufs: seq<Buf>, ring: seq<nat>, k: Key, n: nat) returns (p: nat)
    requires Sound(bufs, ring) && n <= |ring| && forall i :: 0 <= i < n ==> bufs[ring[i]].key != k
    ensures IsCached(bufs, ring, k, p)
    decreases |ring| - n
  {
    if n == |ring| || bufs[ring[n]].key == k {
      p := n;
    } else {
      p := FirstCached(bufs, ring, k, n + 1);
    }
  }

  lemma {:induction false} LastVictim(bufs: seq<Buf>, ring: seq<nat>, n: nat) returns (v: nat)
    requires Sound(bufs, ring) && n <= |ring| && forall i :: n <= i < |ring| ==> !Recyclable(bufs[ring[i]])
    ensures IsVictim(bufs, ring, v)
    decreases n
  {
    if n == 0 {
      v := |ring|;
    } else if Recyclable(bufs[ring[n - 1]]) {
      v := n - 1;
    } else {
      v := LastVictim(bufs, ring, n - 1);
    }
  }

  /** Process pid can get a buffer for block k. */
  ghost predicate CanGet(s: State, pid: nat, k: Key)
    requires Sized(s)
  {
    exists p: nat, v: nat, b: nat :: Enabled(s, Get(pid, k, p, v, b))
  }

  ghost predicate CachedFree(s: State, k: Key)
    requires Sized(s)
  {
    exists i: nat :: i < NBUF && s.bufs[i].key == k && s.holder[i] == NOBODY
  }

  ghost predicate SomeIdle(s: State)
    requires Sized(s)
  {
    exists i: nat :: i < NBUF && s.holder[i] == NOBODY && !s.bufs[i].dirty
  }

  /**
   When bget gives a buffer: in every run, exactly when the block's buffer is held by nobody or, if the block
   has none, some buffer is neither held nor dirty.
   */
  lemma GetsUnlessHeldOrFull(disk: map<Key, Data>, steps: seq<Step>, pid: nat, k: Key)
    requires Exec(Start(disk), steps).Reached? && k.dev >= 0
    ensures var s := Exec(Start(disk), steps).s;
            && Sized(s)
            && (CanGet(s, pid, k) <==>
                  if forall i :: 0 <= i < NBUF ==> s.bufs[i].key != k then SomeIdle(s) else CachedFree(s, k))
  {
    RunKeepsInv(disk, steps);
    var s := Exec(Start(disk), steps).s;
    hide Exec, Ordered;
    forall i: nat | i < NBUF
      ensures s.bufs[i].busy <==> s.holder[i] != NOBODY
    {
      assert HolderOk(s, i);
    }
    var p := FirstCached(s.bufs, s.ring, k, 0);
    var v := LastVictim(s.bufs, s.ring, NBUF);
    AllInRing(s.bufs, s.ring, p, v, k);
    if p < NBUF {
      GetCached(s, pid, k, p, v);
    } else {
      GetRecycled(s, pid, k, p, v);
    }
  }

  lemma OnePlace(bufs: seq<Buf>, ring: seq<nat>, k: Key, p: nat, q: nat)
    requires Sound(bufs, ring) && IsCached(bufs, ring, k, p) && IsCached(bufs, ring, k, q)
    ensures p == q
  {
  }

  lemma GetCached(s: State, pid: nat, k: Key, p: nat, v: nat)
    requires Inv(s) && k.dev >= 0 && IsCached(s.bufs, s.ring, k, p) && p < NBUF
    requires forall i: nat :: i < NBUF ==> (s.bufs[i].busy <==> s.holder[i] != NOBODY)
    ensures CanGet(s, pid, k) <==> CachedFree(s, k)
  {
    hide Ordered, HolderOk, IsVictim;
    var b := s.ring[p];
    if CachedFree(s, k) {
      var i: nat :| i < NBUF && s.bufs[i].key == k && s.holder[i] == NOBODY;
      assert i == b;
      assert GetsFrom(s.bufs, s.ring, k, p, v, Got(b), AfterGet(s, k, p, b));
      assert Enabled(s, Get(pid, k, p, v, b));
    }
    if CanGet(s, pid, k) {
      var q: nat, w: nat, c: nat :| Enabled(s, Get(pid, k, q, w, c));
      OnePlace(s.bufs, s.ring, k, p, q);
      assert s.holder[c] == NOBODY && s.bufs[c].key == k;
    }
  }

  lemma GetRecycled(s: State, pid: nat, k: Key, p: nat, v: nat)
    requires Inv(s) && k.dev >= 0 && IsCached(s.bufs, s.ring, k, p) && p == NBUF && IsVictim(s.bufs, s.ring, v)
    requires forall i: nat :: i < NBUF ==> (s.bufs[i].busy <==> s.holder[i] != NOBODY)
    requires v == NBUF <==> forall i :: 0 <= i < NBUF ==> s.bufs[i].busy || s.bufs[i].dirty
    ensures CanGet(s, pid, k) <==> SomeIdle(s)
  {
    hide Ordered, HolderOk;
    if SomeIdle(s) {
      var i: nat :| i < NBUF && s.holder[i] == NOBODY && !s.bufs[i].dirty;
      assert v < NBUF;
      var b := s.ring[v];
      assert GetsFrom(s.bufs, s.ring, k, p, v, Got(b), AfterGet(s, k, p, b));
      assert Enabled(s, Get(pid, k, p, v, b));
    }
    if CanGet(s, pid, k) {
      var q: nat, w: nat, c: nat :| Enabled(s, Get(pid, k, q, w, c));
      OnePlace(s.bufs, s.ring, k, p, q);
      assert s.holder[c] == NOBODY && !s.bufs[c].dirty;
    }
  }

  // ---- what a block reads as, for careful callers

  /** The data of the last change of block k in the run; what the disk had at first if there was none. */
  function Latest(disk: map<Key, Data>, steps: seq<Step>, k: Key): Data {
    if steps == [] then OnDisk(disk, k)
    else
      var e := steps[|steps| - 1];
      if e.Change? && e.k == k then e.data else Latest(disk, steps[..|steps| - 1], k)
  }

  /** Nobody releases a buffer that they changed and neither logged nor wrote. */
  ghost predicate Careful(s: State, steps: seq<Step>)
    decreases |steps|
  {
    steps == [] ||
    (var front, e := steps[..|steps| - 1], steps[|steps| - 1];
     var before := Exec(s, front);
     Careful(s, front) &&
     (e.Release? && before.Reached? && Sized(before.s) && Enabled(before.s, e) ==> !before.s.touched[e.b]))
  }

  /** A valid buffer holds its block's latest data; it differs from the disk only if pinned or being changed. */
  ghost predicate ShowsLatest(s: State, disk: map<Key, Data>, steps: seq<Step>, i: nat)
    requires Sized(s) && i < NBUF
  {
    var x := s.bufs[i];
    && (s.touched[i] ==> x.busy && x.valid)
    && (x.valid ==> x.data == Latest(disk, steps, x.key) &&
                    (!x.dirty && !s.touched[i] ==> x.data == OnDisk(s.disk, x.key)))
  }

  ghost predicate InBuffer(s: State, k: Key)
    requires Sized(s)
  {
    exists i: nat :: i < NBUF && s.bufs[i].valid && s.bufs[i].key == k
  }

  ghost predicate OnDiskOrCached(s: State, disk: map<Key, Data>, steps: seq<Step>, k: Key)
    requires Sized(s)
  {
    Latest(disk, steps, k) == OnDisk(s.disk, k) || InBuffer(s, k)
  }

  ghost predicate DataInv(s: State, disk: map<Key, Data>, steps: seq<Step>) {
    && Sized(s)
    && (forall i: nat :: i < NBUF ==> ShowsLatest(s, disk, steps, i))
    && (forall k: Key :: OnDiskOrCached(s, disk, steps, k))
  }

  lemma LatestStep(disk: map<Key, Data>, steps: seq<Step>, e: Step, k: Key)
    ensures Latest(disk, steps + [e], k) == if e.Change? && e.k == k then e.data else Latest(disk, steps, k)
  {
    assert (steps + [e])[..|steps|] == steps;
  }

  lemma StepShowsLatest(s: State, disk: map<Key, Data>, steps: seq<Step>, e: Step, i: nat)
    requires Inv(s) && DataInv(s, disk, steps) && Enabled(s, e) && i < NBUF && Sized(Next(s, e))
    requires e.Release? ==> !s.touched[e.b]
    ensures ShowsLatest(Next(s, e), disk, steps + [e], i)
  {
    hide Ordered, IsCached, IsVictim, Buffers, Latest;
    assert HolderOk(s, i) && ShowsLatest(s, disk, steps, i);
    assert HolderOk(s, e.b) && ShowsLatest(s, disk, steps, e.b);
    LatestStep(disk, steps, e, s.bufs[i].key);
    LatestStep(disk, steps, e, s.bufs[e.b].key);
    if !e.Get? {
      assert OnDiskOrCached(s, disk, steps, s.bufs[e.b].key);
      if i != e.b {
        assert s.bufs[i].valid ==> s.bufs[i].key != s.bufs[e.b].key;
      }
    }
  }

  lemma StepKeepsCached(s: State, disk: map<Key, Data>, steps: seq<Step>, e: Step, k: Key)
    requires Inv(s) && DataInv(s, disk, steps) && Enabled(s, e) && Sized(Next(s, e))
    ensures OnDiskOrCached(Next(s, e), disk, steps + [e], k)
  {
    hide Ordered, IsCached, Latest;
    var s' := Next(s, e);
    LatestStep(disk, steps, e, k);
    assert OnDiskOrCached(s, disk, steps, k);
    assert HolderOk(s, e.b) && ShowsLatest(s, disk, steps, e.b);
    if i: nat :| i < NBUF && s.bufs[i].valid && s.bufs[i].key == k {
      assert ShowsLatest(s, disk, steps, i) && HolderOk(s, i);
      if i != e.b || !e.Get? || e.p < NBUF {
        assert s'.bufs[i].valid && s'.bufs[i].key == k;
      }
    }
  }

  lemma StartData(disk: map<Key, Data>)
    ensures DataInv(Start(disk), disk, [])
  {
    forall k: Key
      ensures OnDiskOrCached(Start(disk), disk, [], k)
    {
    }
  }

  lemma StepKeepsData(s: State, disk: map<Key, Data>, steps: seq<Step>, e: Step)
    requires Inv(s) && DataInv(s, disk, steps) && Enabled(s, e) && (e.Release? ==> !s.touched[e.b])
    ensures DataInv(Next(s, e), disk, steps + [e])
  {
    hide Inv, ShowsLatest, OnDiskOrCached, Enabled, Next, Sized;
    StepKeepsInv(s, e);
    InvSized(Next(s, e));
    forall i: nat | i < NBUF
      ensures ShowsLatest(Next(s, e), disk, steps + [e], i)
    {
      StepShowsLatest(s, disk, steps, e, i);
    }
    forall k: Key
      ensures OnDiskOrCached(Next(s, e), disk, steps + [e], k)
    {
      StepKeepsCached(s, disk, steps, e, k);
    }
  }

  lemma InvSized(s: State)
    requires Inv(s)
    ensures Sized(s)
  {
  }

  lemma {:induction false} RunKeepsData(disk: map<Key, Data>, steps: seq<Step>)
    requires Exec(Start(disk), steps).Reached? && Careful(Start(disk), steps)
    ensures DataInv(Exec(Start(disk), steps).s, disk, steps)
    decreases |steps|
  {
    hide Inv, DataInv, Start, Enabled, Next;
    if steps == [] {
      StartData(disk);
    } else {
      var front, e := steps[..|steps| - 1], steps[|steps| - 1];
      RunKeepsData(disk, front);
      RunKeepsInv(disk, front);
      assert front + [e] == steps;
      StepKeepsData(Exec(Start(disk), front).s, disk, front, e);
    }
  }

  predicate Pins(x: Buf, touched: bool, k: Key) {
    x.valid && x.key == k && (x.dirty || touched)
  }

  /**
   What a block reads as: every valid buffer of block k holds the data of the last change of k, and so does
   the disk unless a pinned buffer does. Reads are the disk overlaid with the pinned buffers.
   */
  lemma ReadsAreOverlaidDisk(disk: map<Key, Data>, steps: seq<Step>, k: Key, i: nat)
    requires Exec(Start(disk), steps).Reached? && Careful(Start(disk), steps) && i < NBUF
    ensures var s := Exec(Start(disk), steps).s;
            && Sized(s)
            && (s.bufs[i].valid && s.bufs[i].key == k ==> s.bufs[i].data == Latest(disk, steps, k))
            && ((forall j: nat :: j < NBUF ==> !Pins(s.bufs[j], s.touched[j], k)) ==>
                  OnDisk(s.disk, k) == Latest(disk, steps, k))
  {
    RunKeepsData(disk, steps);
    var s := Exec(Start(disk), steps).s;
    hide Exec, Latest;
    assert ShowsLatest(s, disk, steps, i) && OnDiskOrCached(s, disk, steps, k);
    if j: nat :| j < NBUF && s.bufs[j].valid && s.bufs[j].key == k {
      assert ShowsLatest(s, disk, steps, j);
      assert Pins(s.bufs[j], s.touched[j], k) || OnDisk(s.disk, k) == Latest(disk, steps, k);
    }
  }

  /** After bread, the buffer holds the data of the last change of its block. */
  lemma LoadedShowsBlock(disk: map<Key, Data>, steps: seq<Step>, e: Step)
    requires Exec(Start(disk), steps).Reached? && Careful(Start(disk), steps) && e.Load?
    requires Sized(Exec(Start(disk), steps).s) && Enabled(Exec(Start(disk), steps).s, e)
    ensures var s := Exec(Start(disk), steps).s; var s' := Next(s, e);
            s'.bufs[e.b].valid && s'.bufs[e.b].data == Latest(disk, steps, s.bufs[e.b].key) && s'.disk == s.disk
  {
    RunKeepsInv(disk, steps);
    RunKeepsData(disk, steps);
    var s := Exec(Start(disk), steps).s;
    hide Exec, Latest;
    assert HolderOk(s, e.b);
    StepKeepsInv(s, e);
    StepKeepsData(s, disk, steps, e);
    assert ShowsLatest(Next(s, e), disk, steps + [e], e.b);
    LatestStep(disk, steps, e, s.bufs[e.b].key);
  }
}
