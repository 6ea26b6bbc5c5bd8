/**
 The hole table of the MINIX memory manager in Gerência de Memória/minix.c: a fixed table
 whose entries are linked either into the list of holes or into the list of spare slots.
 Addresses and lengths count clicks.
 */
module HoleList {
  import opened Sequences

  datatype Hole = Hole(base: nat, len: nat)

  /** Increasing addresses, no overlap, no two holes touching, none empty. */
  predicate Coalesced(rs: seq<Hole>) {
    (forall i :: 0 <= i < |rs| ==> rs[i].len > 0) &&
    (forall i, j :: 0 <= i < j < |rs| ==> rs[i].base + rs[i].len < rs[j].base)
  }

  predicate InHole(h: Hole, u: nat) {
    h.base <= u < h.base + h.len
  }

  ghost predicate Covers(rs: seq<Hole>, u: nat) {
    exists i :: 0 <= i < |rs| && InHole(rs[i], u)
  }

  /** The first hole of at least `clicks`, or |rs|. */
  function FirstFit(rs: seq<Hole>, clicks: nat): (k: nat)
    ensures k <= |rs| && (k < |rs| ==> rs[k].len >= clicks)
    ensures forall i :: 0 <= i < k ==> rs[i].len < clicks
  {
    if rs == [] || rs[0].len >= clicks then 0 else 1 + FirstFit(rs[1..], clicks)
  }

  /** Cut `clicks` off the front of hole k. */
  function Take(rs: seq<Hole>, k: nat, clicks: nat): seq<Hole>
    requires k < |rs| && clicks <= rs[k].len
  {
    if rs[k].len == clicks then Without(rs, k)
    else rs[k := Hole(rs[k].base + clicks, rs[k].len - clicks)]
  }

  /** How many holes start below `base`: where free_mem's search stops. */
  function Place(rs: seq<Hole>, base: nat): (p: nat)
    ensures p <= |rs| && (p < |rs| ==> base <= rs[p].base)
    ensures forall i :: 0 <= i < p ==> rs[i].base < base
  {
    if rs == [] || base <= rs[0].base then 0 else 1 + Place(rs[1..], base)
  }

  /** The block touches no click of a hole. */
  predicate Outside(rs: seq<Hole>, b: Hole) {
    forall i :: 0 <= i < |rs| ==> b.base + b.len <= rs[i].base || rs[i].base + rs[i].len <= b.base
  }

  /** The block in its place, joined with the holes it touches. */
  function Put(rs: seq<Hole>, p: nat, b: Hole): seq<Hole>
    requires p <= |rs|
  {
    var left := p > 0 && rs[p - 1].base + rs[p - 1].len == b.base;
    var right := p < |rs| && b.base + b.len == rs[p].base;
    var whole := Hole(if left then rs[p - 1].base else b.base,
                      (if left then rs[p - 1].len else 0) + b.len + (if right then rs[p].len else 0));
    rs[..if left then p - 1 else p] + [whole] + rs[if right then p + 1 else p..]
  }

  lemma PlaceUnique(rs: seq<Hole>, base: nat, p: nat)
    requires p <= |rs| && (p < |rs| ==> base <= rs[p].base)
    requires forall i :: 0 <= i < p ==> rs[i].base < base
    ensures Place(rs, base) == p
  {
  }

  lemma FirstFitUnique(rs: seq<Hole>, clicks: nat, k: nat)
    requires k <= |rs| && (k < |rs| ==> rs[k].len >= clicks)
    requires forall i :: 0 <= i < k ==> rs[i].len < clicks
    ensures FirstFit(rs, clicks) == k
  {
  }

  /** First fit is the lowest address that fits, and it fails only when nothing fits. */
  lemma LowestFit(rs: seq<Hole>, clicks: nat)
    requires Coalesced(rs)
    ensures FirstFit(rs, clicks) == |rs| <==> forall i :: 0 <= i < |rs| ==> rs[i].len < clicks
    ensures FirstFit(rs, clicks) < |rs| ==>
              forall i :: 0 <= i < |rs| && rs[i].len >= clicks ==> rs[FirstFit(rs, clicks)].base <= rs[i].base
  {
  }

  lemma TakeCoalesced(rs: seq<Hole>, k: nat, clicks: nat)
    requires Coalesced(rs) && k < |rs| && clicks <= rs[k].len
    ensures Coalesced(Take(rs, k, clicks))
  {
  }

  lemma CoversConcat(a: seq<Hole>, b: seq<Hole>, u: nat)
    ensures Covers(a + b, u) <==> Covers(a, u) || Covers(b, u)
  {
    if Covers(a, u) {
      var i :| 0 <= i < |a| && InHole(a[i], u);
      assert InHole((a + b)[i], u);
    }
    if Covers(b, u) {
      var i :| 0 <= i < |b| && InHole(b[i], u);
      assert InHole((a + b)[|a| + i], u);
    }
    if Covers(a + b, u) {
      var i :| 0 <= i < |a + b| && InHole((a + b)[i], u);
      assert if i < |a| then InHole(a[i], u) else InHole(b[i - |a|], u);
    }
  }

  lemma CoversAround(a: seq<Hole>, h: Hole, b: seq<Hole>, u: nat)
    ensures Covers(a + [h] + b, u) <==> Covers(a, u) || InHole(h, u) || Covers(b, u)
  {
    CoversConcat(a + [h], b, u);
    CoversConcat(a, [h], u);
    assert Covers([h], u) <==> InHole(h, u) by {
      assert InHole(h, u) ==> InHole([h][0], u);
    }
  }

  /** The clicks handed out are exactly those that leave the holes. */
  lemma TakeConserves(rs: seq<Hole>, k: nat, clicks: nat, u: nat)
    requires Coalesced(rs) && k < |rs| && clicks <= rs[k].len
    ensures Covers(rs, u) <==> Covers(Take(rs, k, clicks), u) || InHole(Hole(rs[k].base, clicks), u)
    ensures !(Covers(Take(rs, k, clicks), u) && InHole(Hole(rs[k].base, clicks), u))
  {
    assert rs == rs[..k] + [rs[k]] + rs[k + 1..];
    CoversAround(rs[..k], rs[k], rs[k + 1..], u);
    CoversConcat(rs[..k], rs[k + 1..], u);
    var cut := Hole(rs[k].base + clicks, rs[k].len - clicks);
    assert rs[k := cut] == rs[..k] + [cut] + rs[k + 1..];
    CoversAround(rs[..k], cut, rs[k + 1..], u);
  }

  /** Freed clicks are exactly those that join the holes. */
  lemma PutConserves(rs: seq<Hole>, p: nat, b: Hole, u: nat)
    requires p <= |rs|
    ensures Covers(Put(rs, p, b), u) <==> Covers(rs, u) || InHole(b, u)
  {
    var left := p > 0 && rs[p - 1].base + rs[p - 1].len == b.base;
    var right := p < |rs| && b.base + b.len == rs[p].base;
    assert rs == rs[..p] + rs[p..];
    CoversConcat(rs[..p], rs[p..], u);
    if left {
      assert rs[..p] == rs[..p - 1] + [rs[p - 1]] + [];
      CoversAround(rs[..p - 1], rs[p - 1], [], u);
    }
    if right {
      assert rs[p..] == [] + [rs[p]] + rs[p + 1..];
      CoversAround([], rs[p], rs[p + 1..], u);
    }
    var whole := Hole(if left then rs[p - 1].base else b.base,
                      (if left then rs[p - 1].len else 0) + b.len + (if right then rs[p].len else 0));
    CoversAround(rs[..if left then p - 1 else p], whole, rs[if right then p + 1 else p..], u);
  }

  function Around(a: seq<Hole>, h: Hole, c: seq<Hole>): seq<Hole> {
    a + [h] + c
  }

  function End(h: Hole): nat {
    h.base + h.len
  }

  lemma AroundCoalesced(a: seq<Hole>, h: Hole, c: seq<Hole>)
    requires Coalesced(a) && Coalesced(c) && h.len > 0
    requires a != [] ==> End(a[|a| - 1]) < h.base
    requires c != [] ==> End(h) < c[0].base
    ensures Coalesced(Around(a, h, c))
  {
    var s := Around(a, h, c);
    forall i, j | 0 <= i < j < |s|
      ensures s[i].base + s[i].len < s[j].base
    {
      assert i < |a| ==> End(s[i]) <= End(a[|a| - 1]);
      assert j > |a| ==> c[0].base <= s[j].base;
    }
  }

  lemma PartsCoalesced(rs: seq<Hole>, m: nat, n: nat)
    requires Coalesced(rs) && m <= |rs| && n <= |rs|
    ensures Coalesced(rs[..m]) && Coalesced(rs[n..])
  {
  }

  /** The neighbours of a freed block: below it and above it, touching or apart. */
  lemma Neighbours(rs: seq<Hole>, b: Hole, p: nat)
    requires Coalesced(rs) && Outside(rs, b) && b.len > 0 && p == Place(rs, b.base)
    ensures p > 0 ==> End(rs[p - 1]) <= b.base
    ensures p < |rs| ==> End(b) <= rs[p].base
    ensures p > 1 ==> End(rs[p - 2]) < rs[p - 1].base
    ensures p + 1 < |rs| ==> End(rs[p]) < rs[p + 1].base
    ensures (p > 0 ==> rs[p - 1].len > 0) && (p < |rs| ==> rs[p].len > 0)
  {
    hide Place;
    if p < |rs| {
      assert rs[p].len > 0;
    }
  }

  lemma PutCoalesced(rs: seq<Hole>, b: Hole)
    requires Coalesced(rs) && Outside(rs, b) && b.len > 0
    ensures Coalesced(Put(rs, Place(rs, b.base), b))
  {
    hide Coalesced, Place, Outside;
    var p := Place(rs, b.base);
    Neighbours(rs, b, p);
    var left := p > 0 && End(rs[p - 1]) == b.base;
    var right := p < |rs| && End(b) == rs[p].base;
    var whole := Hole(if left then rs[p - 1].base else b.base,
                      (if left then rs[p - 1].len else 0) + b.len + (if right then rs[p].len else 0));
    var m, n := if left then p - 1 else p, if right then p + 1 else p;
    PartsCoalesced(rs, m, n);
    var a, c := rs[..m], rs[n..];
    assert a != [] ==> a[|a| - 1] == rs[m - 1];
    assert c != [] ==> c[0] == rs[n];
    AroundCoalesced(a, whole, c);
    assert Put(rs, p, b) == Around(a, whole, c);
  }

  lemma TakenOutside(rs: seq<Hole>, k: nat, clicks: nat)
    requires Coalesced(rs) && 0 < clicks && k < |rs| && clicks <= rs[k].len
    ensures var after := Take(rs, k, clicks);
            Outside(after, Hole(rs[k].base, clicks)) && Place(after, rs[k].base) == k
  {
    hide Place;
    var after := Take(rs, k, clicks);
    PlaceUnique(after, rs[k].base, k);
  }

  lemma WithoutParts(rs: seq<Hole>, k: nat)
    requires k < |rs|
    ensures var after := Without(rs, k);
            && |after| == |rs| - 1 && after[..k] == rs[..k] && after[k..] == rs[k + 1..]
            && (k > 0 ==> after[k - 1] == rs[k - 1]) && (k < |after| ==> after[k] == rs[k + 1])
  {
  }

  /** A hole touches neither of its neighbours. */
  lemma Apart(rs: seq<Hole>, k: nat)
    requires Coalesced(rs) && k < |rs|
    ensures (k > 0 ==> End(rs[k - 1]) < rs[k].base) && (k + 1 < |rs| ==> End(rs[k]) < rs[k + 1].base)
  {
  }

  lemma WholeBack(rs: seq<Hole>, k: nat)
    requires Coalesced(rs) && k < |rs|
    ensures Put(Without(rs, k), k, rs[k]) == rs
  {
    hide Without;
    var after := Without(rs, k);
    WithoutParts(rs, k);
    Apart(rs, k);
    assert Put(after, k, rs[k]) == after[..k] + [rs[k]] + after[k..];
    assert rs[..k] + [rs[k]] + rs[k + 1..] == rs;
  }

  lemma PartBack(rs: seq<Hole>, k: nat, clicks: nat)
    requires Coalesced(rs) && k < |rs| && 0 < clicks < rs[k].len
    ensures Put(Take(rs, k, clicks), k, Hole(rs[k].base, clicks)) == rs
  {
    var after := Take(rs, k, clicks);
    assert k > 0 ==> after[k - 1] == rs[k - 1];
    assert after[..k] == rs[..k] && after[k + 1..] == rs[k + 1..];
    assert Put(after, k, Hole(rs[k].base, clicks)) == after[..k] + [rs[k]] + after[k + 1..];
  }

  /** Freeing a block just allocated gives back the same holes. */
  lemma FreeUndoesAlloc(rs: seq<Hole>, clicks: nat)
    requires Coalesced(rs) && clicks > 0 && FirstFit(rs, clicks) < |rs|
    ensures var k := FirstFit(rs, clicks);
            var b := Hole(rs[k].base, clicks);
            var after := Take(rs, k, clicks);
            Outside(after, b) && Put(after, Place(after, b.base), b) == rs
  {
    hide FirstFit, Place, Coalesced, Put, Outside;
    var k := FirstFit(rs, clicks);
    TakenOutside(rs, k, clicks);
    if rs[k].len == clicks {
      WholeBack(rs, k);
    } else {
      PartBack(rs, k, clicks);
    }
  }

  predicate Touches(rs: seq<Hole>, p: nat, b: Hole)
    requires p <= |rs|
  {
    (p > 0 && End(rs[p - 1]) == b.base) || (p < |rs| && End(b) == rs[p].base)
  }

  /** A freed block needs a hole of its own exactly when it touches no other. */
  lemma PutGrowsIffApart(rs: seq<Hole>, p: nat, b: Hole)
    requires p <= |rs|
    ensures |Put(rs, p, b)| == |rs| + 1 <==> !Touches(rs, p, b)
    ensures |rs| <= |Put(rs, p, b)| + 1 <= |rs| + 2
  {
  }

  /** One step of merge: hole k takes in its successor when they touch. */
  function Absorb(rs: seq<Hole>, k: nat): seq<Hole>
    requires k < |rs|
  {
    if k + 1 < |rs| && rs[k].base + rs[k].len == rs[k + 1].base
    then rs[..k] + [Hole(rs[k].base, rs[k].len + rs[k + 1].len)] + rs[k + 2..]
    else rs
  }

  /** merge: two tries, the second at the next hole if the first found a gap. */
  function Merge(rs: seq<Hole>, k: nat): seq<Hole>
    requires k < |rs|
  {
    if k + 1 == |rs| then rs
    else if rs[k].base + rs[k].len == rs[k + 1].base then Absorb(Absorb(rs, k), k)
    else Absorb(rs, k + 1)
  }

  function InsertAt(rs: seq<Hole>, p: nat, b: Hole): seq<Hole>
    requires p <= |rs|
  {
    rs[..p] + [b] + rs[p..]
  }

  lemma AbsorbAround(a: seq<Hole>, h: Hole, c: seq<Hole>)
    ensures Absorb(Around(a, h, c), |a|) ==
            if c != [] && End(h) == c[0].base
            then Around(a, Hole(h.base, h.len + c[0].len), c[1..]) else Around(a, h, c)
  {
    var s := Around(a, h, c);
    assert s[|a|] == h && s[..|a|] == a;
    if c != [] {
      assert s[|a| + 1] == c[0] && s[|a| + 2..] == c[1..];
    }
  }

  /** Two tries are enough: after them the list is coalesced again. */
  lemma MergeIsPut(rs: seq<Hole>, b: Hole)
    requires Coalesced(rs) && Outside(rs, b) && b.len > 0
    ensures var p := Place(rs, b.base);
            Merge(InsertAt(rs, p, b), if p == 0 then 0 else p - 1) == Put(rs, p, b)
  {
    var p := Place(rs, b.base);
    if p == 0 {
      MergeFront(rs, b);
    } else {
      MergeBehind(rs, b, p);
    }
  }

  /** The block goes in front: it absorbs the first hole, or the first hole is left alone. */
  lemma MergeFront(rs: seq<Hole>, b: Hole)
    requires Coalesced(rs) && (rs != [] ==> b.base <= rs[0].base)
    ensures Merge(InsertAt(rs, 0, b), 0) == Put(rs, 0, b)
  {
    hide Coalesced, Absorb, Around, InsertAt, Put;
    Inserted(rs, b, 0);
    PutIsAround(rs, b, 0);
    if rs != [] {
      FirstApart(rs);
      assert rs[..0] == [] && [] + [b] == [b] && rs[0..] == rs;
      AbsorbAround([], b, rs);
      AbsorbAround([b], rs[0], rs[1..]);
      AbsorbAround([], Hole(b.base, b.len + rs[0].len), rs[1..]);
    }
  }

  lemma FirstApart(rs: seq<Hole>)
    requires Coalesced(rs) && rs != []
    ensures |rs| > 1 ==> End(rs[0]) < rs[1].base
  {
  }

  /** The block goes behind a hole, which may absorb it and then the next one. */
  lemma MergeBehind(rs: seq<Hole>, b: Hole, p: nat)
    requires Coalesced(rs) && 0 < p <= |rs|
    ensures Merge(InsertAt(rs, p, b), p - 1) == Put(rs, p, b)
  {
    hide Coalesced, Absorb, Around, InsertAt, Put;
    var prev := rs[p - 1];
    Inserted(rs, b, p);
    PutIsAround(rs, b, p);
    if End(prev) == b.base {
      AbsorbAround(rs[..p - 1], prev, [b] + rs[p..]);
      assert ([b] + rs[p..])[1..] == rs[p..];
      AbsorbAround(rs[..p - 1], Hole(prev.base, prev.len + b.len), rs[p..]);
    } else {
      AbsorbAround(rs[..p], b, rs[p..]);
    }
  }

  lemma Inserted(rs: seq<Hole>, b: Hole, p: nat)
    requires p <= |rs|
    ensures var all := InsertAt(rs, p, b);
            && |all| == |rs| + 1 && all[p] == b && all == Around(rs[..p], b, rs[p..])
            && (p > 0 ==> all[p - 1] == rs[p - 1] && all == Around(rs[..p - 1], rs[p - 1], [b] + rs[p..]))
            && (p < |rs| ==> all[p + 1] == rs[p] && all == Around(rs[..p] + [b], rs[p], rs[p + 1..]))
  {
  }

  /** Put written out: alone, or joined with the neighbours it touches. */
  lemma PutIsAround(rs: seq<Hole>, b: Hole, p: nat)
    requires p <= |rs|
    ensures p > 0 && End(rs[p - 1]) == b.base ==>
              var both := Hole(rs[p - 1].base, rs[p - 1].len + b.len);
              Put(rs, p, b) == if p < |rs| && End(b) == rs[p].base
                               then Around(rs[..p - 1], Hole(both.base, both.len + rs[p].len), rs[p + 1..])
                               else Around(rs[..p - 1], both, rs[p..])
    ensures !(p > 0 && End(rs[p - 1]) == b.base) ==>
              Put(rs, p, b) == if p < |rs| && End(b) == rs[p].base
                               then Around(rs[..p], Hole(b.base, b.len + rs[p].len), rs[p + 1..])
                               else Around(rs[..p], b, rs[p..])
  {
  }
}

/** The table whose entries carry the holes. */
module HoleTable {
  import opened Sequences
  import opened HoleList

  const NR_HOLES: nat := 128
  const NIL: int := -1

  datatype Entry = Entry(base: nat, len: nat, next: int)

  function At(ix: seq<nat>, i: nat): int
    requires i <= |ix|
  {
    if i == |ix| then NIL else ix[i]
  }

  predicate LinkAt(t: seq<Entry>, ix: seq<nat>, i: nat)
    requires i < |ix|
  {
    ix[i] < |t| && t[ix[i]].next == At(ix, i + 1)
  }

  /** The entries ix, in this order, are the list that starts at `start`. */
  predicate Linked(t: seq<Entry>, start: int, ix: seq<nat>) {
    start == At(ix, 0) && forall i :: 0 <= i < |ix| ==> LinkAt(t, ix, i)
  }

  /** Every entry of the table is in exactly one of the two lists. */
  predicate Tabled(t: seq<Entry>, head: int, slots: int, hs: seq<nat>, fs: seq<nat>) {
    |t| == NR_HOLES && |hs| + |fs| == NR_HOLES && Distinct(hs + fs) && Linked(t, head, hs) && Linked(t, slots, fs)
  }

  function HoleAt(t: seq<Entry>, i: nat): Hole {
    if i < |t| then Hole(t[i].base, t[i].len) else Hole(0, 0)
  }

  function Holes(t: seq<Entry>, hs: seq<nat>): seq<Hole> {
    seq(|hs|, i requires 0 <= i < |hs| => HoleAt(t, hs[i]))
  }

  function Relink(t: seq<Entry>, i: nat, next: int): seq<Entry>
    requires i < |t|
  {
    t[i := t[i].(next := next)]
  }

  function Resize(t: seq<Entry>, i: nat, base: nat, len: nat): seq<Entry>
    requires i < |t|
  {
    t[i := t[i].(base := base, len := len)]
  }

  lemma DistinctParts(hs: seq<nat>, fs: seq<nat>)
    requires Distinct(hs + fs)
    ensures Distinct(hs) && Distinct(fs)
    ensures forall i, j :: 0 <= i < |hs| && 0 <= j < |fs| ==> hs[i] != fs[j]
  {
    var all := hs + fs;
    forall i, j | 0 <= i < j < |hs|
      ensures hs[i] != hs[j]
    {
      assert all[i] != all[j];
    }
    forall i, j | 0 <= i < j < |fs|
      ensures fs[i] != fs[j]
    {
      assert all[|hs| + i] != all[|hs| + j];
    }
    forall i, j | 0 <= i < |hs| && 0 <= j < |fs|
      ensures hs[i] != fs[j]
    {
      assert all[i] != all[|hs| + j];
    }
  }

  lemma DistinctJoin(hs: seq<nat>, fs: seq<nat>)
    requires Distinct(hs) && Distinct(fs)
    requires forall i, j :: 0 <= i < |hs| && 0 <= j < |fs| ==> hs[i] != fs[j]
    ensures Distinct(hs + fs)
  {
  }

  /** Moving an entry from one list to the front of the other. */
  lemma DistinctMoved(hs: seq<nat>, fs: seq<nat>, k: nat)
    requires Distinct(hs + fs) && k < |hs|
    ensures Distinct(hs[..k] + hs[k + 1..] + ([hs[k]] + fs))
  {
    DistinctParts(hs, fs);
    var a, b := hs[..k] + hs[k + 1..], [hs[k]] + fs;
    forall i | 0 <= i < |a|
      ensures a[i] == hs[if i < k then i else i + 1]
    {
    }
    DistinctJoin(a, b);
  }

  lemma DistinctTaken(hs: seq<nat>, fs: seq<nat>, p: nat)
    requires Distinct(hs + fs) && fs != [] && p <= |hs|
    ensures Distinct(hs[..p] + [fs[0]] + hs[p..] + fs[1..])
  {
    DistinctParts(hs, fs);
    var a := hs[..p] + [fs[0]] + hs[p..];
    forall i | 0 <= i < |a|
      ensures a[i] == if i < p then hs[i] else if i == p then fs[0] else hs[i - 1]
    {
    }
    DistinctJoin(a, fs[1..]);
  }

  /** Changing an entry outside a list leaves the list alone. */
  lemma OtherList(t: seq<Entry>, start: int, ix: seq<nat>, e: nat, v: Entry)
    requires Linked(t, start, ix) && e < |t| && (forall i :: 0 <= i < |ix| ==> ix[i] != e)
    ensures Linked(t[e := v], start, ix) && Holes(t[e := v], ix) == Holes(t, ix)
  {
    forall i | 0 <= i < |ix|
      ensures LinkAt(t[e := v], ix, i) && HoleAt(t[e := v], ix[i]) == HoleAt(t, ix[i])
    {
      assert LinkAt(t, ix, i);
    }
  }

  lemma Resized(t: seq<Entry>, head: int, slots: int, hs: seq<nat>, fs: seq<nat>, k: nat, base: nat, len: nat)
    requires Tabled(t, head, slots, hs, fs) && k < |hs|
    ensures hs[k] < |t| && Tabled(Resize(t, hs[k], base, len), head, slots, hs, fs)
    ensures Holes(Resize(t, hs[k], base, len), hs) == Holes(t, hs)[k := Hole(base, len)]
  {
    DistinctParts(hs, fs);
    assert LinkAt(t, hs, k);
    var t' := Resize(t, hs[k], base, len);
    OtherList(t, slots, fs, hs[k], t'[hs[k]]);
    forall i | 0 <= i < |hs|
      ensures LinkAt(t', hs, i)
      ensures HoleAt(t', hs[i]) == if i == k then Hole(base, len) else HoleAt(t, hs[i])
    {
      assert LinkAt(t, hs, i);
      assert i != k ==> hs[i] != hs[k];
    }
  }

  /** What del_slot does to the table. */
  function Unlinked(t: seq<Entry>, slots: int, hs: seq<nat>, k: nat): seq<Entry>
    requires k < |hs| && hs[k] < |t| && (k > 0 ==> hs[k - 1] < |t|)
  {
    var t1 := if k == 0 then t else Relink(t, hs[k - 1], t[hs[k]].next);
    Relink(t1, hs[k], slots)
  }

  lemma SameHoles(t: seq<Entry>, hs: seq<nat>, t': seq<Entry>, hs': seq<nat>, k: nat)
    requires k < |hs| && |hs'| == |hs| - 1
    requires forall i :: 0 <= i < |hs'| ==> HoleAt(t', hs'[i]) == HoleAt(t, hs[if i < k then i else i + 1])
    ensures Holes(t', hs') == Without(Holes(t, hs), k)
  {
    hide HoleAt;
    var a, b := Holes(t', hs'), Without(Holes(t, hs), k);
    assert |a| == |b|;
    assert forall i :: 0 <= i < |b| ==> b[i] == HoleAt(t, hs[if i < k then i else i + 1]);
  }

  lemma UnlinkedHoles(t: seq<Entry>, head: int, hs: seq<nat>, k: nat, slots: int)
    requires Linked(t, head, hs) && Distinct(hs) && k < |hs|
    ensures hs[k] < |t| && (k > 0 ==> hs[k - 1] < |t|)
    ensures var t' := Unlinked(t, slots, hs, k); var hs' := hs[..k] + hs[k + 1..];
            Linked(t', At(hs', 0), hs') && Holes(t', hs') == Without(Holes(t, hs), k)
  {
    assert LinkAt(t, hs, k);
    if k > 0 {
      assert LinkAt(t, hs, k - 1);
    }
    hide LinkAt, HoleAt, Unlinked;
    var t' := Unlinked(t, slots, hs, k);
    var hs' := hs[..k] + hs[k + 1..];
    forall i | 0 <= i < |hs'|
      ensures LinkAt(t', hs', i) && HoleAt(t', hs'[i]) == HoleAt(t, hs[if i < k then i else i + 1])
    {
      UnlinkedAt(t, head, hs, k, slots, i);
    }
    SameHoles(t, hs, t', hs', k);
  }

  lemma UnlinkedAt(t: seq<Entry>, head: int, hs: seq<nat>, k: nat, slots: int, i: nat)
    requires Linked(t, head, hs) && Distinct(hs) && k < |hs| && i < |hs| - 1
    requires hs[k] < |t| && (k > 0 ==> hs[k - 1] < |t|)
    ensures var t' := Unlinked(t, slots, hs, k); var hs' := hs[..k] + hs[k + 1..];
            LinkAt(t', hs', i) && HoleAt(t', hs'[i]) == HoleAt(t, hs[if i < k then i else i + 1])
  {
    assert LinkAt(t, hs, k);
    var hs' := hs[..k] + hs[k + 1..];
    var o := if i < k then i else i + 1;
    assert hs'[i] == hs[o] && LinkAt(t, hs, o);
    assert i + 1 < |hs'| ==> hs'[i + 1] == hs[if i + 1 < k then i + 1 else i + 2];
    assert hs[o] != hs[k];
    if k > 0 && o != k - 1 {
      assert hs[o] != hs[k - 1];
    }
  }

  lemma UnlinkedSlots(t: seq<Entry>, head: int, slots: int, hs: seq<nat>, fs: seq<nat>, k: nat)
    requires Tabled(t, head, slots, hs, fs) && k < |hs|
    ensures hs[k] < |t| && (k > 0 ==> hs[k - 1] < |t|)
    ensures Linked(Unlinked(t, slots, hs, k), hs[k], [hs[k]] + fs)
  {
    DistinctParts(hs, fs);
    UnlinkedHoles(t, head, hs, k, slots);
    var t1 := if k == 0 then t else Relink(t, hs[k - 1], t[hs[k]].next);
    if k > 0 {
      OtherList(t, slots, fs, hs[k - 1], t1[hs[k - 1]]);
    }
    var t' := Unlinked(t, slots, hs, k);
    OtherList(t1, slots, fs, hs[k], t'[hs[k]]);
    var fs' := [hs[k]] + fs;
    forall i | 0 <= i < |fs'|
      ensures LinkAt(t', fs', i)
    {
      if i > 0 {
        assert LinkAt(t', fs, i - 1);
      }
    }
  }

  lemma UnlinkedTabled(t: seq<Entry>, head: int, slots: int, hs: seq<nat>, fs: seq<nat>, k: nat)
    requires Tabled(t, head, slots, hs, fs) && k < |hs|
    ensures hs[k] < |t| && (k > 0 ==> hs[k - 1] < |t|)
    ensures var hs' := hs[..k] + hs[k + 1..];
            && Tabled(Unlinked(t, slots, hs, k), At(hs', 0), hs[k], hs', [hs[k]] + fs)
            && Holes(Unlinked(t, slots, hs, k), hs') == Without(Holes(t, hs), k)
  {
    DistinctParts(hs, fs);
    UnlinkedHoles(t, head, hs, k, slots);
    UnlinkedSlots(t, head, slots, hs, fs, k);
    DistinctMoved(hs, fs, k);
  }

  /** What free_mem does to the table before merging: the first spare slot goes behind position p. */
  function Entered(t: seq<Entry>, hs: seq<nat>, n: nat, p: nat, b: Hole): seq<Entry>
    requires n < |t| && p <= |hs| && (p > 0 ==> hs[p - 1] < |t|)
  {
    var t1 := t[n := Entry(b.base, b.len, At(hs, p))];
    if p == 0 then t1 else Relink(t1, hs[p - 1], n)
  }

  lemma EnteredTabled(t: seq<Entry>, head: int, slots: int, hs: seq<nat>, fs: seq<nat>, p: nat, b: Hole)
    requires Tabled(t, head, slots, hs, fs) && fs != [] && p <= |hs|
    ensures fs[0] < |t| && (p > 0 ==> hs[p - 1] < |t|) && t[fs[0]].next == At(fs[1..], 0)
    ensures var hs' := hs[..p] + [fs[0]] + hs[p..];
            && Tabled(Entered(t, hs, fs[0], p, b), At(hs', 0), At(fs[1..], 0), hs', fs[1..])
            && Holes(Entered(t, hs, fs[0], p, b), hs') == InsertAt(Holes(t, hs), p, b)
  {
    DistinctParts(hs, fs);
    DistinctTaken(hs, fs, p);
    assert LinkAt(t, fs, 0);
    if p > 0 {
      assert LinkAt(t, hs, p - 1);
    }
    EnteredHoles(t, head, hs, fs[0], p, b);
    EnteredSlots(t, slots, hs, fs, p, b);
  }

  lemma EnteredHoles(t: seq<Entry>, head: int, hs: seq<nat>, n: nat, p: nat, b: Hole)
    requires Linked(t, head, hs) && Distinct(hs) && n < |t| && p <= |hs| && (p > 0 ==> hs[p - 1] < |t|)
    requires forall i :: 0 <= i < |hs| ==> hs[i] != n
    ensures var hs' := hs[..p] + [n] + hs[p..]; var t' := Entered(t, hs, n, p, b);
            Linked(t', At(hs', 0), hs') && Holes(t', hs') == InsertAt(Holes(t, hs), p, b)
  {
    hide LinkAt, HoleAt, Entered, Distinct, InsertAt;
    var hs' := hs[..p] + [n] + hs[p..];
    var t' := Entered(t, hs, n, p, b);
    forall i: nat | i < |hs'|
      ensures LinkAt(t', hs', i)
      ensures HoleAt(t', hs'[i]) == if i == p then b else HoleAt(t, hs[if i < p then i else i - 1])
    {
      EnteredAt(t, head, hs, n, p, b, i);
    }
    InsertedIs(Holes(t, hs), p, b, Holes(t', hs'));
  }

  lemma InsertedIs(rs: seq<Hole>, p: nat, b: Hole, all: seq<Hole>)
    requires p <= |rs| && |all| == |rs| + 1
    requires forall i :: 0 <= i < |all| ==> all[i] == if i == p then b else rs[if i < p then i else i - 1]
    ensures all == InsertAt(rs, p, b)
  {
  }

  lemma EnteredAt(t: seq<Entry>, head: int, hs: seq<nat>, n: nat, p: nat, b: Hole, i: nat)
    requires Linked(t, head, hs) && Distinct(hs) && n < |t| && p <= |hs| && (p > 0 ==> hs[p - 1] < |t|)
    requires i <= |hs| && forall i :: 0 <= i < |hs| ==> hs[i] != n
    ensures var hs' := hs[..p] + [n] + hs[p..]; var t' := Entered(t, hs, n, p, b);
            && LinkAt(t', hs', i)
            && HoleAt(t', hs'[i]) == if i == p then b else HoleAt(t, hs[if i < p then i else i - 1])
  {
    var hs' := hs[..p] + [n] + hs[p..];
    assert i + 1 < |hs'| ==> hs'[i + 1] == if i + 1 < p then hs[i + 1] else if i + 1 == p then n else hs[i];
    if i == p {
      assert hs'[i] == n;
    } else {
      var o := if i < p then i else i - 1;
      assert hs'[i] == hs[o] && LinkAt(t, hs, o);
      if p > 0 && o != p - 1 {
        assert hs[o] != hs[p - 1];
      }
    }
  }

  lemma EnteredSlots(t: seq<Entry>, slots: int, hs: seq<nat>, fs: seq<nat>, p: nat, b: Hole)
    requires Linked(t, slots, fs) && Distinct(fs) && fs != [] && p <= |hs| && (p > 0 ==> hs[p - 1] < |t|) && fs[0] < |t|
    requires forall i, j :: 0 <= i < |hs| && 0 <= j < |fs| ==> hs[i] != fs[j]
    ensures Linked(Entered(t, hs, fs[0], p, b), At(fs[1..], 0), fs[1..])
  {
    var t1 := t[fs[0] := Entry(b.base, b.len, At(hs, p))];
    var rest := fs[1..];
    forall i | 0 <= i < |rest|
      ensures LinkAt(t, rest, i)
    {
      assert LinkAt(t, fs, i + 1);
    }
    OtherList(t, At(rest, 0), rest, fs[0], t1[fs[0]]);
    if p > 0 {
      OtherList(t1, At(rest, 0), rest, hs[p - 1], Relink(t1, hs[p - 1], fs[0])[hs[p - 1]]);
    }
  }
}

module Minix {
  import opened Sequences
  import opened HoleList
  import opened HoleTable

  /** NO_MEM, or the address of the block. */
  datatype Answer = NoMem | Block(base: nat)

  function MaxLen(rs: seq<Hole>): (m: nat)
    ensures forall i :: 0 <= i < |rs| ==> rs[i].len <= m
    ensures m == 0 || exists i :: 0 <= i < |rs| && rs[i].len == m
  {
    if rs == [] then 0
    else
      var m := MaxLen(rs[..|rs| - 1]);
      if rs[|rs| - 1].len > m then rs[|rs| - 1].len else m
  }

  /** A positive request can be met exactly when it is at most the largest hole. */
  lemma AllocIffMax(rs: seq<Hole>, clicks: nat)
    requires Coalesced(rs) && clicks > 0
    ensures FirstFit(rs, clicks) < |rs| <==> clicks <= MaxLen(rs)
  {
    LowestFit(rs, clicks);
    hide FirstFit;
  }

  /** A request for nothing gets the first hole's address and changes nothing. */
  lemma AllocNothing(rs: seq<Hole>)
    requires Coalesced(rs) && rs != []
    ensures FirstFit(rs, 0) == 0 && Take(rs, 0, 0) == rs
  {
    assert rs[0].len > 0;
  }

  class Memory {
    var hole: seq<Entry>
    var head: int
    var freeSlots: int
    ghost var hs: seq<nat>
    ghost var fs: seq<nat>

    ghost predicate Wired()
      reads this
    {
      Tabled(hole, head, freeSlots, hs, fs)
    }

    ghost function Regions(): seq<Hole>
      reads this
    {
      Holes(hole, hs)
    }

    /** Sorted, disjoint, coalesced holes; holes and spare slots make up the table. */
    ghost predicate Valid()
      reads this
    {
      Wired() && Coalesced(Regions())
    }

    /** The start of mem_init: every entry is a spare slot. */
    constructor ()
      ensures Valid() && Regions() == [] && |fs| == NR_HOLES
    {
      hole := seq(NR_HOLES, i => Entry(0, 0, if i + 1 == NR_HOLES then NIL else i + 1));
      head := NIL;
      freeSlots := 0;
      hs := [];
      fs := seq(NR_HOLES, i requires 0 <= i < NR_HOLES => i);
      new;
      assert hs + fs == fs;
      forall i | 0 <= i < |fs|
        ensures LinkAt(hole, fs, i)
      {
      }
    }

    /** del_slot */
    method DelSlot(prev: int, hp: nat, ghost k: nat)
      requires Wired() && k < |hs| && hs[k] == hp && (k > 0 ==> prev == hs[k - 1])
      modifies this
      ensures Wired() && hs == old(hs[..k] + hs[k + 1..]) && fs == [hp] + old(fs)
      ensures Regions() == Without(old(Regions()), k)
    {
      hide Tabled, Holes;
      UnlinkedTabled(hole, head, freeSlots, hs, fs, k);
      HeadIsFirst(hole, head, freeSlots, hs, fs, k);
      ghost var was := hole;
      if hp == head {
        head := hole[hp].next;
      } else {
        hole := Relink(hole, prev, hole[hp].next);
      }
      hole := Relink(hole, hp, freeSlots);
      freeSlots := hp;
      assert hole == Unlinked(was, old(freeSlots), hs, k);
      ghost var hs' := hs[..k] + hs[k + 1..];
      assert head == At(hs', 0) by {
        assert k > 0 ==> hs'[0] == hs[0];
        assert k == 0 ==> hs' == hs[1..];
      }
      hs := hs';
      fs := [hp] + fs;
    }

    /** The block that merge has twice: hole `hp` takes in its successor when they touch. */
    method TryAbsorb(hp: nat, ghost k: nat) returns (joined: bool)
      requires Wired() && k + 1 < |hs| && hs[k] == hp
      modifies this
      ensures Wired() && Regions() == Absorb(old(Regions()), k) && |hs| >= k + 1 && hs[k] == hp
      ensures joined <==> End(old(Regions())[k]) == old(Regions())[k + 1].base
      ensures !joined ==> hs == old(hs)
      ensures joined ==> hs == old(hs[..k + 1] + hs[k + 2..])
    {
      hide Tabled;
      NextInTable(hole, head, freeSlots, hs, fs, k);
      var next := hole[hp].next;
      joined := hole[hp].base + hole[hp].len == hole[next].base;
      if joined {
        ghost var rs := Regions();
        ghost var sum: nat := hole[hp].len + hole[next].len;
        Resized(hole, head, freeSlots, hs, fs, k, hole[hp].base, sum);
        hole := Resize(hole, hp, hole[hp].base, hole[hp].len + hole[next].len);
        assert Regions() == rs[k := Hole(rs[k].base, rs[k].len + rs[k + 1].len)];
        DelSlot(hp, next, k + 1);
        AbsorbedBySlot(rs, k);
      }
    }

    /** merge */
    method Merge(hp: nat, ghost k: nat)
      requires Wired() && k < |hs| && hs[k] == hp
      modifies this
      ensures Wired() && Regions() == HoleList.Merge(old(Regions()), k)
    {
      hide Tabled, Holes, Absorb;
      NextInTable(hole, head, freeSlots, hs, fs, k);
      if hole[hp].next == NIL {
        return;
      }
      var next := hole[hp].next;
      var joined := TryAbsorb(hp, k);
      var at := if joined then hp else next;
      ghost var j := if joined then k else k + 1;
      NoAbsorb(old(Regions()), k);
      NextInTable(hole, head, freeSlots, hs, fs, j);
      if hole[at].next == NIL {
        AbsorbLast(Regions(), j);
        return;
      }
      joined := TryAbsorb(at, j);
    }

    /** max_hole */
    method MaxHole() returns (max: nat)
      requires Valid()
      ensures max == MaxLen(Regions())
    {
      hide Tabled, Coalesced, Holes;
      ghost var rs := Regions();
      HolesLength(hole, hs);
      var hp := head;
      max := 0;
      ghost var k := 0;
      StartsAt(hole, head, freeSlots, hs, fs);
      while hp != NIL
        invariant 0 <= k <= |hs| && hp == At(hs, k)
        invariant max == MaxLen(rs[..k])
        decreases |hs| - k
      {
        NextInTable(hole, head, freeSlots, hs, fs, k);
        if hole[hp].len > max {
          max := hole[hp].len;
        }
        assert rs[..k + 1][..k] == rs[..k];
        hp := hole[hp].next;
        k := k + 1;
      }
      assert k == |hs| by {
        NilIsEnd(hs, k);
      }
      assert rs[..k] == rs;
    }

    /** alloc_mem: first fit, which is the lowest address that fits. */
    method AllocMem(clicks: nat) returns (r: Answer)
      requires Valid()
      modifies this
      ensures Valid()
      ensures var rs := old(Regions()); var k := FirstFit(rs, clicks);
              if k == |rs| then r == NoMem && Regions() == rs && fs == old(fs)
              else r == Block(rs[k].base) && Regions() == Take(rs, k, clicks)
    {
      hide Tabled, Coalesced, FirstFit;
      ghost var rs := Regions();
      var hp, prev := head, NIL;
      ghost var k := 0;
      StartsAt(hole, head, freeSlots, hs, fs);
      while hp != NIL
        invariant 0 <= k <= |hs| && hp == At(hs, k) && (k > 0 ==> prev == hs[k - 1])
        invariant |rs| == |hs| && forall i :: 0 <= i < k ==> rs[i].len < clicks
        invariant hole == old(hole) && head == old(head) && freeSlots == old(freeSlots) && hs == old(hs) &&
                  fs == old(fs)
        decreases |hs| - k
      {
        NextInTable(hole, head, freeSlots, hs, fs, k);
        if hole[hp].len >= clicks {
          FirstFitUnique(rs, clicks, k);
          TakeCoalesced(rs, k, clicks);
          r := Block(hole[hp].base);
          Resized(hole, head, freeSlots, hs, fs, k, hole[hp].base + clicks, hole[hp].len - clicks);
          hole := Resize(hole, hp, hole[hp].base + clicks, hole[hp].len - clicks);
          if hole[hp].len != 0 {
            return;
          }
          ghost var mid := Regions();
          DelSlot(prev, hp, k);
          assert Without(mid, k) == Without(rs, k);
          return;
        }
        prev := hp;
        hp := hole[hp].next;
        k := k + 1;
      }
      NilIsEnd(hs, k);
      FirstFitUnique(rs, clicks, |rs|);
      r := NoMem;
    }

    /** free_mem; it panics when there is no spare slot, even where merging would need none. */
    method FreeMem(base: nat, clicks: nat) returns (panicked: bool)
      requires Valid() && Outside(Regions(), Hole(base, clicks))
      modifies this
      ensures Valid() && (panicked <==> clicks > 0 && |old(Regions())| == NR_HOLES)
      ensures clicks == 0 || panicked ==> Regions() == old(Regions()) && hs == old(hs) && fs == old(fs)
      ensures clicks > 0 && !panicked ==>
                Regions() == Put(old(Regions()), Place(old(Regions()), base), Hole(base, clicks))
    {
      hide Tabled, Coalesced, Place, Outside, Put, HoleList.Merge, Holes;
      ghost var rs := Regions();
      HolesLength(hole, hs);
      SpareSlots(hole, head, freeSlots, hs, fs);
      if clicks == 0 {
        return false;
      }
      if freeSlots == NIL {
        return true;
      }
      panicked := false;
      ghost var b := Hole(base, clicks);
      var n := freeSlots;
      var hp := head;
      StartsAt(hole, head, freeSlots, hs, fs);
      if hp == NIL || base <= hole[hp].base {
        PlaceUnique(rs, base, 0);
        EnteredTabled(hole, head, freeSlots, hs, fs, 0, b);
        freeSlots := hole[n].next;
        hole := hole[n := Entry(base, clicks, hp)];
        head := n;
        hs := hs[..0] + [n] + hs[0..];
        fs := fs[1..];
        Merge(n, 0);
      } else {
        var prev := hp;
        ghost var p := 0;
        while hp != NIL && base > hole[hp].base
          invariant 0 <= p <= |hs| && hp == At(hs, p) && (p == 0 ==> hp == prev) && (p > 0 ==> prev == hs[p - 1])
          invariant |rs| == |hs| && rs == Regions()
          invariant hp != NIL ==> 0 <= hp < |hole| && rs[p].base == hole[hp].base
          invariant p == 0 ==> hp != NIL && base > hole[hp].base
          invariant forall i :: 0 <= i < p ==> rs[i].base < base
          invariant unchanged(this)
          decreases |hs| - p
        {
          NextInTable(hole, head, freeSlots, hs, fs, p);
          prev := hp;
          hp := hole[hp].next;
          p := p + 1;
        }
        PlaceUnique(rs, base, p) by {
          if hp == NIL {
            NilIsEnd(hs, p);
          }
        }
        NextInTable(hole, head, freeSlots, hs, fs, p - 1);
        EnteredTabled(hole, head, freeSlots, hs, fs, p, b);
        ghost var was := hole;
        freeSlots := hole[n].next;
        hole := hole[n := Entry(base, clicks, hole[prev].next)];
        hole := Relink(hole, prev, n);
        assert hole == Entered(was, hs, n, p, b);
        hs := hs[..p] + [n] + hs[p..];
        fs := fs[1..];
        Merge(prev, p - 1);
      }
      MergeIsPut(rs, b);
      PutCoalesced(rs, b);
    }
  }

  // ---- facts about the table that the methods need ----

  lemma HeadIsFirst(t: seq<Entry>, head: int, slots: int, hs: seq<nat>, fs: seq<nat>, k: nat)
    requires Tabled(t, head, slots, hs, fs) && k < |hs|
    ensures head == hs[0] && (head == hs[k] <==> k == 0)
    ensures hs[k] < |t| && t[hs[k]].next == At(hs, k + 1) && (k > 0 ==> hs[k - 1] < |t|)
    ensures |t| == NR_HOLES
  {
    DistinctParts(hs, fs);
    assert LinkAt(t, hs, k);
    if k > 0 {
      assert LinkAt(t, hs, k - 1) && hs[0] != hs[k];
    }
  }

  lemma NextInTable(t: seq<Entry>, head: int, slots: int, hs: seq<nat>, fs: seq<nat>, k: nat)
    requires Tabled(t, head, slots, hs, fs) && k < |hs|
    ensures hs[k] < |t| && t[hs[k]].next == At(hs, k + 1) && Holes(t, hs)[k] == Hole(t[hs[k]].base, t[hs[k]].len)
    ensures |Holes(t, hs)| == |hs|
    ensures k + 1 < |hs| ==> hs[k + 1] < |t| && Holes(t, hs)[k + 1] == Hole(t[hs[k + 1]].base, t[hs[k + 1]].len)
    ensures k + 1 < |hs| ==> hs[k + 1] != hs[k]
  {
    assert LinkAt(t, hs, k);
    if k + 1 < |hs| {
      assert LinkAt(t, hs, k + 1);
      DistinctParts(hs, fs);
    }
  }

  lemma StartsAt(t: seq<Entry>, head: int, slots: int, hs: seq<nat>, fs: seq<nat>)
    requires Tabled(t, head, slots, hs, fs)
    ensures head == At(hs, 0) && (hs != [] ==> hs[0] < |t| && Holes(t, hs)[0].base == t[hs[0]].base)
  {
    if hs != [] {
      assert LinkAt(t, hs, 0);
    }
  }

  lemma SpareSlots(t: seq<Entry>, head: int, slots: int, hs: seq<nat>, fs: seq<nat>)
    requires Tabled(t, head, slots, hs, fs)
    ensures slots == NIL <==> |hs| == NR_HOLES
    ensures slots != NIL ==> fs != [] && slots == fs[0] && fs[0] < |t|
  {
    if fs != [] {
      assert LinkAt(t, fs, 0);
    }
  }

  lemma NilIsEnd(hs: seq<nat>, k: nat)
    requires k <= |hs| && At(hs, k) == NIL
    ensures k == |hs|
  {
  }

  lemma HolesLength(t: seq<Entry>, hs: seq<nat>)
    ensures |Holes(t, hs)| == |hs|
  {
  }

  lemma AbsorbedBySlot(rs: seq<Hole>, k: nat)
    requires k + 1 < |rs| && End(rs[k]) == rs[k + 1].base
    ensures Without(rs[k := Hole(rs[k].base, rs[k].len + rs[k + 1].len)], k + 1) == Absorb(rs, k)
  {
  }

  lemma NoAbsorb(rs: seq<Hole>, k: nat)
    requires k + 1 < |rs|
    ensures |Absorb(rs, k)| == if End(rs[k]) == rs[k + 1].base then |rs| - 1 else |rs|
    ensures End(rs[k]) != rs[k + 1].base ==> Absorb(rs, k) == rs
  {
  }

  lemma AbsorbLast(rs: seq<Hole>, j: nat)
    requires j + 1 == |rs|
    ensures Absorb(rs, j) == rs
  {
  }

  // ---- a panic that merging would have avoided

  /** n one-click holes, four clicks apart. */
  function Spread(n: nat): (rs: seq<Hole>)
    ensures |rs| == n && forall i :: 0 <= i < n ==> rs[i] == Hole(4 * i, 1)
  {
    seq(n, i requires 0 <= i < n => Hole(4 * i, 1))
  }

  lemma SpreadGrows(n: nat)
    ensures Outside(Spread(n), Hole(4 * n, 1)) && Place(Spread(n), 4 * n) == n
    ensures Put(Spread(n), n, Hole(4 * n, 1)) == Spread(n + 1)
  {
    PlaceUnique(Spread(n), 4 * n, n);
  }

  /** With the table full, free_mem panics on a block that would only have made the first hole longer. */
  method FullTablePanics() returns (m: Memory, panicked: bool)
    ensures fresh(m) && m.Valid() && m.Regions() == Spread(NR_HOLES) && panicked
    ensures Touches(Spread(NR_HOLES), Place(Spread(NR_HOLES), 1), Hole(1, 1))
    ensures |Put(Spread(NR_HOLES), Place(Spread(NR_HOLES), 1), Hole(1, 1))| == NR_HOLES
  {
    m := new Memory();
    var n := 0;
    while n < NR_HOLES
      invariant 0 <= n <= NR_HOLES && fresh(m) && m.Valid() && m.Regions() == Spread(n)
    {
      SpreadGrows(n);
      panicked := m.FreeMem(4 * n, 1);
      n := n + 1;
    }
    PlaceUnique(Spread(NR_HOLES), 1, 1);
    panicked := m.FreeMem(1, 1);
    PutGrowsIffApart(Spread(NR_HOLES), 1, Hole(1, 1));
  }
}
