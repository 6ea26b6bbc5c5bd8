/**
 The blocks and inodes of xv6/fs.c as values: which block an inode slot names, who
 owns a block, and what stays true when blocks are allocated, attached and freed.

 Blocks are seen through the buffer cache, so `blocks` is the disk overlaid with
 the buffers the log has pinned.
 */
module FsModel {
  import opened LittleEndian
  import opened FsBits

  const NDIRECT: nat := 12
  const NINDIRECT: nat := 128
  const MAXFILE: nat := NDIRECT + NINDIRECT

  datatype Inode = Inode(typ: nat, major: nat, minor: nat, nlink: nat, size: nat, addrs: seq<nat>)

  datatype Fs = Fs(blocks: seq<Block>, inodes: map<nat, Inode>)

  /** Slots of an inode: 0..11 direct blocks, 12 the indirect block, 13..140 the entries of that block. */
  const SLOTS: nat := NDIRECT + 1 + NINDIRECT

  /** Entry k of an indirect block. */
  function IndirectEntry(b: Block, k: nat): nat
    requires k < NINDIRECT
  {
    Get32(b, 4 * k)
  }

  /** The block that slot s of an inode names; 0 is none. */
  function SlotOf(blocks: seq<Block>, ip: Inode, s: nat): nat
    requires |ip.addrs| == NDIRECT + 1 && s < SLOTS
  {
    if s <= NDIRECT then ip.addrs[s]
    else if 0 < ip.addrs[NDIRECT] < |blocks| then IndirectEntry(blocks[ip.addrs[NDIRECT]], s - NDIRECT - 1)
    else 0
  }

  predicate InodesOk(fs: Fs) {
    forall i :: i in fs.inodes ==> |fs.inodes[i].addrs| == NDIRECT + 1
  }

  predicate IsSlot(fs: Fs, i: nat, s: nat) {
    i in fs.inodes && s < SLOTS
  }

  function Slot(fs: Fs, i: nat, s: nat): nat
    requires InodesOk(fs) && IsSlot(fs, i, s)
  {
    SlotOf(fs.blocks, fs.inodes[i], s)
  }

  /** The slot that holds the n-th data block of a file. */
  function DataSlot(bn: nat): nat {
    if bn < NDIRECT then bn else bn + 1
  }

  /** Who owns a block: an inode and one of its slots. */
  type Owners = map<nat, (nat, nat)>

  /** Every block a slot names is recorded for that slot, and every recorded block is named by its slot. */
  ghost predicate OwnersOk(sb: Super, fs: Fs, owner: Owners)
    requires InodesOk(fs)
  {
    && (forall i: nat, s: nat :: IsSlot(fs, i, s) && Slot(fs, i, s) != 0 ==>
          Slot(fs, i, s) in owner && owner[Slot(fs, i, s)] == (i, s))
    && (forall b :: b in owner ==>
          && sb.firstData <= b < sb.size
          && IsSlot(fs, owner[b].0, owner[b].1)
          && Slot(fs, owner[b].0, owner[b].1) == b)
  }

  /** A bitmap bit is set exactly for metadata, owned blocks and the `loose` ones (allocated, not yet attached). */
  ghost predicate BitmapOk(sb: Super, fs: Fs, owner: Owners, loose: set<nat>)
    requires SuperOk(sb, |fs.blocks|)
  {
    && (forall b :: b in loose ==> sb.firstData <= b < sb.size && b !in owner)
    && (forall b :: 0 <= b < sb.size ==> (InUse(sb, fs.blocks, b) <==> b < sb.firstData || b in owner || b in loose))
  }

  /** Every block below the size of a file is allocated. */
  ghost predicate SizesOk(fs: Fs)
    requires InodesOk(fs)
  {
    forall i :: i in fs.inodes ==> fs.inodes[i].size <= MAXFILE * BSIZE && Backed(fs, i)
  }

  ghost predicate Backed(fs: Fs, i: nat)
    requires InodesOk(fs) && i in fs.inodes
  {
    forall bn :: 0 <= bn < MAXFILE && bn * BSIZE < fs.inodes[i].size ==> HasBlock(fs, i, bn)
  }

  predicate HasBlock(fs: Fs, i: nat, bn: nat)
    requires InodesOk(fs) && i in fs.inodes && bn < MAXFILE
  {
    Slot(fs, i, DataSlot(bn)) != 0
  }

  ghost predicate FsInv(sb: Super, fs: Fs, owner: Owners, loose: set<nat>) {
    && SuperOk(sb, |fs.blocks|)
    && InodesOk(fs)
    && OwnersOk(sb, fs, owner)
    && BitmapOk(sb, fs, owner, loose)
    && SizesOk(fs)
  }

  /** No block is named by two slots, of the same inode or of different ones. */
  lemma NoSharedBlocks(sb: Super, fs: Fs, owner: Owners, loose: set<nat>, i: nat, s: nat, j: nat, t: nat)
    requires FsInv(sb, fs, owner, loose) && IsSlot(fs, i, s) && IsSlot(fs, j, t)
    requires Slot(fs, i, s) == Slot(fs, j, t) != 0
    ensures i == j && s == t
  {
  }

  /** With nothing loose: a bit is set exactly for metadata and for blocks named by a slot. */
  lemma BitmapExact(sb: Super, fs: Fs, owner: Owners, b: nat)
    requires FsInv(sb, fs, owner, {}) && b < sb.size
    ensures InUse(sb, fs.blocks, b) <==>
            b < sb.firstData || exists i: nat, s: nat :: IsSlot(fs, i, s) && Slot(fs, i, s) == b
  {
    if b >= sb.firstData {
      if b in owner {
        assert IsSlot(fs, owner[b].0, owner[b].1) && Slot(fs, owner[b].0, owner[b].1) == b;
      }
    }
  }

  /** The contents of every indirect block are the same. */
  ghost predicate IndirectsKept(fs: Fs, blocks': seq<Block>)
    requires InodesOk(fs)
  {
    && |blocks'| == |fs.blocks|
    && forall i :: i in fs.inodes && 0 < fs.inodes[i].addrs[NDIRECT] < |blocks'| ==>
         blocks'[fs.inodes[i].addrs[NDIRECT]] == fs.blocks[fs.inodes[i].addrs[NDIRECT]]
  }

  /** Then no slot changes. */
  lemma SlotFrame(fs: Fs, blocks': seq<Block>, i: nat, s: nat)
    requires InodesOk(fs) && IndirectsKept(fs, blocks') && IsSlot(fs, i, s)
    ensures IsSlot(fs.(blocks := blocks'), i, s) && Slot(fs.(blocks := blocks'), i, s) == Slot(fs, i, s)
  {
  }

  ghost predicate SameSlots(fs: Fs, fs': Fs) {
    && InodesOk(fs) && InodesOk(fs') && fs'.inodes.Keys == fs.inodes.Keys
    && (forall j: nat, t: nat :: IsSlot(fs, j, t) ==> IsSlot(fs', j, t) && Slot(fs', j, t) == Slot(fs, j, t))
  }

  lemma OwnersFrame(sb: Super, fs: Fs, fs': Fs, owner: Owners)
    requires SameSlots(fs, fs') && OwnersOk(sb, fs, owner)
    ensures OwnersOk(sb, fs', owner)
  {
    forall j: nat, t: nat | IsSlot(fs', j, t) && Slot(fs', j, t) != 0
      ensures Slot(fs', j, t) in owner && owner[Slot(fs', j, t)] == (j, t)
    {
      assert IsSlot(fs, j, t);
    }
    forall b | b in owner
      ensures IsSlot(fs', owner[b].0, owner[b].1) && Slot(fs', owner[b].0, owner[b].1) == b
    {
      assert IsSlot(fs, owner[b].0, owner[b].1);
    }
  }

  /** Slots that named a block still do, and sizes have not grown. */
  lemma SizesFrame(fs: Fs, fs': Fs)
    requires InodesOk(fs) && InodesOk(fs') && fs'.inodes.Keys == fs.inodes.Keys && SizesOk(fs)
    requires forall j :: j in fs.inodes ==> fs'.inodes[j].size <= fs.inodes[j].size
    requires forall j: nat, t: nat :: IsSlot(fs, j, t) && Slot(fs, j, t) != 0 ==>
               IsSlot(fs', j, t) && Slot(fs', j, t) != 0
    ensures SizesOk(fs')
  {
    forall j | j in fs'.inodes ensures fs'.inodes[j].size <= MAXFILE * BSIZE && Backed(fs', j) {
      assert Backed(fs, j);
      forall bn | 0 <= bn < MAXFILE && bn * BSIZE < fs'.inodes[j].size ensures HasBlock(fs', j, bn) {
        assert HasBlock(fs, j, bn);
        assert IsSlot(fs, j, DataSlot(bn));
      }
    }
  }

  lemma BlocksFrame(sb: Super, fs: Fs, owner: Owners, loose: set<nat>, blocks': seq<Block>, loose': set<nat>)
    requires FsInv(sb, fs, owner, loose) && IndirectsKept(fs, blocks')
    requires BitmapOk(sb, fs.(blocks := blocks'), owner, loose')
    ensures FsInv(sb, fs.(blocks := blocks'), owner, loose') && SameSlots(fs, fs.(blocks := blocks'))
  {
    var fs' := fs.(blocks := blocks');
    assert SameSlots(fs, fs') by {
      forall i: nat, s: nat | IsSlot(fs, i, s) ensures IsSlot(fs', i, s) && Slot(fs', i, s) == Slot(fs, i, s) {
        SlotFrame(fs, blocks', i, s);
      }
    }
    OwnersFrame(sb, fs, fs', owner);
    SizesFrame(fs, fs');
  }

  /** Blocks that own nothing are no indirect blocks. */
  lemma UnownedKeepsIndirects(sb: Super, fs: Fs, owner: Owners, blocks': seq<Block>)
    requires InodesOk(fs) && OwnersOk(sb, fs, owner) && |fs.blocks| == sb.size == |blocks'|
    requires forall b :: b in owner && owner[b].1 == NDIRECT ==> blocks'[b] == fs.blocks[b]
    ensures IndirectsKept(fs, blocks')
  {
    forall i | i in fs.inodes && 0 < fs.inodes[i].addrs[NDIRECT] < |blocks'|
      ensures blocks'[fs.inodes[i].addrs[NDIRECT]] == fs.blocks[fs.inodes[i].addrs[NDIRECT]]
    {
      assert IsSlot(fs, i, NDIRECT) && Slot(fs, i, NDIRECT) != 0;
    }
  }

  lemma BitmapFrame(sb: Super, fs: Fs, owner: Owners, loose: set<nat>, blocks': seq<Block>)
    requires SuperOk(sb, |fs.blocks|) && BitmapOk(sb, fs, owner, loose) && |blocks'| == |fs.blocks|
    requires forall b :: 0 <= b < sb.firstData ==> blocks'[b] == fs.blocks[b]
    ensures BitmapOk(sb, fs.(blocks := blocks'), owner, loose)
  {
    forall a | 0 <= a < sb.size ensures InUse(sb, blocks', a) <==> InUse(sb, fs.blocks, a) {
      assert BitmapBlock(sb, a) < sb.firstData;
    }
  }

  /** Changing the contents of a data block. */
  lemma WriteDataInv(sb: Super, fs: Fs, owner: Owners, loose: set<nat>, i: nat, bn: nat, x: Block)
    requires FsInv(sb, fs, owner, loose) && i in fs.inodes && bn < MAXFILE && HasBlock(fs, i, bn)
    ensures var a := Slot(fs, i, DataSlot(bn));
      && sb.firstData <= a < |fs.blocks|
      && FsInv(sb, fs.(blocks := fs.blocks[a := x]), owner, loose)
      && SameSlots(fs, fs.(blocks := fs.blocks[a := x]))
  {
    assert IsSlot(fs, i, DataSlot(bn));
    var a := Slot(fs, i, DataSlot(bn));
    assert owner[a] == (i, DataSlot(bn));
    var blocks' := fs.blocks[a := x];
    UnownedKeepsIndirects(sb, fs, owner, blocks');
    BitmapFrame(sb, fs, owner, loose, blocks');
    BlocksFrame(sb, fs, owner, loose, blocks', loose);
  }

  // ---- balloc and bfree

  function ZeroBlock(): Block {
    seq(BSIZE, i => 0)
  }

  /** The blocks after balloc returned b: its bit set, its contents zero. */
  function Allocated(sb: Super, blocks: seq<Block>, b: nat): seq<Block>
    requires SuperOk(sb, |blocks|) && b < sb.size
  {
    MarkUsed(sb, blocks, b)[b := ZeroBlock()]
  }

  lemma AllocatedInUse(sb: Super, blocks: seq<Block>, b: nat, a: nat)
    requires SuperOk(sb, |blocks|) && sb.firstData <= b < sb.size && a < sb.size
    ensures |Allocated(sb, blocks, b)| == |blocks|
    ensures InUse(sb, Allocated(sb, blocks, b), a) <==> a == b || InUse(sb, blocks, a)
  {
    hide Bit, SetBit;
    MarkUsedInUse(sb, blocks, b, a);
    assert BitmapBlock(sb, a) < sb.firstData;
    assert Allocated(sb, blocks, b)[BitmapBlock(sb, a)] == MarkUsed(sb, blocks, b)[BitmapBlock(sb, a)];
  }

  lemma AllocatedElsewhere(sb: Super, blocks: seq<Block>, b: nat)
    requires SuperOk(sb, |blocks|) && sb.firstData <= b < sb.size
    ensures |Allocated(sb, blocks, b)| == |blocks| && Allocated(sb, blocks, b)[b] == ZeroBlock()
    ensures forall a :: sb.firstData <= a < sb.size && a != b ==> Allocated(sb, blocks, b)[a] == blocks[a]
  {
    assert BitmapBlock(sb, b) < sb.firstData;
  }

  /** A clear bit means that nobody owns the block; balloc makes it loose. */
  lemma AllocInv(sb: Super, fs: Fs, owner: Owners, loose: set<nat>, b: nat)
    requires FsInv(sb, fs, owner, loose) && b < sb.size && !InUse(sb, fs.blocks, b)
    ensures sb.firstData <= b && b !in owner && b !in loose
    ensures FsInv(sb, fs.(blocks := Allocated(sb, fs.blocks, b)), owner, loose + {b})
    ensures SameSlots(fs, fs.(blocks := Allocated(sb, fs.blocks, b)))
  {
    hide InUse, Allocated, Slot;
    assert sb.firstData <= b && b !in owner && b !in loose;
    var blocks' := Allocated(sb, fs.blocks, b);
    AllocatedElsewhere(sb, fs.blocks, b);
    assert BitmapOk(sb, fs.(blocks := blocks'), owner, loose + {b}) by {
      forall a | 0 <= a < sb.size
        ensures InUse(sb, blocks', a) <==> a < sb.firstData || a in owner || a in loose + {b}
      {
        AllocatedInUse(sb, fs.blocks, b, a);
      }
    }
    UnownedKeepsIndirects(sb, fs, owner, blocks');
    BlocksFrame(sb, fs, owner, loose, blocks', loose + {b});
  }

  lemma FreeInv(sb: Super, fs: Fs, owner: Owners, loose: set<nat>, b: nat)
    requires FsInv(sb, fs, owner, loose) && b in loose
    ensures b < sb.size && InUse(sb, fs.blocks, b)
    ensures FsInv(sb, fs.(blocks := MarkFree(sb, fs.blocks, b)), owner, loose - {b})
    ensures SameSlots(fs, fs.(blocks := MarkFree(sb, fs.blocks, b)))
  {
    var blocks' := MarkFree(sb, fs.blocks, b);
    forall a | 0 <= a < sb.size
      ensures InUse(sb, blocks', a) <==> a < sb.firstData || a in owner || a in loose - {b}
    {
      MarkFreeInUse(sb, fs.blocks, b, a);
      assert InUse(sb, fs.blocks, a) <==> a < sb.firstData || a in owner || a in loose;
    }
    assert BitmapBlock(sb, b) < sb.firstData;
    UnownedKeepsIndirects(sb, fs, owner, blocks');
    BlocksFrame(sb, fs, owner, loose, blocks', loose - {b});
  }

  lemma MarkFreeElsewhere(sb: Super, blocks: seq<Block>, b: nat)
    requires SuperOk(sb, |blocks|) && b < sb.size
    ensures |MarkFree(sb, blocks, b)| == |blocks|
    ensures forall a :: sb.firstData <= a < sb.size ==> MarkFree(sb, blocks, b)[a] == blocks[a]
  {
    assert BitmapBlock(sb, b) < sb.firstData;
  }

  // ---- attaching a block to a slot

  function SetAddr(fs: Fs, i: nat, s: nat, b: nat): Fs
    requires i in fs.inodes && s < |fs.inodes[i].addrs|
  {
    fs.(inodes := fs.inodes[i := fs.inodes[i].(addrs := fs.inodes[i].addrs[s := b])])
  }

  /** Slots of other inodes, and other slots of the inode, are unaffected by storing a direct address. */
  lemma SetDirectSlots(fs: Fs, i: nat, s: nat, b: nat, j: nat, t: nat)
    requires InodesOk(fs) && i in fs.inodes && s < NDIRECT && IsSlot(fs, j, t)
    ensures InodesOk(SetAddr(fs, i, s, b)) && IsSlot(SetAddr(fs, i, s, b), j, t)
    ensures Slot(SetAddr(fs, i, s, b), j, t) == if j == i && t == s then b else Slot(fs, j, t)
  {
  }

  lemma {:induction false} ZeroEntry(k: nat)
    requires k < NINDIRECT
    ensures IndirectEntry(ZeroBlock(), k) == 0
  {
    assert ZeroBlock()[4 * k] == 0 && ZeroBlock()[4 * k + 1] == 0 && ZeroBlock()[4 * k + 2] == 0 &&
           ZeroBlock()[4 * k + 3] == 0;
  }

  lemma SetIndirectSlots(fs: Fs, i: nat, b: nat, j: nat, t: nat)
    requires InodesOk(fs) && i in fs.inodes && IsSlot(fs, j, t)
    requires fs.inodes[i].addrs[NDIRECT] == 0 && 0 < b < |fs.blocks| && fs.blocks[b] == ZeroBlock()
    ensures InodesOk(SetAddr(fs, i, NDIRECT, b)) && IsSlot(SetAddr(fs, i, NDIRECT, b), j, t)
    ensures Slot(SetAddr(fs, i, NDIRECT, b), j, t) == if j == i && t == NDIRECT then b else Slot(fs, j, t)
  {
    if j == i && t > NDIRECT {
      ZeroEntry(t - NDIRECT - 1);
    }
  }

  /** Exactly one slot, which named nothing, now names b. */
  ghost predicate OneSlotSet(fs: Fs, fs': Fs, i: nat, s: nat, b: nat) {
    && InodesOk(fs) && InodesOk(fs') && fs'.inodes.Keys == fs.inodes.Keys
    && IsSlot(fs, i, s) && Slot(fs, i, s) == 0
    && (forall j :: j in fs.inodes ==> fs'.inodes[j].size == fs.inodes[j].size)
    && (forall j: nat, t: nat :: IsSlot(fs, j, t) ==>
          IsSlot(fs', j, t) && Slot(fs', j, t) == if j == i && t == s then b else Slot(fs, j, t))
  }

  lemma AttachOwners(sb: Super, fs: Fs, fs': Fs, owner: Owners, i: nat, s: nat, b: nat)
    requires OneSlotSet(fs, fs', i, s, b) && OwnersOk(sb, fs, owner) && b !in owner && 1 <= sb.firstData <= b < sb.size
    ensures OwnersOk(sb, fs', owner[b := (i, s)])
  {
    var owner' := owner[b := (i, s)];
    forall j: nat, t: nat | IsSlot(fs', j, t) && Slot(fs', j, t) != 0
      ensures Slot(fs', j, t) in owner' && owner'[Slot(fs', j, t)] == (j, t)
    {
      assert IsSlot(fs, j, t);
    }
    forall a | a in owner'
      ensures IsSlot(fs', owner'[a].0, owner'[a].1) && Slot(fs', owner'[a].0, owner'[a].1) == a
    {
      if a != b {
        assert IsSlot(fs, owner[a].0, owner[a].1) && Slot(fs, owner[a].0, owner[a].1) == a;
      }
    }
  }

  lemma AttachInv(sb: Super, fs: Fs, fs': Fs, owner: Owners, loose: set<nat>, i: nat, s: nat, b: nat)
    requires FsInv(sb, fs, owner, loose) && b in loose && OneSlotSet(fs, fs', i, s, b)
    requires |fs'.blocks| == |fs.blocks| && forall a :: 0 <= a < sb.firstData ==> fs'.blocks[a] == fs.blocks[a]
    ensures FsInv(sb, fs', owner[b := (i, s)], loose - {b})
  {
    AttachOwners(sb, fs, fs', owner, i, s, b);
    SizesFrame(fs, fs');
    BitmapFrame(sb, fs, owner, loose, fs'.blocks);
  }

  /** Storing a direct block's address. */
  lemma AttachDirect(sb: Super, fs: Fs, owner: Owners, loose: set<nat>, i: nat, s: nat, b: nat)
    requires FsInv(sb, fs, owner, loose) && i in fs.inodes && s < NDIRECT && fs.inodes[i].addrs[s] == 0 && b in loose
    ensures FsInv(sb, SetAddr(fs, i, s, b), owner[b := (i, s)], loose - {b})
    ensures OneSlotSet(fs, SetAddr(fs, i, s, b), i, s, b)
  {
    var fs' := SetAddr(fs, i, s, b);
    assert OneSlotSet(fs, fs', i, s, b) by {
      forall j: nat, t: nat | IsSlot(fs, j, t)
        ensures IsSlot(fs', j, t) && Slot(fs', j, t) == if j == i && t == s then b else Slot(fs, j, t)
      {
        SetDirectSlots(fs, i, s, b, j, t);
      }
    }
    AttachInv(sb, fs, fs', owner, loose, i, s, b);
  }

  /** Storing the address of a fresh, zeroed indirect block. */
  lemma AttachIndirectBlock(sb: Super, fs: Fs, owner: Owners, loose: set<nat>, i: nat, b: nat)
    requires FsInv(sb, fs, owner, loose) && i in fs.inodes && fs.inodes[i].addrs[NDIRECT] == 0 && b in loose
    requires fs.blocks[b] == ZeroBlock()
    ensures FsInv(sb, SetAddr(fs, i, NDIRECT, b), owner[b := (i, NDIRECT)], loose - {b})
    ensures OneSlotSet(fs, SetAddr(fs, i, NDIRECT, b), i, NDIRECT, b)
  {
    var fs' := SetAddr(fs, i, NDIRECT, b);
    assert OneSlotSet(fs, fs', i, NDIRECT, b) by {
      forall j: nat, t: nat | IsSlot(fs, j, t)
        ensures IsSlot(fs', j, t) && Slot(fs', j, t) == if j == i && t == NDIRECT then b else Slot(fs, j, t)
      {
        SetIndirectSlots(fs, i, b, j, t);
      }
    }
    AttachInv(sb, fs, fs', owner, loose, i, NDIRECT, b);
  }

  /** Storing an address in the indirect block. */
  function PutIndirect(fs: Fs, a: nat, k: nat, b: nat): Fs
    requires a < |fs.blocks| && k < NINDIRECT && b < 0x1_0000_0000
  {
    fs.(blocks := fs.blocks[a := Put32(fs.blocks[a], 4 * k, b)])
  }

  lemma PutIndirectSlot(sb: Super, fs: Fs, owner: Owners, i: nat, k: nat, b: nat, j: nat, t: nat)
    requires InodesOk(fs) && OwnersOk(sb, fs, owner) && i in fs.inodes && k < NINDIRECT && b < 0x1_0000_0000
    requires 0 < fs.inodes[i].addrs[NDIRECT] < |fs.blocks| && IsSlot(fs, j, t)
    ensures var fs' := PutIndirect(fs, fs.inodes[i].addrs[NDIRECT], k, b);
      IsSlot(fs', j, t) && Slot(fs', j, t) == if j == i && t == NDIRECT + 1 + k then b else Slot(fs, j, t)
  {
    var a := fs.inodes[i].addrs[NDIRECT];
    if t > NDIRECT {
      assert IsSlot(fs, i, NDIRECT) && IsSlot(fs, j, NDIRECT);
      assert Slot(fs, i, NDIRECT) == a && Slot(fs, j, NDIRECT) == fs.inodes[j].addrs[NDIRECT];
      if j == i {
        PutGet32(fs.blocks[a], 4 * k, b, 4 * (t - NDIRECT - 1));
      }
    }
  }

  lemma AttachIndirect(sb: Super, fs: Fs, owner: Owners, loose: set<nat>, i: nat, k: nat, b: nat)
    requires FsInv(sb, fs, owner, loose) && i in fs.inodes && k < NINDIRECT && b in loose && sb.size < 0x1_0000_0000
    requires 0 < fs.inodes[i].addrs[NDIRECT] < |fs.blocks| && Slot(fs, i, NDIRECT + 1 + k) == 0
    ensures var fs' := PutIndirect(fs, fs.inodes[i].addrs[NDIRECT], k, b);
      && FsInv(sb, fs', owner[b := (i, NDIRECT + 1 + k)], loose - {b})
      && OneSlotSet(fs, fs', i, NDIRECT + 1 + k, b)
  {
    var a := fs.inodes[i].addrs[NDIRECT];
    var fs' := PutIndirect(fs, a, k, b);
    assert OneSlotSet(fs, fs', i, NDIRECT + 1 + k, b) by {
      forall j: nat, t: nat | IsSlot(fs, j, t)
        ensures IsSlot(fs', j, t) && Slot(fs', j, t) == if j == i && t == NDIRECT + 1 + k then b else Slot(fs, j, t)
      {
        PutIndirectSlot(sb, fs, owner, i, k, b, j, t);
      }
    }
    assert IsSlot(fs, i, NDIRECT) && Slot(fs, i, NDIRECT) == a;
    AttachInv(sb, fs, fs', owner, loose, i, NDIRECT + 1 + k, b);
  }

  // ---- itrunc: detaching blocks from an inode

  /** Clearing a direct slot of an empty file makes its block loose. */
  lemma DetachDirect(sb: Super, fs: Fs, owner: Owners, i: nat, s: nat)
    requires FsInv(sb, fs, owner, {}) && i in fs.inodes && s < NDIRECT && fs.inodes[i].addrs[s] != 0 &&
             fs.inodes[i].size == 0
    ensures var b := fs.inodes[i].addrs[s];
      b in owner && owner[b] == (i, s) && FsInv(sb, SetAddr(fs, i, s, 0), owner - {b}, {b})
  {
    var b := fs.inodes[i].addrs[s];
    var fs', owner' := SetAddr(fs, i, s, 0), owner - {b};
    assert IsSlot(fs, i, s) && Slot(fs, i, s) == b;
    forall j: nat, t: nat | IsSlot(fs, j, t)
      ensures IsSlot(fs', j, t) && Slot(fs', j, t) == if j == i && t == s then 0 else Slot(fs, j, t)
    {
      SetDirectSlots(fs, i, s, 0, j, t);
    }
    DetachOwners(sb, fs, fs', owner, {b}, (j, t) => j == i && t == s);
    DetachSizes(fs, fs', i);
  }

  /** Clearing a set of slots removes exactly their blocks from the owners. */
  lemma DetachOwners(sb: Super, fs: Fs, fs': Fs, owner: Owners, bs: set<nat>, cleared: (nat, nat) -> bool)
    requires InodesOk(fs) && InodesOk(fs') && fs'.inodes.Keys == fs.inodes.Keys && OwnersOk(sb, fs, owner)
    requires forall j: nat, t: nat :: IsSlot(fs, j, t) ==>
      IsSlot(fs', j, t) && Slot(fs', j, t) == if cleared(j, t) then 0 else Slot(fs, j, t)
    requires forall b :: b in owner ==> (b in bs <==> cleared(owner[b].0, owner[b].1))
    ensures OwnersOk(sb, fs', owner - bs)
  {
    var owner' := owner - bs;
    forall j: nat, t: nat | IsSlot(fs', j, t) && Slot(fs', j, t) != 0
      ensures Slot(fs', j, t) in owner' && owner'[Slot(fs', j, t)] == (j, t)
    {
      assert IsSlot(fs, j, t);
    }
    forall b | b in owner'
      ensures IsSlot(fs', owner'[b].0, owner'[b].1) && Slot(fs', owner'[b].0, owner'[b].1) == b
    {
      assert IsSlot(fs, owner[b].0, owner[b].1);
    }
  }

  lemma DetachSizes(fs: Fs, fs': Fs, i: nat)
    requires InodesOk(fs) && InodesOk(fs') && fs'.inodes.Keys == fs.inodes.Keys && SizesOk(fs) && i in fs.inodes
    requires forall j :: j in fs.inodes ==> fs'.inodes[j].size == fs.inodes[j].size
    requires fs.inodes[i].size == 0
    requires forall j: nat, t: nat :: IsSlot(fs, j, t) && j != i ==>
               IsSlot(fs', j, t) && Slot(fs', j, t) == Slot(fs, j, t)
    ensures SizesOk(fs')
  {
    forall j | j in fs'.inodes ensures fs'.inodes[j].size <= MAXFILE * BSIZE && Backed(fs', j) {
      assert Backed(fs, j);
      forall bn | 0 <= bn < MAXFILE && bn * BSIZE < fs'.inodes[j].size ensures HasBlock(fs', j, bn) {
        assert HasBlock(fs, j, bn);
        assert IsSlot(fs, j, DataSlot(bn));
      }
    }
  }

  /** The blocks named by entries from j on of an indirect block. */
  function EntriesFrom(blk: Block, j: nat): set<nat> {
    set k | 0 <= k < NINDIRECT && j <= k && IndirectEntry(blk, k) != 0 :: IndirectEntry(blk, k)
  }

  /** Clearing the indirect slot of an empty file makes the indirect block and all it names loose. */
  lemma DetachIndirect(sb: Super, fs: Fs, owner: Owners, i: nat)
    requires FsInv(sb, fs, owner, {}) && i in fs.inodes && fs.inodes[i].addrs[NDIRECT] != 0 && fs.inodes[i].size == 0
    ensures var a := fs.inodes[i].addrs[NDIRECT];
      && sb.firstData <= a < |fs.blocks|
      && var bs := EntriesFrom(fs.blocks[a], 0) + {a};
         FsInv(sb, SetAddr(fs, i, NDIRECT, 0), owner - bs, bs)
  {
    var a := fs.inodes[i].addrs[NDIRECT];
    assert IsSlot(fs, i, NDIRECT) && Slot(fs, i, NDIRECT) == a;
    var bs := EntriesFrom(fs.blocks[a], 0) + {a};
    var fs' := SetAddr(fs, i, NDIRECT, 0);
    forall b | b in bs ensures b in owner && owner[b].0 == i && owner[b].1 >= NDIRECT {
      if b != a {
        var k :| 0 <= k < NINDIRECT && IndirectEntry(fs.blocks[a], k) == b && b != 0;
        assert IsSlot(fs, i, NDIRECT + 1 + k) && Slot(fs, i, NDIRECT + 1 + k) == b;
      }
    }
    forall b | b in owner && owner[b].0 == i && owner[b].1 >= NDIRECT ensures b in bs {
      assert Slot(fs, i, owner[b].1) == b;
    }
    DetachOwners(sb, fs, fs', owner, bs, (j, t) => j == i && t >= NDIRECT);
    DetachSizes(fs, fs', i);
  }

  /** Entries of an indirect block are distinct, so freeing entry j leaves exactly those after it. */
  lemma EntriesStep(sb: Super, fs: Fs, owner: Owners, i: nat, j: nat)
    requires FsInv(sb, fs, owner, {}) && i in fs.inodes && 0 < fs.inodes[i].addrs[NDIRECT] < |fs.blocks| &&
             j < NINDIRECT
    ensures var a := fs.inodes[i].addrs[NDIRECT];
      var e := IndirectEntry(fs.blocks[a], j);
      && (e == 0 ==> EntriesFrom(fs.blocks[a], j) == EntriesFrom(fs.blocks[a], j + 1))
      && (e != 0 ==> e in EntriesFrom(fs.blocks[a], j) && e != a
                     && EntriesFrom(fs.blocks[a], j) - {e} == EntriesFrom(fs.blocks[a], j + 1))
      && a !in EntriesFrom(fs.blocks[a], j)
  {
    var a := fs.inodes[i].addrs[NDIRECT];
    var blk := fs.blocks[a];
    var e := IndirectEntry(blk, j);
    assert IsSlot(fs, i, NDIRECT) && Slot(fs, i, NDIRECT) == a;
    forall k | 0 <= k < NINDIRECT && IndirectEntry(blk, k) != 0
      ensures IndirectEntry(blk, k) in owner && owner[IndirectEntry(blk, k)] == (i, NDIRECT + 1 + k)
    {
      assert IsSlot(fs, i, NDIRECT + 1 + k) && Slot(fs, i, NDIRECT + 1 + k) == IndirectEntry(blk, k);
    }
    hide FsInv, Slot, IndirectEntry;
  }
}
