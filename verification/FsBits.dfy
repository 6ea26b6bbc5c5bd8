/**
 Bits of bytes, and the free bitmap of xv6/fs.c.
 */
module FsBits {
  import opened LittleEndian

  /** Bit k of x, counting from the least significant: (x & (1 << k)) != 0. */
  predicate Bit(x: nat, k: nat) {
    if k == 0 then x % 2 == 1 else Bit(x / 2, k - 1)
  }

  /** x | (1 << k) */
  function SetBit(x: nat, k: nat): nat {
    if k == 0 then x / 2 * 2 + 1 else 2 * SetBit(x / 2, k - 1) + x % 2
  }

  /** x & ~(1 << k) */
  function ClearBit(x: nat, k: nat): nat {
    if k == 0 then x / 2 * 2 else 2 * ClearBit(x / 2, k - 1) + x % 2
  }

  lemma {:induction false} BitSetBit(x: nat, k: nat, j: nat)
    ensures Bit(SetBit(x, k), j) <==> j == k || Bit(x, j)
  {
    if k > 0 && j > 0 {
      BitSetBit(x / 2, k - 1, j - 1);
      assert SetBit(x, k) / 2 == SetBit(x / 2, k - 1);
    } else if k == 0 && j > 0 {
      assert SetBit(x, k) / 2 == x / 2;
    }
  }

  lemma {:induction false} BitClearBit(x: nat, k: nat, j: nat)
    ensures Bit(ClearBit(x, k), j) <==> j != k && Bit(x, j)
  {
    if k > 0 && j > 0 {
      BitClearBit(x / 2, k - 1, j - 1);
      assert ClearBit(x, k) / 2 == ClearBit(x / 2, k - 1);
    } else if k == 0 && j > 0 {
      assert ClearBit(x, k) / 2 == x / 2;
    }
  }

  /** The result of setting or clearing one of n bits still has n bits. */
  lemma {:induction false} BitRange(x: nat, k: nat, n: nat, limit: nat)
    requires k < n && limit == Power2(n) && x < limit
    ensures SetBit(x, k) < limit && ClearBit(x, k) < limit
  {
    var half := Power2(n - 1);
    assert limit == 2 * half && x / 2 < half;
    if k > 0 {
      BitRange(x / 2, k - 1, n - 1, half);
    }
    hide Power2;
  }

  function Power2(n: nat): nat {
    if n == 0 then 1 else 2 * Power2(n - 1)
  }

  /** The mask 1 << k for the bits of a byte. */
  function Mask(k: nat): (m: nat)
    requires k < 8
    ensures m > 0
  {
    [1, 2, 4, 8, 16, 32, 64, 128][k]
  }

  /** Bit k of a number, said with division. */
  lemma {:induction false} BitIs(x: nat, k: nat)
    requires k < 8
    ensures Bit(x, k) <==> x / Mask(k) % 2 == 1
  {
    if k > 0 {
      BitIs(x / 2, k - 1);
      MaskHalf(x, k);
    }
  }

  lemma MaskHalf(x: nat, k: nat)
    requires 0 < k < 8
    ensures x / 2 / Mask(k - 1) == x / Mask(k)
  {
    assert k == 1 || k == 2 || k == 3 || k == 4 || k == 5 || k == 6 || k == 7;
  }

  lemma ByteRange(x: Byte, k: nat)
    requires k < 8
    ensures SetBit(x, k) < 256 && ClearBit(x, k) < 256
  {
    assert Power2(8) == 256 by {
      assert Power2(4) == 16;
    }
    BitRange(x, k, 8, 256);
  }

  const BSIZE: nat := 512
  const BPB: nat := 4096

  type Block = b: seq<Byte> | |b| == BSIZE witness seq(BSIZE, i => 0)

  /** Superblock fields: file system size in blocks, first bitmap block, first data block. */
  datatype Super = Super(size: nat, bmapstart: nat, firstData: nat)

  predicate SuperOk(sb: Super, n: nat) {
    && n == sb.size
    && 1 <= sb.firstData <= sb.size
    && (forall b :: 0 <= b < sb.size ==> BitmapBlock(sb, b) < sb.firstData)
  }

  /** BBLOCK(b, sb) */
  function BitmapBlock(sb: Super, b: nat): nat {
    b / BPB + sb.bmapstart
  }

  /** The bitmap bit of block b. */
  predicate InUse(sb: Super, blocks: seq<Block>, b: nat)
    requires SuperOk(sb, |blocks|) && b < sb.size
  {
    Bit(blocks[BitmapBlock(sb, b)][b % BPB / 8], b % BPB % 8)
  }

  /** The bitmap on the disk: block b has bit b % 8 of byte b / 8, counted from the first bitmap block. */
  lemma BitOnDisk(sb: Super, blocks: seq<Block>, b: nat)
    requires SuperOk(sb, |blocks|) && b < sb.size
    ensures var at := b / 8;
            && sb.bmapstart + at / BSIZE < |blocks|
            && (InUse(sb, blocks, b) <==> blocks[sb.bmapstart + at / BSIZE][at % BSIZE] / Mask(b % 8) % 2 == 1)
  {
    assert BitmapBlock(sb, b) == sb.bmapstart + b / 8 / BSIZE && b % BPB / 8 == b / 8 % BSIZE && b % BPB % 8 == b % 8;
    BitIs(blocks[BitmapBlock(sb, b)][b % BPB / 8], b % BPB % 8);
  }

  function MarkUsed(sb: Super, blocks: seq<Block>, b: nat): seq<Block>
    requires SuperOk(sb, |blocks|) && b < sb.size
  {
    var m := BitmapBlock(sb, b);
    var x := blocks[m][b % BPB / 8];
    ByteRange(x, b % BPB % 8);
    blocks[m := blocks[m][b % BPB / 8 := SetBit(x, b % BPB % 8)]]
  }

  function MarkFree(sb: Super, blocks: seq<Block>, b: nat): seq<Block>
    requires SuperOk(sb, |blocks|) && b < sb.size
  {
    var m := BitmapBlock(sb, b);
    var x := blocks[m][b % BPB / 8];
    ByteRange(x, b % BPB % 8);
    blocks[m := blocks[m][b % BPB / 8 := ClearBit(x, b % BPB % 8)]]
  }

  /** Different blocks have different bitmap bits. */
  lemma BitPlaceUnique(sb: Super, a: nat, b: nat)
    requires BitmapBlock(sb, a) == BitmapBlock(sb, b) && a % BPB / 8 == b % BPB / 8 && a % BPB % 8 == b % BPB % 8
    ensures a == b
  {
  }

  lemma MarkUsedInUse(sb: Super, blocks: seq<Block>, b: nat, a: nat)
    requires SuperOk(sb, |blocks|) && b < sb.size && a < sb.size
    ensures InUse(sb, MarkUsed(sb, blocks, b), a) <==> a == b || InUse(sb, blocks, a)
  {
    if BitmapBlock(sb, a) == BitmapBlock(sb, b) && a % BPB / 8 == b % BPB / 8 {
      BitSetBit(blocks[BitmapBlock(sb, b)][b % BPB / 8], b % BPB % 8, a % BPB % 8);
      if a % BPB % 8 == b % BPB % 8 {
        BitPlaceUnique(sb, a, b);
      }
    }
  }

  lemma MarkFreeInUse(sb: Super, blocks: seq<Block>, b: nat, a: nat)
    requires SuperOk(sb, |blocks|) && b < sb.size && a < sb.size
    ensures InUse(sb, MarkFree(sb, blocks, b), a) <==> a != b && InUse(sb, blocks, a)
  {
    if BitmapBlock(sb, a) == BitmapBlock(sb, b) && a % BPB / 8 == b % BPB / 8 {
      BitClearBit(blocks[BitmapBlock(sb, b)][b % BPB / 8], b % BPB % 8, a % BPB % 8);
      if a % BPB % 8 == b % BPB % 8 {
        BitPlaceUnique(sb, a, b);
      }
    }
  }
}
