/** Bytes, and little-endian words inside byte sequences. */
module LittleEndian {

  type Byte = x: int | 0 <= x < 256

  function Get16(b: seq<Byte>, at: nat): (v: nat)
    requires at + 2 <= |b|
    ensures v < 0x1_0000 && v % 256 == b[at] && v / 256 == b[at + 1]
  {
    b[at] as int + 256 * (b[at + 1] as int)
  }

  function Put16(b: seq<Byte>, at: nat, v: nat): (r: seq<Byte>)
    requires at + 2 <= |b| && v < 0x1_0000
    ensures |r| == |b|
  {
    b[at := v % 256][at + 1 := v / 256]
  }

  function Get32(b: seq<Byte>, at: nat): (v: nat)
    requires at + 4 <= |b|
    ensures v < 0x1_0000_0000
  {
    b[at] as int + 0x100 * (b[at + 1] as int) + 0x1_0000 * (b[at + 2] as int) + 0x100_0000 * (b[at + 3] as int)
  }

  function Put32(b: seq<Byte>, at: nat, v: nat): (r: seq<Byte>)
    requires at + 4 <= |b| && v < 0x1_0000_0000
    ensures |r| == |b|
  {
    b[at := v % 256][at + 1 := v / 0x100 % 256][at + 2 := v / 0x1_0000 % 256][at + 3 := v / 0x100_0000]
  }

  /** The low byte comes first. */
  lemma Bytes32(b: seq<Byte>, at: nat)
    requires at + 4 <= |b|
    ensures var v := Get32(b, at);
            && v % 256 == b[at] && v / 0x100 % 256 == b[at + 1]
            && v / 0x1_0000 % 256 == b[at + 2] && v / 0x100_0000 == b[at + 3]
  {
    var v := Get32(b, at);
    var high := b[at + 2] as int + 256 * (b[at + 3] as int);
    var mid := b[at + 1] as int + 256 * high;
    assert v == b[at] as int + 256 * mid;
    assert v / 0x100 == mid && v / 0x1_0000 == mid / 256 == high && v / 0x100_0000 == high / 256;
  }

  /** A stored word reads back, and words that do not overlap it are unchanged. */
  lemma PutGet16(b: seq<Byte>, at: nat, v: nat, other: nat)
    requires at + 2 <= |b| && v < 0x1_0000 && other + 2 <= |b|
    requires other == at || other + 2 <= at || at + 2 <= other
    ensures Get16(Put16(b, at, v), other) == if other == at then v else Get16(b, other)
  {
  }

  lemma Digits(v: nat)
    requires v < 0x1_0000_0000
    ensures v % 256 + 0x100 * (v / 0x100 % 256) + 0x1_0000 * (v / 0x1_0000 % 256) + 0x100_0000 * (v / 0x100_0000) == v
  {
    assert v / 0x100 == v / 0x100 / 256 * 256 + v / 0x100 % 256;
    assert v / 0x1_0000 == v / 0x100 / 256 && v / 0x100_0000 == v / 0x1_0000 / 256;
  }

  lemma PutGet32(b: seq<Byte>, at: nat, v: nat, other: nat)
    requires at + 4 <= |b| && v < 0x1_0000_0000 && other + 4 <= |b|
    requires other == at || other + 4 <= at || at + 4 <= other
    ensures Get32(Put32(b, at, v), other) == if other == at then v else Get32(b, other)
  {
    Digits(v);
    var r := Put32(b, at, v);
    assert r[at] == v % 256 && r[at + 1] == v / 0x100 % 256;
    assert r[at + 2] == v / 0x1_0000 % 256 && r[at + 3] == v / 0x100_0000;
  }

  /** Copies bytes into a block, one after the other. */
  method CopyInto(buf: seq<Byte>, offset: nat, bytes: seq<Byte>) returns (r: seq<Byte>)
    requires offset + |bytes| <= |buf|
    ensures |r| == |buf|
    ensures forall j :: 0 <= j < |bytes| ==> r[offset + j] == bytes[j]
    ensures forall j :: 0 <= j < |buf| && !(offset <= j < offset + |bytes|) ==> r[j] == buf[j]
  {
    r := buf;
    var i := 0;
    while i < |bytes|
      invariant 0 <= i <= |bytes| && |r| == |buf|
      invariant forall j :: 0 <= j < i ==> r[offset + j] == bytes[j]
      invariant forall j :: 0 <= j < |buf| && !(offset <= j < offset + i) ==> r[j] == buf[j]
    {
      r := r[offset + i := bytes[i]];
      i := i + 1;
    }
  }
}
