/** Raw disk blocks: bytes, little-endian fields and bitmap bits
    (kernel/fs/ext2.c, rd16/rd32/wr16/wr32 and the bit operations of the bitmap code). */
module Bytes {

  type byte = x: int | 0 <= x < 256

  type Block = seq<byte>

  const U16 := 0x1_0000
  const U32 := 0x1_0000_0000

  function Zeros(n: nat): (b: Block)
    ensures |b| == n && forall i :: 0 <= i < n ==> b[i] == 0
  {
    seq(n, _ => 0)
  }

  function Rd16(b: Block, o: nat): (v: nat)
    requires o + 2 <= |b|
  {
    var lo: int, hi: int := b[o], b[o + 1];
    lo + 0x100 * hi
  }

  function Rd32(b: Block, o: nat): (v: nat)
    requires o + 4 <= |b|
  {
    Rd16(b, o) + 0x1_0000 * Rd16(b, o + 2)
  }

  function Wr16(b: Block, o: nat, v: nat): (r: Block)
    requires o + 2 <= |b| && v < U16
    ensures |r| == |b| && Rd16(r, o) == v
    ensures forall i {:trigger r[i]} :: 0 <= i < |b| && !(o <= i < o + 2) ==> r[i] == b[i]
  {
    b[o := v % 0x100][o + 1 := v / 0x100]
  }

  function Wr32(b: Block, o: nat, v: nat): (r: Block)
    requires o + 4 <= |b| && v < U32
    ensures |r| == |b| && Rd32(r, o) == v
    ensures forall i {:trigger r[i]} :: 0 <= i < |b| && !(o <= i < o + 4) ==> r[i] == b[i]
  {
    Wr16(Wr16(b, o, v % U16), o + 2, v / U16)
  }

  /** Fields are little-endian: the lowest byte is first. */
  lemma LittleEndian(b: Block, o: nat, v: nat)
    requires o + 4 <= |b| && v < U32
    ensures var b0: int, b1: int, b2: int, b3: int := b[o], b[o + 1], b[o + 2], b[o + 3];
      Rd16(b, o) == b0 + 0x100 * b1 && Rd32(b, o) == b0 + 0x100 * b1 + 0x1_0000 * b2 + 0x100_0000 * b3
    ensures var r := Wr32(b, o, v);
      r[o] == v % 0x100 && r[o + 1] == v / 0x100 % 0x100 && r[o + 2] == v / 0x1_0000 % 0x100 &&
      r[o + 3] == v / 0x100_0000
    ensures v < U16 ==> var r := Wr16(b, o, v); r[o] == v % 0x100 && r[o + 1] == v / 0x100
  {
  }

  /** memcpy of `s` over the bytes of `b` from `o` on. */
  function Patch(b: Block, o: nat, s: Block): (r: Block)
    requires o + |s| <= |b|
    ensures |r| == |b|
    ensures forall i {:trigger r[i]} :: 0 <= i < |b| ==> r[i] == if o <= i < o + |s| then s[i - o] else b[i]
  {
    seq<byte>(|b|, i requires 0 <= i < |b| => if o <= i < o + |s| then s[i - o] else b[i])
  }

  /** Pointer slot `i` of a pointer block; a slot outside the block reads as a hole. */
  function Ptr(b: Block, i: nat): nat {
    if 4 * i + 4 <= |b| then Rd32(b, 4 * i) else 0
  }

  lemma PtrOfZeros(n: nat, i: nat)
    ensures Ptr(Zeros(n), i) == 0
  {
  }

  lemma PtrWritten(b: Block, i: nat, v: nat, j: nat)
    requires 4 * i + 4 <= |b| && v < U32
    ensures Ptr(Wr32(b, 4 * i, v), j) == if j == i then v else Ptr(b, j)
  {
  }
}
