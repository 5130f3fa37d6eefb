/** Allocation bitmaps held in raw blocks (kernel/fs/ext2.c:328-345, 430-439). */
module Bitmap {
  import opened Bytes

  /** Bit k of v, and v | (1 << k), v & ~(1 << k), read from the low end. */
  predicate Bit(v: nat, k: nat) {
    if k == 0 then v % 2 == 1 else Bit(v / 2, k - 1)
  }

  function OrBit(v: nat, k: nat): nat {
    if k == 0 then v - v % 2 + 1 else 2 * OrBit(v / 2, k - 1) + v % 2
  }

  function AndNotBit(v: nat, k: nat): (r: nat)
    ensures r <= v
  {
    if k == 0 then v - v % 2 else 2 * AndNotBit(v / 2, k - 1) + v % 2
  }

  function Pow2(n: nat): nat {
    if n == 0 then 1 else 2 * Pow2(n - 1)
  }

  lemma {:induction false} OrBitBound(v: nat, k: nat, n: nat)
    requires v < Pow2(n) && k < n
    ensures OrBit(v, k) < Pow2(n)
  {
    var h, b := v / 2, v % 2;
    assert v == 2 * h + b && Pow2(n) == 2 * Pow2(n - 1);
    if k > 0 {
      OrBitBound(h, k - 1, n - 1);
      assert OrBit(v, k) == 2 * OrBit(h, k - 1) + b;
    }
  }

  lemma {:induction false} OrBitBits(v: nat, k: nat, m: nat)
    ensures Bit(OrBit(v, k), m) == (m == k || Bit(v, m))
  {
    if k > 0 && m > 0 { OrBitBits(v / 2, k - 1, m - 1); }
  }

  lemma {:induction false} AndNotBitBits(v: nat, k: nat, m: nat)
    ensures Bit(AndNotBit(v, k), m) == (m != k && Bit(v, m))
  {
    if k > 0 && m > 0 { AndNotBitBits(v / 2, k - 1, m - 1); }
  }

  function OrByte(v: byte, k: nat): byte
    requires k < 8
  {
    assert OrBit(v, k) < 256 by {
      assert Pow2(2) == 4 && Pow2(4) == 4 * Pow2(2) && Pow2(6) == 4 * Pow2(4) && Pow2(8) == 4 * Pow2(6);
      OrBitBound(v, k, 8);
    }
    OrBit(v, k)
  }

  predicate Set(b: Block, i: nat)
    requires i < 8 * |b|
  {
    Bit(b[i / 8], i % 8)
  }

  function Mark(b: Block, i: nat): Block
    requires i < 8 * |b|
  {
    b[i / 8 := OrByte(b[i / 8], i % 8)]
  }

  function Clear(b: Block, i: nat): Block
    requires i < 8 * |b|
  {
    b[i / 8 := AndNotBit(b[i / 8], i % 8)]
  }

  lemma Marked(b: Block, i: nat, j: nat)
    requires i < 8 * |b| && j < 8 * |b|
    ensures Set(Mark(b, i), j) == (j == i || Set(b, j))
  {
    OrBitBits(b[i / 8], i % 8, j % 8);
  }

  lemma Cleared(b: Block, i: nat, j: nat)
    requires i < 8 * |b| && j < 8 * |b|
    ensures Set(Clear(b, i), j) == (j != i && Set(b, j))
  {
    AndNotBitBits(b[i / 8], i % 8, j % 8);
  }

  /** Clear bits among the first `limit`: what a free counter has to hold. */
  ghost function FreeBits(b: Block, limit: nat): (c: nat)
    requires limit <= 8 * |b|
    ensures c <= limit
  {
    if limit == 0 then 0 else FreeBits(b, limit - 1) + if Set(b, limit - 1) then 0 else 1
  }

  lemma {:induction false} FreeBitsNone(b: Block, limit: nat)
    requires limit <= 8 * |b| && forall i :: 0 <= i < limit ==> Set(b, i)
    ensures FreeBits(b, limit) == 0
  {
    if limit > 0 { FreeBitsNone(b, limit - 1); }
  }

  /** Marking a clear bit takes one from the count, if the count covers it. */
  lemma {:induction false} FreeBitsMark(b: Block, i: nat, limit: nat)
    requires limit <= 8 * |b| && i < 8 * |b| && !Set(b, i)
    ensures FreeBits(Mark(b, i), limit) == FreeBits(b, limit) - if i < limit then 1 else 0
  {
    if limit > 0 {
      Marked(b, i, limit - 1);
      FreeBitsMark(b, i, limit - 1);
    }
  }

  lemma {:induction false} FreeBitsClear(b: Block, i: nat, limit: nat)
    requires limit <= 8 * |b| && i < 8 * |b| && Set(b, i)
    ensures FreeBits(Clear(b, i), limit) == FreeBits(b, limit) + if i < limit then 1 else 0
  {
    if limit > 0 {
      Cleared(b, i, limit - 1);
      FreeBitsClear(b, i, limit - 1);
    }
  }

  lemma {:induction false} NoBits(k: nat)
    ensures !Bit(0, k)
  {
    if k > 0 { NoBits(k - 1); }
  }

  lemma {:induction false} FreeBitsAll(n: nat, limit: nat)
    requires limit <= 8 * n
    ensures FreeBits(Zeros(n), limit) == limit
  {
    if limit > 0 {
      FreeBitsAll(n, limit - 1);
      NoBits((limit - 1) % 8);
    }
  }

  /** bitmap_alloc's scan: the first clear bit below `limit`. */
  method FirstClear(b: Block, limit: nat) returns (found: int)
    requires limit <= 8 * |b|
    ensures found == -1 || 0 <= found < limit
    ensures found >= 0 ==> !Set(b, found) && forall i :: 0 <= i < found ==> Set(b, i)
    ensures found == -1 ==> forall i :: 0 <= i < limit ==> Set(b, i)
  {
    found := -1;
    for i := 0 to limit
      invariant found == -1 && forall k :: 0 <= k < i ==> Set(b, k)
    {
      if !Set(b, i) {
        return i;
      }
    }
  }
}
