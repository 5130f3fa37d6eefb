/** The multi-group allocator of ext2: one bitmap and one 16-bit free counter per group, mirrored in
    one 32-bit superblock counter (kernel/fs/ext2.c:328-460). Blocks and inodes each have a pool. */
module Allocator {
  import opened Bytes
  import opened Chunks
  import Bitmap

  // ------------------------------------------------------------ a pool of n items, c to a group

  datatype Pool = Pool(maps: seq<Block>, free: seq<nat>, sb: nat)

  /** The bitmaps have room for the items, and the counters for the counts. */
  ghost predicate Fits(p: Pool, n: nat, c: nat) {
    && 0 < c < U16 && n < U32
    && |p.maps| == |p.free| && n <= Start(c, |p.maps|)
    && forall g :: 0 <= g < |p.maps| ==> c <= 8 * |p.maps[g]|
  }

  ghost function Total(free: seq<nat>): nat {
    if free == [] then 0 else free[0] + Total(free[1..])
  }

  ghost predicate GroupExact(p: Pool, n: nat, c: nat, g: nat)
    requires Fits(p, n, c) && g < |p.maps|
  {
    p.free[g] == Bitmap.FreeBits(p.maps[g], Share(n, c, g))
  }

  /** Every group counter equals its clear bits and the superblock counter their sum. */
  ghost predicate Exact(p: Pool, n: nat, c: nat) {
    && Fits(p, n, c)
    && (forall g :: 0 <= g < |p.maps| ==> GroupExact(p, n, c, g))
    && p.sb == Total(p.free)
  }

  /** adj_free_counts: a decrement sticks at zero, an increment wraps at the field's width. */
  function Down(n: nat): nat { if n > 0 then n - 1 else n }

  function Up(n: nat, width: nat): nat { if n + 1 < width then n + 1 else 0 }

  function Adjusted(p: Pool, g: nat, up: bool): Pool
    requires g < |p.free|
  {
    if up then p.(free := p.free[g := Up(p.free[g], U16)], sb := Up(p.sb, U32))
    else p.(free := p.free[g := Down(p.free[g])], sb := Down(p.sb))
  }

  /** What the code does to allocate, resp. release, bit `i` of group `g`. */
  function Take(p: Pool, g: nat, i: nat): Pool
    requires g < |p.maps| == |p.free| && i < 8 * |p.maps[g]|
  {
    Adjusted(p.(maps := p.maps[g := Bitmap.Mark(p.maps[g], i)]), g, false)
  }

  function Give(p: Pool, g: nat, i: nat): Pool
    requires g < |p.maps| == |p.free| && i < 8 * |p.maps[g]|
  {
    Adjusted(p.(maps := p.maps[g := Bitmap.Clear(p.maps[g], i)]), g, true)
  }

  lemma {:induction false} TotalUpdate(free: seq<nat>, g: nat, v: nat)
    requires g < |free|
    ensures Total(free[g := v]) == Total(free) - free[g] + v
  {
    if g == 0 {
      assert free[0 := v][1..] == free[1..];
    } else {
      assert free[g := v][1..] == free[1..][g - 1 := v];
      TotalUpdate(free[1..], g - 1, v);
    }
  }

  /** The counters together never exceed the number of items. */
  lemma {:induction false} TotalBound(free: seq<nat>, n: nat, c: nat)
    requires forall g :: 0 <= g < |free| ==> free[g] <= Share(n, c, g)
    ensures Total(free) <= n
    decreases |free|
  {
    if free != [] {
      var m := if n >= c then n - c else 0;
      forall g | 0 <= g < |free| - 1
        ensures free[1..][g] <= Share(m, c, g)
      {
        assert free[1..][g] == free[g + 1];
      }
      TotalBound(free[1..], m, c);
      assert free[0] <= Share(n, c, 0);
    }
  }

  /** Taking a clear bit keeps every counter exact; in particular neither decrement sticks. */
  lemma TakeExact(p: Pool, n: nat, c: nat, g: nat, i: nat)
    requires Exact(p, n, c) && g < |p.maps| && i < Share(n, c, g) && !Bitmap.Set(p.maps[g], i)
    ensures Exact(Take(p, g, i), n, c) && Take(p, g, i).sb == p.sb - 1
  {
    var p' := Take(p, g, i);
    assert GroupExact(p, n, c, g);
    Bitmap.FreeBitsMark(p.maps[g], i, Share(n, c, g));
    TotalUpdate(p.free, g, 0);
    TotalUpdate(p.free, g, p.free[g] - 1);
    forall h | 0 <= h < |p.maps| ensures GroupExact(p', n, c, h) {
      assert GroupExact(p, n, c, h);
    }
  }

  /** Releasing a marked bit keeps every counter exact; neither increment wraps. */
  lemma GiveExact(p: Pool, n: nat, c: nat, g: nat, i: nat)
    requires Exact(p, n, c) && g < |p.maps| && i < Share(n, c, g) && Bitmap.Set(p.maps[g], i)
    ensures Exact(Give(p, g, i), n, c) && Give(p, g, i).sb == p.sb + 1
  {
    var p' := Give(p, g, i);
    assert GroupExact(p, n, c, g);
    Bitmap.FreeBitsClear(p.maps[g], i, Share(n, c, g));
    forall h | 0 <= h < |p.maps| ensures GroupExact(p', n, c, h) {
      assert GroupExact(p, n, c, h);
    }
    forall h | 0 <= h < |p.maps| ensures p'.free[h] <= Share(n, c, h) {
      assert GroupExact(p', n, c, h);
    }
    TotalBound(p'.free, n, c);
    TotalUpdate(p.free, g, p.free[g] + 1);
  }

  // ------------------------------------------------------------ which items are marked

  /** Item `x`, counted from 0 over all groups, is marked. */
  ghost predicate Taken(p: Pool, n: nat, c: nat, x: nat)
    requires Fits(p, n, c)
  {
    x < n && (Located(n, c, |p.maps|, x); Bitmap.Set(p.maps[GroupAt(c, x)], BitAt(c, x)))
  }

  lemma TakeOne(p: Pool, n: nat, c: nat, g: nat, i: nat)
    requires Exact(p, n, c) && g < |p.maps| && i < Share(n, c, g) && !Bitmap.Set(p.maps[g], i)
    ensures Exact(Take(p, g, i), n, c) && Take(p, g, i).sb == p.sb - 1
    ensures Start(c, g) + i < n && !Taken(p, n, c, Start(c, g) + i)
    ensures forall y :: 0 <= y < n ==> Taken(Take(p, g, i), n, c, y) == (Taken(p, n, c, y) || y == Start(c, g) + i)
  {
    TakeExact(p, n, c, g, i);
    var x, p' := Start(c, g) + i, Take(p, g, i);
    Position(c, g, i);
    assert Fits(p', n, c) && p'.maps == p.maps[g := Bitmap.Mark(p.maps[g], i)];
    forall y | 0 <= y < n
      ensures Taken(p', n, c, y) == (Taken(p, n, c, y) || y == x)
    {
      MarkedItem(p, p', n, c, g, i, y);
    }
  }

  lemma MarkedItem(p: Pool, p': Pool, n: nat, c: nat, g: nat, i: nat, y: nat)
    requires Fits(p, n, c) && Fits(p', n, c) && g < |p.maps| && i < c <= 8 * |p.maps[g]| && y < n
    requires p'.maps == p.maps[g := Bitmap.Mark(p.maps[g], i)]
    ensures Taken(p', n, c, y) == (Taken(p, n, c, y) || y == Start(c, g) + i)
  {
    Located(n, c, |p.maps|, y);
    Recombine(c, y);
    Position(c, g, i);
    if GroupAt(c, y) == g {
      Bitmap.Marked(p.maps[g], i, BitAt(c, y));
    }
  }

  lemma GiveOne(p: Pool, n: nat, c: nat, x: nat)
    requires Exact(p, n, c) && Taken(p, n, c, x)
    ensures GroupAt(c, x) < |p.maps| && BitAt(c, x) < 8 * |p.maps[GroupAt(c, x)]|
    ensures Exact(Give(p, GroupAt(c, x), BitAt(c, x)), n, c)
    ensures forall y :: 0 <= y < n ==>
        Taken(Give(p, GroupAt(c, x), BitAt(c, x)), n, c, y) == (Taken(p, n, c, y) && y != x)
  {
    Located(n, c, |p.maps|, x);
    var g, i := GroupAt(c, x), BitAt(c, x);
    GiveExact(p, n, c, g, i);
    Recombine(c, x);
    forall y | 0 <= y < n
      ensures Taken(Give(p, g, i), n, c, y) == (Taken(p, n, c, y) && y != x)
    {
      Located(n, c, |p.maps|, y);
      Recombine(c, y);
      if GroupAt(c, y) == g {
        Bitmap.Cleared(p.maps[g], i, BitAt(c, y));
      }
    }
  }

  ghost predicate GroupFull(p: Pool, n: nat, c: nat, g: nat)
    requires Fits(p, n, c) && g < |p.maps|
  {
    forall i :: 0 <= i < Share(n, c, g) ==> Bitmap.Set(p.maps[g], i)
  }

  /** Full groups everywhere mean a full pool. */
  lemma AllFull(p: Pool, n: nat, c: nat)
    requires Fits(p, n, c) && forall g :: 0 <= g < |p.maps| ==> GroupFull(p, n, c, g)
    ensures forall x :: 0 <= x < n ==> Taken(p, n, c, x)
  {
    forall x | 0 <= x < n ensures Taken(p, n, c, x) {
      Located(n, c, |p.maps|, x);
      assert GroupFull(p, n, c, GroupAt(c, x));
    }
  }

  /** And the superblock says so. */
  lemma FullCount(p: Pool, n: nat, c: nat)
    requires Exact(p, n, c) && forall g :: 0 <= g < |p.maps| ==> GroupFull(p, n, c, g)
    ensures p.sb == 0
  {
    forall g | 0 <= g < |p.maps| ensures p.free[g] == 0 {
      assert GroupExact(p, n, c, g) && GroupFull(p, n, c, g);
      Bitmap.FreeBitsNone(p.maps[g], Share(n, c, g));
    }
    TotalZero(p.free);
  }

  lemma {:induction false} TotalZero(free: seq<nat>)
    requires forall g :: 0 <= g < |free| ==> free[g] == 0
    ensures Total(free) == 0
  {
    if free != [] { TotalZero(free[1..]); }
  }

  // ------------------------------------------------------------ pools against the sets they stand for

  /** Item x is marked iff number `base + x` is in `s`, or in the fixed set `m`. */
  ghost predicate Marks(p: Pool, n: nat, c: nat, base: nat, s: set<nat>, m: set<nat>)
    requires Fits(p, n, c)
  {
    forall x {:trigger Taken(p, n, c, x)} :: 0 <= x < n ==> (Taken(p, n, c, x) <==> base + x in s || base + x in m)
  }

  /** Allocating bit `i` of group `g` adds its number, which was not there. */
  lemma TakeMarks(p: Pool, n: nat, c: nat, base: nat, s: set<nat>, m: set<nat>, g: nat, i: nat)
    requires Exact(p, n, c) && Marks(p, n, c, base, s, m)
    requires g < |p.maps| && i < Share(n, c, g) && !Bitmap.Set(p.maps[g], i)
    ensures Exact(Take(p, g, i), n, c) && Take(p, g, i).sb == p.sb - 1 && Start(c, g) + i < n
    ensures base + Start(c, g) + i !in s && base + Start(c, g) + i !in m
    ensures Marks(Take(p, g, i), n, c, base, s + {base + Start(c, g) + i}, m)
  {
    TakeOne(p, n, c, g, i);
  }

  /** Numbers that change sides stay marked. */
  lemma MarksMoved(p: Pool, n: nat, c: nat, base: nat, s: set<nat>, m: set<nat>, s': set<nat>, m': set<nat>)
    requires Exact(p, n, c) && Marks(p, n, c, base, s, m) && s' <= s && m' == m + (s - s')
    ensures Marks(p, n, c, base, s', m')
  {
  }

  /** Releasing a number that is there removes it and nothing else. */
  lemma GiveMarks(p: Pool, n: nat, c: nat, base: nat, s: set<nat>, m: set<nat>, x: nat)
    requires Exact(p, n, c) && Marks(p, n, c, base, s, m) && x < n && base + x in s && base + x !in m
    ensures GroupAt(c, x) < |p.maps| && BitAt(c, x) < 8 * |p.maps[GroupAt(c, x)]|
    ensures Exact(Give(p, GroupAt(c, x), BitAt(c, x)), n, c)
    ensures Marks(Give(p, GroupAt(c, x), BitAt(c, x)), n, c, base, s - {base + x}, m)
  {
    assert Taken(p, n, c, x);
    GiveOne(p, n, c, x);
  }

  lemma FullMarks(p: Pool, n: nat, c: nat, base: nat, s: set<nat>, m: set<nat>, b: nat)
    requires Fits(p, n, c) && Marks(p, n, c, base, s, m) && forall g :: 0 <= g < |p.maps| ==> GroupFull(p, n, c, g)
    requires base <= b < base + n
    ensures b in s || b in m
  {
    AllFull(p, n, c);
    assert Taken(p, n, c, b - base);
  }

  /** A bit past the counted items, set without touching a counter, as alloc_inode does when the group's
      bitmap is longer than the inodes it stands for. */
  lemma MarkBeyond(p: Pool, n: nat, c: nat, base: nat, s: set<nat>, m: set<nat>, g: nat, i: nat)
    requires Exact(p, n, c) && Marks(p, n, c, base, s, m) && g < |p.maps| && Share(n, c, g) <= i < c &&
        !Bitmap.Set(p.maps[g], i)
    ensures var p' := p.(maps := p.maps[g := Bitmap.Mark(p.maps[g], i)]);
      Exact(p', n, c) && Marks(p', n, c, base, s, m)
  {
    var p' := p.(maps := p.maps[g := Bitmap.Mark(p.maps[g], i)]);
    assert Fits(p', n, c);
    Bitmap.FreeBitsMark(p.maps[g], i, Share(n, c, g));
    forall h | 0 <= h < |p.maps| ensures GroupExact(p', n, c, h) {
      assert GroupExact(p, n, c, h);
    }
    forall x | 0 <= x < n ensures Taken(p', n, c, x) == Taken(p, n, c, x) {
      Located(n, c, |p.maps|, x);
      Recombine(c, x);
      MarkedItem(p, p', n, c, g, i, x);
    }
  }

  /** Past a group that is not wholly counted no group counts anything. */
  lemma LaterGroupsEmpty(p: Pool, n: nat, c: nat, g: nat, h: nat)
    requires Fits(p, n, c) && g < h < |p.maps| && Share(n, c, g) < c
    ensures GroupFull(p, n, c, h)
  {
    StartMono(c, g, h);
  }

  // ------------------------------------------------------------ a pool nothing has been taken from

  function Shares(n: nat, c: nat, k: nat): (r: seq<nat>)
    ensures |r| == k && forall g :: 0 <= g < k ==> r[g] == Share(n, c, g)
  {
    seq(k, g requires 0 <= g < k => Share(n, c, g))
  }

  lemma {:induction false} TotalMore(free: seq<nat>, x: nat)
    ensures Total(free + [x]) == Total(free) + x
  {
    if free == [] {
      assert [x][1..] == [];
    } else {
      assert (free + [x])[1..] == free[1..] + [x];
      TotalMore(free[1..], x);
    }
  }

  lemma {:induction false} TotalShares(n: nat, c: nat, k: nat)
    ensures Total(Shares(n, c, k)) == if n < Start(c, k) then n else Start(c, k)
  {
    if k > 0 {
      TotalShares(n, c, k - 1);
      assert Shares(n, c, k) == Shares(n, c, k - 1) + [Share(n, c, k - 1)];
      TotalMore(Shares(n, c, k - 1), Share(n, c, k - 1));
    }
  }

  /** `k` groups of which nothing is taken. */
  function Unused(n: nat, c: nat, k: nat, bs: nat): (p: Pool)
    ensures |p.maps| == |p.free| == k && p.sb == n && forall g :: 0 <= g < k ==> p.maps[g] == Zeros(bs)
  {
    Pool(seq(k, _ => Zeros(bs)), Shares(n, c, k), n)
  }

  lemma FreshPool(n: nat, c: nat, k: nat, bs: nat, base: nat)
    requires 0 < c < U16 && n < U32 && n <= Start(c, k) && c <= 8 * bs
    ensures var p := Unused(n, c, k, bs); Exact(p, n, c) && Marks(p, n, c, base, {}, {})
  {
    var p := Unused(n, c, k, bs);
    TotalShares(n, c, k);
    forall g | 0 <= g < k ensures GroupExact(p, n, c, g) {
      Bitmap.FreeBitsAll(bs, Share(n, c, g));
    }
    forall x | 0 <= x < n ensures !Taken(p, n, c, x) {
      Located(n, c, k, x);
      Bitmap.NoBits(BitAt(c, x) % 8);
    }
  }

  /** Item 0 taken from such a pool. */
  lemma FirstTaken(n: nat, c: nat, k: nat, bs: nat)
    requires 0 < c < U16 && 0 < n < U32 && n <= Start(c, k) && c <= 8 * bs && 0 < bs && k > 0
    ensures var p := Unused(n, c, k, bs);
      Exact(Take(p, 0, 0), n, c) && Marks(Take(p, 0, 0), n, c, 0, {}, {0}) && Take(p, 0, 0).sb == n - 1
  {
    var p := Unused(n, c, k, bs);
    FreshPool(n, c, k, bs, 0);
    Bitmap.NoBits(0);
    TakeMarks(p, n, c, 0, {}, {}, 0, 0);
    var s: set<nat> := {0};
    assert {} + {0 + Start(c, 0) + 0} == s && {} + (s - {}) == s;
    MarksMoved(Take(p, 0, 0), n, c, 0, s, {}, {}, s);
  }
}
