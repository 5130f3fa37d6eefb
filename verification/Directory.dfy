/** Directories: the entries of a file's blocks, one after another, and the names they give to inodes
    (kernel/fs/ext2.c, dir_walk, dir_add_entry, dir_remove_entry and dir_is_empty). */
module Directory {
  import opened Bytes
  import opened BlockTree
  import opened Files
  import opened DirBlock

  /** The entries in file block `f`; a hole has none. */
  ghost function EntsAt(d: seq<Block>, per: nat, ib: seq<nat>, f: nat): seq<Entry>
    requires per > 0 && |ib| == NSLOTS
  {
    var x := MapOf(Slots(d, per, ib), per, f);
    if x != 0 && Tiled(Blk(d, x)) then Entries(Blk(d, x)) else []
  }

  /** The entries in file blocks [lo, hi). */
  ghost function Listing(d: seq<Block>, per: nat, ib: seq<nat>, lo: nat, hi: nat): seq<Entry>
    requires per > 0 && |ib| == NSLOTS
  {
    if hi <= lo then [] else Listing(d, per, ib, lo, hi - 1) + EntsAt(d, per, ib, hi - 1)
  }

  /** A directory of `n` blocks: each is a tiling by records, and there is no block past them. */
  ghost predicate IsDir(d: seq<Block>, per: nat, ib: seq<nat>, n: nat)
    requires per > 0 && |ib| == NSLOTS
  {
    forall f: nat {:trigger MapOf(Slots(d, per, ib), per, f)} ::
      MapOf(Slots(d, per, ib), per, f) != 0 ==> f < n && Tiled(Blk(d, MapOf(Slots(d, per, ib), per, f)))
  }

  /** The same, except that block `f` may hold anything. */
  ghost predicate IsDirBut(d: seq<Block>, per: nat, ib: seq<nat>, n: nat, f: nat)
    requires per > 0 && |ib| == NSLOTS
  {
    forall g: nat {:trigger MapOf(Slots(d, per, ib), per, g)} ::
      MapOf(Slots(d, per, ib), per, g) != 0 ==> g < n && (g != f ==> Tiled(Blk(d, MapOf(Slots(d, per, ib), per, g))))
  }

  lemma {:induction false} ListingSame(d: seq<Block>, d': seq<Block>, per: nat, ib: seq<nat>, ib': seq<nat>, lo: nat,
      hi: nat)
    requires per > 0 && |ib| == |ib'| == NSLOTS
    requires forall f {:trigger EntsAt(d', per, ib', f)} :: lo <= f < hi ==>
        EntsAt(d', per, ib', f) == EntsAt(d, per, ib, f)
    ensures Listing(d', per, ib', lo, hi) == Listing(d, per, ib, lo, hi)
    decreases hi
  {
    if lo < hi {
      var h := hi - 1;
      ListingSame(d, d', per, ib, ib', lo, h);
      SameEnd(EntsAt(d', per, ib', h), EntsAt(d, per, ib, h), Listing(d', per, ib', lo, h), Listing(d, per, ib, lo, h));
    }
  }

  lemma SameEnd(a: seq<Entry>, b: seq<Entry>, r: seq<Entry>, s: seq<Entry>)
    requires a == b && r == s
    ensures r + a == s + b
  {
  }

  lemma {:induction false} ListingSplit(d: seq<Block>, per: nat, ib: seq<nat>, lo: nat, m: nat, hi: nat)
    requires per > 0 && |ib| == NSLOTS && lo <= m <= hi
    ensures Listing(d, per, ib, lo, hi) == Listing(d, per, ib, lo, m) + Listing(d, per, ib, m, hi)
    decreases hi
  {
    if m < hi {
      var h := hi - 1;
      ListingSplit(d, per, ib, lo, m, h);
      Assoc(Listing(d, per, ib, lo, m), Listing(d, per, ib, m, h), EntsAt(d, per, ib, h));
    }
  }

  /** One block's entries between the blocks before and after it. */
  lemma Around3(d: seq<Block>, per: nat, ib: seq<nat>, f: nat, n: nat)
    requires per > 0 && |ib| == NSLOTS && f < n
    ensures Listing(d, per, ib, 0, n) ==
        Listing(d, per, ib, 0, f) + EntsAt(d, per, ib, f) + Listing(d, per, ib, f + 1, n)
  {
    ListingSplit(d, per, ib, 0, f + 1, n);
  }

  /** The blocks of two states hold the same entries but for block `f`. */
  ghost predicate OnlyBlock(d: seq<Block>, d': seq<Block>, per: nat, ib: seq<nat>, ib': seq<nat>, f: nat)
    requires per > 0 && |ib| == |ib'| == NSLOTS
  {
    forall g: nat {:trigger EntsAt(d', per, ib', g)} :: g != f ==> EntsAt(d', per, ib', g) == EntsAt(d, per, ib, g)
  }

  lemma ListingReplaced(d: seq<Block>, d': seq<Block>, per: nat, ib: seq<nat>, ib': seq<nat>, f: nat, n: nat)
    requires per > 0 && |ib| == |ib'| == NSLOTS && f < n && OnlyBlock(d, d', per, ib, ib', f)
    ensures Listing(d', per, ib', 0, n) ==
        Listing(d, per, ib, 0, f) + EntsAt(d', per, ib', f) + Listing(d, per, ib, f + 1, n)
  {
    Around3(d', per, ib', f, n);
    ListingSame(d, d', per, ib, ib', 0, f);
    ListingSame(d, d', per, ib, ib', f + 1, n);
  }

  lemma InsertedBetween(pre: seq<Entry>, r: seq<Entry>, s: seq<Entry>, post: seq<Entry>, e: Entry)
    requires Inserted(r, s, e)
    ensures Inserted(pre + r + post, pre + s + post, e)
  {
    var k :| 0 <= k <= |r| && s == r[..k] + [e] + r[k..];
    var w := pre + r + post;
    assert w[..|pre| + k] == pre + r[..k];
    assert w[|pre| + k..] == r[k..] + post;
    assert pre + s + post == (pre + r[..k]) + [e] + (r[k..] + post);
  }

  lemma RemovedBetween(pre: seq<Entry>, r: seq<Entry>, s: seq<Entry>, post: seq<Entry>, name: Block, ino: nat)
    requires Removed(r, s, name, ino) && Absent(pre, name)
    ensures Removed(pre + r + post, pre + s + post, name, ino)
  {
    var k :| 0 <= k < |r| && FirstAt(r, name, k) && r[k].ino == ino && s == r[..k] + r[k + 1..];
    var w := pre + r + post;
    assert w[..|pre| + k] == pre + r[..k];
    assert w[|pre| + k + 1..] == r[k + 1..] + post;
    assert w[|pre| + k] == r[k];
    assert pre + s + post == (pre + r[..k]) + (r[k + 1..] + post);
    assert FirstAt(w, name, |pre| + k);
  }

  lemma ListingInserted(d: seq<Block>, d': seq<Block>, per: nat, ib: seq<nat>, ib': seq<nat>, f: nat, n: nat, e: Entry)
    requires per > 0 && |ib| == |ib'| == NSLOTS && f < n && OnlyBlock(d, d', per, ib, ib', f)
    requires Inserted(EntsAt(d, per, ib, f), EntsAt(d', per, ib', f), e)
    ensures Inserted(Listing(d, per, ib, 0, n), Listing(d', per, ib', 0, n), e)
  {
    Around3(d, per, ib, f, n);
    ListingReplaced(d, d', per, ib, ib', f, n);
    InsertedBetween(Listing(d, per, ib, 0, f), EntsAt(d, per, ib, f), EntsAt(d', per, ib', f),
        Listing(d, per, ib, f + 1, n), e);
  }

  lemma ListingRemoved(d: seq<Block>, d': seq<Block>, per: nat, ib: seq<nat>, ib': seq<nat>, f: nat, n: nat,
      name: Block, ino: nat)
    requires per > 0 && |ib| == |ib'| == NSLOTS && f < n && OnlyBlock(d, d', per, ib, ib', f)
    requires Removed(EntsAt(d, per, ib, f), EntsAt(d', per, ib', f), name, ino) &&
        Absent(Listing(d, per, ib, 0, f), name)
    ensures Removed(Listing(d, per, ib, 0, n), Listing(d', per, ib', 0, n), name, ino)
  {
    Around3(d, per, ib, f, n);
    ListingReplaced(d, d', per, ib, ib', f, n);
    RemovedBetween(Listing(d, per, ib, 0, f), EntsAt(d, per, ib, f), EntsAt(d', per, ib', f),
        Listing(d, per, ib, f + 1, n), name, ino);
  }

  // ------------------------------------------------------------ what a change of blocks does to the entries

  /** A directory whose blocks are as they were lists what it did. */
  lemma ListingKept(d: seq<Block>, d': seq<Block>, per: nat, ib: seq<nat>, n: nat)
    requires per > 0 && |ib| == NSLOTS && Kept(d, d', per, ib) && IsDir(d, per, ib, n)
    ensures IsDir(d', per, ib, n) && Listing(d', per, ib, 0, n) == Listing(d, per, ib, 0, n)
  {
    forall f: nat ensures MapOf(Slots(d', per, ib), per, f) != 0 ==>
        Blk(d', MapOf(Slots(d', per, ib), per, f)) == Blk(d, MapOf(Slots(d, per, ib), per, f)) {
      if MapOf(Slots(d, per, ib), per, f) != 0 { MapInSum(Slots(d, per, ib), per, f); }
    }
    ListingSame(d, d', per, ib, ib, 0, n);
  }

  /** Rewriting the block behind file block `f`. */
  lemma BlockRewritten(d: seq<Block>, per: nat, ib: seq<nat>, f: nat, n: nat, x: nat, c: Block, rest: multiset<nat>,
      own: set<nat>)
    requires per > 0 && Holds(d, per, ib, rest, own) && IsDirBut(d, per, ib, n, f)
    requires x == MapOf(Slots(d, per, ib), per, f) && 0 < x < |d| && |c| == 4 * per && Tiled(c)
    ensures Holds(d[x := c], per, ib, rest, own) && IsDir(d[x := c], per, ib, n)
    ensures OnlyBlock(d, d[x := c], per, ib, ib, f) && EntsAt(d[x := c], per, ib, f) == Entries(c)
    ensures forall y :: y in rest ==> Blk(d[x := c], y) == Blk(d, y)
  {
    WroteBlock(d, per, ib, f, c, rest, own);
    DataBlock(d, per, ib, f, rest, own);
    forall g: nat | g != f ensures MapOf(Slots(d, per, ib), per, g) != x {
      MapDistinct(d, per, ib, f, g, rest, own);
    }
  }

  /** A zeroed block gained past the end, not yet written: every other block keeps its entries. */
  lemma DirGrew(d: seq<Block>, d': seq<Block>, per: nat, ib: seq<nat>, ib': seq<nat>, n: nat, data: nat,
                rest: multiset<nat>, own: set<nat>, own': set<nat>)
    requires per > 0 && Holds(d, per, ib, rest, own) && IsDir(d, per, ib, n)
    requires FileGrew(d, d', per, ib, ib', n, data, rest, own, own')
    ensures OnlyBlock(d, d', per, ib, ib', n)
    ensures data == 0 ==> IsDir(d', per, ib', n)
    ensures IsDirBut(d', per, ib', n + 1, n)
    ensures forall y :: y in rest ==> Blk(d', y) == Blk(d, y)
  {
    forall f: nat | f != n
      ensures MapOf(Slots(d', per, ib'), per, f) == MapOf(Slots(d, per, ib), per, f)
      ensures MapOf(Slots(d, per, ib), per, f) != 0 ==>
          Blk(d', MapOf(Slots(d, per, ib), per, f)) == Blk(d, MapOf(Slots(d, per, ib), per, f))
    {
      if MapOf(Slots(d, per, ib), per, f) != 0 { DataBlock(d, per, ib, f, rest, own); }
    }
    forall y | y in rest ensures Blk(d', y) == Blk(d, y) {
      RestNotPointer(d, per, ib, rest, own, y);
    }
  }
}
