/** Directory operations on a volume (kernel/fs/ext2.c, dir_walk, dir_add_entry, dir_remove_entry,
    dir_is_empty, ext2_create and ext2_unlink). */
module DirOps {
  import opened Bytes
  import opened Chunks
  import opened BlockTree
  import opened Files
  import opened DirBlock
  import opened Namespace
  import opened Dotted
  import opened Directory
  import opened V = Volume

  /** How many blocks the size spans. */
  function NBlocks(per: nat, node: Inode): nat
    requires per > 0
  {
    GroupsFor(node.size, 4 * per)
  }

  /** The entries of a directory, in the order of its blocks. */
  ghost function ListOf(d: seq<Block>, per: nat, node: Inode): seq<Entry>
    requires per > 0 && |node.iblock| == NSLOTS
  {
    Listing(d, per, node.iblock, 0, NBlocks(per, node))
  }

  /** Inode `i` is a directory in use and in order. */
  ghost predicate DirAt(v: Volume, i: nat)
    reads v
  {
    && v.Valid() && i in v.live && v.inodes[i].isDir
    && IsDir(v.disk, v.geo.per, v.inodes[i].iblock, NBlocks(v.geo.per, v.inodes[i]))
  }

  /** The blocks of a directory `ib` on a disk whose other files own `rest`. */
  ghost predicate Readable(d: seq<Block>, per: nat, ib: seq<nat>, n: nat, rest: multiset<nat>, own: set<nat>) {
    && per > 0 && Holds(d, per, ib, rest, own) && IsDir(d, per, ib, n)
    && (forall x {:trigger x in own} :: x in own ==> x < |d| && |d[x]| == 4 * per)
  }

  lemma DirReadable(v: Volume, i: nat)
    requires DirAt(v, i)
    ensures Readable(v.disk, v.geo.per, v.inodes[i].iblock, NBlocks(v.geo.per, v.inodes[i]),
        Others(v.disk, v.geo.per, v.inodes, v.live, i), v.owned)
  {
    Loaded(v.disk, v.geo.per, v.inodes, v.live, v.owned, v.due, i);
  }

  /** bread of file block `b` of a directory; `x` is 0 for a hole. */
  method Fetch(d: seq<Block>, per: nat, ib: seq<nat>, b: nat, ghost n: nat, ghost rest: multiset<nat>,
      ghost own: set<nat>) returns (x: nat, blk: Block)
    requires Readable(d, per, ib, n, rest, own)
    ensures x == MapOf(Slots(d, per, ib), per, b)
    ensures x == 0 ==> EntsAt(d, per, ib, b) == []
    ensures x != 0 ==> x < |d| && blk == d[x] && |blk| == 4 * per && Tiled(blk) && Entries(blk) == EntsAt(d, per, ib, b)
  {
    MapBlockIsMap(d, per, ib, b);
    x := MapBlock(d, per, ib, b);
    blk := [];
    if x != 0 {
      DataBlock(d, per, ib, b, rest, own);
      blk := d[x];
    }
  }

  /** dir_walk's loop over the blocks, for a name. */
  method FindBlocks(d: seq<Block>, per: nat, ib: seq<nat>, n: nat, name: Block, ghost rest: multiset<nat>,
      ghost own: set<nat>) returns (ino: nat, ftype: byte)
    requires Readable(d, per, ib, n, rest, own)
    ensures ino == 0 ==> Absent(Listing(d, per, ib, 0, n), name)
    ensures ino != 0 ==> Found(Listing(d, per, ib, 0, n), name, ino, ftype)
  {
    for b := 0 to n
      invariant Absent(Listing(d, per, ib, 0, b), name)
    {
      var x, blk := Fetch(d, per, ib, b, n, rest, own);
      if x != 0 {
        ino, ftype := FindInBlock(blk, name);
        if ino != 0 {
          Around3(d, per, ib, b, n);
          FoundIn(Listing(d, per, ib, 0, n), Listing(d, per, ib, 0, b), Entries(blk), Listing(d, per, ib, b + 1, n),
              Entry(name, ino, ftype));
          return;
        }
      }
      AbsentFrom(Listing(d, per, ib, 0, b + 1), Listing(d, per, ib, 0, b), EntsAt(d, per, ib, b), name);
    }
    return 0, 0;
  }

  /** dir_walk for a name: 0 when the directory does not have it. */
  method Find(v: Volume, i: nat, name: Block) returns (ino: nat, ftype: byte)
    requires DirAt(v, i)
    ensures ino == 0 ==> Absent(ListOf(v.disk, v.geo.per, v.inodes[i]), name)
    ensures ino != 0 ==> Found(ListOf(v.disk, v.geo.per, v.inodes[i]), name, ino, ftype)
  {
    DirReadable(v, i);
    ino, ftype := FindBlocks(v.disk, v.geo.per, v.inodes[i].iblock, NBlocks(v.geo.per, v.inodes[i]), name,
                             Others(v.disk, v.geo.per, v.inodes, v.live, i), v.owned);
  }

  /** dir_walk's loop over the blocks, for an index. */
  method NthBlocks(d: seq<Block>, per: nat, ib: seq<nat>, n: nat, index: nat, all: bool, ghost rest: multiset<nat>,
      ghost own: set<nat>) returns (found: bool, e: Entry)
    requires Readable(d, per, ib, n, rest, own)
    ensures found <==> index < |Shown(Listing(d, per, ib, 0, n), all)|
    ensures found ==> e == Shown(Listing(d, per, ib, 0, n), all)[index]
  {
    var seen := 0;
    e := Entry([], 0, 0);
    for b := 0 to n
      invariant seen == |Shown(Listing(d, per, ib, 0, b), all)| <= index
    {
      var x, blk := Fetch(d, per, ib, b, n, rest, own);
      ShownAround(d, per, ib, b, n, all);
      if x != 0 {
        ghost var seen0 := seen;
        found, e, seen := NthInBlock(blk, all, index, seen);
        if found {
          PickedWithin(Shown(Entries(blk), all), Shown(Listing(d, per, ib, 0, n), all), seen0, index, e);
          return;
        }
      }
    }
    found := false;
  }

  lemma ShownAround(d: seq<Block>, per: nat, ib: seq<nat>, b: nat, n: nat, all: bool)
    requires per > 0 && |ib| == NSLOTS && b < n
    ensures |Shown(Listing(d, per, ib, 0, b + 1), all)| ==
        |Shown(Listing(d, per, ib, 0, b), all)| + |Shown(EntsAt(d, per, ib, b), all)|
    ensures Within(Shown(EntsAt(d, per, ib, b), all), Shown(Listing(d, per, ib, 0, n), all),
        |Shown(Listing(d, per, ib, 0, b), all)|)
  {
    Around3(d, per, ib, b, n);
    ShownParts(Listing(d, per, ib, 0, n), Listing(d, per, ib, 0, b), EntsAt(d, per, ib, b),
        Listing(d, per, ib, b + 1, n), all);
  }

  /** dir_walk for an index: entry number `index` of those shown, if there are that many. */
  method Nth(v: Volume, i: nat, index: nat, all: bool) returns (found: bool, e: Entry)
    requires DirAt(v, i)
    ensures found <==> index < |Shown(ListOf(v.disk, v.geo.per, v.inodes[i]), all)|
    ensures found ==> e == Shown(ListOf(v.disk, v.geo.per, v.inodes[i]), all)[index]
  {
    DirReadable(v, i);
    found, e := NthBlocks(v.disk, v.geo.per, v.inodes[i].iblock, NBlocks(v.geo.per, v.inodes[i]), index, all,
                          Others(v.disk, v.geo.per, v.inodes, v.live, i), v.owned);
  }

  /** With `all` the index runs over every entry. */
  method NthAll(d: seq<Block>, per: nat, ib: seq<nat>, n: nat, index: nat, ghost r: seq<Entry>,
      ghost rest: multiset<nat>, ghost own: set<nat>) returns (found: bool, e: Entry)
    requires Readable(d, per, ib, n, rest, own) && r == Listing(d, per, ib, 0, n)
    ensures found <==> index < |r|
    ensures found ==> e == r[index]
  {
    ShownAll(r);
    found, e := NthBlocks(d, per, ib, n, index, true, rest, own);
  }

  /** dir_is_empty's loop: counts, entry by entry, the names other than "." and "..". */
  method EmptyBlocks(d: seq<Block>, per: nat, ib: seq<nat>, n: nat, ghost rest: multiset<nat>, ghost own: set<nat>)
      returns (empty: bool)
    requires Readable(d, per, ib, n, rest, own)
    ensures empty <==> AllDots(Listing(d, per, ib, 0, n))
  {
    ghost var r := Listing(d, per, ib, 0, n);
    var idx, others := 0, 0;
    var more, e := NthAll(d, per, ib, n, idx, r, rest, own);
    while more
      invariant idx <= |r| && (more <==> idx < |r|) && (more ==> e == r[idx])
      invariant others >= 0 && (others == 0 <==> DotsUpto(r, idx))
      decreases |r| - idx
    {
      DotsNext(r, idx);
      if !Dots(e.name) { others := others + 1; }
      idx := idx + 1;
      more, e := NthAll(d, per, ib, n, idx, r, rest, own);
    }
    empty := others == 0;
  }

  method IsEmpty(v: Volume, i: nat) returns (empty: bool)
    requires DirAt(v, i)
    ensures empty <==> AllDots(ListOf(v.disk, v.geo.per, v.inodes[i]))
  {
    DirReadable(v, i);
    empty := EmptyBlocks(v.disk, v.geo.per, v.inodes[i].iblock, NBlocks(v.geo.per, v.inodes[i]),
                         Others(v.disk, v.geo.per, v.inodes, v.live, i), v.owned);
  }

  // ------------------------------------------------------------ adding an entry

  /** No block of the directory has room for a record of `need` bytes. */
  ghost predicate Packed(d: seq<Block>, per: nat, ib: seq<nat>, n: nat, need: nat)
    requires per > 0 && |ib| == NSLOTS
  {
    forall f: nat {:trigger PackedAt(d, per, ib, f, need)} :: f < n ==> PackedAt(d, per, ib, f, need)
  }

  ghost predicate PackedAt(d: seq<Block>, per: nat, ib: seq<nat>, f: nat, need: nat)
    requires per > 0 && |ib| == NSLOTS
  {
    var x := MapOf(Slots(d, per, ib), per, f);
    x != 0 ==> NoSlack(Blk(d, x), need)
  }

  /** The size of a record for a name. */
  function Need(name: Block): nat {
    Align4(8 + |name|)
  }

  /** dir_add_entry's scan: the first block with room for the entry and what becomes of it; `b == n`
      when there is none. */
  method FindRoom(d: seq<Block>, per: nat, ib: seq<nat>, n: nat, e: Entry, ghost rest: multiset<nat>,
      ghost own: set<nat>) returns (b: nat, x: nat, blk: Block)
    requires Readable(d, per, ib, n, rest, own) && 0 < e.ino < U32 && 0 < |e.name| < 256
    ensures b <= n && (b == n <==> Packed(d, per, ib, n, Need(e.name)))
    ensures b < n ==>
        0 < x < |d| && x == MapOf(Slots(d, per, ib), per, b) && |blk| == 4 * per && Tiled(blk) &&
        Inserted(EntsAt(d, per, ib, b), Entries(blk), e)
  {
    b := 0;
    while b < n
      invariant b <= n && Packed(d, per, ib, b, Need(e.name))
    {
      x, blk := Fetch(d, per, ib, b, n, rest, own);
      if x != 0 {
        var ok, blk' := AddInBlock(blk, e);
        if ok {
          assert !PackedAt(d, per, ib, b, Need(e.name));
          return b, x, blk';
        }
      }
      assert PackedAt(d, per, ib, b, Need(e.name));
      b := b + 1;
    }
    x, blk := 0, [];
  }

  /** What is kept about the one inode an operation has in hand while it works on its blocks; `k` of them are
      not in its i_blocks. */
  ghost predicate InHand(v: Volume, vi: Vinfo, rest: multiset<nat>, k: nat)
    reads v, vi
  {
    && v.Alloc() && vi.Counted() && vi.size < U32
    && Holds(v.disk, v.geo.per, vi.iblock, rest, v.owned) && vi.held + k == |v.owned| - |rest|
  }

  lemma ReadableInHand(v: Volume, vi: Vinfo, n: nat, rest: multiset<nat>, k: nat)
    requires InHand(v, vi, rest, k) && IsDir(v.disk, v.geo.per, vi.iblock, n)
    ensures Readable(v.disk, v.geo.per, vi.iblock, n, rest, v.owned)
  {
  }

  /** bwrite of a directory block. */
  method PutBlock(v: Volume, vi: Vinfo, b: nat, x: nat, blk: Block, ghost n: nat, ghost rest: multiset<nat>,
      ghost k: nat)
    requires InHand(v, vi, rest, k) && IsDirBut(v.disk, v.geo.per, vi.iblock, n, b)
    requires 0 < x < |v.disk| && x == MapOf(Slots(v.disk, v.geo.per, vi.iblock), v.geo.per, b) && |blk| == v.geo.Bs() &&
        Tiled(blk)
    modifies v`disk
    ensures InHand(v, vi, rest, k) && IsDir(v.disk, v.geo.per, vi.iblock, n)
    ensures OnlyBlock(old(v.disk), v.disk, v.geo.per, vi.iblock, vi.iblock, b) &&
        EntsAt(v.disk, v.geo.per, vi.iblock, b) == Entries(blk)
    ensures forall y :: y in rest ==> Blk(v.disk, y) == Blk(old(v.disk), y)
    ensures v.inodes == old(v.inodes) && v.live == old(v.live) && v.meta == old(v.meta) && v.due == old(v.due) &&
        v.owned == old(v.owned)
  {
    BlockRewritten(v.disk, v.geo.per, vi.iblock, b, n, x, blk, rest, v.owned);
    v.disk := v.disk[x := blk];
  }

  /** A block of one record. */
  method NewBlock(bs: nat, e: Entry) returns (b: Block)
    requires (bs == 1024 || bs == 2048 || bs == 4096) && 0 < e.ino < U32 && 0 < |e.name| < 256
    ensures |b| == bs && Tiled(b) && Entries(b) == [e]
  {
    b := Put(Zeros(bs), 0, e.ino, bs, e.ftype, e.name);
    AlignedIsMod(bs);
    PutIs(Zeros(bs), 0, e.ino, bs, e.ftype, e.name);
    One(b, 0);
  }

  lemma InsertedAtEnd(r: seq<Entry>, e: Entry)
    ensures Inserted(r, r + [e], e)
  {
    assert r + [e] == r[..|r|] + [e] + r[|r|..];
  }

  lemma OneMore(n: nat, c: nat)
    requires c > 0
    ensures GroupsFor(n + c, c) == GroupsFor(n, c) + 1
  {
  }

  /** What a failed attempt to give the directory block `n` leaves of the disk, the block map, the blocks of files and
      the number of free ones: out of reach nothing changes; otherwise every free block is taken, and where only the
      block map leads to them no block that was in use is written. */
  ghost predicate Failed(d0: seq<Block>, ib0: seq<nat>, own0: set<nat>, free0: nat, d: seq<Block>, ib: seq<nat>,
      own: set<nat>, free: nat, per: nat, n: nat)
    requires per > 0 && |ib0| == NSLOTS
  {
    && own0 <= own && |own| + free == |own0| + free0
    && (if SlotIdx(per, n) == NSLOTS then free == free0 else free0 < FileNeeds(d0, per, ib0, n) && free == 0)
    && (ib != ib0 <==> Rootless(per, ib0, n) && free0 > 0)
    && (ib != ib0 ==> forall x :: x in own0 ==> Blk(d, x) == Blk(d0, x))
  }

  /** There are enough free blocks for block `n` of the directory and the pointer blocks it needs. */
  ghost predicate Enough(d: seq<Block>, per: nat, ib: seq<nat>, n: nat, free: nat)
    requires per > 0 && |ib| == NSLOTS
  {
    SlotIdx(per, n) < NSLOTS && free >= FileNeeds(d, per, ib, n)
  }

  /** dir_add_entry's last resort: the directory grows by a block that holds just the entry. */
  method Grow(v: Volume, vi: Vinfo, n: nat, e: Entry, ghost rest: multiset<nat>, ghost k: nat) returns (ok: bool)
    requires InHand(v, vi, rest, k) && IsDir(v.disk, v.geo.per, vi.iblock, n) && 0 < e.ino < U32 && 0 < |e.name| < 256
    modifies v`disk, v`blockPool, v`owned, vi`iblock, vi`blocks, vi`held
    ensures InHand(v, vi, rest, k) && IsDir(v.disk, v.geo.per, vi.iblock, if ok then n + 1 else n)
    ensures forall y :: y in rest ==> Blk(v.disk, y) == Blk(old(v.disk), y)
    ensures ok <==> old(Enough(v.disk, v.geo.per, vi.iblock, n, v.blockPool.sb))
    ensures ok ==>
        Inserted(old(Listing(v.disk, v.geo.per, vi.iblock, 0, n)), Listing(v.disk, v.geo.per, vi.iblock, 0, n + 1), e)
    ensures !ok ==> Listing(v.disk, v.geo.per, vi.iblock, 0, n) == old(Listing(v.disk, v.geo.per, vi.iblock, 0, n))
    ensures !ok ==>
        Failed(old(v.disk), old(vi.iblock), old(v.owned), old(v.blockPool.sb), v.disk, vi.iblock, v.owned,
        v.blockPool.sb, v.geo.per, n)
    ensures v.inodes == old(v.inodes) && v.live == old(v.live) && v.meta == old(v.meta) && v.due == old(v.due)
  {
    ghost var d0, ib0 := v.disk, vi.iblock;
    var nb := Extend(v, vi, n, rest, k);
    if nb == 0 { return false; }
    ghost var d1 := v.disk;
    var blk := NewBlock(v.geo.Bs(), e);
    PutBlock(v, vi, n, nb, blk, n + 1, rest, k);
    ListingSame(d1, v.disk, v.geo.per, vi.iblock, vi.iblock, 0, n);
    InsertedAtEnd(Listing(d0, v.geo.per, ib0, 0, n), e);
    ok := true;
  }

  /** alloc_file_block of block `n`, not yet written. */
  method Extend(v: Volume, vi: Vinfo, n: nat, ghost rest: multiset<nat>, ghost k: nat) returns (nb: nat)
    requires InHand(v, vi, rest, k) && IsDir(v.disk, v.geo.per, vi.iblock, n)
    modifies v`disk, v`blockPool, v`owned, vi`iblock, vi`blocks, vi`held
    ensures InHand(v, vi, rest, k) && IsDirBut(v.disk, v.geo.per, vi.iblock, n + 1, n)
    ensures forall y :: y in rest ==> Blk(v.disk, y) == Blk(old(v.disk), y)
    ensures Listing(v.disk, v.geo.per, vi.iblock, 0, n) == old(Listing(v.disk, v.geo.per, vi.iblock, 0, n))
    ensures nb != 0 <==> old(Enough(v.disk, v.geo.per, vi.iblock, n, v.blockPool.sb))
    ensures nb != 0 ==> nb < |v.disk| && nb == MapOf(Slots(v.disk, v.geo.per, vi.iblock), v.geo.per, n)
    ensures nb == 0 ==> IsDir(v.disk, v.geo.per, vi.iblock, n)
    ensures nb == 0 ==>
        Failed(old(v.disk), old(vi.iblock), old(v.owned), old(v.blockPool.sb), v.disk, vi.iblock, v.owned,
        v.blockPool.sb, v.geo.per, n)
    ensures v.inodes == old(v.inodes) && v.live == old(v.live) && v.meta == old(v.meta) && v.due == old(v.due)
  {
    nb := v.AllocFileBlock(vi, n, rest);
    DirGrew(old(v.disk), v.disk, v.geo.per, old(vi.iblock), vi.iblock, n, nb, rest, old(v.owned), v.owned);
    ListingSame(old(v.disk), v.disk, v.geo.per, old(vi.iblock), vi.iblock, 0, n);
  }

  /** A block of the directory has room for the name, or another block can be had. */
  ghost predicate Room(d: seq<Block>, per: nat, node: Inode, name: Block, free: nat)
    requires per > 0 && |node.iblock| == NSLOTS
  {
    !Packed(d, per, node.iblock, NBlocks(per, node), Need(name)) ||
        Enough(d, per, node.iblock, NBlocks(per, node), free)
  }

  /** The directory is full, block `n` is within reach, and there are free blocks, but not as many as it takes. */
  ghost predicate Short(d: seq<Block>, per: nat, ib: seq<nat>, n: nat, need: nat, free: nat)
    requires per > 0 && |ib| == NSLOTS
  {
    Packed(d, per, ib, n, need) && SlotIdx(per, n) < NSLOTS && 1 <= free < FileNeeds(d, per, ib, n)
  }

  /** Whether there is room for a name, how many blocks are lost in finding out that there is none, and how many are
      linked into the directory without being counted in its i_blocks. */
  datatype Cost = Cost(room: bool, lost: nat, owed: nat)

  /** All free blocks are lost if the directory is short of blocks and its slot for the next one is empty; they are
      uncounted if it is short and the slot is not empty; and otherwise it costs nothing. */
  ghost function CostOf(d: seq<Block>, per: nat, node: Inode, name: Block, free: nat): Cost
    requires per > 0 && |node.iblock| == NSLOTS
  {
    var n := NBlocks(per, node);
    var short, rootless := Short(d, per, node.iblock, n, Need(name), free), Rootless(per, node.iblock, n);
    Cost(Room(d, per, node, name, free), if short && rootless then free else 0, if short && !rootless then free else 0)
  }

  /** What dir_add_entry makes of the names: `e` goes in, or they stay. */
  ghost predicate Adds(r0: seq<Entry>, r: seq<Entry>, e: Entry, ok: bool) {
    if ok then Inserted(r0, r, e) else r == r0
  }

  method AddAtEnd(v: Volume, vi: Vinfo, e: Entry, ghost rest: multiset<nat>, ghost k: nat) returns (ok: bool)
    requires InHand(v, vi, rest, k) && IsDir(v.disk, v.geo.per, vi.iblock, NBlocks(v.geo.per, vi.Value()))
    requires 0 < e.ino < U32 && 0 < |e.name| < 256 && vi.size + v.geo.Bs() < U32
    modifies v`disk, v`blockPool, v`owned, vi`iblock, vi`blocks, vi`held, vi`size
    ensures InHand(v, vi, rest, k) && IsDir(v.disk, v.geo.per, vi.iblock, NBlocks(v.geo.per, vi.Value()))
    ensures forall y :: y in rest ==> Blk(v.disk, y) == Blk(old(v.disk), y)
    ensures Adds(old(ListOf(v.disk, v.geo.per, vi.Value())), ListOf(v.disk, v.geo.per, vi.Value()), e, ok)
    ensures ok <==> old(Enough(v.disk, v.geo.per, vi.iblock, NBlocks(v.geo.per, vi.Value()), v.blockPool.sb))
    ensures !ok ==> vi.size == old(vi.size)
    ensures !ok ==>
        Failed(old(v.disk), old(vi.iblock), old(v.owned), old(v.blockPool.sb), v.disk, vi.iblock, v.owned,
        v.blockPool.sb, v.geo.per, NBlocks(v.geo.per, old(vi.Value())))
    ensures v.inodes == old(v.inodes) && v.live == old(v.live) && v.meta == old(v.meta) && v.due == old(v.due)
  {
    var n := NBlocks(v.geo.per, vi.Value());
    ok := Grow(v, vi, n, e, rest, k);
    if ok { Lengthen(v, vi, n); }
  }

  /** The size of a directory that has grown by a block. */
  method Lengthen(v: Volume, vi: Vinfo, ghost n: nat)
    requires v.geo.Valid() && n == NBlocks(v.geo.per, vi.Value()) && vi.size + v.geo.Bs() < U32
    modifies vi`size
    ensures vi.size < U32 && NBlocks(v.geo.per, vi.Value()) == n + 1
  {
    OneMore(vi.size, v.geo.Bs());
    vi.size := vi.size + v.geo.Bs();
  }

  // ------------------------------------------------------------ dir_add_entry, and what its failure costs

  /** A failed attempt again, by its cost. */
  ghost predicate Lapsed(d0: seq<Block>, ib0: seq<nat>, own0: set<nat>, d: seq<Block>, ib: seq<nat>, own: set<nat>,
      c: Cost) {
    && own0 <= own && |own| == |own0| + c.lost + c.owed
    && (ib != ib0 <==> c.lost > 0) && (c.lost == 0 || c.owed == 0)
    && (ib != ib0 ==> forall x :: x in own0 ==> Blk(d, x) == Blk(d0, x))
  }

  lemma FailedIsLapsed(d0: seq<Block>, own0: set<nat>, free0: nat, d: seq<Block>, ib: seq<nat>, own: set<nat>,
      free: nat, per: nat, node: Inode, name: Block)
    requires per > 0 && |node.iblock| == NSLOTS && Packed(d0, per, node.iblock, NBlocks(per, node), Need(name))
    requires Failed(d0, node.iblock, own0, free0, d, ib, own, free, per, NBlocks(per, node))
    ensures Lapsed(d0, node.iblock, own0, d, ib, own, CostOf(d0, per, node, name, free0))
  {
  }

  /** Where there is room nothing is lost. */
  lemma RoomIsFree(d: seq<Block>, per: nat, node: Inode, name: Block, free: nat)
    requires per > 0 && |node.iblock| == NSLOTS && Room(d, per, node, name, free)
    ensures CostOf(d, per, node, name, free) == Cost(true, 0, 0)
  {
  }

  /** dir_add_entry on the inode in hand. */
  method AddInHand(v: Volume, vi: Vinfo, e: Entry, ghost rest: multiset<nat>, ghost k: nat)
      returns (ok: bool, ghost c: Cost)
    requires InHand(v, vi, rest, k) && IsDir(v.disk, v.geo.per, vi.iblock, NBlocks(v.geo.per, vi.Value()))
    requires 0 < e.ino < U32 && 0 < |e.name| < 256 && vi.size + v.geo.Bs() < U32
    modifies v`disk, v`blockPool, v`owned, vi`iblock, vi`blocks, vi`held, vi`size
    ensures InHand(v, vi, rest, k) && IsDir(v.disk, v.geo.per, vi.iblock, NBlocks(v.geo.per, vi.Value()))
    ensures forall y :: y in rest ==> Blk(v.disk, y) == Blk(old(v.disk), y)
    ensures Adds(old(ListOf(v.disk, v.geo.per, vi.Value())), ListOf(v.disk, v.geo.per, vi.Value()), e, ok)
    ensures c == CostOf(old(v.disk), v.geo.per, old(vi.Value()), e.name, old(v.blockPool.sb)) && ok == c.room
    ensures ok ==> c == Cost(true, 0, 0)
    ensures !ok ==>
        vi.size == old(vi.size) && Lapsed(old(v.disk), old(vi.iblock), old(v.owned), v.disk, vi.iblock, v.owned, c)
    ensures v.inodes == old(v.inodes) && v.live == old(v.live) && v.meta == old(v.meta) && v.due == old(v.due)
  {
    var per, n := v.geo.per, NBlocks(v.geo.per, vi.Value());
    ghost var node, free := vi.Value(), v.blockPool.sb;
    c := CostOf(v.disk, per, node, e.name, free);
    ReadableInHand(v, vi, n, rest, k);
    var b, x, blk := FindRoom(v.disk, per, vi.iblock, n, e, rest, v.owned);
    if b < n {
      RoomIsFree(v.disk, per, node, e.name, free);
      PutBlock(v, vi, b, x, blk, n, rest, k);
      ListingInserted(old(v.disk), v.disk, per, vi.iblock, vi.iblock, b, n, e);
      ok := true;
      return;
    }
    ok := AddAtEnd(v, vi, e, rest, k);
    if ok {
      RoomIsFree(old(v.disk), per, node, e.name, free);
    } else {
      FailedIsLapsed(old(v.disk), old(v.owned), free, v.disk, vi.iblock, v.owned, v.blockPool.sb, per, node, e.name);
    }
  }

  /** What a call has cost: blocks lost, which stay marked though no inode leads to them, or blocks that i_blocks of
      inode `i` misses. */
  ghost predicate Paid(meta0: set<nat>, due0: Dues, meta: set<nat>, due: Dues, i: nat, c: Cost) {
    && (if c.lost > 0 then meta0 <= meta && |meta| == |meta0| + c.lost else meta == meta0)
    && due == SetDue(due0, i, Due(due0, i) + c.owed)
  }

  /** Room and cost are those of the blocks of the directory, wherever else the disk changed. */
  lemma CostKept(d: seq<Block>, d': seq<Block>, per: nat, node: Inode, name: Block, free: nat)
    requires per > 0 && |node.iblock| == NSLOTS && Kept(d, d', per, node.iblock)
    ensures CostOf(d', per, node, name, free) == CostOf(d, per, node, name, free)
  {
    var ib, n, need := node.iblock, NBlocks(per, node), Need(name);
    forall f: nat ensures PackedAt(d', per, ib, f, need) == PackedAt(d, per, ib, f, need) {
      if MapOf(Slots(d, per, ib), per, f) != 0 { MapInSum(Slots(d, per, ib), per, f); }
    }
    assert Packed(d', per, ib, n, need) == Packed(d, per, ib, n, need);
  }

  /** The failing end of dir_add_entry, which returns without write_inode: the block map of the inode is the one the
      work was done with. */
  ghost method GiveUpLinked(v: Volume, i: nat, rest: multiset<nat>, d0: seq<Block>, own0: set<nat>, c: Cost)
    requires v.Alloc() && |v.inodes| == v.geo.inodesCount && i in v.live && v.inodes[i].isDir
    requires Balanced(d0, v.geo.per, v.inodes, v.live, own0, v.due) &&
        rest == Others(d0, v.geo.per, v.inodes, v.live, i)
    requires Holds(v.disk, v.geo.per, v.inodes[i].iblock, rest, v.owned)
    requires forall y :: y in rest ==> Blk(v.disk, y) == Blk(d0, y)
    requires c.lost == 0 && |v.owned| == |own0| + c.owed
    modifies v`due
    ensures v.Valid() && OthersKept(d0, v.inodes, v.disk, v.inodes, v.geo.per, v.live, i)
    ensures Paid(v.meta, old(v.due), v.meta, v.due, i, c)
  {
    v.AbandonLinked(i, rest, d0, own0, c.owed, SetDue(v.due, i, Due(v.due, i) + c.owed));
  }

  /** The same, when the work was done with another block map. */
  ghost method GiveUpLost(v: Volume, i: nat, d0: seq<Block>, own0: set<nat>, c: Cost)
    requires v.Alloc() && |v.inodes| == v.geo.inodesCount && i in v.live && own0 <= v.owned &&
        |v.owned| == |own0| + c.lost
    requires Balanced(d0, v.geo.per, v.inodes, v.live, own0, v.due) && c.lost > 0 && c.owed == 0
    requires forall x :: x in own0 ==> Blk(v.disk, x) == Blk(d0, x)
    modifies v`owned, v`meta
    ensures v.Valid() && OthersKept(d0, v.inodes, v.disk, v.inodes, v.geo.per, v.live, i)
    ensures Kept(d0, v.disk, v.geo.per, v.inodes[i].iblock)
    ensures Paid(old(v.meta), v.due, v.meta, v.due, i, c)
  {
    var meta' := v.meta + (v.owned - own0);
    LostCount(v.owned, own0, v.meta);
    v.AbandonLost(i, d0, own0, meta');
  }

  lemma LostCount(own: set<nat>, own0: set<nat>, meta: set<nat>)
    requires own0 <= own && forall b :: b in own ==> b !in meta
    ensures |meta + (own - own0)| == |meta| + |own| - |own0|
  {
    var lost := own - own0;
    assert own == own0 + lost && meta !! lost;
  }

  /** dir_add_entry. The names of the directory gain the entry and keep their order, exactly if a block has room or
      another can be had; otherwise they stay as they are, but every free block is gone if there was one: lost to
      all files if the inode's slot for the new block was empty, uncounted in i_blocks if not. The size of a directory
      is a 32-bit number and stays below the limit. */
  method AddEntry(v: Volume, i: nat, e: Entry) returns (ok: bool)
    requires DirAt(v, i) && 0 < e.ino < U32 && 0 < |e.name| < 256 && v.inodes[i].size + v.geo.Bs() < U32
    modifies v`disk, v`blockPool, v`owned, v`inodes, v`meta, v`due
    ensures DirAt(v, i) && OthersKept(old(v.disk), old(v.inodes), v.disk, v.inodes, v.geo.per, v.live, i)
    ensures v.inodes[i].links == old(v.inodes)[i].links && (!ok ==> v.inodes == old(v.inodes))
    ensures Adds(old(ListOf(v.disk, v.geo.per, v.inodes[i])), ListOf(v.disk, v.geo.per, v.inodes[i]), e, ok)
    ensures ok == CostOf(old(v.disk), v.geo.per, old(v.inodes)[i], e.name, old(v.blockPool.sb)).room
    ensures Paid(old(v.meta), old(v.due), v.meta, v.due, i,
        CostOf(old(v.disk), v.geo.per, old(v.inodes)[i], e.name, old(v.blockPool.sb)))
    ensures v.live == old(v.live)
  {
    var vi;
    ghost var rest, c;
    vi, rest := v.Load(i);
    ok, c := AddInHand(v, vi, e, rest, Due(v.due, i));
    if ok {
      v.Store(i, vi, rest, old(v.disk), old(v.owned));
    } else {
      GiveUp(v, i, vi, rest, old(v.disk), old(v.owned), c);
    }
  }

  ghost method GiveUp(v: Volume, i: nat, vi: Vinfo, rest: multiset<nat>, d0: seq<Block>, own0: set<nat>, c: Cost)
    requires v.Alloc() && |v.inodes| == v.geo.inodesCount && i in v.live && v.inodes[i].isDir
    requires Balanced(d0, v.geo.per, v.inodes, v.live, own0, v.due) &&
        rest == Others(d0, v.geo.per, v.inodes, v.live, i)
    requires Holds(v.disk, v.geo.per, vi.iblock, rest, v.owned)
    requires forall y :: y in rest ==> Blk(v.disk, y) == Blk(d0, y)
    requires Lapsed(d0, v.inodes[i].iblock, own0, v.disk, vi.iblock, v.owned, c)
    requires IsDir(d0, v.geo.per, v.inodes[i].iblock, NBlocks(v.geo.per, v.inodes[i])) &&
        IsDir(v.disk, v.geo.per, vi.iblock, NBlocks(v.geo.per, v.inodes[i]))
    requires Listing(v.disk, v.geo.per, vi.iblock, 0, NBlocks(v.geo.per, v.inodes[i])) ==
        ListOf(d0, v.geo.per, v.inodes[i])
    modifies v`owned, v`meta, v`due
    ensures DirAt(v, i) && OthersKept(d0, v.inodes, v.disk, v.inodes, v.geo.per, v.live, i)
    ensures ListOf(v.disk, v.geo.per, v.inodes[i]) == ListOf(d0, v.geo.per, v.inodes[i])
    ensures Paid(old(v.meta), old(v.due), v.meta, v.due, i, c)
    ensures v.disk == old(v.disk) && v.inodes == old(v.inodes) && v.live == old(v.live)
  {
    if vi.iblock == v.inodes[i].iblock {
      GiveUpLinked(v, i, rest, d0, own0, c);
    } else {
      GiveUpLost(v, i, d0, own0, c);
    }
    GaveUp(d0, v.disk, v.geo.per, v.inodes[i], vi.iblock);
  }

  /** The directory as its inode still says it is. */
  lemma GaveUp(d0: seq<Block>, d: seq<Block>, per: nat, node: Inode, ib: seq<nat>)
    requires per > 0 && |node.iblock| == |ib| == NSLOTS && IsDir(d0, per, node.iblock, NBlocks(per, node))
    requires ib != node.iblock ==> Kept(d0, d, per, node.iblock)
    requires IsDir(d, per, ib, NBlocks(per, node)) &&
        Listing(d, per, ib, 0, NBlocks(per, node)) == ListOf(d0, per, node)
    ensures IsDir(d, per, node.iblock, NBlocks(per, node)) && ListOf(d, per, node) == ListOf(d0, per, node)
  {
    if ib != node.iblock { ListingKept(d0, d, per, node.iblock, NBlocks(per, node)); }
  }

  /** Twelve full blocks and one free one: the free block becomes a pointer block that nothing leads to. */
  lemma TwelveFull(d: seq<Block>, per: nat, node: Inode, name: Block)
    requires per > 0 && |node.iblock| == NSLOTS && node.iblock[NDIR] == 0 && NBlocks(per, node) == NDIR &&
        Packed(d, per, node.iblock, NDIR, Need(name))
    ensures CostOf(d, per, node, name, 1) == Cost(false, 1, 0)
  {
    Bases(per);
  }

  /** All blocks in reach of the first `m` pointers of the double-indirect block full, the next pointer missing, and one
      free block: it becomes the missing pointer block, linked in, and i_blocks does not count it. Start(per, m) is
      m times per. */
  lemma DoublyFull(d: seq<Block>, per: nat, node: Inode, name: Block, m: nat)
    requires m < per && |node.iblock| == NSLOTS && node.iblock[DIND] != 0 && Ptr(Blk(d, node.iblock[DIND]), m) == 0
    requires NBlocks(per, node) == NDIR + per + Start(per, m) &&
        Packed(d, per, node.iblock, NBlocks(per, node), Need(name))
    ensures CostOf(d, per, node, name, 1) == Cost(false, 0, 1)
  {
    var n, ib := NBlocks(per, node), node.iblock;
    DoubleIndex(per, m, n);
    Position(per, m, 0);
    var t := Abs(d, per, ib[DIND], 2);
    assert Slots(d, per, ib)[DIND] == t && t.Inner? && |t.kids| == per && t.kids[m] == Nil;
    assert Slot(per, 2, Start(per, m)) == m;
    assert Needs(t, per, 2, Start(per, m)) == Needs(Nil, per, 1, Off(per, 2, Start(per, m)));
  }

  lemma DoubleIndex(per: nat, m: nat, n: nat)
    requires m < per && n == NDIR + per + Start(per, m)
    ensures SlotIdx(per, n) == DIND && InIdx(per, n) == Start(per, m) && Cap(per, 1) == per
  {
    StartIsProduct(1, per);
    assert Cap(per, 1) == per && Cap(per, 2) == Start(per, per);
    Bases(per);
    StartMono(per, m, per);
  }

  /** At most four blocks are ever needed, so none is lost or uncounted while four are free. */
  lemma {:induction false} NeedsFew(n: Node, per: nat, level: nat, idx: nat)
    requires per > 0
    ensures Needs(n, per, level, idx) <= level + 1
    decreases n
  {
    if n.Inner? && level > 0 && Slot(per, level, idx) < |n.kids| {
      NeedsFew(n.kids[Slot(per, level, idx)], per, level - 1, Off(per, level, idx));
    }
  }

  lemma FourAreEnough(d: seq<Block>, per: nat, ib: seq<nat>, n: nat, need: nat, free: nat)
    requires per > 0 && |ib| == NSLOTS && free >= 4
    ensures !Short(d, per, ib, n, need, free)
  {
    if SlotIdx(per,
        n) < NSLOTS { NeedsFew(Slots(d, per, ib)[SlotIdx(per, n)], per, LevelOf(SlotIdx(per, n)), InIdx(per, n)); }
  }

  lemma FourCostNothing(d: seq<Block>, per: nat, node: Inode, name: Block, free: nat)
    requires per > 0 && |node.iblock| == NSLOTS && free >= 4
    ensures var c := CostOf(d, per, node, name, free); c.lost == 0 && c.owed == 0
  {
    FourAreEnough(d, per, node.iblock, NBlocks(per, node), Need(name), free);
  }

  // ------------------------------------------------------------ removing an entry

  /** Block `b`, at `x`, is the first to have the name, for inode `ino`, and becomes `blk` without it. */
  ghost predicate Victim(d: seq<Block>, per: nat, ib: seq<nat>, n: nat, name: Block, ino: nat, b: nat, x: nat,
      blk: Block)
    requires per > 0 && |ib| == NSLOTS
  {
    && b < n && 0 < x < |d| && x == MapOf(Slots(d, per, ib), per, b) && |blk| == 4 * per && Tiled(blk)
    && Removed(EntsAt(d, per, ib, b), Entries(blk), name, ino) && Absent(Listing(d, per, ib, 0, b), name)
  }

  /** One block of dir_remove_entry's scan: what becomes of it, 0 when it does not have the name. */
  method TryBlock(d: seq<Block>, per: nat, ib: seq<nat>, b: nat, n: nat, name: Block, ghost rest: multiset<nat>,
      ghost own: set<nat>) returns (ino: nat, x: nat, blk: Block)
    requires Readable(d, per, ib, n, rest, own) && 4 * per < U16 && b < n
    ensures ino == 0 ==> Absent(EntsAt(d, per, ib, b), name)
    ensures ino != 0 ==> 0 < x < |d| && x == MapOf(Slots(d, per, ib), per, b) && |blk| == 4 * per && Tiled(blk)
    ensures ino != 0 ==> Removed(EntsAt(d, per, ib, b), Entries(blk), name, ino)
  {
    var cur;
    ino, blk := 0, [];
    x, cur := Fetch(d, per, ib, b, n, rest, own);
    if x != 0 { ino, blk := RemoveInBlock(cur, name); }
  }

  /** dir_remove_entry's scan: the block to change and what becomes of it; 0 when no block has the name. */
  method FindVictim(d: seq<Block>, per: nat, ib: seq<nat>, n: nat, name: Block, ghost rest: multiset<nat>,
      ghost own: set<nat>) returns (ino: nat, b: nat, x: nat, blk: Block)
    requires Readable(d, per, ib, n, rest, own) && 4 * per < U16
    ensures ino == 0 ==> Absent(Listing(d, per, ib, 0, n), name)
    ensures ino != 0 ==> Victim(d, per, ib, n, name, ino, b, x, blk)
  {
    b := 0;
    while b < n
      invariant b <= n && Absent(Listing(d, per, ib, 0, b), name)
    {
      ino, x, blk := TryBlock(d, per, ib, b, n, name, rest, own);
      if ino != 0 { return; }
      AbsentFrom(Listing(d, per, ib, 0, b + 1), Listing(d, per, ib, 0, b), EntsAt(d, per, ib, b), name);
      b := b + 1;
    }
    ino, x, blk := 0, 0, [];
  }

  /** A change of the names that removing `name` may make. */
  ghost predicate RemovedOrAbsent(r: seq<Entry>, s: seq<Entry>, name: Block, ino: nat) {
    if ino != 0 then Removed(r, s, name, ino) else s == r && Absent(r, name)
  }

  /** dir_remove_entry on the inode in hand. */
  method RemoveInHand(v: Volume, vi: Vinfo, name: Block, ghost rest: multiset<nat>, ghost k: nat) returns (ino: nat)
    requires InHand(v, vi, rest, k) && IsDir(v.disk, v.geo.per, vi.iblock, NBlocks(v.geo.per, vi.Value()))
    modifies v`disk
    ensures InHand(v, vi, rest, k) && IsDir(v.disk, v.geo.per, vi.iblock, NBlocks(v.geo.per, vi.Value()))
    ensures forall y :: y in rest ==> Blk(v.disk, y) == Blk(old(v.disk), y)
    ensures RemovedOrAbsent(old(ListOf(v.disk, v.geo.per, vi.Value())), ListOf(v.disk, v.geo.per, vi.Value()), name,
        ino)
    ensures v.inodes == old(v.inodes) && v.live == old(v.live) && v.meta == old(v.meta) && v.due == old(v.due) &&
        v.owned == old(v.owned)
  {
    var per, n := v.geo.per, NBlocks(v.geo.per, vi.Value());
    ReadableInHand(v, vi, n, rest, k);
    var b, x, blk;
    ino, b, x, blk := FindVictim(v.disk, per, vi.iblock, n, name, rest, v.owned);
    if ino != 0 {
      PutBlock(v, vi, b, x, blk, n, rest, k);
      ListingRemoved(old(v.disk), v.disk, per, vi.iblock, vi.iblock, b, n, name, ino);
    }
  }

  /** dir_remove_entry. The names lose the first entry of that name; 0, and nothing changed, when there is
      none. */
  method RemoveEntry(v: Volume, i: nat, name: Block) returns (ino: nat)
    requires DirAt(v, i)
    modifies v`disk, v`inodes
    ensures DirAt(v, i) && OthersKept(old(v.disk), old(v.inodes), v.disk, v.inodes, v.geo.per, v.live, i)
    ensures v.inodes[i].links == old(v.inodes)[i].links
    ensures RemovedOrAbsent(old(ListOf(v.disk, v.geo.per, v.inodes[i])), ListOf(v.disk, v.geo.per, v.inodes[i]), name,
        ino)
    ensures v.live == old(v.live) && v.meta == old(v.meta) && v.due == old(v.due)
  {
    var vi;
    ghost var rest;
    vi, rest := v.Load(i);
    ino := RemoveInHand(v, vi, name, rest, Due(v.due, i));
    v.Store(i, vi, rest, old(v.disk), old(v.owned));
  }

  // ------------------------------------------------------------ a new directory

  /** The block of a new directory: "." and "..". */
  method DotBlock(bs: nat, ino: nat, parent: nat) returns (b: Block)
    requires (bs == 1024 || bs == 2048 || bs == 4096) && 0 < ino < U32 && 0 < parent < U32
    ensures |b| == bs && Tiled(b) && Entries(b) == DotNames(ino, parent) && AllDots(DotNames(ino, parent)) &&
        Unique(DotNames(ino, parent))
  {
    var c := Put(Zeros(bs), 0, ino, 12, 2, [DOT]);
    AlignedIsMod(12);
    PutIs(Zeros(bs), 0, ino, 12, 2, [DOT]);
    AlignedIsMod(bs - 12);
    PutIs(c, 12, parent, bs - 12, 2, [DOT, DOT]);
    b := Put(c, 12, parent, bs - 12, 2, [DOT, DOT]);
    DottedTwo(c, b, [Entry([DOT], ino, 2)], [Entry([DOT, DOT], parent, 2)]);
  }

  lemma DottedTwo(c: Block, b: Block, x: seq<Entry>, y: seq<Entry>)
    requires Record(c, 0) && Rlen(c, 0) == 12 && EntryAt(c, 0) == x && Outside(c, b, 12, |c|)
    requires Record(b, 12) && 12 + Rlen(b, 12) == |b| && EntryAt(b, 12) == y
    ensures Tiled(b) && Entries(b) == x + y
  {
    SameRecord(c, b, 0);
    Two(b, 0, 12, x, y);
  }

  /** The inode of a new directory whose one block is `b`. */
  function DirNode(geo: Geometry, b: nat): Inode {
    Inode(true, geo.Bs(), 2, 1, NoBlocks()[0 := b])
  }

  /** A directory of the one block `b`. */
  lemma OneBlockDir(d: seq<Block>, geo: Geometry, b: nat, r: seq<Entry>)
    requires geo.Valid() && 0 < b < |d| && Tiled(d[b]) && Entries(d[b]) == r
    ensures AllDots(r) && Unique(r) ==> NewDirAt(d, geo.per, DirNode(geo, b), r)
  {
    var ib := DirNode(geo, b).iblock;
    forall f: nat ensures MapOf(Slots(d, geo.per, ib), geo.per, f) == if f == 0 then b else 0 {
      OneBlockMap(d, geo.per, b, f);
    }
    assert Listing(d, geo.per, ib, 0, 0) == [];
    assert Listing(d, geo.per, ib, 0, 1) == [] + r;
  }

  /** An inode and a block, or neither. */
  method TakePair(v: Volume) returns (ino: nat, ghost x: nat, b: nat)
    requires v.Alloc()
    modifies v`disk, v`blockPool, v`owned, v`inodePool, v`live
    ensures v.Alloc() && (ino != 0 ==> v.blockPool.sb + 1 == old(v.blockPool.sb))
    ensures ino != 0 <==> old(v.blockPool.sb) > 0 && old(v.inodePool.sb) > 0
    ensures ino == 0 ==> v.disk == old(v.disk) && v.owned == old(v.owned) && v.live == old(v.live)
    ensures ino != 0 ==> ino == x + 1 && x < v.geo.inodesCount && x !in old(v.live) && v.live == old(v.live) + {x}
    ensures ino != 0 ==>
        0 < b < |v.disk| && b !in old(v.owned) && v.owned == old(v.owned) + {b} &&
        v.disk == old(v.disk)[b := Zeros(v.geo.Bs())]
    ensures v.inodes == old(v.inodes) && v.meta == old(v.meta) && v.due == old(v.due)
  {
    x, b := 0, 0;
    ino := v.AllocInode();
    if ino == 0 { return; }
    x := ino - 1;
    b := v.AllocBlock();
    if b == 0 {
      v.FreeInodeNum(ino);
      assert v.live == old(v.live);
      ino := 0;
    }
  }

  /** ext2_create's new directory, before it has a name. */
  method NewDir(v: Volume, parent: nat) returns (ino: nat, ghost x: nat)
    requires v.Valid() && 0 < parent < U32
    modifies v`disk, v`blockPool, v`owned, v`inodes, v`inodePool, v`live
    ensures v.Valid() && (ino != 0 ==> v.blockPool.sb + 1 == old(v.blockPool.sb))
    ensures ino != 0 <==> old(v.blockPool.sb) > 0 && old(v.inodePool.sb) > 0
    ensures ino == 0 ==> v.disk == old(v.disk) && v.inodes == old(v.inodes) && v.live == old(v.live)
    ensures ino != 0 ==>
        ino == x + 1 &&
        DirAdded(old(v.disk), v.disk, v.geo.per, old(v.inodes), v.inodes, old(v.live), v.live, x, DotNames(ino, parent))
    ensures ino != 0 ==>
        ListOf(v.disk, v.geo.per, v.inodes[x]) == [Entry([DOT], ino, 2), Entry([DOT, DOT], parent, 2)]
    ensures v.meta == old(v.meta) && v.due == old(v.due)
  {
    var b;
    ino, x, b := TakePair(v);
    if ino == 0 { return; }
    FillDir(v, ino, x, b, parent, old(v.disk), old(v.live), old(v.owned));
    assert DotNames(ino, parent) == [Entry([DOT], ino, 2), Entry([DOT, DOT], parent, 2)];
  }

  /** The inode and the block of a new directory, written. */
  method FillDir(v: Volume, ino: nat, ghost x: nat, b: nat, parent: nat, ghost d0: seq<Block>, ghost live0: set<nat>,
      ghost own0: set<nat>)
    requires v.Alloc() && |v.inodes| == v.geo.inodesCount && Balanced(d0, v.geo.per, v.inodes, live0, own0, v.due) &&
        0 < parent < U32
    requires ino == x + 1 && x < v.geo.inodesCount && x !in live0 && v.live == live0 + {x}
    requires 0 < b < |v.disk| && b !in own0 && v.owned == own0 + {b} && |d0| == |v.disk| &&
        v.disk == d0[b := Zeros(v.geo.Bs())]
    modifies v`disk, v`inodes
    ensures v.Valid() &&
        DirAdded(d0, v.disk, v.geo.per, old(v.inodes), v.inodes, live0, v.live, x, DotNames(ino, parent))
    ensures v.blockPool == old(v.blockPool) && v.live == old(v.live) && v.meta == old(v.meta) && v.due == old(v.due)
  {
    var blk := DotBlock(v.geo.Bs(), ino, parent);
    DirMade(d0, blk, v.geo, v.inodes, live0, own0, v.due, x, b, DotNames(ino, parent));
    assert v.disk[b := blk] == d0[b := blk];
    v.disk := v.disk[b := blk];
    v.inodes := v.inodes[ino - 1 := DirNode(v.geo, b)];
  }

  /** What a fresh inode with one fresh block makes of the volume. */
  lemma DirMade(d: seq<Block>, blk: Block, geo: Geometry, nodes: seq<Inode>, live: set<nat>, own: set<nat>, due: Dues,
      x: nat, b: nat, r: seq<Entry>)
    requires geo.Valid() && Balanced(d, geo.per, nodes, live, own, due) && x !in live && x < |nodes| && 0 < b < |d| &&
        b !in own
    requires Tiled(blk) && Entries(blk) == r && AllDots(r) && Unique(r)
    ensures Balanced(d[b := blk], geo.per, nodes[x := DirNode(geo, b)], live + {x}, own + {b}, due)
    ensures DirAdded(d, d[b := blk], geo.per, nodes, nodes[x := DirNode(geo, b)], live, live + {x}, x, r)
  {
    FreshDir(d, blk, geo.per, nodes, live, own, due, x, DirNode(geo, b), b);
    OneBlockDir(d[b := blk], geo, b, r);
  }

  /** A directory of one block, with the link of its name and that of its ".". */
  ghost predicate BareDir(per: nat, node: Inode) {
    node.isDir && node.size == 4 * per && node.links == 2 && node.blocks == 1
  }

  /** A directory in order that holds `r`, which is "." and "..". */
  ghost predicate NewDirAt(d: seq<Block>, per: nat, node: Inode, r: seq<Entry>) {
    && per > 0 && |node.iblock| == NSLOTS && BareDir(per, node) && IsDir(d, per, node.iblock, NBlocks(per, node))
    && ListOf(d, per, node) == r && AllDots(r) && Unique(r)
  }

  /** Inode `x` has been taken into use as a directory that holds `r`, and nothing else has changed. */
  ghost predicate DirAdded(d0: seq<Block>, d: seq<Block>, per: nat, nodes0: seq<Inode>, nodes: seq<Inode>,
      live0: set<nat>, live: set<nat>, x: nat, r: seq<Entry>) {
    && per > 0 && Shaped15(nodes0) && Shaped15(nodes) && x < |nodes0| == |nodes| && x !in live0 && live == live0 + {x}
    && OthersKept(d0, nodes0, d, nodes, per, live0, x) && NewDirAt(d, per, nodes[x], r)
  }
}
