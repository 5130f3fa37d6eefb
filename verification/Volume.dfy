/** The ext2 driver over a mounted volume (kernel/fs/ext2.c). */
module Volume {
  import opened Bytes
  import opened Chunks
  import opened BlockTree
  import opened BlockTrim
  import opened Files
  import opened Allocator
  import Bitmap

  datatype Geometry = Geometry(
    per: nat,           // 32-bit words, and so block pointers, per block
    bpg: nat,           // blocks per group
    ipg: nat,           // inodes per group
    blocksCount: nat,
    inodesCount: nat,
    firstData: nat)
  {
    /** What ext2_geometry_ok and a well-formed superblock guarantee. */
    ghost predicate Valid() {
      && (per == 256 || per == 512 || per == 1024)
      && 0 < bpg <= 8 * Bs() && 0 < ipg <= 8 * Bs()
      && firstData < blocksCount < U32 && inodesCount < U32
    }

    /** Bytes and 512-byte sectors per block. */
    function Bs(): nat { 4 * per }
    function Spb(): nat { if per == 256 then 2 else if per == 512 then 4 else 8 }

    /** Block groups, block 0 if the file system has it, and a pool of which only that is taken. */
    function Groups(): nat
      requires Valid()
    {
      GroupsFor(blocksCount - firstData, bpg)
    }

    function Own(): set<nat> { if firstData == 0 then {0} else {} }

    function Blocks0(): (p: Pool)
      requires Valid()
      ensures |p.maps| == Groups() && forall g :: 0 <= g < |p.maps| ==> |p.maps[g]| == Bs()
    {
      var p := Unused(blocksCount - firstData, bpg, Groups(), Bs());
      GroupsCover(blocksCount - firstData, bpg);
      if firstData == 0 then Take(p, 0, 0) else p
    }

    lemma SpbIs()
      requires Valid()
      ensures Spb() == Bs() / 512
    {
    }
  }

  /** An inode as the inode table holds it, with i_blocks as the number of blocks it stands for. */
  datatype Inode = Inode(isDir: bool, size: nat, links: nat, blocks: int, iblock: seq<nat>)

  /** i_blocks on disk: 512-byte units in a 32-bit field. */
  function Field(spb: nat, blocks: int): nat {
    spb * blocks % U32
  }

  /** Adding a block's units to the field, or taking them off, is one block more or less. */
  lemma FieldAdds(spb: nat, blocks: int)
    requires spb <= 8
    ensures Field(spb, blocks + 1) == (Field(spb, blocks) + spb) % U32
    ensures Field(spb, blocks - 1) == (Field(spb, blocks) + (U32 - spb)) % U32
  {
    var x := spb * blocks;
    assert spb * (blocks + 1) == x + spb && spb * (blocks - 1) == x - spb;
    ModAdd(x, spb);
    var down: int := spb;
    ModAdd(x, -down);
  }

  lemma ModAdd(x: int, s: int)
    requires -8 <= s <= 8
    ensures (x + s) % U32 == (x % U32 + s) % U32 && (x + s) % U32 == (x % U32 + (U32 + s)) % U32
  {
  }

  /** The in-memory copy of an inode that one operation works on. `held` counts the blocks it has
      been charged for; i_blocks keeps the same count. */
  class Vinfo {
    const isDir: bool
    var size: nat
    var links: nat
    var blocks: int
    var iblock: seq<nat>
    ghost var held: int

    /** read_inode. */
    constructor (node: Inode, ghost held: int)
      requires node.blocks == held
      ensures Counted() && this.held == held && Value() == node
    {
      isDir := node.isDir;
      size, links, blocks, iblock := node.size, node.links, node.blocks, node.iblock;
      this.held := held;
    }

    /** What write_inode stores. */
    function Value(): Inode
      reads this
    {
      Inode(isDir, size, links, blocks, iblock)
    }

    ghost predicate Counted()
      reads this
    {
      blocks == held
    }

    method Charge()
      requires Counted()
      modifies `blocks, `held
      ensures Counted() && held == old(held) + 1
    {
      blocks := blocks + 1;
      held := held + 1;
    }

    method Refund()
      requires Counted()
      modifies `blocks, `held
      ensures Counted() && held == old(held) - 1
    {
      blocks := blocks - 1;
      held := held - 1;
    }
  }

  /** What ext2_write returns: a byte count, possibly short, or -ENOSPC. */
  datatype IoResult = Done(n: nat) | NoSpace

  /** File block of byte `pos`, cut to 32 bits as the code casts it. */
  function Fblk(per: nat, pos: nat): nat
    requires per > 0
  {
    GroupAt(4 * per, pos) % U32
  }

  lemma FblkIsCast(per: nat, pos: nat)
    requires per > 0
    ensures Fblk(per, pos) == pos / (4 * per) % U32 && BitAt(4 * per, pos) == pos % (4 * per)
  {
    AtIsDivMod(4 * per, pos);
  }

  /** Below 2^32 blocks the cast loses nothing. */
  lemma FblkExact(per: nat, pos: nat)
    requires per > 0 && pos < U32 * (4 * per)
    ensures Fblk(per, pos) == GroupAt(4 * per, pos)
  {
    AtIsDivMod(4 * per, pos);
    var q := pos / (4 * per);
    assert q * (4 * per) <= pos;
    assert q >= U32 ==> q * (4 * per) >= U32 * (4 * per);
  }

  /** No block is left to hand out. */
  ghost predicate Full(geo: Geometry, own: set<nat>, meta: set<nat>) {
    forall b :: geo.firstData <= b < geo.blocksCount ==> b in own || b in meta
  }

  /** No block can be had for byte `pos` of a file: the volume is full or the block map ends there. */
  ghost predicate NoRoom(geo: Geometry, own: set<nat>, meta: set<nat>, pos: nat)
    requires geo.per > 0
  {
    Full(geo, own, meta) || Fblk(geo.per, pos) >= BaseOf(geo.per, NSLOTS)
  }

  // ------------------------------------------------------------ the inode table

  /** The block maps of all inodes; one that is not in use has none, whatever its slot still says. */
  ghost function RootsOf(nodes: seq<Inode>, live: set<nat>): (r: seq<seq<nat>>)
    ensures |r| == |nodes|
    ensures forall i {:trigger r[i]} :: 0 <= i < |r| ==> r[i] == if i in live then nodes[i].iblock else NoBlocks()
  {
    seq(|nodes|, i requires 0 <= i < |nodes| => if i in live then nodes[i].iblock else NoBlocks())
  }

  ghost predicate Shaped15(nodes: seq<Inode>) {
    forall i :: 0 <= i < |nodes| ==> |nodes[i].iblock| == NSLOTS
  }

  /** Blocks linked into an inode that its i_blocks does not count, by inode. */
  type Dues = map<nat, nat>

  function Due(due: Dues, i: nat): nat {
    if i in due then due[i] else 0
  }

  /** i_blocks is the space of the blocks reachable from the inode, data and pointer blocks alike, but for `k` of them;
      a file's counts every one. */
  ghost predicate Charged(d: seq<Block>, per: nat, node: Inode, k: nat)
    requires |node.iblock| == NSLOTS
  {
    && node.blocks == |Sum(Slots(d, per, node.iblock))| - k && node.size < U32
    && (!node.isDir ==> k == 0)
  }

  ghost predicate ChargedAt(d: seq<Block>, per: nat, nodes: seq<Inode>, due: Dues, i: nat)
    requires Shaped15(nodes)
  {
    i < |nodes| ==> Charged(d, per, nodes[i], Due(due, i))
  }

  /** The inodes in use together own every claimed block, each block once, and each is charged for
      what it owns, less what is due. */
  ghost predicate Balanced(d: seq<Block>, per: nat, nodes: seq<Inode>, live: set<nat>, own: set<nat>, due: Dues) {
    && Shaped15(nodes)
    && SumFiles(d, per, RootsOf(nodes, live)) == multiset(own)
    && (forall i: nat {:trigger ChargedAt(d, per, nodes, due, i)} :: i in live ==> ChargedAt(d, per, nodes, due, i))
    && (forall i {:trigger i in due} :: i in due ==> i in live)
  }

  function SetDue(due: Dues, i: nat, k: nat): Dues {
    if k == Due(due, i) then due else due[i := k]
  }

  lemma SizeBelow(d: seq<Block>, per: nat, nodes: seq<Inode>, live: set<nat>, own: set<nat>, due: Dues, i: nat)
    requires Balanced(d, per, nodes, live, own, due) && i in live && i < |nodes|
    ensures nodes[i].size < U32
  {
    assert ChargedAt(d, per, nodes, due, i);
  }

  /** Blocks of all inodes but `i`. */
  ghost function Others(d: seq<Block>, per: nat, nodes: seq<Inode>, live: set<nat>, i: nat): multiset<nat>
    requires Shaped15(nodes) && i < |nodes|
  {
    SumFiles(d, per, RootsOf(nodes, live)[i := NoBlocks()])
  }

  lemma Loaded(d: seq<Block>, per: nat, nodes: seq<Inode>, live: set<nat>, own: set<nat>, due: Dues, i: nat)
    requires Balanced(d, per, nodes, live, own, due) && i in live && i < |nodes|
    ensures Holds(d, per, nodes[i].iblock, Others(d, per, nodes, live, i), own)
  {
    var r := RootsOf(nodes, live);
    SumFilesUpdate(d, per, r, i, nodes[i].iblock);
    assert r[i := nodes[i].iblock] == r;
  }

  /** Storing the one changed inode balances the books again, and every other file reads as before. */
  lemma Stored(d: seq<Block>, d': seq<Block>, per: nat, nodes: seq<Inode>, live: set<nat>, own: set<nat>, due: Dues,
      own': set<nat>, i: nat, node: Inode, k: nat)
    requires per > 0 && Balanced(d, per, nodes, live, own, due) && i in live && i < |nodes|
    requires Holds(d', per, node.iblock, Others(d, per, nodes, live, i), own') && Charged(d', per, node, k)
    requires forall x :: x in Others(d, per, nodes, live, i) ==> Blk(d', x) == Blk(d, x)
    ensures Balanced(d', per, nodes[i := node], live, own', SetDue(due, i, k))
    ensures OthersKept(d, nodes, d', nodes[i := node], per, live, i)
  {
    StoredBooks(d, d', per, nodes, live, own, due, own', i, node);
    var nodes', due' := nodes[i := node], SetDue(due, i, k);
    forall j: nat | j in live
        ensures ChargedAt(d', per, nodes', due', j) && (j != i ==> Steady(d, d', per, nodes, live, j)) {
      if j != i && j < |nodes| { StoredOther(d, d', per, nodes, live, own, due, own', i, node, j); }
    }
  }

  lemma StoredBooks(d: seq<Block>, d': seq<Block>, per: nat, nodes: seq<Inode>, live: set<nat>, own: set<nat>,
      due: Dues, own': set<nat>, i: nat, node: Inode)
    requires per > 0 && Balanced(d, per, nodes, live, own, due) && i in live && i < |nodes|
    requires Holds(d', per, node.iblock, Others(d, per, nodes, live, i), own')
    requires forall x :: x in Others(d, per, nodes, live, i) ==> Blk(d', x) == Blk(d, x)
    ensures Shaped15(nodes[i := node]) && SumFiles(d', per, RootsOf(nodes[i := node], live)) == multiset(own')
  {
    OneChanged(d, d', per, RootsOf(nodes, live), i, node.iblock, own');
    assert RootsOf(nodes[i := node], live) == RootsOf(nodes, live)[i := node.iblock];
  }

  lemma StoredOther(d: seq<Block>, d': seq<Block>, per: nat, nodes: seq<Inode>, live: set<nat>, own: set<nat>,
      due: Dues, own': set<nat>, i: nat, node: Inode, j: nat)
    requires per > 0 && Balanced(d, per, nodes, live, own, due) && i in live && i < |nodes|
    requires Holds(d', per, node.iblock, Others(d, per, nodes, live, i), own')
    requires forall x :: x in Others(d, per, nodes, live, i) ==> Blk(d', x) == Blk(d, x)
    requires j in live && j < |nodes| && j != i
    ensures Charged(d', per, nodes[j], Due(due, j)) && Steady(d, d', per, nodes, live, j)
  {
    OneChanged(d, d', per, RootsOf(nodes, live), i, node.iblock, own');
    assert RootsOf(nodes, live)[j] == nodes[j].iblock;
    assert ChargedAt(d, per, nodes, due, j);
    StillCharged(d, d', per, nodes[j], Due(due, j));
  }

  lemma StillCharged(d: seq<Block>, d': seq<Block>, per: nat, node: Inode, k: nat)
    requires |node.iblock| == NSLOTS && Charged(d, per, node, k) &&
        Slots(d', per, node.iblock) == Slots(d, per, node.iblock)
    ensures Charged(d', per, node, k)
  {
  }

  /** The file of inode `j`, if it is in use, has the same blocks with the same contents, and so the same bytes. */
  ghost predicate Steady(d0: seq<Block>, d: seq<Block>, per: nat, nodes: seq<Inode>, live: set<nat>, j: nat)
    requires per > 0 && Shaped15(nodes)
  {
    j in live && j < |nodes| ==>
      && Kept(d0, d, per, nodes[j].iblock)
      && forall pos :: ByteOf(d, per, nodes[j].iblock, pos) == ByteOf(d0, per, nodes[j].iblock, pos)
  }

  /** Every inode but `i` is as it was, and every file in use but `i` reads as it did. */
  ghost predicate OthersKept(d0: seq<Block>, nodes0: seq<Inode>, d: seq<Block>, nodes: seq<Inode>, per: nat,
      live: set<nat>, i: nat)
    requires per > 0 && Shaped15(nodes0)
  {
    && i < |nodes0| == |nodes| && nodes == nodes0[i := nodes[i]]
    && forall j: nat {:trigger Steady(d0, d, per, nodes0, live, j)} :: j != i ==> Steady(d0, d, per, nodes0, live, j)
  }

  lemma HeldIsOwned(d: seq<Block>, per: nat, ib: seq<nat>, rest: multiset<nat>, own: set<nat>)
    requires Holds(d, per, ib, rest, own)
    ensures |Sum(Slots(d, per, ib))| == |own| - |rest|
  {
    assert |Sum(Slots(d, per, ib)) + rest| == |multiset(own)|;
  }

  lemma FreshBlocks(geo: Geometry)
    requires geo.Valid()
    ensures var p, n := geo.Blocks0(), geo.blocksCount - geo.firstData;
      Exact(p, n, geo.bpg) && Marks(p, n, geo.bpg, geo.firstData, {}, geo.Own()) && p.sb == n - |geo.Own()|
  {
    var n := geo.blocksCount - geo.firstData;
    GroupsCover(n, geo.bpg);
    if geo.firstData == 0 { FirstTaken(n, geo.bpg, geo.Groups(), geo.Bs()); }
        else { FreshPool(n, geo.bpg, geo.Groups(), geo.Bs(), geo.firstData); }
  }

  lemma FreshInodes(geo: Geometry)
    requires geo.Valid() && geo.inodesCount <= Start(geo.ipg, geo.Groups())
    ensures var p := Unused(geo.inodesCount, geo.ipg, geo.Groups(), geo.Bs());
      Exact(p, geo.inodesCount, geo.ipg) && Marks(p, geo.inodesCount, geo.ipg, 0, {},
          {}) && forall g :: 0 <= g < |p.maps| ==> |p.maps[g]| == geo.Bs()
  {
    FreshPool(geo.inodesCount, geo.ipg, geo.Groups(), geo.Bs(), 0);
  }

  lemma FreshBlank(geo: Geometry, d: seq<Block>, nodes: seq<Inode>)
    requires geo.Valid() && d == seq(geo.blocksCount, _ => Zeros(geo.Bs())) &&
        nodes == seq(geo.inodesCount, _ => Inode(false, 0, 0, 0, NoBlocks()))
    ensures |d| == geo.blocksCount && (forall b :: 0 <= b < |d| ==> |d[b]| == geo.Bs()) &&
        Balanced(d, geo.per, nodes, {}, {}, map[])
  {
    NoneInUse(d, geo.per, nodes);
  }

  lemma NoneInUse(d: seq<Block>, per: nat, nodes: seq<Inode>)
    requires Shaped15(nodes)
    ensures Balanced(d, per, nodes, {}, {}, map[])
  {
    NoRoots(d, per, RootsOf(nodes, {}));
  }

  lemma {:induction false} NoRoots(d: seq<Block>, per: nat, r: seq<seq<nat>>)
    requires forall i :: 0 <= i < |r| ==> r[i] == NoBlocks() && |r[i]| == NSLOTS
    ensures SumFiles(d, per, r) == multiset{}
  {
    if r != [] {
      NoBlocksEmpty(d, per);
      NoRoots(d, per, r[1..]);
    }
  }

  /** An inode taken into use with no blocks. */
  lemma FreshNode(d: seq<Block>, per: nat, nodes: seq<Inode>, live: set<nat>, own: set<nat>, due: Dues, x: nat,
      node: Inode)
    requires Balanced(d, per, nodes, live, own, due) && x !in live && x < |nodes|
    requires node.iblock == NoBlocks() && node.blocks == 0 && node.size < U32
    ensures Balanced(d, per, nodes[x := node], live + {x}, own, due)
  {
    assert RootsOf(nodes[x := node], live + {x}) == RootsOf(nodes, live);
    NoBlocksEmpty(d, per);
    assert Charged(d, per, node, 0);
    ChargedMore(d, per, nodes, live, due, x, node);
  }

  /** A new inode, charged for what it has, and the others as they were. */
  lemma ChargedMore(d': seq<Block>, per: nat, nodes: seq<Inode>, live: set<nat>, due: Dues, x: nat, node: Inode)
    requires Shaped15(nodes) && |node.iblock| == NSLOTS && x < |nodes| && Shaped15(nodes[x := node]) && x !in live &&
        x !in due && Charged(d', per, node, 0)
    requires forall j: nat {:trigger ChargedAt(d', per, nodes, due, j)} :: j in live ==>
        ChargedAt(d', per, nodes, due, j)
    ensures forall j: nat {:trigger ChargedAt(d', per, nodes[x := node], due, j)} :: j in live + {x} ==>
        ChargedAt(d', per, nodes[x := node], due, j)
  {
    var nodes' := nodes[x := node];
    forall j: nat | j in live + {x} ensures ChargedAt(d', per, nodes', due, j) {
      if j != x { assert ChargedAt(d', per, nodes, due, j); }
    }
  }

  /** An inode taken into use with the one new block `b`. */
  lemma FreshDir(d: seq<Block>, c: Block, per: nat, nodes: seq<Inode>, live: set<nat>, own: set<nat>, due: Dues, x: nat,
      node: Inode, b: nat)
    requires per > 0 && Balanced(d, per, nodes, live, own, due) && x !in live && x < |nodes| && 0 < b < |d| && b !in own
    requires node.iblock == NoBlocks()[0 := b] && node.blocks == 1 && node.size < U32
    ensures Balanced(d[b := c], per, nodes[x := node], live + {x}, own + {b}, due)
    ensures OthersKept(d, nodes, d[b := c], nodes[x := node], per, live, x)
  {
    FreshBooks(d, c, per, nodes, live, own, x, node, b);
    var d' := d[b := c];
    OneBlock(d', per, b);
    assert Charged(d', per, node, 0);
    forall j: nat | j in live ensures ChargedAt(d', per, nodes, due, j) && Steady(d, d', per, nodes, live, j) {
      if j < |nodes| { FreshOther(d, c, per, nodes, live, own, due, b, j); }
    }
    ChargedMore(d', per, nodes, live, due, x, node);
  }

  lemma FreshBooks(d: seq<Block>, c: Block, per: nat, nodes: seq<Inode>, live: set<nat>, own: set<nat>, x: nat,
      node: Inode, b: nat)
    requires per > 0 && Shaped15(nodes) && SumFiles(d, per, RootsOf(nodes, live)) == multiset(own) && x !in live &&
        x < |nodes|
    requires 0 < b < |d| && b !in own && node.iblock == NoBlocks()[0 := b]
    ensures Shaped15(nodes[x := node]) &&
        SumFiles(d[b := c], per, RootsOf(nodes[x := node], live + {x})) == multiset(own + {b})
  {
    RootsFresh(nodes, live, x, node);
    OneBlock(d[b := c], per, b);
    assert multiset(own + {b}) == multiset{b} + multiset(own);
    OneChanged(d, d[b := c], per, RootsOf(nodes, live), x, node.iblock, own + {b});
  }

  lemma RootsFresh(nodes: seq<Inode>, live: set<nat>, x: nat, node: Inode)
    requires x < |nodes| && x !in live
    ensures RootsOf(nodes, live)[x := NoBlocks()] == RootsOf(nodes, live)
    ensures RootsOf(nodes[x := node], live + {x}) == RootsOf(nodes, live)[x := node.iblock]
  {
  }

  /** A file does not notice a block written that no file owns. */
  lemma FreshOther(d: seq<Block>, c: Block, per: nat, nodes: seq<Inode>, live: set<nat>, own: set<nat>, due: Dues,
      b: nat, j: nat)
    requires per > 0 && Balanced(d, per, nodes, live, own, due) && 0 < b < |d| && b !in own && j in live && j < |nodes|
    ensures Charged(d[b := c], per, nodes[j], Due(due, j)) && Steady(d, d[b := c], per, nodes, live, j)
  {
    var r := RootsOf(nodes, live);
    SumFilesMember(d, per, r, j);
    assert r[j] == nodes[j].iblock && ChargedAt(d, per, nodes, due, j);
    Untouched(d, d[b := c], per, nodes[j].iblock);
    StillCharged(d, d[b := c], per, nodes[j], Due(due, j));
  }

  /** An inode gone with all its blocks. */
  lemma Dropped(d: seq<Block>, d': seq<Block>, per: nat, nodes: seq<Inode>, live: set<nat>, own: set<nat>, due: Dues,
      own': set<nat>, i: nat)
    requires per > 0 && Balanced(d, per, nodes, live, own, due) && i in live && i < |nodes|
    requires Others(d, per, nodes, live, i) == multiset(own')
    requires forall y :: y in Others(d, per, nodes, live, i) ==> Blk(d', y) == Blk(d, y)
    ensures Balanced(d', per, nodes, live - {i}, own', due - {i})
    ensures OthersKept(d, nodes, d', nodes, per, live - {i}, i)
  {
    var live' := live - {i};
    DroppedSum(d, d', per, nodes, live, own', i);
    var due' := due - {i};
    forall j: nat | j in live' ensures ChargedAt(d', per, nodes, due', j) && Steady(d, d', per, nodes, live', j) {
      if j < |nodes| {
        assert RootsOf(nodes, live)[j] == nodes[j].iblock && ChargedAt(d, per, nodes, due, j);
        StillCharged(d, d', per, nodes[j], Due(due, j));
      }
    }
  }

  lemma DroppedSum(d: seq<Block>, d': seq<Block>, per: nat, nodes: seq<Inode>, live: set<nat>, own': set<nat>, i: nat)
    requires per > 0 && Shaped15(nodes) && i in live && i < |nodes|
    requires Others(d, per, nodes, live, i) == multiset(own')
    requires forall y :: y in Others(d, per, nodes, live, i) ==> Blk(d', y) == Blk(d, y)
    ensures SumFiles(d', per, RootsOf(nodes, live - {i})) == multiset(own')
    ensures forall j {:trigger RootsOf(nodes, live)[j]} :: 0 <= j < |nodes| && j != i ==>
        Kept(d, d', per, RootsOf(nodes, live)[j])
    ensures forall j, pos {:trigger ByteOf(d', per, RootsOf(nodes, live)[j], pos)} :: 0 <= j < |nodes| && j != i ==>
      ByteOf(d', per, RootsOf(nodes, live)[j], pos) == ByteOf(d, per, RootsOf(nodes, live)[j], pos)
  {
    var r := RootsOf(nodes, live);
    NoBlocksEmpty(d', per);
    assert Sum(Slots(d', per, NoBlocks())) + Others(d, per, nodes, live, i) == multiset(own');
    OneChanged(d, d', per, r, i, NoBlocks(), own');
    assert RootsOf(nodes, live - {i}) == r[i := NoBlocks()];
  }

  /** A disk changed outside all files' blocks: the books are as they were. */
  lemma Unreached(d: seq<Block>, d': seq<Block>, per: nat, nodes: seq<Inode>, live: set<nat>, own: set<nat>, due: Dues,
      i: nat)
    requires per > 0 && Balanced(d, per, nodes, live, own, due) && i in live && i < |nodes|
    requires forall x :: x in own ==> Blk(d', x) == Blk(d, x)
    ensures Kept(d, d', per, nodes[i].iblock)
    ensures Balanced(d', per, nodes, live, own, due) && OthersKept(d, nodes, d', nodes, per, live, i)
  {
    Loaded(d, per, nodes, live, own, due, i);
    var rest := Others(d, per, nodes, live, i);
    forall x | x in Sum(Slots(d, per, nodes[i].iblock)) || x in rest ensures x in own {
      assert x in Sum(Slots(d, per, nodes[i].iblock)) + rest;
    }
    Untouched(d, d', per, nodes[i].iblock);
    assert ChargedAt(d, per, nodes, due, i);
    StillCharged(d, d', per, nodes[i], Due(due, i));
    StoredSame(d, d', per, nodes, live, own, due, own, i, Due(due, i));
  }

  /** The inode itself is as it was. */
  lemma StoredSame(d: seq<Block>, d': seq<Block>, per: nat, nodes: seq<Inode>, live: set<nat>, own: set<nat>, due: Dues,
      own': set<nat>, i: nat, k: nat)
    requires per > 0 && Balanced(d, per, nodes, live, own, due) && i in live && i < |nodes|
    requires Holds(d', per, nodes[i].iblock, Others(d, per, nodes, live, i), own') && Charged(d', per, nodes[i], k)
    requires forall x :: x in Others(d, per, nodes, live, i) ==> Blk(d', x) == Blk(d, x)
    ensures Balanced(d', per, nodes, live, own', SetDue(due, i, k)) && OthersKept(d, nodes, d', nodes, per, live, i)
  {
    assert nodes[i := nodes[i]] == nodes;
    Stored(d, d', per, nodes, live, own, due, own', i, nodes[i], k);
  }

  lemma Parted(own: set<nat>, own0: set<nat>, meta: set<nat>, meta': set<nat>)
    requires own0 <= own && meta' == meta + (own - own0) && forall b {:trigger b in own} :: b in own ==> b !in meta
    ensures forall b {:trigger b in own0} :: b in own0 ==> b in own && b !in meta'
    ensures 0 in meta ==> 0 in meta'
  {
  }

  /** New blocks linked into an inode whose i_blocks stays as it was. */
  lemma Unbilled(d: seq<Block>, d': seq<Block>, per: nat, nodes: seq<Inode>, live: set<nat>, own: set<nat>, due: Dues,
      own': set<nat>, due': Dues, i: nat, more: nat, k: nat)
    requires k == Due(due, i) + more && due' == SetDue(due, i, k)
    requires per > 0 && Balanced(d, per, nodes, live, own, due) && i in live && i < |nodes| && nodes[i].isDir
    requires Holds(d', per, nodes[i].iblock, Others(d, per, nodes, live, i), own') && |own'| == |own| + more
    requires forall x :: x in Others(d, per, nodes, live, i) ==> Blk(d', x) == Blk(d, x)
    ensures Balanced(d', per, nodes, live, own', due') && OthersKept(d, nodes, d', nodes, per, live, i)
  {
    assert Charged(d', per, nodes[i], k) by {
      UnbilledCharge(d, d', per, nodes, live, own, due, own', i, more);
    }
    StoredSame(d, d', per, nodes, live, own, due, own', i, k);
  }

  lemma UnbilledCharge(d: seq<Block>, d': seq<Block>, per: nat, nodes: seq<Inode>, live: set<nat>, own: set<nat>,
      due: Dues, own': set<nat>, i: nat, more: nat)
    requires Balanced(d, per, nodes, live, own, due) && i in live && i < |nodes| && nodes[i].isDir
    requires Holds(d', per, nodes[i].iblock, Others(d, per, nodes, live, i), own') && |own'| == |own| + more
    ensures Charged(d', per, nodes[i], Due(due, i) + more)
  {
    assert ChargedAt(d, per, nodes, due, i);
    Reach(d, per, nodes, live, own, due, i);
    HeldIsOwned(d', per, nodes[i].iblock, Others(d, per, nodes, live, i), own');
    Rebilled(d, d', per, nodes[i], Due(due, i), more);
  }

  /** How many blocks an inode leads to. */
  lemma Reach(d: seq<Block>, per: nat, nodes: seq<Inode>, live: set<nat>, own: set<nat>, due: Dues, i: nat)
    requires Balanced(d, per, nodes, live, own, due) && i in live && i < |nodes|
    ensures |Sum(Slots(d, per, nodes[i].iblock))| == |own| - |Others(d, per, nodes, live, i)|
  {
    Loaded(d, per, nodes, live, own, due, i);
    HeldIsOwned(d, per, nodes[i].iblock, Others(d, per, nodes, live, i), own);
  }

  lemma Rebilled(d: seq<Block>, d': seq<Block>, per: nat, node: Inode, k: nat, more: nat)
    requires |node.iblock| == NSLOTS && Charged(d, per, node, k) && node.isDir
    requires |Sum(Slots(d', per, node.iblock))| == |Sum(Slots(d, per, node.iblock))| + more
    ensures Charged(d', per, node, k + more)
  {
    assert |Sum(Slots(d', per, node.iblock))| - (k + more) == |Sum(Slots(d, per, node.iblock))| - k;
  }

  /** Two inodes that differ in their link counts at most. */
  predicate Alike(a: Inode, b: Inode) {
    a.isDir == b.isDir && a.size == b.size && a.blocks == b.blocks && a.iblock == b.iblock
  }

  lemma BalancedLinks(d: seq<Block>, per: nat, nodes: seq<Inode>, live: set<nat>, own: set<nat>, due: Dues, i: nat,
      node: Inode)
    requires Balanced(d, per, nodes, live, own, due) && i < |nodes| && Alike(nodes[i], node)
    ensures Balanced(d, per, nodes[i := node], live, own, due)
  {
    var nodes' := nodes[i := node];
    RootsAlike(nodes, live, i, node);
    assert Shaped15(nodes');
    forall j: nat | j in live ensures ChargedAt(d, per, nodes', due, j) {
      assert ChargedAt(d, per, nodes, due, j);
      ChargedAlike(d, per, nodes, nodes', due, i, j);
    }
  }

  lemma ChargedAlike(d: seq<Block>, per: nat, nodes: seq<Inode>, nodes': seq<Inode>, due: Dues, i: nat, j: nat)
    requires i < |nodes| && Shaped15(nodes) && Shaped15(nodes') && ChargedAt(d, per, nodes, due, j) && i < |nodes'| &&
        nodes' == nodes[i := nodes'[i]] && Alike(nodes[i], nodes'[i])
    ensures ChargedAt(d, per, nodes', due, j)
  {
    if j < |nodes| { ChargedLinks(d, per, nodes[j], nodes'[j], Due(due, j)); }
  }

  lemma RootsAlike(nodes: seq<Inode>, live: set<nat>, i: nat, node: Inode)
    requires i < |nodes| && Alike(nodes[i], node)
    ensures RootsOf(nodes[i := node], live) == RootsOf(nodes, live)
  {
  }

  lemma ChargedLinks(d: seq<Block>, per: nat, a: Inode, b: Inode, k: nat)
    requires |a.iblock| == NSLOTS && Alike(a, b) && Charged(d, per, a, k)
    ensures Charged(d, per, b, k)
  {
  }

  class Volume {
    const geo: Geometry
    ghost var meta: set<nat>        // blocks marked that no inode leads to: the file system's own and those lost
    var disk: seq<Block>
    var blockPool: Pool
    var inodePool: Pool
    var inodes: seq<Inode>          // the inode table, by inode number minus one
    ghost var owned: set<nat>       // blocks handed out to files
    ghost var live: set<nat>        // inodes in use, by inode number minus one
    ghost var due: Dues             // blocks in use that i_blocks misses

    ghost predicate Sized()
      reads this
    {
      && geo.Valid()
      && |disk| == geo.blocksCount && (forall b :: 0 <= b < |disk| ==> |disk[b]| == geo.Bs())
      && |blockPool.maps| == |inodePool.maps| == GroupsFor(geo.blocksCount - geo.firstData, geo.bpg)
      && (forall g :: 0 <= g < |blockPool.maps| ==> |blockPool.maps[g]| == geo.Bs())
      && (forall g :: 0 <= g < |inodePool.maps| ==> |inodePool.maps[g]| == geo.Bs())
    }

    /** The allocator's invariant. Both pools' counters are exact; the marked blocks are exactly the
        file system's own and those handed out to files; block 0, "no block", is never handed out. */
    ghost predicate Alloc()
      reads this
    {
      && Sized()
      && Exact(blockPool, geo.blocksCount - geo.firstData, geo.bpg)
      && Marks(blockPool, geo.blocksCount - geo.firstData, geo.bpg, geo.firstData, owned, meta)
      && Exact(inodePool, geo.inodesCount, geo.ipg)
      && Marks(inodePool, geo.inodesCount, geo.ipg, 0, live, {})
      && (forall b {:trigger b in owned} :: b in owned ==> geo.firstData <= b < geo.blocksCount && b !in meta && b != 0)
      && (forall x :: x in live ==> x < geo.inodesCount)
      && (geo.firstData == 0 ==> 0 in meta)
    }

    /** A volume on which nothing is in use but block 0, where that is one of its blocks. */
    constructor (geo: Geometry)
      requires geo.Valid() && geo.inodesCount <= Start(geo.ipg, geo.Groups())
      ensures Valid() && this.geo == geo && owned == {} && live == {} && meta == geo.Own() && due == map[]
      ensures blockPool.sb == geo.blocksCount - geo.firstData - |geo.Own()| && inodePool.sb == geo.inodesCount
    {
      this.geo := geo;
      disk := seq(geo.blocksCount, _ => Zeros(geo.Bs()));
      blockPool := geo.Blocks0();
      inodePool := Unused(geo.inodesCount, geo.ipg, geo.Groups(), geo.Bs());
      inodes := seq(geo.inodesCount, _ => Inode(false, 0, 0, 0, NoBlocks()));
      owned, live, meta, due := {}, {}, geo.Own(), map[];
      new;
      FreshBlocks(geo);
      FreshInodes(geo);
      FreshBlank(geo, disk, inodes);
    }

    // ---------------------------------------------------------- blocks

    /** A fresh zeroed block, or 0 only when every block of the volume is in use. */
    method AllocBlock() returns (bn: nat)
      requires Alloc()
      modifies `disk, `blockPool, `owned
      ensures Alloc()
      ensures bn == 0 ==>
          disk == old(disk) && blockPool == old(blockPool) && owned == old(owned) && Full(geo, owned, meta) &&
          blockPool.sb == 0
      ensures bn != 0 ==>
          bn < |disk| && bn !in old(owned) && owned == old(owned) + {bn} && disk == old(disk)[bn := Zeros(geo.Bs())]
      ensures bn != 0 ==> blockPool.sb + 1 == old(blockPool.sb)
      ensures inodes == old(inodes) && live == old(live) && meta == old(meta) && due == old(due)
    {
      var n := geo.blocksCount - geo.firstData;
      var ng := (n + geo.bpg - 1) / geo.bpg;
      GroupCount(n, geo.bpg);
      for g := 0 to ng
        invariant disk == old(disk) && blockPool == old(blockPool) && owned == old(owned)
        invariant forall h :: 0 <= h < g ==> GroupFull(blockPool, n, geo.bpg, h)
      {
        bn := AllocInGroup(g);
        if bn != 0 {
          return;
        }
      }
      forall b | geo.firstData <= b < geo.blocksCount ensures b in owned || b in meta {
        FullMarks(blockPool, n, geo.bpg, geo.firstData, owned, meta, b);
      }
      FullCount(blockPool, n, geo.bpg);
      bn := 0;
    }

    /** The first block of a group and how many bits of its bitmap stand for blocks. */
    method GroupRange(g: nat) returns (base: nat, limit: int)
      requires Alloc() && g < |blockPool.maps|
      ensures base == geo.firstData + Start(geo.bpg, g) && limit == Share(geo.blocksCount - geo.firstData, geo.bpg, g)
    {
      StartIsProduct(geo.bpg, g);
      StartInside(geo.blocksCount - geo.firstData, geo.bpg, g);
      base := geo.firstData + g * geo.bpg;
      limit := geo.bpg;
      if base + limit > geo.blocksCount { limit := geo.blocksCount - base; }
      if limit > geo.Bs() * 8 { limit := geo.Bs() * 8; }
    }

    /** One round of alloc_block's loop. */
    method AllocInGroup(g: nat) returns (bn: nat)
      requires Alloc() && g < |blockPool.maps|
      modifies `disk, `blockPool, `owned
      ensures Alloc()
      ensures bn == 0 ==>
          disk == old(disk) && blockPool == old(blockPool) && owned == old(owned) &&
          GroupFull(blockPool, geo.blocksCount - geo.firstData, geo.bpg, g)
      ensures bn != 0 ==>
          bn < |disk| && bn !in old(owned) && owned == old(owned) + {bn} && disk == old(disk)[bn := Zeros(geo.Bs())]
      ensures bn != 0 ==> blockPool.sb + 1 == old(blockPool.sb)
      ensures inodes == old(inodes) && live == old(live) && meta == old(meta) && due == old(due)
    {
      ghost var n := geo.blocksCount - geo.firstData;
      var base, limit := GroupRange(g);
      var bit := Bitmap.FirstClear(blockPool.maps[g], limit);
      if bit >= 0 {
        bn := base + bit;
        TakeBlock(g, bit, bn);
      } else {
        bn := 0;
      }
    }

    /** The bit set, the block zeroed and the counters adjusted. */
    method TakeBlock(g: nat, bit: nat, bn: nat)
      requires Alloc() && g < |blockPool.maps| && bit < Share(geo.blocksCount - geo.firstData, geo.bpg, g) &&
          !Bitmap.Set(blockPool.maps[g], bit)
      requires bn == geo.firstData + Start(geo.bpg, g) + bit
      modifies `disk, `blockPool, `owned
      ensures Alloc() && 0 < bn < |disk| && bn !in old(owned) && owned == old(owned) + {bn} &&
          disk == old(disk)[bn := Zeros(geo.Bs())]
      ensures blockPool.sb + 1 == old(blockPool.sb)
      ensures inodes == old(inodes) && live == old(live) && meta == old(meta) && due == old(due)
    {
      TakeMarks(blockPool, geo.blocksCount - geo.firstData, geo.bpg, geo.firstData, owned, meta, g, bit);
      blockPool := blockPool.(maps := blockPool.maps[g := Bitmap.Mark(blockPool.maps[g], bit)]);
      disk := disk[bn := Zeros(geo.Bs())];
      blockPool := Adjusted(blockPool, g, false);
      owned := owned + {bn};
      assert blockPool == Take(old(blockPool), g, bit);
    }

    /** Only a block in use by a file can be freed, so no block is freed twice. */
    method FreeBlock(bn: nat)
      requires Alloc() && bn in owned
      modifies `blockPool, `owned
      ensures Alloc() && owned == old(owned) - {bn}
      ensures inodes == old(inodes) && live == old(live) && meta == old(meta) && due == old(due)
    {
      var rel := bn - geo.firstData;
      var g, bit := rel / geo.bpg, rel % geo.bpg;
      AtIsDivMod(geo.bpg, rel);
      GiveMarks(blockPool, geo.blocksCount - geo.firstData, geo.bpg, geo.firstData, owned, meta, rel);
      blockPool := blockPool.(maps := blockPool.maps[g := Bitmap.Clear(blockPool.maps[g], bit)]);
      blockPool := Adjusted(blockPool, g, true);
      owned := owned - {bn};
      assert blockPool == Give(old(blockPool), g, bit);
    }

    // ---------------------------------------------------------- growing a block map

    /** span_of: per^(level-1). */
    static method SpanOf(per: nat, level: nat) returns (s: nat)
      requires level > 0
      ensures s == Cap(per, level - 1)
    {
      s := 1;
      for i := 1 to level
        invariant s == Cap(per, i - 1)
      {
        StartIsProduct(s, per);
        s := s * per;
      }
    }

    /** Which child covers `idx`, and where inside it. */
    static method SlotOf(per: nat, level: nat, idx: nat) returns (slot: nat, off: nat)
      requires per > 0 && level > 0
      ensures slot == Slot(per, level, idx) && off == Off(per, level, idx)
    {
      var span := SpanOf(per, level);
      AtIsDivMod(span, idx);
      slot, off := idx / span, idx % span;
    }

    /** The file blocks child `s` of a pointer block over trees of level `l` covers. */
    static method ChildRange(per: nat, l: nat, s: nat) returns (span: nat, base: nat)
      ensures span == Cap(per, l) && base == Start(span, s)
    {
      span := SpanOf(per, l + 1);
      StartIsProduct(span, s);
      base := s * span;
    }

    /** alloc_indirect, with the data block itself as level 0: file block `idx` of the tree at `root`
        gets a fresh zeroed data block, pointer blocks on the way are created, and nothing else of
        the map or of any other file moves. On failure the volume is full, and what was created stays
        reachable and charged for. `rest` are the claimed blocks outside the tree. */
    method AllocIndirect(vi: Vinfo, root: nat, level: nat, idx: nat, ghost rest: multiset<nat>)
        returns (root': nat, data: nat)
      requires Alloc() && vi.Counted() && idx < Cap(geo.per, level)
      requires Hole(disk, geo.per, root, level, idx) && Splits(disk, geo.per, root, level, rest, owned)
      modifies `disk, `blockPool, `owned, vi`blocks, vi`held
      ensures Alloc() && vi.Counted() && vi.held - old(vi.held) == |owned| - old(|owned|)
      ensures Grew(old(disk), disk, geo.per, root, root', level, idx, data, rest, old(owned), owned)
      ensures root' != 0 ==> root' in owned
      ensures data == 0 ==> Full(geo, owned, meta)
      ensures Spent(old(blockPool.sb), blockPool.sb, Needs(old(Abs(disk, geo.per, root, level)), geo.per, level, idx),
          data)
      ensures |owned| + blockPool.sb == old(|owned| + blockPool.sb)
      ensures root' != root <==> root == 0 && old(blockPool.sb) > 0
      ensures inodes == old(inodes) && live == old(live) && meta == old(meta) && due == old(due)
      decreases level, 1
    {
      if root == 0 {
        var nb := AllocBlock();
        if nb == 0 {
          GrewNothing(disk, geo.per, 0, level, idx, rest, owned);
          return 0, 0;
        }
        root' := nb;
        vi.Charge();
        if level == 0 {
          data := nb;
          GrewLeaf(old(disk), geo.per, nb, rest, old(owned));
        } else {
          EmptyTree(disk, geo.per, nb, level);
          assert multiset(owned) == multiset(old(owned)) + multiset{nb};
          EmptyAt(disk, geo.per, nb, level);
          EmptyNeeds(disk, geo.per, nb, level, idx);
          data := AllocBelow(vi, nb, level, idx, rest);
          GrewFresh(old(disk), disk, geo.per, nb, level, idx, data, rest, old(owned), owned);
        }
      } else {
        root' := root;
        data := AllocBelow(vi, root, level, idx, rest);
      }
    }

    /** The part of alloc_indirect that has a pointer block: recurse into a child, relink it if new. */
    method AllocBelow(vi: Vinfo, root: nat, level: nat, idx: nat, ghost rest: multiset<nat>) returns (data: nat)
      requires Alloc() && vi.Counted() && level > 0 && idx < Cap(geo.per, level)
      requires root != 0 && Hole(disk, geo.per, root, level, idx) && Splits(disk, geo.per, root, level, rest, owned)
      modifies `disk, `blockPool, `owned, vi`blocks, vi`held
      ensures Alloc() && vi.Counted() && vi.held - old(vi.held) == |owned| - old(|owned|)
      ensures Grew(old(disk), disk, geo.per, root, root, level, idx, data, rest, old(owned), owned)
      ensures root in owned
      ensures data == 0 ==> Full(geo, owned, meta)
      ensures Spent(old(blockPool.sb), blockPool.sb, Needs(old(Abs(disk, geo.per, root, level)), geo.per, level, idx),
          data)
      ensures |owned| + blockPool.sb == old(|owned| + blockPool.sb)
      ensures inodes == old(inodes) && live == old(live) && meta == old(meta) && due == old(due)
      decreases level, 0
    {
      RootOwned(disk, geo.per, root, level, rest, owned);
      var per := geo.per;
      SlotBound(per, level, idx);
      var slot, off := SlotOf(per, level, idx);
      var child := Ptr(disk[root], slot);
      ghost var rest1 := Beside(disk, per, root, level, slot, rest);
      Descend(disk, per, root, level, idx, slot, child, rest, owned);
      var child';
      child', data := AllocIndirect(vi, child, level - 1, off, rest1);
      GrewKid(old(disk), disk, per, root, level, idx, slot, child, child', data, rest, rest1, old(owned), owned);
      if child' != child { PutPtr(root, slot, child'); }
    }

    /** A pointer block with one slot overwritten. */
    method PutPtr(root: nat, slot: nat, child: nat)
      requires Alloc() && root < |disk| && slot < geo.per && child < U32
      modifies `disk
      ensures Alloc() && disk == old(disk)[root := Wr32(old(disk)[root], 4 * slot, child)]
      ensures owned == old(owned) && blockPool == old(blockPool)
      ensures inodes == old(inodes) && live == old(live) && meta == old(meta) && due == old(due)
    {
      disk := disk[root := Wr32(disk[root], 4 * slot, child)];
    }

    // ---------------------------------------------------------- trimming a block map

    /** free_indirect_from, with the data block itself as level 0: the tree at `root` loses every file
        block from `start` on, subtrees wholly past `start` with all their pointer blocks, and every
        block given up is freed once. */
    method FreeIndirectFrom(vi: Vinfo, root: nat, level: nat, start: nat, ghost rest: multiset<nat>)
        returns (root': nat)
      requires Alloc() && vi.Counted() && Splits(disk, geo.per, root, level, rest, owned)
      modifies `disk, `blockPool, `owned, vi`blocks, vi`held
      ensures Alloc() && vi.Counted() && vi.held - old(vi.held) == |owned| - old(|owned|)
      ensures Trimmed(old(disk), disk, geo.per, root, root', level, start, rest, old(owned), owned)
      ensures inodes == old(inodes) && live == old(live) && meta == old(meta) && due == old(due)
      decreases level, 1
    {
      if root == 0 || (level == 0 && start > 0) {
        TrimmedNothing(disk, geo.per, root, level, start, rest, owned);
        return root;
      }
      if level == 0 {
        TrimmedLeaf(disk, geo.per, root, rest, owned);
        FreeBlock(root);
        vi.Refund();
        return 0;
      }
      root' := FreeBelow(vi, root, level, level - 1, start, rest);
    }

    /** The part of free_indirect_from that has a pointer block over trees of level `l`. */
    method FreeBelow(vi: Vinfo, root: nat, ghost level: nat, l: nat, start: nat, ghost rest: multiset<nat>)
        returns (root': nat)
      requires level == l + 1 && root != 0
      requires Alloc() && vi.Counted() && Splits(disk, geo.per, root, level, rest, owned)
      modifies `disk, `blockPool, `owned, vi`blocks, vi`held
      ensures Alloc() && vi.Counted() && vi.held - old(vi.held) == |owned| - old(|owned|)
      ensures Trimmed(old(disk), disk, geo.per, root, root', level, start, rest, old(owned), owned)
      ensures inodes == old(inodes) && live == old(live) && meta == old(meta) && due == old(due)
      decreases l, 3
    {
      RootOwned(disk, geo.per, root, level, rest, owned);
      var per := geo.per;
      TrimmingStart(disk, per, root, level, l, start, rest, owned);
      var b, dirty := disk[root], false;
      ghost var ks := Abs(disk, per, root, level).kids;
      for s := 0 to per
        invariant Alloc() && vi.Counted() && vi.held - old(vi.held) == |owned| - old(|owned|)
        invariant |b| == geo.Bs() && (dirty || b == Blk(disk, root))
        invariant Trimming(old(disk), disk, per, root, l, start, b, ks, s, rest, old(owned), owned)
      {
        b, dirty, ks := TrimSlot(vi, root, l, start, s, b, dirty, ks, rest, old(disk), old(owned));
      }
      root' := Settle(vi, root, level, l, start, b, dirty, ks, rest, old(disk), old(owned));
    }

    /** free_indirect_from's last step: drop the pointer block, or write its buffer back. */
    method Settle(vi: Vinfo, root: nat, ghost level: nat, ghost l: nat, start: nat, b: Block, dirty: bool,
        ghost ks: seq<Node>,
                  ghost rest: multiset<nat>, ghost disk0: seq<Block>, ghost owned0: set<nat>) returns (root': nat)
      requires level == l + 1 && Alloc() && vi.Counted() && |b| == geo.Bs() && (dirty || b == Blk(disk, root)) &&
          root < |disk|
      requires Trimming(disk0, disk, geo.per, root, l, start, b, ks, geo.per, rest, owned0, owned)
      modifies `disk, `blockPool, `owned, vi`blocks, vi`held
      ensures Alloc() && vi.Counted() && vi.held - old(vi.held) == |owned| - old(|owned|)
      ensures Trimmed(disk0, disk, geo.per, root, root', level, start, rest, owned0, owned)
      ensures inodes == old(inodes) && live == old(live) && meta == old(meta) && due == old(due)
    {
      if start == 0 {
        TrimmingEmpty(disk0, disk, geo.per, root, level, l, b, ks, rest, owned0, owned);
        FreeBlock(root);
        vi.Refund();
        root' := 0;
      } else {
        TrimmingDone(disk0, disk, geo.per, root, level, l, start, b, ks, rest, owned0, owned);
        if dirty {
          disk := disk[root := b];
        }
        root' := root;
      }
    }

    /** One round of free_indirect_from's loop: slot `s`, over a tree of level `l`, of the buffered
        pointer block. */
    method TrimSlot(vi: Vinfo, root: nat, l: nat, start: nat, s: nat, b: Block, dirty: bool, ghost ks: seq<Node>,
                    ghost rest: multiset<nat>, ghost disk0: seq<Block>, ghost owned0: set<nat>)
      returns (b': Block, dirty': bool, ghost ks': seq<Node>)
      requires Alloc() && vi.Counted() && s < geo.per && |b| == geo.Bs() && (dirty || b == Blk(disk, root))
      requires Trimming(disk0, disk, geo.per, root, l, start, b, ks, s, rest, owned0, owned)
      modifies `disk, `blockPool, `owned, vi`blocks, vi`held
      ensures Alloc() && vi.Counted() && vi.held - old(vi.held) == |owned| - old(|owned|)
      ensures |b'| == geo.Bs() && (dirty' || b' == Blk(disk, root))
      ensures Trimming(disk0, disk, geo.per, root, l, start, b', ks', s + 1, rest, owned0, owned)
      ensures inodes == old(inodes) && live == old(live) && meta == old(meta) && due == old(due)
      decreases l, 2
    {
      b', dirty', ks' := b, dirty, ks;
      var per := geo.per;
      var child := Ptr(b, s);
      var span, base := ChildRange(per, l, s);
      if child == 0 || base + span <= start {
        TrimmingSkip(disk0, disk, per, root, l, start, b, ks, s, rest, owned0, owned);
        return;
      }
      TrimmingChild(disk0, disk, per, root, l, start, b, ks, s, rest, owned0, owned);
      ghost var rest1 := multiset{root} + Sum(ks[s := Nil]) + rest;
      var sub := if base >= start then 0 else start - base;
      var child' := FreeIndirectFrom(vi, child, l, sub, rest1);
      TrimmingStep(disk0, old(disk), disk, per, root, l, start, b, ks, s, child, child', sub, rest, rest1, owned0,
          old(owned), owned);
      ks' := ks[s := Trim(ks[s], per, l, sub)];
      if base >= start {
        b', dirty' := Wr32(b, 4 * s, 0), true;
      }
    }

    // ---------------------------------------------------------- a whole inode

    /** alloc_file_block. `rest` are the claimed blocks outside the inode. */
    method AllocFileBlock(vi: Vinfo, fblk: nat, ghost rest: multiset<nat>) returns (data: nat)
      requires Alloc() && vi.Counted() && Holds(disk, geo.per, vi.iblock, rest, owned)
      requires MapOf(Slots(disk, geo.per, vi.iblock), geo.per, fblk) == 0
      modifies `disk, `blockPool, `owned, vi`iblock, vi`blocks, vi`held
      ensures Alloc() && vi.Counted() && vi.held - old(vi.held) == |owned| - old(|owned|)
      ensures FileGrew(old(disk), disk, geo.per, old(vi.iblock), vi.iblock, fblk, data, rest, old(owned), owned)
      ensures data == 0 ==> Full(geo, owned, meta) || fblk >= BaseOf(geo.per, NSLOTS)
      ensures SlotIdx(geo.per, fblk) == NSLOTS ==> data == 0 && blockPool == old(blockPool)
      ensures SlotIdx(geo.per, fblk) < NSLOTS ==>
          Spent(old(blockPool.sb), blockPool.sb, old(FileNeeds(disk, geo.per, vi.iblock, fblk)), data)
      ensures |owned| + blockPool.sb == old(|owned| + blockPool.sb)
      ensures vi.iblock != old(vi.iblock) <==> Rootless(geo.per, old(vi.iblock), fblk) && old(blockPool.sb) > 0
      ensures vi.iblock != old(vi.iblock) ==> forall x :: x in old(owned) ==> Blk(disk, x) == Blk(old(disk), x)
      ensures inodes == old(inodes) && live == old(live) && meta == old(meta) && due == old(due)
    {
      var per := geo.per;
      var k := SlotIdx(per, fblk);
      if k == NSLOTS {
        BeyondReach(disk, per, vi.iblock, fblk, rest, owned);
        return 0;
      }
      InIdxBound(per, fblk);
      MapOfSlot(Slots(disk, per, vi.iblock), per, fblk);
      SlotSplits(disk, per, vi.iblock, k, rest, owned);
      ghost var around := Around(disk, per, vi.iblock, k, rest);
      var root;
      root, data := AllocIndirect(vi, vi.iblock[k], LevelOf(k), InIdx(per, fblk), around);
      SlotGrew(old(disk), disk, per, vi.iblock, fblk, k, root, data, rest, old(owned), owned);
      vi.iblock := vi.iblock[k := root];
    }

    /** free_from: the inode keeps exactly what lies below file block `from`. */
    method FreeFrom(vi: Vinfo, from: nat, ghost rest: multiset<nat>)
      requires Alloc() && vi.Counted() && Holds(disk, geo.per, vi.iblock, rest, owned)
      modifies `disk, `blockPool, `owned, vi`iblock, vi`blocks, vi`held
      ensures Alloc() && vi.Counted() && vi.held - old(vi.held) == |owned| - old(|owned|)
      ensures FileTrimming(old(disk), disk, geo.per, old(vi.iblock), vi.iblock, from, NSLOTS, rest, old(owned), owned)
      ensures inodes == old(inodes) && live == old(live) && meta == old(meta) && due == old(due)
    {
      var per := geo.per;
      Bases(per);
      for b := 0 to NDIR
        invariant Alloc() && vi.Counted() && vi.held - old(vi.held) == |owned| - old(|owned|)
        invariant FileTrimming(old(disk), disk, per, old(vi.iblock), vi.iblock, from, b, rest, old(owned), owned)
      {
        FreeSlotFrom(vi, from, b, rest, old(disk), old(vi.iblock), old(owned));
      }
      FreeTreesFrom(vi, from, rest, old(disk), old(vi.iblock), old(owned));
    }

    /** free_from's three indirect slots. */
    method FreeTreesFrom(vi: Vinfo, from: nat, ghost rest: multiset<nat>, ghost disk0: seq<Block>,
        ghost iblock0: seq<nat>, ghost owned0: set<nat>)
      requires Alloc() && vi.Counted() &&
          FileTrimming(disk0, disk, geo.per, iblock0, vi.iblock, from, NDIR, rest, owned0, owned)
      modifies `disk, `blockPool, `owned, vi`iblock, vi`blocks, vi`held
      ensures Alloc() && vi.Counted() && vi.held - old(vi.held) == |owned| - old(|owned|)
      ensures FileTrimming(disk0, disk, geo.per, iblock0, vi.iblock, from, NSLOTS, rest, owned0, owned)
      ensures inodes == old(inodes) && live == old(live) && meta == old(meta) && due == old(due)
    {
      FreeSlotFrom(vi, from, NDIR, rest, disk0, iblock0, owned0);
      FreeSlotFrom(vi, from, DIND, rest, disk0, iblock0, owned0);
      FreeSlotFrom(vi, from, TIND, rest, disk0, iblock0, owned0);
    }

    /** free_from's step for one slot of the inode, left out if the slot ends below `from`. */
    method FreeSlotFrom(vi: Vinfo, from: nat, k: nat, ghost rest: multiset<nat>,
                        ghost disk0: seq<Block>, ghost iblock0: seq<nat>, ghost owned0: set<nat>)
      requires k < NSLOTS && Alloc() && vi.Counted()
      requires FileTrimming(disk0, disk, geo.per, iblock0, vi.iblock, from, k, rest, owned0, owned)
      modifies `disk, `blockPool, `owned, vi`iblock, vi`blocks, vi`held
      ensures Alloc() && vi.Counted() && vi.held - old(vi.held) == |owned| - old(|owned|)
      ensures FileTrimming(disk0, disk, geo.per, iblock0, vi.iblock, from, k + 1, rest, owned0, owned)
      ensures inodes == old(inodes) && live == old(live) && meta == old(meta) && due == old(due)
    {
      var per := geo.per;
      var base := BaseOf(per, k);
      if from >= base + Cap(per, LevelOf(k)) {
        FileTrimSkip(disk0, disk, per, iblock0, vi.iblock, from, k, rest, owned0, owned);
        return;
      }
      SlotSplits(disk, per, vi.iblock, k, rest, owned);
      ghost var around := Around(disk, per, vi.iblock, k, rest);
      var start := if from <= base then 0 else from - base;
      var root := FreeIndirectFrom(vi, vi.iblock[k], LevelOf(k), start, around);
      FileTrimStep(disk0, old(disk), disk, per, iblock0, vi.iblock, from, k, start, root, rest, owned0, old(owned),
          owned);
      vi.iblock := vi.iblock[k := root];
    }

    /** The block behind file block `fblk`, allocated if it is a hole; no byte of any file changes. */
    method EnsureBlock(vi: Vinfo, fblk: nat, ghost rest: multiset<nat>) returns (x: nat)
      requires Alloc() && vi.Counted() && Holds(disk, geo.per, vi.iblock, rest, owned)
      modifies `disk, `blockPool, `owned, vi`iblock, vi`blocks, vi`held
      ensures Alloc() && vi.Counted() && vi.held - old(vi.held) == |owned| - old(|owned|)
      ensures Holds(disk, geo.per, vi.iblock, rest, owned)
      ensures forall y :: y in rest ==> Blk(disk, y) == old(Blk(disk, y))
      ensures forall pos :: ByteOf(disk, geo.per, vi.iblock, pos) == old(ByteOf(disk, geo.per, vi.iblock, pos))
      ensures x == MapOf(Slots(disk, geo.per, vi.iblock), geo.per, fblk)
      ensures x == 0 ==> Full(geo, owned, meta) || fblk >= BaseOf(geo.per, NSLOTS)
      ensures inodes == old(inodes) && live == old(live) && meta == old(meta) && due == old(due)
    {
      var per := geo.per;
      MapBlockIsMap(disk, per, vi.iblock, fblk);
      x := MapBlock(disk, per, vi.iblock, fblk);
      if x == 0 {
        x := AllocFileBlock(vi, fblk, rest);
        forall pos ensures ByteOf(disk, per, vi.iblock, pos) == old(ByteOf(disk, per, vi.iblock, pos)) {
          GrewBytes(old(disk), disk, per, old(vi.iblock), vi.iblock, fblk, x, rest, old(owned), owned, pos);
        }
        forall y | y in rest ensures Blk(disk, y) == old(Blk(disk, y)) {
          RestNotPointer(old(disk), per, old(vi.iblock), rest, old(owned), y);
        }
      }
    }

    /** One block's share of ext2_write: bytes `data` at offset `o` of file block `fblk`, which gets a
        block if it has none. On failure no byte changes. */
    method WriteChunk(vi: Vinfo, fblk: nat, o: nat, data: Block, ghost rest: multiset<nat>) returns (ok: bool)
      requires Alloc() && vi.Counted() && Holds(disk, geo.per, vi.iblock, rest, owned) && o + |data| <= geo.Bs()
      modifies `disk, `blockPool, `owned, vi`iblock, vi`blocks, vi`held
      ensures Alloc() && vi.Counted() && vi.held - old(vi.held) == |owned| - old(|owned|)
      ensures Holds(disk, geo.per, vi.iblock, rest, owned)
      ensures forall y :: y in rest ==> Blk(disk, y) == old(Blk(disk, y))
      ensures WroteIn(old(disk), old(vi.iblock), disk, vi.iblock, geo.per, fblk, o, data, if ok then |data| else 0)
      ensures !ok ==> Full(geo, owned, meta) || fblk >= BaseOf(geo.per, NSLOTS)
      ensures inodes == old(inodes) && live == old(live) && meta == old(meta) && due == old(due)
    {
      var x := EnsureBlock(vi, fblk, rest);
      if x == 0 {
        return false;
      }
      DataBlock(disk, geo.per, vi.iblock, fblk, rest, owned);
      ghost var d1 := disk;
      var blk := if |data| < geo.Bs() then disk[x] else Zeros(geo.Bs());
      blk := Patch(blk, o, data);
      BlockWritten(disk, geo.per, vi.iblock, fblk, o, data, x, blk, rest, owned);
      disk := disk[x := blk];
      WroteInAfter(old(disk), old(vi.iblock), d1, vi.iblock, disk, vi.iblock, geo.per, fblk, o, data, |data|);
      ok := true;
    }

    // ---------------------------------------------------------- operations on files

    /** The volume's invariant. */
    ghost predicate Valid()
      reads this
    {
      Alloc() && |inodes| == geo.inodesCount && Balanced(disk, geo.per, inodes, live, owned, due)
    }

    /** read_inode, with the blocks of every other inode as `rest`. */
    method Load(i: nat) returns (vi: Vinfo, ghost rest: multiset<nat>)
      requires Valid() && i in live
      ensures fresh(vi) && vi.Counted() && vi.Value() == inodes[i]
      ensures rest == Others(disk, geo.per, inodes, live, i) && Holds(disk, geo.per, vi.iblock, rest, owned)
      ensures vi.held + Due(due, i) == |owned| - |rest| && vi.size < U32
    {
      rest := Others(disk, geo.per, inodes, live, i);
      Loaded(disk, geo.per, inodes, live, owned, due, i);
      HeldIsOwned(disk, geo.per, inodes[i].iblock, rest, owned);
      assert ChargedAt(disk, geo.per, inodes, due, i);
      vi := new Vinfo(inodes[i], |owned| - |rest| - Due(due, i));
    }

    /** write_inode at the end of an operation that changed no block of another inode since `disk0`. */
    method Store(i: nat, vi: Vinfo, ghost rest: multiset<nat>, ghost disk0: seq<Block>, ghost owned0: set<nat>)
      requires Alloc() && |inodes| == geo.inodesCount && i in live
      requires Balanced(disk0, geo.per, inodes, live, owned0, due) && rest == Others(disk0, geo.per, inodes, live, i)
      requires vi.Counted() && vi.size < U32 && vi.held + Due(due, i) == |owned| - |rest| && vi.isDir == inodes[i].isDir
      requires Holds(disk, geo.per, vi.iblock, rest, owned)
      requires forall y :: y in rest ==> Blk(disk, y) == Blk(disk0, y)
      modifies `inodes
      ensures Valid() && inodes == old(inodes)[i := vi.Value()]
      ensures OthersKept(disk0, old(inodes), disk, inodes, geo.per, live, i)
      ensures disk == old(disk) && live == old(live) && meta == old(meta) && due == old(due)
    {
      HeldIsOwned(disk, geo.per, vi.iblock, rest, owned);
      assert ChargedAt(disk0, geo.per, inodes, due, i);
      Stored(disk0, disk, geo.per, inodes, live, owned0, due, owned, i, vi.Value(), Due(due, i));
      inodes := inodes[i := vi.Value()];
    }

    /** An operation on a directory gives up without write_inode, and the copy of the inode it worked on is gone; but
        its block map had not changed, so the blocks it linked in stay, and i_blocks does not count them. */
    ghost method AbandonLinked(i: nat, rest: multiset<nat>, disk0: seq<Block>, owned0: set<nat>, more: nat, due': Dues)
      requires Alloc() && |inodes| == geo.inodesCount && i in live && inodes[i].isDir &&
          due' == SetDue(due, i, Due(due, i) + more)
      requires Balanced(disk0, geo.per, inodes, live, owned0, due) && rest == Others(disk0, geo.per, inodes, live, i)
      requires Holds(disk, geo.per, inodes[i].iblock, rest, owned) && |owned| == |owned0| + more
      requires forall y :: y in rest ==> Blk(disk, y) == Blk(disk0, y)
      modifies `due
      ensures Valid() && OthersKept(disk0, inodes, disk, inodes, geo.per, live, i)
      ensures due == due'
    {
      Unbilled(disk0, disk, geo.per, inodes, live, owned0, due, owned, due', i, more, Due(due, i) + more);
      due := due';
    }

    /** Blocks that are no longer owned count among those nothing leads to. */
    lemma LostApart(owned0: set<nat>, meta': set<nat>)
      requires Alloc() && owned0 <= owned && meta' == meta + (owned - owned0)
      ensures Marks(blockPool, geo.blocksCount - geo.firstData, geo.bpg, geo.firstData, owned0, meta')
      ensures forall b {:trigger b in owned0} :: b in owned0 ==>
          geo.firstData <= b < geo.blocksCount && b !in meta' && b != 0
      ensures geo.firstData == 0 ==> 0 in meta'
    {
      MarksMoved(blockPool, geo.blocksCount - geo.firstData, geo.bpg, geo.firstData, owned, meta, owned0, meta');
      Parted(owned, owned0, meta, meta');
    }

    /** The same, when only the lost copy led to the blocks taken: they stay marked and nothing leads to them. */
    ghost method AbandonLost(i: nat, disk0: seq<Block>, owned0: set<nat>, meta': set<nat>)
      requires Alloc() && |inodes| == geo.inodesCount && i in live && owned0 <= owned
      requires Balanced(disk0, geo.per, inodes, live, owned0, due)
      requires forall x :: x in owned0 ==> Blk(disk, x) == Blk(disk0, x)
      requires meta' == meta + (owned - owned0)
      modifies `owned, `meta
      ensures Valid() && OthersKept(disk0, inodes, disk, inodes, geo.per, live, i)
      ensures owned == owned0 && meta == meta' && Kept(disk0, disk, geo.per, inodes[i].iblock)
    {
      LostApart(owned0, meta');
      Unreached(disk0, disk, geo.per, inodes, live, owned0, due, i);
      meta := meta';
      owned := owned0;
    }

    /** ext2_write. Within the reach of the 32-bit block index, the file's bytes change exactly on the
        range written, whether the write is full or cut short, and no other file changes at all. The
        size follows a full write only; a short write means there is no block left for it. */
    method Write(i: nat, buf: Block, off: nat) returns (r: IoResult, done: nat)
      requires Valid() && i in live
      modifies `disk, `blockPool, `owned, `inodes
      ensures Valid() && done <= |buf|
      ensures r == if done == 0 < |buf| then NoSpace else Done(done)
      ensures off + |buf| <= U32 * (4 * geo.per) ==>
                Wrote(old(disk), old(inodes)[i].iblock, disk, inodes[i].iblock, geo.per, off, buf, done)
      ensures OthersKept(old(disk), old(inodes), disk, inodes, geo.per, live, i)
      ensures inodes[i].isDir == old(inodes)[i].isDir && inodes[i].links == old(inodes)[i].links
      ensures inodes[i].size == if done == |buf| && off + |buf| > old(inodes)[i].size then (off + |buf|) % U32
          else old(inodes)[i].size
      ensures done < |buf| ==> NoRoom(geo, owned, meta, off + done)
      ensures meta == old(meta) && due == old(due) && live == old(live)
    {
      var vi;
      ghost var rest;
      vi, rest := Load(i);
      done := WriteLoop(vi, buf, off, rest);
      if done == |buf| && off + |buf| > vi.size { vi.size := (off + |buf|) % U32; }
      Store(i, vi, rest, old(disk), old(owned));
      r := if done == |buf| || done > 0 then Done(done) else NoSpace;
    }

    /** ext2_write's loop over the blocks. */
    method WriteLoop(vi: Vinfo, buf: Block, off: nat, ghost rest: multiset<nat>) returns (done: nat)
      requires Alloc() && vi.Counted() && Holds(disk, geo.per, vi.iblock, rest, owned)
      modifies `disk, `blockPool, `owned, vi`iblock, vi`blocks, vi`held
      ensures Alloc() && vi.Counted() && vi.held - old(vi.held) == |owned| - old(|owned|)
      ensures Holds(disk, geo.per, vi.iblock, rest, owned)
      ensures forall y :: y in rest ==> Blk(disk, y) == old(Blk(disk, y))
      ensures done <= |buf|
      ensures off + |buf| <= U32 * (4 * geo.per) ==>
          Wrote(old(disk), old(vi.iblock), disk, vi.iblock, geo.per, off, buf, done)
      ensures done < |buf| ==> NoRoom(geo, owned, meta, off + done)
      ensures inodes == old(inodes) && live == old(live) && meta == old(meta) && due == old(due)
    {
      done := 0;
      while done < |buf|
        invariant done <= |buf|
        invariant Alloc() && vi.Counted() && vi.held - old(vi.held) == |owned| - old(|owned|)
        invariant Holds(disk, geo.per, vi.iblock, rest, owned)
        invariant forall y :: y in rest ==> Blk(disk, y) == old(Blk(disk, y))
        invariant off + |buf| <= U32 * (4 * geo.per) ==>
            Wrote(old(disk), old(vi.iblock), disk, vi.iblock, geo.per, off, buf, done)
      {
        var next := WriteNext(vi, buf, off, done, rest, old(disk), old(vi.iblock));
        if next == done { return; }
        done := next;
      }
    }

    /** One round of that loop, after `done` bytes. */
    method WriteNext(vi: Vinfo, buf: Block, off: nat, done: nat, ghost rest: multiset<nat>, ghost d0: seq<Block>,
        ghost ib0: seq<nat>) returns (next: nat)
      requires Alloc() && vi.Counted() && Holds(disk, geo.per, vi.iblock, rest, owned) && done < |buf|
      requires |ib0| == NSLOTS && forall y :: y in rest ==> Blk(disk, y) == Blk(d0, y)
      requires off + |buf| <= U32 * (4 * geo.per) ==> Wrote(d0, ib0, disk, vi.iblock, geo.per, off, buf, done)
      modifies `disk, `blockPool, `owned, vi`iblock, vi`blocks, vi`held
      ensures Alloc() && vi.Counted() && vi.held - old(vi.held) == |owned| - old(|owned|)
      ensures Holds(disk, geo.per, vi.iblock, rest, owned)
      ensures forall y :: y in rest ==> Blk(disk, y) == Blk(d0, y)
      ensures done <= next <= |buf|
      ensures off + |buf| <= U32 * (4 * geo.per) ==> Wrote(d0, ib0, disk, vi.iblock, geo.per, off, buf, next)
      ensures next == done ==> NoRoom(geo, owned, meta, off + done)
      ensures inodes == old(inodes) && live == old(live) && meta == old(meta) && due == old(due)
    {
      var chunk := WriteStep(vi, buf[done..], off + done, rest);
      next := done + chunk;
      if off + |buf| <= U32 * (4 * geo.per) {
        WroteMore(d0, ib0, old(disk), old(vi.iblock), disk, vi.iblock, geo.per, off, buf, done, chunk);
      }
    }

    /** One round of that loop at `fpos` with `buf` left to write; 0 means there was no block to be had. */
    method WriteStep(vi: Vinfo, buf: Block, fpos: nat, ghost rest: multiset<nat>) returns (chunk: nat)
      requires Alloc() && vi.Counted() && Holds(disk, geo.per, vi.iblock, rest, owned) && |buf| > 0
      modifies `disk, `blockPool, `owned, vi`iblock, vi`blocks, vi`held
      ensures Alloc() && vi.Counted() && vi.held - old(vi.held) == |owned| - old(|owned|)
      ensures Holds(disk, geo.per, vi.iblock, rest, owned)
      ensures forall y :: y in rest ==> Blk(disk, y) == old(Blk(disk, y))
      ensures chunk <= |buf|
      ensures fpos + |buf| <= U32 * (4 * geo.per) ==>
          Wrote(old(disk), old(vi.iblock), disk, vi.iblock, geo.per, fpos, buf, chunk)
      ensures chunk == 0 ==> NoRoom(geo, owned, meta, fpos)
      ensures inodes == old(inodes) && live == old(live) && meta == old(meta) && due == old(due)
    {
      var fblk, boff := Fblk(geo.per, fpos), BitAt(4 * geo.per, fpos);
      chunk := 4 * geo.per - boff;
      if chunk > |buf| { chunk := |buf|; }
      var ok := WriteChunk(vi, fblk, boff, buf[..chunk], rest);
      if !ok {
        return 0;
      }
      if fpos + |buf| <= U32 * (4 * geo.per) {
        FblkExact(geo.per, fpos);
        WroteChunk(old(disk), old(vi.iblock), disk, vi.iblock, geo.per, fpos, buf[..chunk], chunk);
      }
    }

    /** ext2_read: the bytes of the file from `off` on, `n` of them or what the size leaves, holes
        reading as zero. */
    method Read(i: nat, off: nat, n: nat) returns (buf: Block)
      requires Valid() && i in live
      ensures |buf| == if off >= inodes[i].size then 0 else if off + n > inodes[i].size then inodes[i].size - off else n
      ensures BytesAt(disk, geo.per, inodes[i].iblock, off, buf)
    {
      SizeBelow(disk, geo.per, inodes, live, owned, due, i);
      var size, m := inodes[i].size, n;
      if off >= size {
        return [];
      }
      if off + n > size { m := size - off; }
      buf := ReadInside(i, off, m);
    }

    method ReadInside(i: nat, off: nat, n: nat) returns (buf: Block)
      requires Valid() && i in live && off + n < U32
      ensures |buf| == n && BytesAt(disk, geo.per, inodes[i].iblock, off, buf)
    {
      Loaded(disk, geo.per, inodes, live, owned, due, i);
      buf := ReadLoop(inodes[i].iblock, off, n, Others(disk, geo.per, inodes, live, i));
    }

    /** ext2_read's loop over the blocks. */
    method ReadLoop(ib: seq<nat>, off: nat, n: nat, ghost rest: multiset<nat>) returns (buf: Block)
      requires Alloc() && Holds(disk, geo.per, ib, rest, owned) && off + n < U32
      ensures buf == Range(disk, geo.per, ib, off, off + n)
    {
      var per := geo.per;
      buf := [];
      var fpos := off;
      while fpos < off + n
        invariant off <= fpos <= off + n && buf == Range(disk, per, ib, off, fpos)
      {
        var piece := ReadChunk(ib, off, fpos, off + n - fpos, rest);
        buf := buf + piece;
        fpos := fpos + |piece|;
      }
    }

    /** One turn of that loop: what block `fpos` lies in holds from there on, `left` bytes at most. */
    method ReadChunk(ib: seq<nat>, ghost off: nat, fpos: nat, left: nat, ghost rest: multiset<nat>)
        returns (piece: Block)
      requires Alloc() && Holds(disk, geo.per, ib, rest, owned) && off <= fpos < U32 && left > 0
      ensures 0 < |piece| <= left
      ensures Range(disk, geo.per, ib, off, fpos + |piece|) == Range(disk, geo.per, ib, off, fpos) + piece
    {
      var per := geo.per;
      FblkExact(per, fpos);
      var fblk, boff := Fblk(per, fpos), BitAt(4 * per, fpos);
      var chunk := 4 * per - boff;
      if chunk > left { chunk := left; }
      MapBlockIsMap(disk, per, ib, fblk);
      var x := MapBlock(disk, per, ib, fblk);
      if x != 0 { DataBlock(disk, per, ib, fblk, rest, owned); }
      piece := if x == 0 then Zeros(chunk) else disk[x][boff..boff + chunk];
      PieceRead(disk, per, ib, off, fpos, chunk, x, boff, piece);
    }

    /** ext2_truncate: a shorter length gives up every block past the one that holds the last byte kept;
        that block stays as it is, so bytes beyond `len` in it still read back. */
    method Truncate(i: nat, len: nat)
      requires Valid() && i in live
      modifies `disk, `blockPool, `owned, `inodes
      ensures Valid() && OthersKept(old(disk), old(inodes), disk, inodes, geo.per, live, i)
      ensures inodes[i].isDir == old(inodes)[i].isDir && inodes[i].links == old(inodes)[i].links
      ensures inodes[i].size == len % U32
      ensures len < old(inodes)[i].size ==>
          CutAt(old(disk), old(inodes)[i].iblock, disk, inodes[i].iblock, geo.per, GroupsFor(len, 4 * geo.per))
      ensures len >= old(inodes)[i].size ==> disk == old(disk) && inodes[i].iblock == old(inodes)[i].iblock
      ensures KeepsBelow(old(disk), old(inodes)[i].iblock, disk, inodes[i].iblock, geo.per, len)
      ensures meta == old(meta) && due == old(due) && live == old(live)
    {
      var vi;
      ghost var rest;
      vi, rest := Load(i);
      if len < vi.size { CutTo(vi, len, rest); }
      vi.size := len % U32;
      Store(i, vi, rest, old(disk), old(owned));
    }

    /** The blocks past the one that holds byte `len - 1` given up. */
    method CutTo(vi: Vinfo, len: nat, ghost rest: multiset<nat>)
      requires Alloc() && vi.Counted() && Holds(disk, geo.per, vi.iblock, rest, owned)
      modifies `disk, `blockPool, `owned, vi`iblock, vi`blocks, vi`held
      ensures Alloc() && vi.Counted() && vi.held - old(vi.held) == |owned| - old(|owned|)
      ensures Holds(disk, geo.per, vi.iblock, rest, owned) && forall y :: y in rest ==>
          Blk(disk, y) == Blk(old(disk), y)
      ensures CutAt(old(disk), old(vi.iblock), disk, vi.iblock, geo.per, GroupsFor(len, 4 * geo.per))
      ensures KeepsBelow(old(disk), old(vi.iblock), disk, vi.iblock, geo.per, len)
      ensures inodes == old(inodes) && live == old(live) && meta == old(meta) && due == old(due)
    {
      var keep := GroupsFor(len, 4 * geo.per);
      FreeFrom(vi, keep, rest);
      Trimmed15(old(disk), disk, geo.per, old(vi.iblock), vi.iblock, keep, rest, old(owned), owned);
      CutBelow(old(disk), old(vi.iblock), disk, vi.iblock, geo.per, len);
    }

    // ---------------------------------------------------------- inodes

    /** alloc_inode: a free inode number, or 0 only when all are in use. */
    method AllocInode() returns (ino: nat)
      requires Alloc()
      modifies `inodePool, `live
      ensures Alloc()
      ensures ino == 0 <==> old(inodePool.sb) == 0
      ensures ino == 0 ==> live == old(live) && forall x :: 0 <= x < geo.inodesCount ==> x in live
      ensures ino != 0 ==> ino <= geo.inodesCount && ino - 1 !in old(live) && live == old(live) + {ino - 1}
      ensures meta == old(meta) && due == old(due) && inodes == old(inodes) && disk == old(disk) &&
          owned == old(owned) && blockPool == old(blockPool)
    {
      var n, c := geo.inodesCount, geo.ipg;
      for g := 0 to |inodePool.maps|
        invariant Alloc() && inodePool == old(inodePool) && live == old(live)
        invariant forall h :: 0 <= h < g ==> GroupFull(inodePool, n, c, h)
      {
        var bit := Bitmap.FirstClear(inodePool.maps[g], c);
        if bit >= 0 {
          StartIsProduct(c, g);
          ino := g * c + bit + 1;
          if ino > n {
            MarkBeyond(inodePool, n, c, 0, live, {}, g, bit);
            AllInodesLive(g, bit);
            inodePool := inodePool.(maps := inodePool.maps[g := Bitmap.Mark(inodePool.maps[g], bit)]);
            return 0;
          }
          TakeInode(g, bit, ino - 1);
          return;
        }
      }
      forall x | 0 <= x < n ensures x in live {
        FullMarks(inodePool, n, c, 0, live, {}, x);
      }
      FullCount(inodePool, n, c);
      ino := 0;
    }

    /** The bit set and the counters adjusted. */
    method TakeInode(g: nat, bit: nat, x: nat)
      requires Alloc() && g < |inodePool.maps| && bit < Share(geo.inodesCount, geo.ipg, g) &&
          !Bitmap.Set(inodePool.maps[g], bit)
      requires x == Start(geo.ipg, g) + bit
      modifies `inodePool, `live
      ensures Alloc() && x < geo.inodesCount && x !in old(live) && live == old(live) + {x} && old(inodePool.sb) > 0
      ensures meta == old(meta) && due == old(due) && inodes == old(inodes) && disk == old(disk) &&
          owned == old(owned) && blockPool == old(blockPool)
    {
      TakeMarks(inodePool, geo.inodesCount, geo.ipg, 0, live, {}, g, bit);
      inodePool := inodePool.(maps := inodePool.maps[g := Bitmap.Mark(inodePool.maps[g], bit)]);
      inodePool := Adjusted(inodePool, g, false);
      live := live + {x};
      assert inodePool == Take(old(inodePool), g, bit);
    }

    lemma AllInodesLive(g: nat, bit: nat)
      requires Alloc() && g < |inodePool.maps| && bit < geo.ipg && Start(geo.ipg, g) + bit >= geo.inodesCount
      requires forall h :: 0 <= h < g ==> GroupFull(inodePool, geo.inodesCount, geo.ipg, h)
      requires forall j :: 0 <= j < bit ==> Bitmap.Set(inodePool.maps[g], j)
      ensures inodePool.sb == 0 && forall x :: 0 <= x < geo.inodesCount ==> x in live
    {
      var n, c := geo.inodesCount, geo.ipg;
      forall h | 0 <= h < |inodePool.maps| ensures GroupFull(inodePool, n, c, h) {
        if h > g { LaterGroupsEmpty(inodePool, n, c, g, h); }
      }
      FullCount(inodePool, n, c);
      forall x | 0 <= x < n ensures x in live {
        FullMarks(inodePool, n, c, 0, live, {}, x);
      }
    }

    method FreeInodeNum(ino: nat)
      requires Alloc() && ino > 0 && ino - 1 in live
      modifies `inodePool, `live
      ensures Alloc() && live == old(live) - {ino - 1}
      ensures meta == old(meta) && due == old(due) && inodes == old(inodes) && disk == old(disk) &&
          owned == old(owned) && blockPool == old(blockPool)
    {
      var g, bit := (ino - 1) / geo.ipg, (ino - 1) % geo.ipg;
      AtIsDivMod(geo.ipg, ino - 1);
      GiveMarks(inodePool, geo.inodesCount, geo.ipg, 0, live, {}, ino - 1);
      inodePool := inodePool.(maps := inodePool.maps[g := Bitmap.Clear(inodePool.maps[g], bit)]);
      inodePool := Adjusted(inodePool, g, true);
      live := live - {ino - 1};
      assert inodePool == Give(old(inodePool), g, bit);
    }

    /** ext2_create's new regular file, before it has a name. */
    method NewFile() returns (ino: nat, ghost x: nat)
      requires Valid()
      modifies `inodePool, `live, `inodes
      ensures Valid()
      ensures (ino == 0 <==> old(inodePool.sb) == 0) && (ino == 0 ==> inodes == old(inodes) && live == old(live))
      ensures ino != 0 ==> ino == x + 1 && x < |inodes| && x !in old(live) && live == old(live) + {x}
      ensures ino != 0 ==> inodes == old(inodes)[x := Inode(false, 0, 1, 0, NoBlocks())]
      ensures disk == old(disk) && blockPool == old(blockPool) && meta == old(meta) && due == old(due)
    {
      ino := AllocInode();
      x := 0;
      if ino != 0 {
        var node := Inode(false, 0, 1, 0, NoBlocks());
        x := ino - 1;
        FreshNode(disk, geo.per, inodes, old(live), owned, due, x, node);
        inodes := inodes[ino - 1 := node];
      }
    }

    /** The end of an inode: all its blocks and its number are given back. */
    method Release(i: nat)
      requires Valid() && i in live
      modifies `disk, `blockPool, `owned, `inodePool, `live, `due
      ensures Valid() && live == old(live) - {i} && owned <= old(owned) && due == old(due) - {i}
      ensures OthersKept(old(disk), inodes, disk, inodes, geo.per, live, i)
      ensures meta == old(meta) && inodes == old(inodes)
    {
      var vi;
      ghost var rest;
      vi, rest := Load(i);
      FreeFrom(vi, 0, rest);
      AllTrimmed(old(disk), disk, geo.per, inodes[i].iblock, vi.iblock, rest, old(owned), owned);
      FreeInodeNum(i + 1);
      due := due - {i};
      Dropped(old(disk), disk, geo.per, inodes, old(live), old(owned), old(due), owned, i);
    }

    /** write_inode after a change of the link count. */
    method Relink(i: nat, node: Inode)
      requires Valid() && i in live && Alike(inodes[i], node)
      modifies `inodes
      ensures Valid() && inodes == old(inodes)[i := node]
      ensures disk == old(disk) && live == old(live) && meta == old(meta) && due == old(due)
    {
      BalancedLinks(disk, geo.per, inodes, live, owned, due, i, node);
      inodes := inodes[i := node];
    }

    /** The inode's bit in the bitmap. */
    method InUse(i: nat) returns (b: bool)
      requires Valid()
      ensures b <==> i in live
    {
      if i >= geo.inodesCount { return false; }
      AtIsDivMod(geo.ipg, i);
      Located(geo.inodesCount, geo.ipg, |inodePool.maps|, i);
      assert Taken(inodePool, geo.inodesCount, geo.ipg, i) <==> i in live;
      b := Bitmap.Set(inodePool.maps[i / geo.ipg], i % geo.ipg);
    }
  }
}
