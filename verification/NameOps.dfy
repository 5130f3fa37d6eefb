/** Creating and removing files and directories on a volume, and every run of operations
    (kernel/fs/ext2.c, ext2_create and ext2_unlink, under the lookups of kernel/fs/vfs.c). */
module NameOps {
  import opened Bytes
  import opened Chunks
  import opened BlockTree
  import opened Files
  import opened DirBlock
  import opened Namespace
  import opened Dotted
  import opened Directory
  import opened DirOps
  import opened V = Volume

  /** What every inode gives a name to: its entries if it is a directory in use. */
  ghost function NamesOf(d: seq<Block>, per: nat, nodes: seq<Inode>, live: set<nat>): (r: seq<seq<Entry>>)
    requires per > 0 && Shaped15(nodes)
    ensures |r| == |nodes|
    ensures forall i {:trigger r[i]} :: 0 <= i < |r| ==>
        r[i] == if i in live && nodes[i].isDir then ListOf(d, per, nodes[i]) else []
  {
    seq(|nodes|, i requires 0 <= i < |nodes| => if i in live && nodes[i].isDir then ListOf(d, per, nodes[i]) else [])
  }

  /** How many names an inode may have: one if it is a directory, as many as its links if it is a file. */
  ghost function QuotaOf(node: Inode): nat {
    if node.isDir then 1 else node.links
  }

  ghost function Quotas(nodes: seq<Inode>): (r: seq<nat>)
    ensures |r| == |nodes| && forall i {:trigger r[i]} :: 0 <= i < |r| ==> r[i] == QuotaOf(nodes[i])
  {
    seq(|nodes|, i requires 0 <= i < |nodes| => QuotaOf(nodes[i]))
  }

  /** Inode `i`, if it is a directory in use, is in order. */
  ghost predicate TidyAt(d: seq<Block>, per: nat, nodes: seq<Inode>, live: set<nat>, i: nat)
    requires per > 0 && Shaped15(nodes)
  {
    i in live && i < |nodes| && nodes[i].isDir ==> IsDir(d, per, nodes[i].iblock, NBlocks(per, nodes[i]))
  }

  ghost predicate Tidy(d: seq<Block>, per: nat, nodes: seq<Inode>, live: set<nat>)
    requires per > 0 && Shaped15(nodes)
  {
    forall i: nat {:trigger TidyAt(d, per, nodes, live, i)} :: TidyAt(d, per, nodes, live, i)
  }

  /** Directory blocks are tilings by records, no directory has a name twice, no name stands for a free inode
      and no inode has more names than links. */
  ghost predicate Clean(d: seq<Block>, per: nat, nodes: seq<Inode>, live: set<nat>) {
    per > 0 && Shaped15(nodes) && Tidy(d, per, nodes, live) && Linked(NamesOf(d, per, nodes, live), Quotas(nodes), live)
  }

  /** The invariant of the mounted volume: blocks and inodes are accounted for exactly, and so are names. */
  ghost predicate Consistent(v: Volume)
    reads v
  {
    v.Valid() && Clean(v.disk, v.geo.per, v.inodes, v.live)
  }

  ghost function Names(v: Volume): seq<seq<Entry>>
    requires v.Valid()
    reads v
  {
    NamesOf(v.disk, v.geo.per, v.inodes, v.live)
  }

  /** A change of one inode alone changes the names of that inode alone. */
  lemma OneDir(d0: seq<Block>, nodes0: seq<Inode>, d: seq<Block>, nodes: seq<Inode>, per: nat, live: set<nat>, i: nat)
    requires per > 0 && Shaped15(nodes0) && Shaped15(nodes) && |nodes| == |nodes0| && i < |nodes|
    requires OthersKept(d0, nodes0, d, nodes, per, live, i) && Tidy(d0, per, nodes0, live)
    requires i in live && nodes[i].isDir ==> IsDir(d, per, nodes[i].iblock, NBlocks(per, nodes[i]))
    ensures Tidy(d, per, nodes, live)
    ensures NamesOf(d, per, nodes, live) == NamesOf(d0, per, nodes0, live)[i := NamesOf(d, per, nodes, live)[i]]
  {
    var r, r0 := NamesOf(d, per, nodes, live), NamesOf(d0, per, nodes0, live);
    forall j: nat | j < |nodes| && j != i ensures TidyAt(d, per, nodes, live, j) && r[j] == r0[j] {
      assert TidyAt(d0, per, nodes0, live, j) && Steady(d0, d, per, nodes0, live, j) && nodes[j] == nodes0[j];
      if j in live && nodes[j].isDir {
        ListingKept(d0, d, per, nodes[j].iblock, NBlocks(per, nodes[j]));
      }
    }
  }

  // ------------------------------------------------------------ reading and writing files

  /** A change of one file's blocks, size or map is no change to names and links. */
  lemma FileChanged(d0: seq<Block>, nodes0: seq<Inode>, d: seq<Block>, nodes: seq<Inode>, per: nat, live: set<nat>,
      i: nat)
    requires per > 0 && Shaped15(nodes0) && Shaped15(nodes) && |nodes| == |nodes0| && i < |nodes|
    requires OthersKept(d0, nodes0, d, nodes, per, live, i) && Tidy(d0, per, nodes0, live)
    requires !nodes[i].isDir && !nodes0[i].isDir && nodes[i].links == nodes0[i].links
    ensures Tidy(d, per, nodes, live) && NamesOf(d, per, nodes, live) == NamesOf(d0, per, nodes0, live) &&
        Quotas(nodes) == Quotas(nodes0)
  {
    OneDir(d0, nodes0, d, nodes, per, live, i);
    assert NamesOf(d0, per, nodes0, live)[i] == [] == NamesOf(d, per, nodes, live)[i];
    assert Quotas(nodes) == Quotas(nodes0);
  }

  /** ext2_write on a file keeps everything about names. */
  method WriteFile(v: Volume, i: nat, buf: Block, off: nat) returns (r: IoResult, done: nat)
    requires Consistent(v) && i in v.live && !v.inodes[i].isDir
    modifies v`disk, v`blockPool, v`owned, v`inodes
    ensures Consistent(v) && !v.inodes[i].isDir && Names(v) == old(Names(v))
    ensures done <= |buf| && r == if done == 0 < |buf| then NoSpace else Done(done)
    ensures v.inodes[i].size == if done == |buf| && off + |buf| > old(v.inodes)[i].size then (off + |buf|) % U32
        else old(v.inodes)[i].size
    ensures done < |buf| ==> NoRoom(v.geo, v.owned, v.meta, off + done)
    ensures off + |buf| <= U32 * (4 * v.geo.per) ==>
              Wrote(old(v.disk), old(v.inodes)[i].iblock, v.disk, v.inodes[i].iblock, v.geo.per, off, buf, done)
    ensures OthersKept(old(v.disk), old(v.inodes), v.disk, v.inodes, v.geo.per, v.live, i)
    ensures v.meta == old(v.meta) && v.due == old(v.due)
  {
    r, done := v.Write(i, buf, off);
    FileChanged(old(v.disk), old(v.inodes), v.disk, v.inodes, v.geo.per, v.live, i);
  }

  method TruncateFile(v: Volume, i: nat, len: nat)
    requires Consistent(v) && i in v.live && !v.inodes[i].isDir
    modifies v`disk, v`blockPool, v`owned, v`inodes
    ensures Consistent(v) && !v.inodes[i].isDir && Names(v) == old(Names(v))
    ensures OthersKept(old(v.disk), old(v.inodes), v.disk, v.inodes, v.geo.per, v.live, i) &&
        v.inodes[i].size == len % U32
    ensures len < old(v.inodes)[i].size ==>
              CutAt(old(v.disk), old(v.inodes)[i].iblock, v.disk, v.inodes[i].iblock, v.geo.per,
                  GroupsFor(len, 4 * v.geo.per))
    ensures len >= old(v.inodes)[i].size ==> v.disk == old(v.disk) && v.inodes[i].iblock == old(v.inodes)[i].iblock
    ensures KeepsBelow(old(v.disk), old(v.inodes)[i].iblock, v.disk, v.inodes[i].iblock, v.geo.per, len)
    ensures v.meta == old(v.meta) && v.due == old(v.due)
  {
    v.Truncate(i, len);
    FileChanged(old(v.disk), old(v.inodes), v.disk, v.inodes, v.geo.per, v.live, i);
  }

  // ------------------------------------------------------------ creating

  /** A name the VFS passes down: a path component, neither "." nor "..". */
  predicate Component(name: Block) {
    0 < |name| < 256 && !Dots(name)
  }

  /** A file more in use adds no names. */
  lemma NoNamesMore(d: seq<Block>, per: nat, nodes: seq<Inode>, live: set<nat>, x: nat, node: Inode)
    requires per > 0 && x < |nodes| && Shaped15(nodes) && Shaped15(nodes[x := node]) && !node.isDir && x !in live
    ensures NamesOf(d, per, nodes[x := node], live + {x}) == NamesOf(d, per, nodes, live) ==
        NamesOf(d, per, nodes, live)[x := []]
  {
    var r, s := NamesOf(d, per, nodes[x := node], live + {x}), NamesOf(d, per, nodes, live);
    forall j | 0 <= j < |nodes| ensures r[j] == s[j] {
    }
  }

  /** Taking an inode into use leaves every directory in order if the new one is. */
  lemma TidyMore(d: seq<Block>, per: nat, nodes: seq<Inode>, live: set<nat>, x: nat, node: Inode)
    requires per > 0 && x < |nodes| && Shaped15(nodes) && |node.iblock| == NSLOTS && Shaped15(nodes[x := node]) &&
        Tidy(d, per, nodes, live)
    requires node.isDir ==> IsDir(d, per, node.iblock, NBlocks(per, node))
    ensures Tidy(d, per, nodes[x := node], live + {x})
  {
    var nodes', live' := nodes[x := node], live + {x};
    forall i: nat ensures TidyAt(d, per, nodes', live', i) {
      assert TidyAt(d, per, nodes, live, i);
    }
  }

  /** An inode taken into use as a file without a name. */
  lemma NewNode(d: seq<Block>, per: nat, nodes: seq<Inode>, live: set<nat>, x: nat, node: Inode)
    requires per > 0 && Shaped15(nodes) && |node.iblock| == NSLOTS && !node.isDir && x < |nodes| && x !in live
    requires Tidy(d, per, nodes, live) && Linked(NamesOf(d, per, nodes, live), Quotas(nodes), live)
    ensures Shaped15(nodes[x := node]) && Tidy(d, per, nodes[x := node], live + {x})
    ensures NamesOf(d, per, nodes[x := node], live + {x}) == NamesOf(d, per, nodes, live)
    ensures Linked(NamesOf(d, per, nodes, live), Quotas(nodes[x := node]), live + {x}) &&
        Refs(NamesOf(d, per, nodes, live), x + 1) == 0
  {
    NoNamesMore(d, per, nodes, live, x, node);
    TidyMore(d, per, nodes, live, x, node);
    QuotasSet(nodes, x, node);
    LinkedNew(NamesOf(d, per, nodes, live), Quotas(nodes), live, x, [], QuotaOf(node));
  }

  /** dir_add_entry on a consistent volume, for an inode that may have one more name. */
  method AddName(v: Volume, i: nat, e: Entry, ghost x: nat, ghost c: Cost) returns (ok: bool)
    requires Consistent(v) && i in v.live && v.inodes[i].isDir && v.inodes[i].size + v.geo.Bs() < U32
    requires Component(e.name) && Absent(Names(v)[i], e.name)
    requires e.ino == x + 1 && x in v.live && Refs(Names(v), x + 1) < QuotaOf(v.inodes[x])
    requires c == CostOf(v.disk, v.geo.per, v.inodes[i], e.name, v.blockPool.sb)
    modifies v`disk, v`blockPool, v`owned, v`inodes, v`meta, v`due
    ensures Consistent(v) && OthersKept(old(v.disk), old(v.inodes), v.disk, v.inodes, v.geo.per, v.live, i) &&
        v.inodes[i].isDir
    ensures v.inodes[i].links == old(v.inodes)[i].links
    ensures Names(v) == old(Names(v))[i := Names(v)[i]]
    ensures Adds(old(Names(v)[i]), Names(v)[i], e, ok) && (!ok ==> v.inodes == old(v.inodes))
    ensures ok == c.room && Paid(old(v.meta), old(v.due), v.meta, v.due, i, c)
    ensures v.live == old(v.live)
  {
    assert TidyAt(v.disk, v.geo.per, v.inodes, v.live, i);
    ok := AddEntry(v, i, e);
    NameAdded(old(v.disk), old(v.inodes), v.disk, v.inodes, v.geo.per, v.live, i, e, x, ok);
  }

  lemma NameAdded(d0: seq<Block>, nodes0: seq<Inode>, d: seq<Block>, nodes: seq<Inode>, per: nat, live: set<nat>,
      i: nat, e: Entry, x: nat, ok: bool)
    requires per > 0 && Shaped15(nodes0) && Shaped15(nodes) && |nodes| == |nodes0| && i < |nodes| && i in live
    requires OthersKept(d0, nodes0, d, nodes, per, live, i) && Tidy(d0, per, nodes0, live)
    requires nodes[i].isDir && nodes0[i].isDir && IsDir(d, per, nodes[i].iblock, NBlocks(per, nodes[i]))
    requires Linked(NamesOf(d0, per, nodes0, live), Quotas(nodes0), live) && Absent(ListOf(d0, per, nodes0[i]), e.name)
    requires e.ino == x + 1 && x < |nodes| && x in live &&
        Refs(NamesOf(d0, per, nodes0, live), x + 1) < QuotaOf(nodes0[x])
    requires if ok then Inserted(ListOf(d0, per, nodes0[i]), ListOf(d, per, nodes[i]), e)
        else ListOf(d, per, nodes[i]) == ListOf(d0, per, nodes0[i])
    ensures Tidy(d, per, nodes, live) && Linked(NamesOf(d, per, nodes, live), Quotas(nodes), live)
    ensures NamesOf(d, per, nodes, live) == NamesOf(d0, per, nodes0, live)[i := ListOf(d, per, nodes[i])]
  {
    OneDir(d0, nodes0, d, nodes, per, live, i);
    var r0 := NamesOf(d0, per, nodes0, live);
    assert Quotas(nodes) == Quotas(nodes0);
    if ok {
      LinkedAdd(r0, Quotas(nodes0), live, i, ListOf(d, per, nodes[i]), e, x);
    } else {
      assert r0[i := r0[i]] == r0;
    }
  }

  /** Inode `x` has just been taken into use and is to get the name of `e` in directory `i`. */
  ghost predicate Ready(d: seq<Block>, per: nat, nodes: seq<Inode>, live: set<nat>, i: nat, e: Entry, x: nat,
      nodes0: seq<Inode>, live0: set<nat>) {
    && per > 0 && Shaped15(nodes) && Shaped15(nodes0) && |nodes| == |nodes0| && x < |nodes| && i < |nodes|
    && i in live0 && i in live && x in live && x !in live0 && live == live0 + {x} && nodes == nodes0[x := nodes[x]]
    && nodes[i].isDir && nodes[i].size + 4 * per < U32 && Component(e.name) &&
        Absent(NamesOf(d, per, nodes, live)[i], e.name)
    && e.ino == x + 1 && Refs(NamesOf(d, per, nodes, live), x + 1) < QuotaOf(nodes[x])
  }

  /** alloc_inode and the write of the empty inode, for a file. */
  method TakeInode(v: Volume, ghost i: nat, ghost name: Block) returns (ino: nat, ghost x: nat)
    requires Consistent(v) && i in v.live && v.inodes[i].isDir && v.inodes[i].size + v.geo.Bs() < U32
    requires Component(name) && Absent(Names(v)[i], name)
    modifies v`inodePool, v`live, v`inodes
    ensures Consistent(v) && Names(v) == old(Names(v)) && (ino == 0 <==> old(v.inodePool.sb) == 0)
    ensures ino == 0 ==> v.live == old(v.live) && v.inodes == old(v.inodes)
    ensures ino != 0 ==>
        ino == x + 1 &&
        Ready(v.disk, v.geo.per, v.inodes, v.live, i, Entry(name, ino, 1), x, old(v.inodes), old(v.live))
    ensures ino != 0 ==> v.inodes[x] == Inode(false, 0, 1, 0, NoBlocks())
    ensures v.disk == old(v.disk) && v.blockPool == old(v.blockPool) && v.meta == old(v.meta) && v.due == old(v.due)
  {
    ino, x := v.NewFile();
    if ino != 0 {
      NewNode(v.disk, v.geo.per, old(v.inodes), old(v.live), x, v.inodes[x]);
    }
  }

  /** The inodes in `live`, `i` aside, are as they were, blocks and all. */
  ghost predicate Undisturbed(d0: seq<Block>, nodes0: seq<Inode>, d: seq<Block>, nodes: seq<Inode>, per: nat,
      live: set<nat>, i: nat) {
    && per > 0 && |nodes| == |nodes0| && Shaped15(nodes0)
    && forall j: nat {:trigger Steady(d0, d, per, nodes0, live, j)} :: j in live && j < |nodes| && j != i ==>
        nodes[j] == nodes0[j] && Steady(d0, d, per, nodes0, live, j)
  }

  lemma UndisturbedSelf(d: seq<Block>, nodes: seq<Inode>, per: nat, live: set<nat>, i: nat)
    requires per > 0 && Shaped15(nodes)
    ensures Undisturbed(d, nodes, d, nodes, per, live, i)
  {
  }

  lemma UndisturbedBy(d0: seq<Block>, nodes0: seq<Inode>, nodes1: seq<Inode>, d: seq<Block>, nodes: seq<Inode>,
      per: nat, live: set<nat>, x: nat, i: nat)
    requires per > 0 && |nodes| == |nodes0| == |nodes1| && x < |nodes0| && x !in live && i in live
    requires Shaped15(nodes0) && Shaped15(nodes1) && Shaped15(nodes) && nodes1 == nodes0[x := nodes1[x]]
    requires OthersKept(d0, nodes1, d, nodes, per, live + {x}, i)
    ensures Undisturbed(d0, nodes0, d, nodes, per, live, i) && nodes[x] == nodes1[x]
  {
    forall j: nat | j in live && j < |nodes| && j != i
        ensures nodes[j] == nodes0[j] && Steady(d0, d, per, nodes0, live, j) {
      assert nodes1[j] == nodes0[j] && Steady(d0, d, per, nodes1, live + {x}, j);
    }
  }

  lemma UndisturbedLinks(d0: seq<Block>, nodes0: seq<Inode>, d: seq<Block>, nodes1: seq<Inode>, nodes: seq<Inode>,
      per: nat, live: set<nat>, i: nat)
    requires Undisturbed(d0, nodes0, d, nodes1, per, live, i) && i < |nodes1| && |nodes| == |nodes1| &&
        nodes == nodes1[i := nodes[i]]
    ensures Undisturbed(d0, nodes0, d, nodes, per, live, i)
  {
    forall j: nat | j in live && j < |nodes| && j != i
        ensures nodes[j] == nodes0[j] && Steady(d0, d, per, nodes0, live, j) {
      assert Steady(d0, d, per, nodes0, live, j) && nodes1[j] == nodes0[j];
    }
  }

  /** ext2_create of a regular file under a name the directory does not have. The new file is empty and has
      that one name. 0 means that no inode was left, or no room for the name; in that case the inode taken stays in
      use without a name, and so, without an owner or uncounted, does every block that was free if the directory was
      short of blocks. */
  method CreateFile(v: Volume, i: nat, name: Block) returns (ino: nat, ghost x: nat)
    requires Consistent(v) && i in v.live && v.inodes[i].isDir && v.inodes[i].size + v.geo.Bs() < U32
    requires Component(name) && Absent(Names(v)[i], name)
    modifies v`disk, v`blockPool, v`owned, v`inodes, v`inodePool, v`live, v`meta, v`due
    ensures Consistent(v) && v.inodes[i].isDir && (ino != 0 ==> ino == x + 1)
    ensures Undisturbed(old(v.disk), old(v.inodes), v.disk, v.inodes, v.geo.per, old(v.live), i)
    ensures old(v.inodePool.sb) == 0 ==> v.live == old(v.live) && v.inodes == old(v.inodes)
    ensures old(v.inodePool.sb) > 0 ==>
        x < |v.inodes| && x !in old(v.live) && v.live == old(v.live) + {x} &&
        v.inodes[x] == Inode(false, 0, 1, 0, NoBlocks())
    ensures ino != 0 ==>
        Names(v) == old(Names(v))[i := Names(v)[i]] && Inserted(old(Names(v)[i]), Names(v)[i], Entry(name, ino, 1))
    ensures ino == 0 ==> Names(v) == old(Names(v))
    ensures ino != 0 <==>
        old(v.inodePool.sb) > 0 && CostOf(old(v.disk), v.geo.per, old(v.inodes)[i], name, old(v.blockPool.sb)).room
    ensures if old(v.inodePool.sb) == 0 then v.meta == old(v.meta) && v.due == old(v.due) else
      Paid(old(v.meta), old(v.due), v.meta, v.due, i,
          CostOf(old(v.disk), v.geo.per, old(v.inodes)[i], name, old(v.blockPool.sb)))
  {
    ghost var c := CostOf(v.disk, v.geo.per, v.inodes[i], name, v.blockPool.sb);
    ino, x := TakeInode(v, i, name);
    if ino == 0 {
      UndisturbedSelf(v.disk, v.inodes, v.geo.per, v.live, i);
      return;
    }
    var ok := NameFresh(v, i, Entry(name, ino, 1), x, old(v.inodes), old(v.live), c);
    if !ok { ino := 0; }
  }

  /** The names `ns` and inodes `nodes`, `ns1` and `nodes1` before, once directory `i` was asked to give inode `x` the
      name of `e`: the others are as they were when the inodes in use were `live0` and all of them `nodes0`. */
  ghost predicate Asked(d0: seq<Block>, nodes0: seq<Inode>, live0: set<nat>, ns1: seq<seq<Entry>>, nodes1: seq<Inode>,
      d: seq<Block>, nodes: seq<Inode>, ns: seq<seq<Entry>>, per: nat, i: nat, e: Entry, x: nat, ok: bool) {
    && Undisturbed(d0, nodes0, d, nodes, per, live0, i) && x < |nodes| == |nodes1| && nodes[x] == nodes1[x]
    && i < |ns| == |ns1| && ns == ns1[i := ns[i]] && (if ok then Inserted(ns1[i], ns[i], e) else ns == ns1)
  }

  /** The new inode `x` gets its name. */
  method NameFresh(v: Volume, i: nat, e: Entry, ghost x: nat, ghost nodes0: seq<Inode>, ghost live0: set<nat>,
      ghost c: Cost) returns (ok: bool)
    requires Consistent(v) && Ready(v.disk, v.geo.per, v.inodes, v.live, i, e, x, nodes0, live0)
    requires c == CostOf(v.disk, v.geo.per, v.inodes[i], e.name, v.blockPool.sb)
    modifies v`disk, v`blockPool, v`owned, v`inodes, v`meta, v`due
    ensures Consistent(v) &&
        Asked(old(v.disk), nodes0, live0, old(Names(v)), old(v.inodes), v.disk, v.inodes, Names(v), v.geo.per, i, e, x,
        ok)
    ensures v.inodes[i].isDir && v.inodes[i].links == nodes0[i].links
    ensures ok == c.room && Paid(old(v.meta), old(v.due), v.meta, v.due, i, c)
    ensures v.live == old(v.live)
  {
    ok := AddName(v, i, e, x, c);
    IsAsked(v, old(v.disk), nodes0, live0, old(Names(v)), old(v.inodes), i, e, x, ok);
  }

  lemma IsAsked(v: Volume, d0: seq<Block>, nodes0: seq<Inode>, live0: set<nat>, ns1: seq<seq<Entry>>,
      nodes1: seq<Inode>, i: nat, e: Entry, x: nat, ok: bool)
    requires Consistent(v) && |v.inodes| == |nodes0| == |nodes1| == |ns1| && x < |nodes0| && x !in live0 &&
        i in live0 && i < |nodes0|
    requires Shaped15(nodes0) && Shaped15(nodes1) && nodes1 == nodes0[x := nodes1[x]]
    requires OthersKept(d0, nodes1, v.disk, v.inodes, v.geo.per, live0 + {x}, i)
    requires Names(v) == ns1[i := Names(v)[i]] && Adds(ns1[i], Names(v)[i], e, ok)
    ensures Asked(d0, nodes0, live0, ns1, nodes1, v.disk, v.inodes, Names(v), v.geo.per, i, e, x, ok)
  {
    UndisturbedBy(d0, nodes0, nodes1, v.disk, v.inodes, v.geo.per, live0, x, i);
    if !ok { assert ns1[i := ns1[i]] == ns1; }
  }

  /** A directory more in use lists its names. */
  lemma NamesGrow(d: seq<Block>, per: nat, nodes: seq<Inode>, live: set<nat>, x: nat)
    requires per > 0 && Shaped15(nodes) && x < |nodes| && nodes[x].isDir
    ensures NamesOf(d, per, nodes, live + {x}) == NamesOf(d, per, nodes, live)[x := ListOf(d, per, nodes[x])]
  {
    var r, s := NamesOf(d, per, nodes, live + {x}), NamesOf(d, per, nodes, live)[x := ListOf(d, per, nodes[x])];
    forall j | 0 <= j < |nodes| ensures r[j] == s[j] {
    }
  }

  lemma QuotasSet(nodes: seq<Inode>, x: nat, node: Inode)
    requires x < |nodes|
    ensures Quotas(nodes[x := node]) == Quotas(nodes)[x := QuotaOf(node)]
  {
  }

  /** A directory taken into use with "." and ".." in it and no name of its own. */
  lemma NewDirNode(d0: seq<Block>, d: seq<Block>, per: nat, nodes: seq<Inode>, live: set<nat>, x: nat, node: Inode,
      r: seq<Entry>)
    requires per > 0 && Shaped15(nodes) && |node.iblock| == NSLOTS && node.isDir && x < |nodes| && x !in live
    requires Tidy(d0, per, nodes, live) && Linked(NamesOf(d0, per, nodes, live), Quotas(nodes), live)
    requires Shaped15(nodes[x := node]) && OthersKept(d0, nodes, d, nodes[x := node], per, live, x)
    requires IsDir(d, per, node.iblock, NBlocks(per, node)) && ListOf(d, per, node) == r && AllDots(r) && Unique(r)
    ensures Tidy(d, per, nodes[x := node], live + {x})
    ensures NamesOf(d, per, nodes[x := node], live + {x}) == NamesOf(d0, per, nodes, live)[x := r]
    ensures Linked(NamesOf(d, per, nodes[x := node], live + {x}), Quotas(nodes[x := node]), live + {x})
    ensures Refs(NamesOf(d, per, nodes[x := node], live + {x}), x + 1) == 0
  {
    OneDir(d0, nodes, d, nodes[x := node], per, live, x);
    NamesGrow(d, per, nodes[x := node], live, x);
    TidyMore(d, per, nodes[x := node], live, x, node);
    assert nodes[x := node][x := node] == nodes[x := node];
    QuotasSet(nodes, x, node);
    LinkedNew(NamesOf(d0, per, nodes, live), Quotas(nodes), live, x, r, 1);
  }

  /** Inode `x` has been taken into use since `d0`, as a directory that holds "." and ".." and is to get the name of
      `e` in directory `i`. */
  ghost predicate TookDir(d0: seq<Block>, nodes0: seq<Inode>, live0: set<nat>, ns0: seq<seq<Entry>>, d: seq<Block>,
      nodes: seq<Inode>, live: set<nat>, ns: seq<seq<Entry>>, per: nat, i: nat, e: Entry, x: nat) {
    && Ready(d, per, nodes, live, i, e, x, nodes0, live0) && OthersKept(d0, nodes0, d, nodes, per, live0, x)
    && BareDir(per, nodes[x]) && x < |ns0| && ns == ns0[x := DotNames(x + 1, i + 1)]
  }

  lemma DirTaken(d0: seq<Block>, d: seq<Block>, per: nat, nodes0: seq<Inode>, nodes: seq<Inode>, live0: set<nat>,
      live: set<nat>, ns0: seq<seq<Entry>>, x: nat, i: nat, e: Entry)
    requires Clean(d0, per, nodes0, live0) && ns0 == NamesOf(d0, per, nodes0, live0)
    requires DirAdded(d0, d, per, nodes0, nodes, live0, live, x, DotNames(x + 1, i + 1))
    requires i in live0 && i < |nodes0| && nodes0[i].isDir && nodes0[i].size + 4 * per < U32 && Component(e.name) &&
        Absent(ns0[i], e.name) && e == Entry(e.name, x + 1, 2)
    ensures Clean(d, per, nodes, live)
    ensures TookDir(d0, nodes0, live0, ns0, d, nodes, live, NamesOf(d, per, nodes, live), per, i, e, x)
  {
    NewDirNode(d0, d, per, nodes0, live0, x, nodes[x], DotNames(x + 1, i + 1));
    assert NamesOf(d, per, nodes, live)[i] == ns0[i];
  }

  /** alloc_inode, the directory's block and the write of its inode. */
  method TakeDir(v: Volume, i: nat, ghost name: Block) returns (ino: nat, ghost x: nat)
    requires Consistent(v) && i in v.live && v.inodes[i].isDir && v.inodes[i].size + v.geo.Bs() < U32
    requires Component(name) && Absent(Names(v)[i], name)
    modifies v`disk, v`blockPool, v`owned, v`inodes, v`inodePool, v`live
    ensures Consistent(v)
    ensures ino != 0 <==> old(v.blockPool.sb) > 0 && old(v.inodePool.sb) > 0
    ensures ino == 0 ==> v.disk == old(v.disk) && v.live == old(v.live) && v.inodes == old(v.inodes)
    ensures ino != 0 ==>
        v.blockPool.sb + 1 == old(v.blockPool.sb) && ino == x + 1 &&
        TookDir(old(v.disk), old(v.inodes), old(v.live), old(Names(v)), v.disk, v.inodes, v.live, Names(v), v.geo.per,
        i, Entry(name, ino, 2), x)
    ensures v.meta == old(v.meta) && v.due == old(v.due)
  {
    ghost var d0, nodes0, live0, ns0 := v.disk, v.inodes, v.live, Names(v);
    assert i + 1 < U32;
    ino, x := NewDir(v, i + 1);
    if ino == 0 { return; }
    assert DirAdded(d0, v.disk, v.geo.per, nodes0, v.inodes, live0, v.live, x, DotNames(x + 1, i + 1));
    ghost var d, nodes, live := v.disk, v.inodes, v.live;
    DirTaken(d0, d, v.geo.per, nodes0, nodes, live0, live, ns0, x, i, Entry(name, ino, 2));
  }

  // ------------------------------------------------------------ link counts

  lemma NamesAlike(d: seq<Block>, per: nat, nodes: seq<Inode>, live: set<nat>, i: nat, node: Inode)
    requires per > 0 && Shaped15(nodes) && i < |nodes| && Alike(nodes[i], node) && Shaped15(nodes[i := node])
    ensures NamesOf(d, per, nodes[i := node], live) == NamesOf(d, per, nodes, live)
  {
    var r, s := NamesOf(d, per, nodes[i := node], live), NamesOf(d, per, nodes, live);
    assert ListOf(d, per, node) == ListOf(d, per, nodes[i]);
    forall j | 0 <= j < |nodes| ensures r[j] == s[j] {
    }
  }

  lemma CleanLinks(d: seq<Block>, per: nat, nodes: seq<Inode>, live: set<nat>, i: nat, node: Inode)
    requires Clean(d, per, nodes, live) && i in live && i < |nodes| && Alike(nodes[i], node)
    requires node.isDir || Refs(NamesOf(d, per, nodes, live), i + 1) <= node.links
    ensures Clean(d, per, nodes[i := node], live) &&
        NamesOf(d, per, nodes[i := node], live) == NamesOf(d, per, nodes, live)
  {
    NamesAlike(d, per, nodes, live, i, node);
    QuotasSet(nodes, i, node);
    assert TidyAt(d, per, nodes, live, i);
    TidyMore(d, per, nodes, live, i, node);
    assert live + {i} == live;
    assert Covered(NamesOf(d, per, nodes, live), Quotas(nodes), live, i);
    LinkedQuota(NamesOf(d, per, nodes, live), Quotas(nodes), live, i, QuotaOf(node));
  }

  /** write_inode after a change of the link count: of a directory, which may have any, or of a file, which
      must cover its names. */
  method SetLinks(v: Volume, i: nat, n: nat)
    requires Consistent(v) && i in v.live && (v.inodes[i].isDir || Refs(Names(v), i + 1) <= n)
    modifies v`inodes
    ensures Consistent(v) && Names(v) == old(Names(v)) && v.inodes == old(v.inodes)[i := old(v.inodes[i]).(links := n)]
    ensures v.disk == old(v.disk) && v.live == old(v.live) && v.meta == old(v.meta) && v.due == old(v.due)
  {
    var node := v.inodes[i].(links := n);
    CleanLinks(v.disk, v.geo.per, v.inodes, v.live, i, node);
    v.Relink(i, node);
  }

  /** One more on a 16-bit counter. */
  function Next16(n: nat): nat {
    if n >= U16 - 1 then 0 else n + 1
  }

  // ------------------------------------------------------------ a directory made

  /** The parent's link for a new "..". */
  method LinkMore(v: Volume, i: nat, ghost d0: seq<Block>, ghost nodes0: seq<Inode>, ghost live0: set<nat>,
      ghost ns1: seq<seq<Entry>>, ghost nodes1: seq<Inode>, ghost e: Entry, ghost x: nat)
    requires Consistent(v) && i in v.live && v.inodes[i].isDir && i != x
    requires Asked(d0, nodes0, live0, ns1, nodes1, v.disk, v.inodes, Names(v), v.geo.per, i, e, x, true)
    modifies v`inodes
    ensures Consistent(v) && Asked(d0, nodes0, live0, ns1, nodes1, v.disk, v.inodes, Names(v), v.geo.per, i, e, x, true)
    ensures v.inodes[i].isDir && v.inodes[i].links == Next16(old(v.inodes[i].links))
    ensures v.live == old(v.live) && v.meta == old(v.meta) && v.due == old(v.due)
  {
    SetLinks(v, i, Next16(v.inodes[i].links));
    UndisturbedLinks(d0, nodes0, v.disk, old(v.inodes), v.inodes, v.geo.per, live0, i);
  }

  /** The new directory `x` gets its name, and its parent a link for the ".." in it. */
  method NameSubdir(v: Volume, i: nat, e: Entry, ghost x: nat, ghost nodes0: seq<Inode>, ghost live0: set<nat>,
      ghost c: Cost) returns (ok: bool)
    requires Consistent(v) && Ready(v.disk, v.geo.per, v.inodes, v.live, i, e, x, nodes0, live0)
    requires c == CostOf(v.disk, v.geo.per, v.inodes[i], e.name, v.blockPool.sb)
    modifies v`disk, v`blockPool, v`owned, v`inodes, v`meta, v`due
    ensures Consistent(v) &&
        Asked(old(v.disk), nodes0, live0, old(Names(v)), old(v.inodes), v.disk, v.inodes, Names(v), v.geo.per, i, e, x,
        ok)
    ensures ok == c.room && Paid(old(v.meta), old(v.due), v.meta, v.due, i, c)
    ensures v.inodes[i].isDir && v.inodes[i].links == if ok then Next16(nodes0[i].links) else nodes0[i].links
    ensures v.live == old(v.live)
  {
    ok := NameFresh(v, i, e, x, nodes0, live0, c);
    if ok { LinkMore(v, i, old(v.disk), nodes0, live0, old(Names(v)), old(v.inodes), e, x); }
  }

  /** Inode `x` is a directory in use more, with "." and ".." in it, and if `ok` has the name of `e` in directory `i`,
      which has a link more for its "..". */
  ghost predicate DirMade(nodes0: seq<Inode>, live0: set<nat>, ns0: seq<seq<Entry>>, nodes: seq<Inode>, live: set<nat>,
      ns: seq<seq<Entry>>, per: nat, i: nat, e: Entry, x: nat, ok: bool) {
    && |nodes| == |nodes0| == |ns0| == |ns| && i < |nodes| && x < |nodes| && x != i
    && x !in live0 && live == live0 + {x} && BareDir(per, nodes[x]) && nodes[i].isDir
    && ns == ns0[x := DotNames(x + 1, i + 1)][i := ns[i]] && Adds(ns0[i], ns[i], e, ok)
    && nodes[i].links == if ok then Next16(nodes0[i].links) else nodes0[i].links
  }

  /** A volume as one operation finds or leaves it. */
  datatype Snap = Snap(disk: seq<Block>, nodes: seq<Inode>, live: set<nat>, ns: seq<seq<Entry>>, meta: set<nat>,
    due: Dues)

  ghost function SnapOf(v: Volume): Snap
    requires v.Valid()
    reads v
  {
    Snap(v.disk, v.inodes, v.live, Names(v), v.meta, v.due)
  }

  /** A new directory `x`, named in directory `i` if there was room; or, unless an inode and a block were there to be
      taken, nothing new at all. No other inode in use has changed. */
  ghost predicate Mkdir(s0: Snap, s: Snap, per: nat, i: nat, name: Block, x: nat, c: Cost, took: bool) {
    && Undisturbed(s0.disk, s0.nodes, s.disk, s.nodes, per, s0.live, i)
    && if took then
         && DirMade(s0.nodes, s0.live, s0.ns, s.nodes, s.live, s.ns, per, i, Entry(name, x + 1, 2), x, c.room)
         && Paid(s0.meta, s0.due, s.meta, s.due, i, c)
       else s.nodes == s0.nodes && s.live == s0.live && s.ns == s0.ns && s.meta == s0.meta && s.due == s0.due
  }

  /** ext2_create of a directory: it holds "." and "..", has the one name asked for, and its parent has one
      link more. 0 means that no inode or block was left for it, or no room for its name. */
  method MakeDir(v: Volume, i: nat, name: Block) returns (ino: nat, ghost x: nat)
    requires Consistent(v) && i in v.live && v.inodes[i].isDir && v.inodes[i].size + v.geo.Bs() < U32
    requires Component(name) && Absent(Names(v)[i], name)
    modifies v`disk, v`blockPool, v`owned, v`inodes, v`inodePool, v`live, v`meta, v`due
    ensures Consistent(v) && (old(DotsRight(v)) ==> DotsRight(v))
    ensures var took := old(v.inodePool.sb) > 0 && old(v.blockPool.sb) > 0;
      var c := CostOf(old(v.disk), v.geo.per, old(v.inodes)[i], name,
        if old(v.blockPool.sb) > 0 then old(v.blockPool.sb) - 1 else 0);
      Mkdir(old(SnapOf(v)), SnapOf(v), v.geo.per, i, name, x, c, took) && (ino != 0 <==> took && c.room)
    ensures ino != 0 ==> ino == x + 1 && x < |Names(v)| && DotsOf(Names(v)[x], ino, i + 1)
  {
    ghost var free := if v.blockPool.sb > 0 then v.blockPool.sb - 1 else 0;
    ghost var took;
    ghost var c := CostOf(v.disk, v.geo.per, v.inodes[i], name, free);
    ino, x, took := MakeDirFor(v, i, name, free, c);
    if ino != 0 { MadeDots(old(SnapOf(v)), SnapOf(v), v.geo.per, i, name, x, c); }
  }

  lemma MadeDots(s0: Snap, s: Snap, per: nat, i: nat, name: Block, x: nat, c: Cost)
    requires Mkdir(s0, s, per, i, name, x, c, true)
    ensures x < |s.ns| && DotsOf(s.ns[x], x + 1, i + 1)
  {
    DotsLead(x + 1, i + 1);
  }

  lemma NothingMade(s0: Snap, s: Snap, per: nat, i: nat, name: Block, x: nat, c: Cost)
    requires per > 0 && Shaped15(s0.nodes) && s == s0
    ensures Mkdir(s0, s, per, i, name, x, c, false)
  {
  }

  /** The same; `took` says that there was an inode and a block for it. */
  method MakeDirFor(v: Volume, i: nat, name: Block, ghost free: nat, ghost c: Cost)
      returns (ino: nat, ghost x: nat, ghost took: bool)
    requires Consistent(v) && i in v.live && v.inodes[i].isDir && v.inodes[i].size + v.geo.Bs() < U32
    requires Component(name) && Absent(Names(v)[i], name)
    requires v.blockPool.sb > 0 ==> v.blockPool.sb == free + 1
    requires c == CostOf(v.disk, v.geo.per, v.inodes[i], name, free)
    modifies v`disk, v`blockPool, v`owned, v`inodes, v`inodePool, v`live, v`meta, v`due
    ensures Consistent(v) && (old(DotsRight(v)) ==> DotsRight(v))
    ensures Mkdir(old(SnapOf(v)), SnapOf(v), v.geo.per, i, name, x, c, took)
    ensures took <==> old(v.inodePool.sb) > 0 && old(v.blockPool.sb) > 0
    ensures ino == if took && c.room then x + 1 else 0
  {
    ino, x := TakeDir(v, i, name);
    took := ino != 0;
    if ino == 0 {
      NothingMade(old(SnapOf(v)), SnapOf(v), v.geo.per, i, name, x, c);
      return;
    }
    assert v.blockPool.sb == free;
    var ok := NameNewDir(v, i, name, ino, x, old(SnapOf(v)), free, c);
    if !ok { ino := 0; }
  }

  // ------------------------------------------------------------ "." and ".."

  /** The directories in use. */
  ghost function DirsOf(nodes: seq<Inode>, live: set<nat>): set<nat> {
    set x | x in live && x < |nodes| && nodes[x].isDir
  }

  /** In every directory in use "." is the directory and ".." the one that names it, and every name has the type of
      what it names. */
  ghost predicate DotsRight(v: Volume)
    requires v.Valid()
    reads v
  {
    Leads(Names(v), DirsOf(v.inodes, v.live))
  }

  lemma FileLeads(d0: seq<Block>, nodes0: seq<Inode>, d: seq<Block>, nodes: seq<Inode>, per: nat, live: set<nat>,
      i: nat)
    requires per > 0 && Shaped15(nodes0) && OthersKept(d0, nodes0, d, nodes, per, live, i)
    requires nodes[i].isDir == nodes0[i].isDir
    ensures DirsOf(nodes, live) == DirsOf(nodes0, live)
  {
  }

  lemma DirsKept(d0: seq<Block>, nodes0: seq<Inode>, d: seq<Block>, nodes: seq<Inode>, per: nat, live0: set<nat>,
      live: set<nat>, i: nat, x: nat)
    requires Undisturbed(d0, nodes0, d, nodes, per, live0, i) && i < |nodes| && nodes[i].isDir && nodes0[i].isDir
    requires x < |nodes| && x !in live0 && live == live0 + {x}
    ensures DirsOf(nodes, live) == if nodes[x].isDir then DirsOf(nodes0, live0) + {x} else DirsOf(nodes0, live0)
  {
    forall j: nat | j in live0 && j < |nodes| ensures nodes[j].isDir == nodes0[j].isDir {
      assert Steady(d0, d, per, nodes0, live0, j) || j == i;
    }
  }

  /** ext2_create of a file. */
  lemma CreateLeads(d0: seq<Block>, nodes0: seq<Inode>, live0: set<nat>, ns0: seq<seq<Entry>>, d: seq<Block>,
      nodes: seq<Inode>, live: set<nat>, ns: seq<seq<Entry>>, per: nat, i: nat, e: Entry, x: nat, ok: bool)
    requires Undisturbed(d0, nodes0, d, nodes, per, live0, i) && i < |nodes| && nodes[i].isDir && nodes0[i].isDir
    requires x < |nodes| && x !in live0 && live == live0 + {x} && !nodes[x].isDir
    requires i < |ns0| == |ns| && ns == ns0[i := ns[i]] && Adds(ns0[i], ns[i], e, ok)
    requires Leads(ns0, DirsOf(nodes0, live0)) && !Dots(e.name) && e.ino == x + 1 && e.ftype == 1
    ensures Leads(ns, DirsOf(nodes, live))
  {
    DirsKept(d0, nodes0, d, nodes, per, live0, live, i, x);
    if ok { DottedAdd(ns0, DirsOf(nodes, live), i, ns[i], e, x); } else { assert ns == ns0; }
  }

  lemma SubdirLeads(ns0: seq<seq<Entry>>, quota: seq<nat>, live: set<nat>, dirs: set<nat>, ns: seq<seq<Entry>>, i: nat,
      e: Entry, x: nat, ok: bool)
    requires Linked(ns0, quota, live) && dirs <= live && x !in live && i < |ns0| && x < |ns0| && x != i && ns0[x] == []
    requires |ns| == |ns0| && ns == ns0[x := DotNames(x + 1, i + 1)][i := ns[i]] && Adds(ns0[i], ns[i], e, ok)
    requires Leads(ns0, dirs) && !Dots(e.name) && e.ino == x + 1 && e.ftype == 2
    ensures Leads(ns, dirs + {x})
  {
    var ns1 := ns0[x := DotNames(x + 1, i + 1)];
    DottedNew(ns0, quota, live, dirs, x, i + 1);
    DotsLead(x + 1, i + 1);
    if ok { DottedAdd(ns1, dirs + {x}, i, ns[i], e, x); } else { assert ns == ns1; }
  }

  /** ext2_create of a directory. */
  lemma MakeLeads(d0: seq<Block>, nodes0: seq<Inode>, live0: set<nat>, ns0: seq<seq<Entry>>, d: seq<Block>,
      nodes: seq<Inode>, live: set<nat>, ns: seq<seq<Entry>>, per: nat, i: nat, e: Entry, x: nat, ok: bool)
    requires Clean(d0, per, nodes0, live0) && ns0 == NamesOf(d0, per, nodes0, live0)
    requires Undisturbed(d0, nodes0, d, nodes, per, live0, i) && i < |nodes| && nodes0[i].isDir
    requires DirMade(nodes0, live0, ns0, nodes, live, ns, per, i, e, x, ok)
    requires Leads(ns0, DirsOf(nodes0, live0)) && !Dots(e.name) && e.ino == x + 1 && e.ftype == 2
    ensures Leads(ns, DirsOf(nodes, live))
  {
    DirsKept(d0, nodes0, d, nodes, per, live0, live, i, x);
    SubdirLeads(ns0, Quotas(nodes0), live0, DirsOf(nodes0, live0), ns, i, e, x, ok);
  }

  /** The new directory `x`, taken since `s0`, gets its name. */
  method NameNewDir(v: Volume, i: nat, name: Block, ino: nat, ghost x: nat, ghost s0: Snap, ghost free: nat,
      ghost c: Cost) returns (ok: bool)
    requires Consistent(v) && ino == x + 1 &&
        TookDir(s0.disk, s0.nodes, s0.live, s0.ns, v.disk, v.inodes, v.live, Names(v), v.geo.per, i,
        Entry(name, ino, 2), x)
    requires v.blockPool.sb == free && c == CostOf(s0.disk, v.geo.per, s0.nodes[i], name, free)
    requires Clean(s0.disk, v.geo.per, s0.nodes, s0.live) && s0.ns == NamesOf(s0.disk, v.geo.per, s0.nodes, s0.live)
    requires s0.meta == v.meta && s0.due == v.due
    modifies v`disk, v`blockPool, v`owned, v`inodes, v`meta, v`due
    ensures Consistent(v) && (Leads(s0.ns, DirsOf(s0.nodes, s0.live)) ==> DotsRight(v))
    ensures Mkdir(s0, SnapOf(v), v.geo.per, i, name, x, c, true) && ok == c.room
  {
    var e := Entry(name, ino, 2);
    MadeDir(s0.disk, v.disk, v.geo.per, s0.nodes, v.inodes, s0.live, x, i, name, free);
    ok := NameSubdir(v, i, e, x, s0.nodes, s0.live, c);
    DirIsMade(v, s0.disk, old(v.disk), s0.nodes, old(v.inodes), s0.live, old(Names(v)), x, i, e, ok);
    assert DirMade(s0.nodes, s0.live, s0.ns, v.inodes, v.live, Names(v), v.geo.per, i, e, x, ok);
    if Leads(s0.ns, DirsOf(s0.nodes, s0.live)) {
      MakeLeads(s0.disk, s0.nodes, s0.live, s0.ns, v.disk, v.inodes, v.live, Names(v), v.geo.per, i, e, x, ok);
    }
  }

  /** The parent of a new directory is as it was before that took its block and inode. */
  lemma MadeDir(d0: seq<Block>, d1: seq<Block>, per: nat, nodes0: seq<Inode>, nodes1: seq<Inode>, live: set<nat>,
      x: nat, i: nat, name: Block, free: nat)
    requires per > 0 && Shaped15(nodes0) && x !in live && i in live && i < |nodes0| &&
        OthersKept(d0, nodes0, d1, nodes1, per, live, x)
    ensures nodes1[i] == nodes0[i] && CostOf(d1, per, nodes0[i], name, free) == CostOf(d0, per, nodes0[i], name, free)
  {
    assert Steady(d0, d1, per, nodes0, live, i);
    CostKept(d0, d1, per, nodes0[i], name, free);
  }

  lemma DirIsMade(v: Volume, d0: seq<Block>, d1: seq<Block>, nodes0: seq<Inode>, nodes1: seq<Inode>, live: set<nat>,
      ns1: seq<seq<Entry>>, x: nat, i: nat, e: Entry, ok: bool)
    requires Consistent(v) && Shaped15(nodes0) && x !in live && i in live &&
        OthersKept(d0, nodes0, d1, nodes1, v.geo.per, live, x)
    requires Asked(d1, nodes0, live, ns1, nodes1, v.disk, v.inodes, Names(v), v.geo.per, i, e, x, ok)
    ensures Undisturbed(d0, nodes0, v.disk, v.inodes, v.geo.per, live, i)
    ensures v.inodes[x] == nodes1[x] && Names(v) == ns1[i := Names(v)[i]] && Adds(ns1[i], Names(v)[i], e, ok)
  {
    forall j: nat | j in live && j < |v.inodes| && j != i
        ensures v.inodes[j] == nodes0[j] && Steady(d0, v.disk, v.geo.per, nodes0, live, j) {
      assert Steady(d0, d1, v.geo.per, nodes0, live, j) && Steady(d1, v.disk, v.geo.per, nodes0, live, j);
    }
  }

  // ------------------------------------------------------------ removing

  datatype Outcome = Unlinked | NoEntry | NotEmpty

  lemma NameRemoved(d0: seq<Block>, nodes0: seq<Inode>, d: seq<Block>, nodes: seq<Inode>, per: nat, live: set<nat>,
      i: nat, name: Block, ino: nat)
    requires Clean(d0, per, nodes0, live) && Shaped15(nodes) && i in live &&
        OthersKept(d0, nodes0, d, nodes, per, live, i)
    requires nodes[i].isDir && nodes0[i].isDir && IsDir(d, per, nodes[i].iblock, NBlocks(per, nodes[i])) &&
        !Dots(name) && ino != 0
    requires Removed(ListOf(d0, per, nodes0[i]), ListOf(d, per, nodes[i]), name, ino)
    ensures Clean(d, per, nodes, live) &&
        NamesOf(d, per, nodes, live) == NamesOf(d0, per, nodes0, live)[i := ListOf(d, per, nodes[i])]
    ensures Refs(NamesOf(d, per, nodes, live), ino) == Refs(NamesOf(d0, per, nodes0, live), ino) - 1
    ensures Absent(ListOf(d, per, nodes[i]), name)
  {
    OneDir(d0, nodes0, d, nodes, per, live, i);
    assert Quotas(nodes) == Quotas(nodes0);
    LinkedRemove(NamesOf(d0, per, nodes0, live), Quotas(nodes0), live, i, ListOf(d, per, nodes[i]), name, ino);
  }

  /** Directory `i` has `name`, for the inode with index `c`. */
  ghost predicate Target(d: seq<Block>, per: nat, nodes: seq<Inode>, live: set<nat>, i: nat, name: Block, c: nat,
      ftype: byte) {
    && per > 0 && Shaped15(nodes) && i in live && i < |nodes| && nodes[i].isDir && Component(name)
    && c in live && c < |nodes| && Found(NamesOf(d, per, nodes, live)[i], name, c + 1, ftype)
  }

  /** The inodes in `live`, `i` aside, have the blocks and bytes they had, and but for `c` are what they were. */
  ghost predicate Aside(d0: seq<Block>, nodes0: seq<Inode>, d: seq<Block>, nodes: seq<Inode>, per: nat, live: set<nat>,
      i: nat, c: nat) {
    && per > 0 && |nodes| == |nodes0| && Shaped15(nodes0)
    && forall j: nat {:trigger Steady(d0, d, per, nodes0, live, j)} :: j in live && j < |nodes| && j != i ==>
         Steady(d0, d, per, nodes0, live, j) && (j != c ==> nodes[j] == nodes0[j])
  }

  /** First the name, then the inode. */
  lemma AsideAfter(d0: seq<Block>, nodes0: seq<Inode>, d1: seq<Block>, nodes1: seq<Inode>, d: seq<Block>,
      nodes: seq<Inode>, per: nat, live1: set<nat>, live: set<nat>, i: nat, c: nat)
    requires per > 0 && Shaped15(nodes0) && OthersKept(d0, nodes0, d1, nodes1, per, live1, i) && live <= live1
    requires Aside(d1, nodes1, d, nodes, per, live, i, c)
    ensures Aside(d0, nodes0, d, nodes, per, live, i, c)
  {
    forall j: nat | j in live && j < |nodes| && j != i
        ensures Steady(d0, d, per, nodes0, live, j) && (j != c ==> nodes[j] == nodes0[j]) {
      assert Steady(d0, d1, per, nodes0, live1, j) && Steady(d1, d, per, nodes1, live, j) && nodes1[j] == nodes0[j];
    }
  }

  /** A change of one inode's links alone. */
  lemma AsideLinks(d0: seq<Block>, nodes0: seq<Inode>, d: seq<Block>, nodes: seq<Inode>, per: nat, live: set<nat>,
      i: nat, c: nat, x: nat)
    requires per > 0 && Shaped15(nodes0) && x < |nodes0| == |nodes| && nodes == nodes0[x := nodes[x]] &&
        (x == i || x == c)
    requires forall j: nat {:trigger Steady(d0, d, per, nodes0, live, j)} :: j in live && j != i ==>
        Steady(d0, d, per, nodes0, live, j)
    ensures Aside(d0, nodes0, d, nodes, per, live, i, c)
  {
  }

  lemma AsideSame(d: seq<Block>, nodes0: seq<Inode>, nodes: seq<Inode>, per: nat, live: set<nat>, i: nat, c: nat)
    requires per > 0 && Shaped15(nodes0) && c < |nodes0| == |nodes| && nodes == nodes0[c := nodes[c]]
    ensures Aside(d, nodes0, d, nodes, per, live, i, c)
  {
  }

  lemma AsideFreed(d0: seq<Block>, d: seq<Block>, nodes: seq<Inode>, per: nat, live: set<nat>, i: nat, c: nat)
    requires per > 0 && Shaped15(nodes) && c !in live && OthersKept(d0, nodes, d, nodes, per, live, c)
    ensures Aside(d0, nodes, d, nodes, per, live, i, c)
  {
  }

  /** dir_remove_entry of a name that is there, for the inode with index `c`. */
  method RemoveName(v: Volume, i: nat, name: Block, ghost c: nat, ghost ftype: byte)
    requires Consistent(v) && Target(v.disk, v.geo.per, v.inodes, v.live, i, name, c, ftype)
    modifies v`disk, v`inodes
    ensures Consistent(v) && i in v.live && v.inodes[i].isDir && v.inodes[i].links == old(v.inodes)[i].links
    ensures c in v.live && (c != i ==> v.inodes[c] == old(v.inodes[c]) && Names(v)[c] == old(Names(v)[c]))
    ensures Names(v) == old(Names(v))[i := Names(v)[i]] && Removed(old(Names(v)[i]), Names(v)[i], name, c + 1)
    ensures Refs(Names(v), c + 1) == old(Refs(Names(v), c + 1)) - 1
    ensures OthersKept(old(v.disk), old(v.inodes), v.disk, v.inodes, v.geo.per, v.live, i) && v.live == old(v.live)
    ensures v.meta == old(v.meta) && v.due == old(v.due)
  {
    assert TidyAt(v.disk, v.geo.per, v.inodes, v.live, i);
    var removed := RemoveEntry(v, i, name);
    FoundIsRemoved(old(Names(v)[i]), ListOf(v.disk, v.geo.per, v.inodes[i]), name, c + 1, ftype, removed);
    NameRemoved(old(v.disk), old(v.inodes), v.disk, v.inodes, v.geo.per, v.live, i, name, c + 1);
  }

  lemma FoundIsRemoved(r: seq<Entry>, s: seq<Entry>, name: Block, ino: nat, ftype: byte, removed: nat)
    requires Found(r, name, ino, ftype) && RemovedOrAbsent(r, s, name, removed) && ino != 0
    ensures removed == ino && Removed(r, s, name, ino)
  {
  }

  lemma InodeFreed(d0: seq<Block>, d: seq<Block>, per: nat, nodes: seq<Inode>, live: set<nat>, live': set<nat>, c: nat)
    requires Clean(d0, per, nodes, live) && c in live && c < |nodes| && live' == live - {c}
    requires OthersKept(d0, nodes, d, nodes, per, live', c)
    requires Refs(NamesOf(d0, per, nodes, live), c + 1) == 0 && AllDots(NamesOf(d0, per, nodes, live)[c])
    ensures Clean(d, per, nodes, live') && NamesOf(d, per, nodes, live') == NamesOf(d0, per, nodes, live)[c := []]
  {
    TidyLess(d0, per, nodes, live, live');
    OneDir(d0, nodes, d, nodes, per, live', c);
    NamesShrink(d0, per, nodes, live, c);
    assert NamesOf(d, per, nodes, live')[c] == [];
    SetTwice(NamesOf(d, per, nodes, live'), NamesOf(d0, per, nodes, live'), NamesOf(d0, per, nodes, live), c);
    LinkedFree(NamesOf(d0, per, nodes, live), Quotas(nodes), live, c);
  }

  lemma SetTwice(a: seq<seq<Entry>>, b: seq<seq<Entry>>, r: seq<seq<Entry>>, c: nat)
    requires c < |a| == |b| == |r| && a == b[c := a[c]] && a[c] == [] && b == r[c := []]
    ensures a == r[c := []]
  {
  }

  lemma TidyLess(d: seq<Block>, per: nat, nodes: seq<Inode>, live: set<nat>, live': set<nat>)
    requires per > 0 && Shaped15(nodes) && Tidy(d, per, nodes, live) && live' <= live
    ensures Tidy(d, per, nodes, live')
  {
    forall j: nat ensures TidyAt(d, per, nodes, live', j) {
      assert TidyAt(d, per, nodes, live, j);
    }
  }

  lemma NamesShrink(d: seq<Block>, per: nat, nodes: seq<Inode>, live: set<nat>, c: nat)
    requires per > 0 && Shaped15(nodes) && c < |nodes|
    ensures NamesOf(d, per, nodes, live - {c}) == NamesOf(d, per, nodes, live)[c := []]
  {
    var r, s := NamesOf(d, per, nodes, live - {c}), NamesOf(d, per, nodes, live)[c := []];
    forall j | 0 <= j < |nodes| ensures r[j] == s[j] {
    }
  }

  /** free_from(0) and free_inode_num of an inode without a name. */
  method FreeInode(v: Volume, c: nat)
    requires Consistent(v) && c in v.live && Refs(Names(v), c + 1) == 0 && AllDots(Names(v)[c])
    modifies v`disk, v`blockPool, v`owned, v`inodePool, v`live, v`due
    ensures Consistent(v) && v.live == old(v.live) - {c} && Names(v) == old(Names(v))[c := []]
    ensures OthersKept(old(v.disk), v.inodes, v.disk, v.inodes, v.geo.per, v.live, c)
    ensures v.inodes == old(v.inodes)
    ensures v.meta == old(v.meta) && v.due == old(v.due) - {c}
  {
    v.Release(c);
    InodeFreed(old(v.disk), v.disk, v.geo.per, v.inodes, old(v.live), v.live, c);
  }

  /** A name found stands for an inode in use, which has at least this name and at most its quota. */
  lemma TargetIs(d: seq<Block>, per: nat, nodes: seq<Inode>, live: set<nat>, i: nat, name: Block, c: nat, ftype: byte)
    requires Clean(d, per, nodes, live) && i in live && i < |nodes| && nodes[i].isDir && Component(name)
    requires Found(NamesOf(d, per, nodes, live)[i], name, c + 1, ftype) && forall x :: x in live ==> x < |nodes|
    ensures Target(d, per, nodes, live, i, name, c, ftype) && !Absent(NamesOf(d, per, nodes, live)[i], name)
    ensures 1 <= Refs(NamesOf(d, per, nodes, live), c + 1) <= QuotaOf(nodes[c])
    ensures !AllDots(NamesOf(d, per, nodes, live)[i])
  {
    FoundLinked(NamesOf(d, per, nodes, live), Quotas(nodes), live, i, name, c, ftype);
  }

  method FreeFile(v: Volume, c: nat, ghost i: nat)
    requires Consistent(v) && c in v.live && !v.inodes[c].isDir && Refs(Names(v), c + 1) == 0
    modifies v`disk, v`blockPool, v`owned, v`inodePool, v`live, v`due
    ensures Consistent(v) && Names(v) == old(Names(v)) && v.live == old(v.live) - {c} && v.inodes == old(v.inodes)
    ensures Aside(old(v.disk), v.inodes, v.disk, v.inodes, v.geo.per, v.live, i, c)
    ensures v.meta == old(v.meta) && v.due == old(v.due) - {c}
  {
    assert Names(v)[c] == [] && Names(v)[c := []] == Names(v);
    FreeInode(v, c);
    AsideFreed(old(v.disk), v.disk, v.inodes, v.geo.per, v.live, i, c);
  }

  method LoseLink(v: Volume, c: nat, links: nat, ghost i: nat)
    requires Consistent(v) && c in v.live && !v.inodes[c].isDir && Refs(Names(v), c + 1) <= links
    modifies v`inodes
    ensures Consistent(v) && Names(v) == old(Names(v))
    ensures v.inodes == old(v.inodes)[c := old(v.inodes[c]).(links := links)]
    ensures Aside(v.disk, old(v.inodes), v.disk, v.inodes, v.geo.per, v.live, i, c)
    ensures v.disk == old(v.disk) && v.live == old(v.live) && v.meta == old(v.meta) && v.due == old(v.due)
  {
    SetLinks(v, c, links);
    AsideSame(v.disk, old(v.inodes), v.inodes, v.geo.per, v.live, i, c);
  }

  /** The end of ext2_unlink for a file: one link less, and without links no inode. */
  method DropFile(v: Volume, c: nat, links: nat, ghost i: nat)
    requires Consistent(v) && c in v.live && !v.inodes[c].isDir && Refs(Names(v), c + 1) <= links
    modifies v`disk, v`inodes, v`blockPool, v`owned, v`inodePool, v`live, v`due
    ensures Consistent(v) && Names(v) == old(Names(v))
    ensures links == 0 ==> v.live == old(v.live) - {c} && v.inodes == old(v.inodes) && v.due == old(v.due) - {c}
    ensures links > 0 ==>
        v.live == old(v.live) && v.due == old(v.due) &&
        v.inodes == old(v.inodes)[c := old(v.inodes)[c].(links := links)]
    ensures Aside(old(v.disk), old(v.inodes), v.disk, v.inodes, v.geo.per, v.live, i, c) && v.meta == old(v.meta)
  {
    if links == 0 {
      FreeFile(v, c, i);
      return;
    }
    LoseLink(v, c, links, i);
  }

  /** The end of ext2_unlink for a directory: its inode goes, and its parent has one link less. */
  method DropDir(v: Volume, i: nat, c: nat)
    requires Consistent(v) && c in v.live && i in v.live && c != i && v.inodes[i].isDir && Refs(Names(v), c + 1) == 0 &&
        AllDots(Names(v)[c])
    modifies v`disk, v`inodes, v`blockPool, v`owned, v`inodePool, v`live, v`due
    ensures Consistent(v) && Names(v) == old(Names(v))[c := []] && v.live == old(v.live) - {c}
    ensures v.inodes[i].isDir
    ensures v.inodes[i].links == if old(v.inodes[i].links) > 0 then old(v.inodes[i].links) - 1 else 0
    ensures Aside(old(v.disk), old(v.inodes), v.disk, v.inodes, v.geo.per, v.live, i, c)
    ensures v.meta == old(v.meta) && v.due == if c in v.live then old(v.due) else old(v.due) - {c}
  {
    FreeInode(v, c);
    SetLinks(v, i, if v.inodes[i].links > 0 then v.inodes[i].links - 1 else 0);
    AsideLinks(old(v.disk), old(v.inodes), v.disk, v.inodes, v.geo.per, v.live, i, c, i);
  }

  /** The name is gone from directory `i`; so is inode `c`, if it was a directory or had no other link, and
      nothing else about names or inodes in use has changed. */
  ghost predicate Gone(ns0: seq<seq<Entry>>, ns: seq<seq<Entry>>, nodes0: seq<Inode>, live0: set<nat>, live: set<nat>,
      i: nat, name: Block, c: nat) {
    && |ns| == |ns0| == |nodes0| && i < |ns| && c < |ns| && c in live0
    && Removed(ns0[i], ns[i], name, c + 1)
    && live == (if nodes0[c].isDir || nodes0[c].links == 1 then live0 - {c} else live0)
    && ns == if nodes0[c].isDir then ns0[i := ns[i]][c := []] else ns0[i := ns[i]]
  }

  /** One link less: of the file, if it is still there, or of the parent of a directory that is gone. */
  ghost predicate Unlinks(nodes0: seq<Inode>, nodes: seq<Inode>, live: set<nat>, i: nat, c: nat) {
    && i < |nodes| == |nodes0| && c < |nodes| && nodes[i].isDir
    && (!nodes0[c].isDir && c in live ==> !nodes[c].isDir && nodes[c].links == nodes0[c].links - 1)
    && (nodes0[c].isDir ==> nodes[i].links == if nodes0[i].links > 0 then nodes0[i].links - 1 else 0)
  }

  /** ext2_unlink of a file: its inode goes with its last link, and only then. */
  method UnlinkFile(v: Volume, i: nat, name: Block, c: nat, ghost ftype: byte)
    requires Consistent(v) && Target(v.disk, v.geo.per, v.inodes, v.live, i, name, c, ftype) && !v.inodes[c].isDir
    requires Refs(Names(v), c + 1) <= v.inodes[c].links
    modifies v`disk, v`inodes, v`blockPool, v`owned, v`inodePool, v`live, v`due
    ensures Consistent(v) && Gone(old(Names(v)), Names(v), old(v.inodes), old(v.live), v.live, i, name, c)
    ensures Unlinks(old(v.inodes), v.inodes, v.live, i, c)
    ensures Aside(old(v.disk), old(v.inodes), v.disk, v.inodes, v.geo.per, v.live, i, c)
    ensures v.meta == old(v.meta) && v.due == if c in v.live then old(v.due) else old(v.due) - {c}
  {
    RemoveName(v, i, name, c, ftype);
    ghost var d1, nodes1, live1 := v.disk, v.inodes, v.live;
    DropFile(v, c, v.inodes[c].links - 1, i);
    AsideAfter(old(v.disk), old(v.inodes), d1, nodes1, v.disk, v.inodes, v.geo.per, live1, v.live, i, c);
  }

  /** ext2_unlink of a directory that holds nothing but "." and "..". */
  method UnlinkDir(v: Volume, i: nat, name: Block, c: nat, ghost ftype: byte)
    requires Consistent(v) && Target(v.disk, v.geo.per, v.inodes, v.live, i, name, c, ftype) && v.inodes[c].isDir &&
        c != i
    requires Refs(Names(v), c + 1) == 1 && AllDots(Names(v)[c])
    modifies v`disk, v`inodes, v`blockPool, v`owned, v`inodePool, v`live, v`due
    ensures Consistent(v) && Gone(old(Names(v)), Names(v), old(v.inodes), old(v.live), v.live, i, name, c)
    ensures Unlinks(old(v.inodes), v.inodes, v.live, i, c)
    ensures Aside(old(v.disk), old(v.inodes), v.disk, v.inodes, v.geo.per, v.live, i, c)
    ensures v.meta == old(v.meta) && v.due == if c in v.live then old(v.due) else old(v.due) - {c}
  {
    RemoveName(v, i, name, c, ftype);
    ghost var d1, nodes1, live1 := v.disk, v.inodes, v.live;
    DropDir(v, i, c);
    AsideAfter(old(v.disk), old(v.inodes), d1, nodes1, v.disk, v.inodes, v.geo.per, live1, v.live, i, c);
  }

  /** dir_walk for the name. */
  method FindName(v: Volume, i: nat, name: Block) returns (found: bool, c: nat, ftype: byte)
    requires Consistent(v) && i in v.live && v.inodes[i].isDir
    ensures if found then Found(Names(v)[i], name, c + 1, ftype) else Absent(Names(v)[i], name)
  {
    assert TidyAt(v.disk, v.geo.per, v.inodes, v.live, i);
    var ino;
    ino, ftype := Find(v, i, name);
    found := ino != 0;
    c := if found then ino - 1 else 0;
  }

  /** dir_walk for the name, and what the invariant says about the inode it finds. */
  method FindTarget(v: Volume, i: nat, name: Block) returns (found: bool, c: nat, ftype: byte)
    requires Consistent(v) && i in v.live && v.inodes[i].isDir && Component(name)
    ensures !found <==> Absent(Names(v)[i], name)
    ensures found ==> Target(v.disk, v.geo.per, v.inodes, v.live, i, name, c, ftype)
    ensures found ==> 1 <= Refs(Names(v), c + 1) <= QuotaOf(v.inodes[c]) && !AllDots(Names(v)[i])
  {
    found, c, ftype := FindName(v, i, name);
    if found { TargetIs(v.disk, v.geo.per, v.inodes, v.live, i, name, c, ftype); }
  }

  /** The name is not there, or stands for a directory with something in it, or for anything else. */
  ghost predicate Says(ns: seq<seq<Entry>>, nodes: seq<Inode>, i: nat, name: Block, r: Outcome, c: nat, ftype: byte) {
    && i < |ns| == |nodes|
    && if r == NoEntry then Absent(ns[i], name)
       else c < |nodes| && Found(ns[i], name, c + 1, ftype) && (r == NotEmpty <==> nodes[c].isDir && !AllDots(ns[c]))
  }

  /** ext2_unlink once the name has been found. */
  method UnlinkFound(v: Volume, i: nat, name: Block, c: nat, ghost ftype: byte) returns (r: Outcome)
    requires Consistent(v) && Target(v.disk, v.geo.per, v.inodes, v.live, i, name, c, ftype)
    requires 1 <= Refs(Names(v), c + 1) <= QuotaOf(v.inodes[c]) && !AllDots(Names(v)[i])
    modifies v`disk, v`inodes, v`blockPool, v`owned, v`inodePool, v`live, v`due
    ensures Consistent(v) && r != NoEntry && Says(old(Names(v)), old(v.inodes), i, name, r, c, ftype)
    ensures r == NotEmpty ==> v.disk == old(v.disk) && v.inodes == old(v.inodes) && v.live == old(v.live)
    ensures r == Unlinked ==> Gone(old(Names(v)), Names(v), old(v.inodes), old(v.live), v.live, i, name, c)
    ensures r == Unlinked ==> Aside(old(v.disk), old(v.inodes), v.disk, v.inodes, v.geo.per, v.live, i, c)
    ensures v.meta == old(v.meta) && (r == NotEmpty ==> v.due == old(v.due))
    ensures r == Unlinked ==> v.due == (if c in v.live then old(v.due) else old(v.due) - {c})
    ensures r == Unlinked ==> Unlinks(old(v.inodes), v.inodes, v.live, i, c)
  {
    if v.inodes[c].isDir {
      assert TidyAt(v.disk, v.geo.per, v.inodes, v.live, c);
      var empty := IsEmpty(v, c);
      if !empty { return NotEmpty; }
      UnlinkDir(v, i, name, c, ftype);
    } else {
      UnlinkFile(v, i, name, c, ftype);
    }
    r := Unlinked;
  }

  /** ext2_unlink. A name that is not there, or a directory that is not empty, changes nothing; otherwise the
      name goes, and with a file's last link, or a directory, the inode and all its blocks. */
  method Unlink(v: Volume, i: nat, name: Block) returns (r: Outcome, ghost c: nat, ghost ftype: byte)
    requires Consistent(v) && i in v.live && v.inodes[i].isDir && Component(name)
    modifies v`disk, v`inodes, v`blockPool, v`owned, v`inodePool, v`live, v`due
    ensures Consistent(v) && Says(old(Names(v)), old(v.inodes), i, name, r, c, ftype)
    ensures r != Unlinked ==> v.disk == old(v.disk) && v.inodes == old(v.inodes) && v.live == old(v.live)
    ensures r == Unlinked ==> Gone(old(Names(v)), Names(v), old(v.inodes), old(v.live), v.live, i, name, c)
    ensures r == Unlinked ==> Aside(old(v.disk), old(v.inodes), v.disk, v.inodes, v.geo.per, v.live, i, c)
    ensures v.meta == old(v.meta) && (r != Unlinked ==> v.due == old(v.due))
    ensures r == Unlinked ==> v.due == (if c in v.live then old(v.due) else old(v.due) - {c})
    ensures r == Unlinked ==> Unlinks(old(v.inodes), v.inodes, v.live, i, c)
  {
    var found, x, ft := FindTarget(v, i, name);
    c, ftype := x, ft;
    if !found { return NoEntry, c, ftype; }
    r := UnlinkFound(v, i, name, x, ft);
  }

  /** ext2_unlink. */
  lemma UnlinkLeads(ns0: seq<seq<Entry>>, nodes0: seq<Inode>, live0: set<nat>, ns: seq<seq<Entry>>, live: set<nat>,
      i: nat, name: Block, c: nat)
    requires Gone(ns0, ns, nodes0, live0, live, i, name, c) && !Dots(name) && Linked(ns0, Quotas(nodes0), live0)
    requires (nodes0[c].isDir ==> AllDots(ns0[c])) && Leads(ns0, DirsOf(nodes0, live0))
    ensures Leads(ns, if nodes0[c].isDir then DirsOf(nodes0, live0) - {c} else DirsOf(nodes0, live0))
  {
    var dirs, ns1 := DirsOf(nodes0, live0), ns0[i := ns[i]];
    DottedRemove(ns0, dirs, i, ns[i], name, c);
    var k := Remaining(ns0[i], ns[i], name, c + 1);
    if nodes0[c].isDir {
      assert Covered(ns0, Quotas(nodes0), live0, c);
      LinkedRemove(ns0, Quotas(nodes0), live0, i, ns[i], name, c + 1);
      DottedFree(ns1, dirs, c);
    }
  }

  lemma DirsLeft(d0: seq<Block>, nodes0: seq<Inode>, d: seq<Block>, nodes: seq<Inode>, per: nat, live0: set<nat>,
      live: set<nat>, ns0: seq<seq<Entry>>, ns: seq<seq<Entry>>, i: nat, name: Block, c: nat)
    requires Aside(d0, nodes0, d, nodes, per, live, i, c) && Unlinks(nodes0, nodes, live, i, c) && nodes0[i].isDir
    requires Gone(ns0, ns, nodes0, live0, live, i, name, c)
    ensures DirsOf(nodes, live) == if nodes0[c].isDir then DirsOf(nodes0, live0) - {c} else DirsOf(nodes0, live0)
  {
    forall j: nat | j in live && j < |nodes| ensures nodes[j].isDir == nodes0[j].isDir {
      assert Steady(d0, d, per, nodes0, live, j) || j == i;
    }
  }

  // ------------------------------------------------------------ every run

  /** The operations a mounted volume is asked for. */
  datatype Op =
    | OpWrite(i: nat, buf: Block, off: nat)
    | OpTruncate(i: nat, len: nat)
    | OpCreate(dir: nat, name: Block)
    | OpMkdir(dir: nat, name: Block)
    | OpUnlink(dir: nat, name: Block)

  /** What a create in directory `i` may cost: nothing while five blocks are free. With fewer it may lose up to three
      blocks, or leave up to three out of the directory's i_blocks. */
  ghost predicate Losses(meta0: set<nat>, due0: Dues, free0: nat, meta: set<nat>, due: Dues, i: nat) {
    if free0 >= 5 then meta == meta0 && due == due0
    else
      && meta0 <= meta && |meta| <= |meta0| + 3
      && due == SetDue(due0, i, Due(due, i)) && Due(due0, i) <= Due(due, i) <= Due(due0, i) + 3
  }

  lemma CostSmall(d: seq<Block>, per: nat, node: Inode, name: Block, free: nat)
    requires per > 0 && |node.iblock| == NSLOTS
    ensures var c := CostOf(d, per, node, name, free); c.lost <= 3 && c.owed <= 3
  {
    if free >= 4 { FourCostNothing(d, per, node, name, free); }
  }

  lemma PaidIsLosses(meta0: set<nat>, due0: Dues, free0: nat, meta: set<nat>, due: Dues, i: nat,
                     d: seq<Block>, per: nat, node: Inode, name: Block, free: nat, c: Cost)
    requires per > 0 && |node.iblock| == NSLOTS && free0 <= free + 1
    requires c == CostOf(d, per, node, name, free) && Paid(meta0, due0, meta, due, i, c)
    ensures Losses(meta0, due0, free0, meta, due, i)
  {
    CostSmall(d, per, node, name, free);
    if free >= 4 { FourCostNothing(d, per, node, name, free); }
  }

  /** Directory `i` has gained the name, for inode number `ino`. */
  ghost predicate Gains(ns0: seq<seq<Entry>>, ns: seq<seq<Entry>>, i: nat, name: Block, ino: nat, ftype: byte) {
    i < |ns0| && i < |ns| && Inserted(ns0[i], ns[i], Entry(name, ino, ftype))
  }

  /** A free inode, five free blocks and a block index within reach are enough for a new name. */
  ghost predicate Ample(per: nat, node: Inode, inodes: nat, blocks: nat) {
    per > 0 && inodes > 0 && blocks >= 5 && SlotIdx(per, NBlocks(per, node)) < NSLOTS
  }

  method VfsFile(v: Volume, i: nat, name: Block) returns (made: bool, ghost ino: nat)
    requires Consistent(v) && i in v.live && v.inodes[i].isDir && v.inodes[i].size + v.geo.Bs() < U32
    requires Component(name) && Absent(Names(v)[i], name)
    modifies v`disk, v`inodes, v`blockPool, v`owned, v`inodePool, v`live, v`meta, v`due
    ensures Consistent(v) && Losses(old(v.meta), old(v.due), old(v.blockPool.sb), v.meta, v.due, i)
    ensures old(DotsRight(v)) ==> DotsRight(v)
    ensures made ==> Gains(old(Names(v)), Names(v), i, name, ino, 1)
    ensures Ample(v.geo.per, old(v.inodes)[i], old(v.inodePool.sb), old(v.blockPool.sb)) ==> made
  {
    ghost var d, node, free := v.disk, v.inodes[i], v.blockPool.sb;
    ghost var cost := CostOf(d, v.geo.per, node, name, free);
    ghost var nodes0, live0, ns0 := v.inodes, v.live, Names(v);
    var n, x := CreateFile(v, i, name);
    made, ino := n != 0, n;
    if old(v.inodePool.sb) > 0 {
      if old(DotsRight(v)) {
        CreateLeads(d, nodes0, live0, ns0, v.disk, v.inodes, v.live, Names(v), v.geo.per, i, Entry(name, x + 1, 1), x,
            made);
      }
      PaidIsLosses(old(v.meta), old(v.due), free, v.meta, v.due, i, d, v.geo.per, node, name, free, cost);
      AmpleHasRoom(d, v.geo.per, node, name, old(v.inodePool.sb), free, free, cost);
    }
  }

  lemma DirBooked(s0: Snap, s: Snap, inodes: nat, blocks: nat, per: nat, i: nat, node: Inode, name: Block, x: nat,
      free: nat, c: Cost, took: bool, ns0: seq<seq<Entry>>, ns: seq<seq<Entry>>, made: bool, ino: nat)
    requires Mkdir(s0, s, per, i, name, x, c, took) && (took <==> inodes > 0 && blocks > 0)
    requires |node.iblock| == NSLOTS && c == CostOf(s0.disk, per, node, name, free)
    requires blocks > 0 ==> blocks == free + 1
    requires ns0 == s0.ns && ns == s.ns && ino == x + 1 && (made <==> took && c.room)
    ensures Losses(s0.meta, s0.due, blocks, s.meta, s.due, i)
    ensures made ==> Gains(ns0, ns, i, name, ino, 2)
    ensures Ample(per, node, inodes, blocks) ==> made
  {
    if took {
      PaidIsLosses(s0.meta, s0.due, blocks, s.meta, s.due, i, s0.disk, per, node, name, free, c);
      AmpleHasRoom(s0.disk, per, node, name, inodes, blocks, free, c);
    }
  }

  method VfsDir(v: Volume, i: nat, name: Block) returns (made: bool, ghost ino: nat)
    requires Consistent(v) && i in v.live && v.inodes[i].isDir && v.inodes[i].size + v.geo.Bs() < U32
    requires Component(name) && Absent(Names(v)[i], name)
    modifies v`disk, v`inodes, v`blockPool, v`owned, v`inodePool, v`live, v`meta, v`due
    ensures Consistent(v) && Losses(old(v.meta), old(v.due), old(v.blockPool.sb), v.meta, v.due, i)
    ensures old(DotsRight(v)) ==> DotsRight(v)
    ensures made ==> Gains(old(Names(v)), Names(v), i, name, ino, 2)
    ensures Ample(v.geo.per, old(v.inodes)[i], old(v.inodePool.sb), old(v.blockPool.sb)) ==> made
  {
    ghost var s0, inodes, blocks, per, node := SnapOf(v), v.inodePool.sb, v.blockPool.sb, v.geo.per, v.inodes[i];
    ghost var free: nat :| blocks > 0 ==> blocks == free + 1;
    ghost var c := CostOf(v.disk, per, node, name, free);
    var n, x, took := MakeDirFor(v, i, name, free, c);
    ghost var s := SnapOf(v);
    made, ino := n != 0, x + 1;
    DirBooked(s0, s, inodes, blocks, per, i, node, name, x, free, c, took, old(Names(v)), Names(v), made, ino);
  }

  /** vfs_create: the name is there afterwards, unless there was no inode, block or room for it; one the directory
      already has is not created again. */
  method VfsCreate(v: Volume, i: nat, name: Block, isDir: bool) returns (made: bool, ghost ino: nat)
    requires Consistent(v) && i in v.live && v.inodes[i].isDir && Component(name) && v.inodes[i].size + v.geo.Bs() < U32
    modifies v`disk, v`inodes, v`blockPool, v`owned, v`inodePool, v`live, v`meta, v`due
    ensures Consistent(v) && Losses(old(v.meta), old(v.due), old(v.blockPool.sb), v.meta, v.due, i)
    ensures old(DotsRight(v)) ==> DotsRight(v)
    ensures !Absent(old(Names(v))[i], name) ==>
        !made && v.live == old(v.live) && v.inodes == old(v.inodes) && v.disk == old(v.disk)
    ensures made ==>
        Absent(old(Names(v))[i], name) && Gains(old(Names(v)), Names(v), i, name, ino, if isDir then 2 else 1)
    ensures Ample(v.geo.per, old(v.inodes)[i], old(v.inodePool.sb), old(v.blockPool.sb)) ==>
        Absent(old(Names(v))[i], name) ==> made
  {
    var found, c, ftype := FindTarget(v, i, name);
    if found {
      made, ino := false, 0;
    } else if isDir {
      made, ino := VfsDir(v, i, name);
    } else {
      made, ino := VfsFile(v, i, name);
    }
  }

  lemma AmpleHasRoom(d: seq<Block>, per: nat, node: Inode, name: Block, inodes: nat, blocks: nat, free: nat, c: Cost)
    requires per > 0 && |node.iblock| == NSLOTS && blocks <= free + 1 && c == CostOf(d, per, node, name, free)
    ensures Ample(per, node, inodes, blocks) ==> c.room
  {
    if Ample(per, node, inodes, blocks) { FiveHaveRoom(d, per, node, name, free); }
  }

  lemma FiveHaveRoom(d: seq<Block>, per: nat, node: Inode, name: Block, free: nat)
    requires per > 0 && |node.iblock| == NSLOTS && free >= 4 && SlotIdx(per, NBlocks(per, node)) < NSLOTS
    ensures CostOf(d, per, node, name, free).room
  {
    FourAreEnough(d, per, node.iblock, NBlocks(per, node), Need(name), free);
  }

  /** What a volume has lost and what its directories' i_blocks leave out, and how many blocks are free. */
  datatype Books = Books(meta: set<nat>, due: Dues, free: nat)

  ghost function BooksOf(v: Volume): Books
    reads v
  {
    Books(v.meta, v.due, v.blockPool.sb)
  }

  /** The inode an operation is asked of. */
  function On(op: Op): nat {
    match op
    case OpWrite(i, _, _) => i
    case OpTruncate(i, _) => i
    case OpCreate(i, _) => i
    case OpMkdir(i, _) => i
    case OpUnlink(i, _) => i
  }

  predicate Creates(op: Op) {
    op.OpCreate? || op.OpMkdir?
  }

  /** What an operation does to the books: only a create with fewer than five blocks free loses anything or leaves
      anything out; an unlink forgets what was left out for the inode that goes. */
  ghost predicate Booked(b: Books, op: Op, b': Books) {
    if Creates(op) then Losses(b.meta, b.due, b.free, b'.meta, b'.due, op.dir)
    else b'.meta == b.meta && (b'.due == b.due || (op.OpUnlink? && exists c :: b'.due == b.due - {c}))
  }

  /** One operation on an inode in use; reading and writing are for files, names for directories. */
  method Step(v: Volume, op: Op)
    requires Consistent(v)
    modifies v`disk, v`inodes, v`blockPool, v`owned, v`inodePool, v`live, v`meta, v`due
    ensures Consistent(v) && Booked(old(BooksOf(v)), op, BooksOf(v)) && (old(DotsRight(v)) ==> DotsRight(v))
  {
    var i := On(op);
    var used := v.InUse(i);
    if !used { return; }
    if v.inodes[i].isDir { OnDir(v, op, i); } else { OnFile(v, op, i); }
  }

  /** What may be asked of a file. */
  method OnFile(v: Volume, op: Op, i: nat)
    requires Consistent(v) && i in v.live && !v.inodes[i].isDir
    modifies v`disk, v`inodes, v`blockPool, v`owned
    ensures Consistent(v) && v.meta == old(v.meta) && v.due == old(v.due) && (old(DotsRight(v)) ==> DotsRight(v))
  {
    match op {
      case OpWrite(_, buf, off) =>
        var r, done := WriteFile(v, i, buf, off);
        FileLeads(old(v.disk), old(v.inodes), v.disk, v.inodes, v.geo.per, v.live, i);
      case OpTruncate(_, len) =>
        TruncateFile(v, i, len);
        FileLeads(old(v.disk), old(v.inodes), v.disk, v.inodes, v.geo.per, v.live, i);
      case _ =>
    }
  }

  /** And of a directory. */
  method OnDir(v: Volume, op: Op, i: nat)
    requires Consistent(v) && i in v.live && v.inodes[i].isDir && (Creates(op) ==> op.dir == i)
    modifies v`disk, v`inodes, v`blockPool, v`owned, v`inodePool, v`live, v`meta, v`due
    ensures Consistent(v) && Booked(old(BooksOf(v)), op, BooksOf(v)) && (old(DotsRight(v)) ==> DotsRight(v))
  {
    if Creates(op) {
      Ask(v, i, op.name, op.OpMkdir?);
      return;
    }
    if op.OpUnlink? && Component(op.name) { Remove(v, i, op.name); }
  }

  method Remove(v: Volume, i: nat, name: Block)
    requires Consistent(v) && i in v.live && v.inodes[i].isDir && Component(name)
    modifies v`disk, v`inodes, v`blockPool, v`owned, v`inodePool, v`live, v`due
    ensures Consistent(v) && (old(DotsRight(v)) ==> DotsRight(v))
    ensures v.meta == old(v.meta) && (v.due == old(v.due) || exists c :: v.due == old(v.due) - {c})
  {
    ghost var d0, nodes0, live0, ns0 := v.disk, v.inodes, v.live, Names(v);
    var r, c, ftype := Unlink(v, i, name);
    if r == Unlinked && old(DotsRight(v)) {
      UnlinkLeads(ns0, nodes0, live0, Names(v), v.live, i, name, c);
      DirsLeft(d0, nodes0, v.disk, v.inodes, v.geo.per, live0, v.live, ns0, Names(v), i, name, c);
    }
  }

  method Ask(v: Volume, i: nat, name: Block, isDir: bool)
    requires Consistent(v) && i in v.live && v.inodes[i].isDir
    modifies v`disk, v`inodes, v`blockPool, v`owned, v`inodePool, v`live, v`meta, v`due
    ensures Consistent(v) && Losses(old(v.meta), old(v.due), old(v.blockPool.sb), v.meta, v.due, i)
    ensures old(DotsRight(v)) ==> DotsRight(v)
  {
    if Component(name) && v.inodes[i].size + v.geo.Bs() < U32 { var made, ino := VfsCreate(v, i, name, isDir); }
  }

  /** Such volumes exist: one with a root directory and nothing else on it. */
  method Format(geo: Geometry) returns (v: Volume, ghost root: nat)
    requires geo.Valid() && 0 < geo.inodesCount <= Start(geo.ipg, geo.Groups()) &&
        geo.firstData + |geo.Own()| < geo.blocksCount
    ensures fresh(v) && Consistent(v) && v.geo == geo && v.live == {root} && v.inodes[root].isDir &&
        v.meta == geo.Own() && v.due == map[]
    ensures Names(v)[root] == [Entry([DOT], root + 1, 2), Entry([DOT, DOT], 1, 2)] && DotsRight(v)
  {
    v := new Volume(geo);
    root := PlantRoot(v);
  }

  method PlantRoot(v: Volume) returns (ghost root: nat)
    requires v.Valid() && v.live == {} && v.blockPool.sb > 0 && v.inodePool.sb > 0
    modifies v`disk, v`blockPool, v`owned, v`inodes, v`inodePool, v`live
    ensures Consistent(v) && v.live == {root} && v.inodes[root].isDir && v.meta == old(v.meta) && v.due == old(v.due)
    ensures Names(v)[root] == [Entry([DOT], root + 1, 2), Entry([DOT, DOT], 1, 2)] && DotsRight(v)
  {
    NothingNamed(v.disk, v.geo.per, v.inodes);
    ghost var d0, nodes0 := v.disk, v.inodes;
    var ino;
    ino, root := NewDir(v, 1);
    assert v.live == {root} && DirAdded(d0, v.disk, v.geo.per, nodes0, v.inodes, {}, v.live, root,
        DotNames(root + 1, 1));
    RootMade(d0, v.disk, v.geo.per, nodes0, v.inodes, v.live, root);
  }

  lemma RootLeads(ns: seq<seq<Entry>>, quota: seq<nat>, nodes: seq<Inode>, live: set<nat>, root: nat)
    requires Linked(ns, quota, {}) && root < |ns| == |nodes| && live == {root} && nodes[root].isDir
    requires forall i {:trigger ns[i]} :: 0 <= i < |ns| ==> ns[i] == []
    ensures Leads(ns[root := DotNames(root + 1, 1)], DirsOf(nodes, live))
  {
    var dirs: set<nat> := {};
    assert forall x: nat {:trigger SelfAt(ns, dirs, x)} :: SelfAt(ns, dirs, x);
    assert forall i: nat, k: nat, c: nat {:trigger BackAt(ns, dirs, i, k, c)} :: BackAt(ns, dirs, i, k, c);
    DottedNew(ns, quota, {}, dirs, root, 1);
    assert DirsOf(nodes, live) == dirs + {root};
  }

  lemma RootMade(d0: seq<Block>, d: seq<Block>, per: nat, nodes0: seq<Inode>, nodes: seq<Inode>, live: set<nat>,
      root: nat)
    requires Clean(d0, per, nodes0, {}) && live == {root}
    requires DirAdded(d0, d, per, nodes0, nodes, {}, live, root, DotNames(root + 1, 1))
    ensures Clean(d, per, nodes, live) && Leads(NamesOf(d, per, nodes, live), DirsOf(nodes, live))
    ensures NamesOf(d, per, nodes, live)[root] == [Entry([DOT], root + 1, 2), Entry([DOT, DOT], 1, 2)]
  {
    NewDirNode(d0, d, per, nodes0, {}, root, nodes[root], DotNames(root + 1, 1));
    assert {} + {root} == live && nodes == nodes0[root := nodes[root]];
    RootLeads(NamesOf(d0, per, nodes0, {}), Quotas(nodes0), nodes, live, root);
  }

  lemma NothingNamed(d: seq<Block>, per: nat, nodes: seq<Inode>)
    requires per > 0 && Shaped15(nodes)
    ensures Clean(d, per, nodes, {})
  {
    var ns := NamesOf(d, per, nodes, {});
    forall i: nat ensures SoundAt(ns, i, {}) {}
  }

  // ------------------------------------------------------------ the books of a run

  ghost predicate BookedAt(h: seq<Books>, ops: seq<Op>, k: nat) {
    k < |ops| && k + 1 < |h| ==> Booked(h[k], ops[k], h[k + 1])
  }

  ghost predicate Ledger(h: seq<Books>, ops: seq<Op>) {
    |h| == |ops| + 1 && forall k: nat {:trigger BookedAt(h, ops, k)} :: BookedAt(h, ops, k)
  }

  /** How many of the first `n` operations are creates that find fewer than five blocks free. */
  ghost function Tight(h: seq<Books>, ops: seq<Op>, n: nat): nat
    requires n <= |ops| < |h|
  {
    if n == 0 then 0 else Tight(h, ops, n - 1) + if Creates(ops[n - 1]) && h[n - 1].free < 5 then 1 else 0
  }

  /** `due` leaves out what `due0` does, for some of its inodes. */
  ghost predicate Fewer(due0: Dues, due: Dues) {
    forall x {:trigger x in due} :: x in due ==> x in due0 && due[x] == due0[x]
  }

  /** A run loses at most three blocks for every such create, and leaves at most as many out of any i_blocks; without
      one it loses nothing and leaves nothing out. */
  lemma {:induction false} LedgerBound(h: seq<Books>, ops: seq<Op>, n: nat)
    requires Ledger(h, ops) && n <= |ops|
    ensures h[0].meta <= h[n].meta && |h[n].meta| <= |h[0].meta| + 3 * Tight(h, ops, n)
    ensures forall x: nat :: Due(h[n].due, x) <= Due(h[0].due, x) + 3 * Tight(h, ops, n)
    ensures Tight(h, ops, n) == 0 ==> h[n].meta == h[0].meta && Fewer(h[0].due, h[n].due)
  {
    if n > 0 {
      var m: nat := n - 1;
      LedgerBound(h, ops, m);
      assert BookedAt(h, ops, m);
      if !Creates(ops[m]) && h[n].due != h[m].due {
        var c :| h[n].due == h[m].due - {c};
      }
    }
  }

  lemma LedgerMore(h: seq<Books>, ops: seq<Op>, k: nat, b: Books)
    requires k < |ops| && Ledger(h, ops[..k]) && Booked(h[k], ops[k], b)
    ensures Ledger(h + [b], ops[..k + 1])
  {
    var h', ops' := h + [b], ops[..k + 1];
    forall j: nat ensures BookedAt(h', ops', j) {
      assert BookedAt(h, ops[..k], j);
    }
  }

  /** i_blocks of every inode in use counts exactly the blocks it leads to. */
  ghost predicate AllCounted(v: Volume)
    requires Consistent(v)
    reads v
  {
    forall i {:trigger v.inodes[i]} :: i in v.live && 0 <= i < |v.inodes| ==>
        v.inodes[i].blocks == |Sum(Slots(v.disk, v.geo.per, v.inodes[i].iblock))|
  }

  lemma NothingDue(v: Volume)
    requires Consistent(v) && v.due == map[]
    ensures AllCounted(v)
  {
    forall i | i in v.live && 0 <= i < |v.inodes|
        ensures v.inodes[i].blocks == |Sum(Slots(v.disk, v.geo.per, v.inodes[i].iblock))| {
      assert ChargedAt(v.disk, v.geo.per, v.inodes, v.due, i);
    }
  }

  /** Whatever is asked of it and in whatever order, the volume stays consistent: every marked block is reached from one
      inode, once, or belongs to the file system, or was lost; and `h` are its books all along. What it loses is
      bounded by the creates that found fewer than five blocks free; without any it loses nothing, and if every i_blocks
      was exact it still is. */
  method Run(v: Volume, ops: seq<Op>) returns (ghost h: seq<Books>)
    requires Consistent(v)
    modifies v`disk, v`inodes, v`blockPool, v`owned, v`inodePool, v`live, v`meta, v`due
    ensures Consistent(v) && Ledger(h, ops) && h[0] == old(BooksOf(v)) && h[|ops|] == BooksOf(v)
    ensures old(DotsRight(v)) ==> DotsRight(v)
    ensures old(v.meta) <= v.meta && |v.meta| <= |old(v.meta)| + 3 * Tight(h, ops, |ops|)
    ensures forall x: nat :: Due(v.due, x) <= Due(old(v.due), x) + 3 * Tight(h, ops, |ops|)
    ensures Tight(h, ops, |ops|) == 0 ==>
        v.meta == old(v.meta) && Fewer(old(v.due), v.due) && (old(v.due) == map[] ==> AllCounted(v))
  {
    h := [BooksOf(v)];
    for k := 0 to |ops|
      invariant Consistent(v) && |h| == k + 1 && h[0] == old(BooksOf(v)) && h[k] == BooksOf(v) && Ledger(h, ops[..k])
      invariant old(DotsRight(v)) ==> DotsRight(v)
    {
      Step(v, ops[k]);
      LedgerMore(h, ops, k, BooksOf(v));
      h := h + [BooksOf(v)];
    }
    assert ops[..|ops|] == ops;
    LedgerBound(h, ops, |ops|);
    if Tight(h, ops, |ops|) == 0 && old(v.due) == map[] {
      assert v.due == map[];
      NothingDue(v);
    }
  }
}
