/** The indirect block trees of an ext2 inode as values.
    `Abs` reads a tree off the disk; everything the driver promises about a file's block map
    (kernel/fs/ext2.c:129-170, 462-577) is stated about these values. */
module BlockTree {
  import opened Bytes
  import opened Chunks

  /** A tree of level 0 is a data block; a tree of level l > 0 is a pointer block over level l-1. */
  datatype Node = Nil | Leaf(blk: nat) | Inner(blk: nat, kids: seq<Node>)

  /** File blocks under one pointer of the given level: per^level. */
  function Cap(per: nat, level: nat): (c: nat)
    ensures per > 0 ==> c > 0
  {
    if level == 0 then 1 else
      if per > 0 then StartMono(Cap(per, level - 1), 0, per); Start(Cap(per, level - 1), per) else 0
  }

  function Blk(d: seq<Block>, b: nat): Block {
    if b < |d| then d[b] else []
  }

  ghost function Abs(d: seq<Block>, per: nat, b: nat, level: nat): Node
    decreases level
  {
    if b == 0 then Nil
    else if level == 0 then Leaf(b)
    else Inner(b, seq(per, i requires 0 <= i < per => Abs(d, per, Ptr(Blk(d, b), i), level - 1)))
  }

  predicate Shaped(n: Node, per: nat, level: nat) {
    match n
    case Nil => true
    case Leaf(b) => level == 0 && b != 0
    case Inner(b, kids) => level > 0 && b != 0 && |kids| == per && forall i :: 0 <= i < per ==>
        Shaped(kids[i], per, level - 1)
  }

  lemma {:induction false} AbsShaped(d: seq<Block>, per: nat, b: nat, level: nat)
    ensures Shaped(Abs(d, per, b, level), per, level)
    decreases level
  {
    if b != 0 && level > 0 {
      forall i | 0 <= i < per
        ensures Shaped(Abs(d, per, Ptr(Blk(d, b), i), level - 1), per, level - 1)
      {
        AbsShaped(d, per, Ptr(Blk(d, b), i), level - 1);
      }
    }
  }

  /** Disk block of file block `idx` (within the tree); 0 is a hole. */
  function At(n: Node, per: nat, level: nat, idx: nat): nat
    requires per > 0
    decreases n
  {
    match n
    case Nil => 0
    case Leaf(b) => b
    case Inner(_, kids) =>
      if level > 0 && Slot(per, level, idx) < |kids| then At(kids[Slot(per, level, idx)], per, level - 1,
          Off(per, level, idx)) else 0
  }

  /** How many blocks file block `idx`, a hole, needs: itself and the pointer blocks missing on the way to it. */
  function Needs(n: Node, per: nat, level: nat, idx: nat): nat
    requires per > 0
    decreases n
  {
    match n
    case Nil => level + 1
    case Leaf(_) => 0
    case Inner(_, kids) =>
      if level > 0 && Slot(per, level, idx) < |kids| then Needs(kids[Slot(per, level, idx)], per, level - 1,
          Off(per, level, idx)) else 0
  }

  /** Which child covers `idx`, and where inside it: quotient and remainder by the child's span. */
  function Slot(per: nat, level: nat, idx: nat): nat
    requires per > 0 && level > 0
  {
    GroupAt(Cap(per, level - 1), idx)
  }

  function Off(per: nat, level: nat, idx: nat): (o: nat)
    requires per > 0 && level > 0
    ensures o < Cap(per, level - 1)
  {
    BitAt(Cap(per, level - 1), idx)
  }

  lemma SlotBound(per: nat, level: nat, idx: nat)
    requires per > 0 && level > 0 && idx < Cap(per, level)
    ensures Slot(per, level, idx) < per
    ensures idx == Start(Cap(per, level - 1), Slot(per, level, idx)) + Off(per, level, idx)
  {
    Recombine(Cap(per, level - 1), idx);
    Located(Cap(per, level), Cap(per, level - 1), per, idx);
  }

  /** Every block of the tree, data and pointer blocks alike, with multiplicity. */
  ghost function Blocks(n: Node): multiset<nat>
    decreases n, 1
  {
    match n
    case Nil => multiset{}
    case Leaf(b) => multiset{b}
    case Inner(b, kids) => multiset{b} + Sum(kids)
  }

  ghost function Sum(ns: seq<Node>): multiset<nat>
    decreases ns, 0
  {
    if ns == [] then multiset{} else Blocks(ns[0]) + Sum(ns[1..])
  }

  lemma {:induction false} SumUpdate(ns: seq<Node>, i: nat, n: Node)
    requires i < |ns|
    ensures Sum(ns[i := n]) == Blocks(n) + Sum(ns[i := Nil])
  {
    if i == 0 {
      assert ns[0 := n][1..] == ns[1..] == ns[0 := Nil][1..];
    } else {
      assert ns[i := n][1..] == ns[1..][i - 1 := n];
      assert ns[i := Nil][1..] == ns[1..][i - 1 := Nil];
      SumUpdate(ns[1..], i - 1, n);
    }
  }

  lemma SumSplit(ns: seq<Node>, i: nat)
    requires i < |ns|
    ensures Sum(ns) == Blocks(ns[i]) + Sum(ns[i := Nil])
  {
    SumUpdate(ns, i, ns[i]);
    assert ns[i := ns[i]] == ns;
  }

  lemma SumOther(ns: seq<Node>, i: nat, j: nat)
    requires i < |ns| && j < |ns| && i != j
    ensures Blocks(ns[j]) <= Sum(ns[i := Nil])
  {
    SumSplit(ns[i := Nil], j);
  }

  lemma {:induction false} SumOfNils(ns: seq<Node>)
    requires forall i :: 0 <= i < |ns| ==> ns[i] == Nil
    ensures Sum(ns) == multiset{}
  {
    if ns != [] { SumOfNils(ns[1..]); }
  }

  /** Pointer blocks only. */
  ghost predicate IsInner(n: Node, x: nat) {
    n.Inner? && (n.blk == x || exists i :: 0 <= i < |n.kids| && IsInner(n.kids[i], x))
  }

  lemma {:induction false} InnerInBlocks(n: Node, x: nat)
    requires IsInner(n, x)
    ensures x in Blocks(n)
    decreases n
  {
    if n.blk != x {
      var i :| 0 <= i < |n.kids| && IsInner(n.kids[i], x);
      InnerInBlocks(n.kids[i], x);
      SumSplit(n.kids, i);
    }
  }

  /** A disk that keeps a tree's pointer blocks keeps the tree. */
  lemma {:induction false} Frame(d: seq<Block>, d': seq<Block>, per: nat, b: nat, level: nat)
    requires forall x :: IsInner(Abs(d, per, b, level), x) ==> Blk(d', x) == Blk(d, x)
    ensures Abs(d', per, b, level) == Abs(d, per, b, level)
    decreases level
  {
    if b != 0 && level > 0 {
      var n := Abs(d, per, b, level);
      assert IsInner(n, b);
      forall i | 0 <= i < per
        ensures Abs(d', per, Ptr(Blk(d, b), i), level - 1) == n.kids[i]
      {
        forall x | IsInner(n.kids[i], x)
          ensures Blk(d', x) == Blk(d, x)
        {
          assert IsInner(n, x);
        }
        Frame(d, d', per, Ptr(Blk(d, b), i), level - 1);
      }
      assert Abs(d', per, b, level).kids == n.kids;
    }
  }

  lemma FrameBlocks(d: seq<Block>, d': seq<Block>, per: nat, b: nat, level: nat)
    requires forall x :: x in Blocks(Abs(d, per, b, level)) ==> Blk(d', x) == Blk(d, x)
    ensures Abs(d', per, b, level) == Abs(d, per, b, level)
  {
    forall x | IsInner(Abs(d, per, b, level), x)
      ensures Blk(d', x) == Blk(d, x)
    {
      InnerInBlocks(Abs(d, per, b, level), x);
    }
    Frame(d, d', per, b, level);
  }

  lemma FrameWrite(d: seq<Block>, per: nat, x: nat, b: Block, p: nat, level: nat)
    requires x < |d| && x !in Blocks(Abs(d, per, p, level))
    ensures Abs(d[x := b], per, p, level) == Abs(d, per, p, level)
  {
    FrameBlocks(d, d[x := b], per, p, level);
  }

  lemma {:induction false} AtInBlocks(n: Node, per: nat, level: nat, idx: nat)
    requires per > 0
    requires At(n, per, level, idx) != 0
    ensures At(n, per, level, idx) in Blocks(n)
    decreases n
  {
    if n.Inner? {
      AtInBlocks(n.kids[Slot(per, level, idx)], per, level - 1, Off(per, level, idx));
      SumSplit(n.kids, Slot(per, level, idx));
    }
  }

  /** In an unshared tree a data block is not also a pointer block. */
  lemma {:induction false} AtNotInner(n: Node, per: nat, level: nat, idx: nat)
    requires per > 0
    requires At(n, per, level, idx) != 0 && Blocks(n)[At(n, per, level, idx)] <= 1
    ensures !IsInner(n, At(n, per, level, idx))
    decreases n
  {
    var x := At(n, per, level, idx);
    if n.Inner? {
      var s := Slot(per, level, idx);
      SumSplit(n.kids, s);
      AtInBlocks(n.kids[s], per, level - 1, Off(per, level, idx));
      AtNotInner(n.kids[s], per, level - 1, Off(per, level, idx));
      forall i | 0 <= i < |n.kids|
        ensures !IsInner(n.kids[i], x)
      {
        if i != s && IsInner(n.kids[i], x) {
          InnerInBlocks(n.kids[i], x);
          SumOther(n.kids, s, i);
        }
      }
    }
  }

  /** In an unshared tree two file blocks never share a disk block. */
  lemma {:induction false} AtDistinct(n: Node, per: nat, level: nat, i: nat, j: nat)
    requires per > 0 && Shaped(n, per, level) && i < Cap(per, level) && j < Cap(per, level) && i != j
    requires At(n, per, level, i) != 0 && Blocks(n)[At(n, per, level, i)] <= 1
    ensures At(n, per, level, i) != At(n, per, level, j)
    decreases n
  {
    if n.Inner? {
      SlotBound(per, level, i);
      SlotBound(per, level, j);
      var s, t := Slot(per, level, i), Slot(per, level, j);
      var oi, oj := Off(per, level, i), Off(per, level, j);
      SumSplit(n.kids, s);
      AtInBlocks(n.kids[s], per, level - 1, oi);
      if s == t {
        AtDistinct(n.kids[s], per, level - 1, oi, oj);
      } else if At(n.kids[t], per, level - 1, oj) == At(n.kids[s], per, level - 1, oi) {
        AtInBlocks(n.kids[t], per, level - 1, oj);
        SumOther(n.kids, s, t);
      }
    }
  }

  // ---------------------------------------------------------------- trimming

  function Sat(a: nat, b: nat): nat { if a > b then a - b else 0 }

  /** The tree left after every file block from `start` on is given up: a subtree wholly past
      `start` disappears with its pointer blocks, the straddling one is trimmed and kept. */
  function Trim(n: Node, per: nat, level: nat, start: nat): Node
    decreases n
  {
    if n.Nil? || start == 0 then Nil
    else if n.Leaf? || level == 0 then n
    else Inner(n.blk,
        seq(|n.kids|,
        s requires 0 <= s < |n.kids| => Trim(n.kids[s], per, level - 1, Sat(start, Start(Cap(per, level - 1), s)))))
  }

  /** A trim past the end of the tree keeps it. */
  lemma {:induction false} TrimPast(n: Node, per: nat, level: nat, start: nat)
    requires per > 0 && Shaped(n, per, level) && start >= Cap(per, level)
    ensures Trim(n, per, level, start) == n
    decreases n
  {
    if n.Inner? {
      var c := Cap(per, level - 1);
      forall s | 0 <= s < per
        ensures Trim(n.kids[s], per, level - 1, Sat(start, Start(c, s))) == n.kids[s]
      {
        StartMono(c, s, per);
        TrimPast(n.kids[s], per, level - 1, Sat(start, Start(c, s)));
      }
      assert Trim(n, per, level, start).kids == n.kids;
    }
  }

  /** The block map after a trim: kept below `start`, holes from `start` on. */
  lemma {:induction false} TrimAt(n: Node, per: nat, level: nat, start: nat, idx: nat)
    requires per > 0 && Shaped(n, per, level) && idx < Cap(per, level)
    ensures At(Trim(n, per, level, start), per, level, idx) == if idx < start then At(n, per, level, idx) else 0
    decreases n
  {
    if n.Inner? && start > 0 {
      SlotBound(per, level, idx);
      var c := Cap(per, level - 1);
      var s, o := Slot(per, level, idx), Off(per, level, idx);
      TrimAt(n.kids[s], per, level - 1, Sat(start, Start(c, s)), o);
    }
  }

  /** The subtree reached by a path of child slots, the block at its root (0 if none), and the
      first file block it covers. */
  function Sub(n: Node, path: seq<nat>): Node
    decreases |path|
  {
    if path == [] then n
    else if n.Inner? && path[0] < |n.kids| then Sub(n.kids[path[0]], path[1..])
    else Nil
  }

  function Root(n: Node): nat { if n.Nil? then 0 else n.blk }

  function Base(per: nat, level: nat, path: seq<nat>): nat
    requires |path| <= level
    decreases |path|
  {
    if path == [] then 0 else Start(Cap(per, level - 1), path[0]) + Base(per, level - 1, path[1..])
  }

  /** Which blocks a trim keeps: exactly those, data or pointer, whose span begins below `start`. */
  lemma {:induction false} TrimKeeps(n: Node, per: nat, level: nat, start: nat, path: seq<nat>)
    requires Shaped(n, per, level) && |path| <= level
    ensures Root(Sub(Trim(n, per, level, start), path)) ==
            if Base(per, level, path) < start then Root(Sub(n, path)) else 0
    decreases |path|
  {
    if path != [] && n.Inner? && path[0] < per && start > 0 {
      var rest := Sat(start, Start(Cap(per, level - 1), path[0]));
      assert Trim(n, per, level, start).kids[path[0]] == Trim(n.kids[path[0]], per, level - 1, rest);
      TrimKeeps(n.kids[path[0]], per, level - 1, rest, path[1..]);
    }
  }

  /** Overwriting one slot of a pointer block replaces one child and keeps the others, as long as the
      pointer block itself is not part of any child. */
  lemma WriteSlot(d: seq<Block>, per: nat, b: nat, level: nat, slot: nat, c: nat)
    requires level > 0 && 0 < b < |d| && slot < per && |d[b]| == 4 * per && c < U32
    requires b !in Sum(Abs(d, per, b, level).kids[slot := Abs(d, per, c, level - 1)])
    ensures Abs(d[b := Wr32(d[b], 4 * slot, c)], per, b, level)
            == Inner(b, Abs(d, per, b, level).kids[slot := Abs(d, per, c, level - 1)])
  {
    var d' := d[b := Wr32(d[b], 4 * slot, c)];
    var ks := Abs(d, per, b, level).kids[slot := Abs(d, per, c, level - 1)];
    forall i | 0 <= i < per
      ensures Abs(d', per, b, level).kids[i] == ks[i]
    {
      PtrWritten(d[b], slot, c, i);
      WriteSlotKid(d, per, b, level, slot, c, d'[b], i);
    }
    assert Abs(d', per, b, level).kids == ks;
  }

  lemma WriteSlotKid(d: seq<Block>, per: nat, b: nat, level: nat, slot: nat, c: nat, nb: Block, i: nat)
    requires level > 0 && 0 < b < |d| && slot < per && i < per
    requires Ptr(nb, i) == if i == slot then c else Ptr(d[b], i)
    requires b !in Sum(Abs(d, per, b, level).kids[slot := Abs(d, per, c, level - 1)])
    ensures Abs(d[b := nb], per, b, level).kids[i] == Abs(d, per, b, level).kids[slot := Abs(d, per, c, level - 1)][i]
  {
    var ks := Abs(d, per, b, level).kids[slot := Abs(d, per, c, level - 1)];
    assert ks[i] == Abs(d, per, Ptr(nb, i), level - 1);
    SumSplit(ks, i);
    FrameBlocks(d, d[b := nb], per, Ptr(nb, i), level - 1);
  }

  /** Swapping one child for another moves exactly their blocks. */
  lemma KidSwapped(b: nat, kids: seq<Node>, slot: nat, c: Node, rest: multiset<nat>)
    requires slot < |kids|
    ensures Blocks(Inner(b, kids)) + rest == Blocks(kids[slot]) + (multiset{b} + Sum(kids[slot := Nil]) + rest)
    ensures Blocks(Inner(b, kids[slot := c])) + rest == Blocks(c) + (multiset{b} + Sum(kids[slot := Nil]) + rest)
  {
    SumSplit(kids, slot);
    SumUpdate(kids, slot, c);
  }

  /** A fresh zeroed pointer block is an empty tree. */
  lemma EmptyTree(d: seq<Block>, per: nat, b: nat, level: nat)
    requires level > 0 && 0 < b < |d| && d[b] == Zeros(4 * per)
    ensures Abs(d, per, b, level).Inner? && forall i :: 0 <= i < per ==> Abs(d, per, b, level).kids[i] == Nil
    ensures Blocks(Abs(d, per, b, level)) == multiset{b}
  {
    forall i | 0 <= i < per
      ensures Abs(d, per, b, level).kids[i] == Nil
    {
      PtrOfZeros(4 * per, i);
    }
    SumOfNils(Abs(d, per, b, level).kids);
  }

  /** `rest` and the tree at `root` together own every block of `own` once. */
  ghost predicate Splits(d: seq<Block>, per: nat, root: nat, level: nat, rest: multiset<nat>, own: set<nat>) {
    Blocks(Abs(d, per, root, level)) + rest == multiset(own)
  }

  ghost predicate Hole(d: seq<Block>, per: nat, root: nat, level: nat, idx: nat)
    requires per > 0
  {
    At(Abs(d, per, root, level), per, level, idx) == 0
  }

  // ---------------------------------------------------------------- growing
  // `own` is the set of blocks in use by files and `rest` those of them outside the tree.

  /** Where every claimed block has one owner, a child shares no block with its siblings, its parent
      or the rest. */
  lemma Separate(b: nat, kids: seq<Node>, slot: nat, rest: multiset<nat>, own: set<nat>, x: nat)
    requires slot < |kids| && Blocks(Inner(b, kids)) + rest == multiset(own)
    requires x == b || x in rest || exists i :: 0 <= i < |kids| && i != slot && x in Blocks(kids[i])
    ensures x in own && x !in Blocks(kids[slot])
  {
    KidSwapped(b, kids, slot, Nil, rest);
    if i :| 0 <= i < |kids| && i != slot && x in Blocks(kids[i]) {
      SumOther(kids, slot, i);
    }
    assert x in multiset{b} + Sum(kids[slot := Nil]) + rest;
    assert multiset(own)[x] <= 1;
  }

  /** A disk on which only one child's blocks (and unclaimed ones) changed. */
  lemma OtherKidsKept(d: seq<Block>, d1: seq<Block>, per: nat, root: nat, level: nat, slot: nat, rest: multiset<nat>,
      own: set<nat>)
    requires level > 0 && root != 0 && slot < per
    requires Blocks(Abs(d, per, root, level)) + rest == multiset(own)
    requires forall x :: x in own && !IsInner(Abs(d, per, root, level).kids[slot], x) ==> Blk(d1, x) == Blk(d, x)
    ensures Blk(d1, root) == Blk(d, root)
    ensures Abs(d1, per, root, level) ==
        Inner(root, Abs(d, per, root, level).kids[slot := Abs(d1, per, Ptr(Blk(d, root), slot), level - 1)])
  {
    var n := Abs(d, per, root, level);
    Apart(root, n.kids, slot, rest, own, root);
    var c := Abs(d1, per, Ptr(Blk(d, root), slot), level - 1);
    var n1 := Abs(d1, per, root, level);
    forall i | 0 <= i < per
      ensures n1.kids[i] == n.kids[slot := c][i]
    {
      if i != slot {
        SiblingKept(d, d1, per, root, level, slot, i, rest, own);
      }
    }
    assert n1.kids == n.kids[slot := c];
  }

  lemma SiblingKept(d: seq<Block>, d1: seq<Block>, per: nat, root: nat, level: nat, slot: nat, i: nat,
      rest: multiset<nat>, own: set<nat>)
    requires level > 0 && root != 0 && slot < per && i < per && i != slot
    requires Blocks(Abs(d, per, root, level)) + rest == multiset(own)
    requires forall x :: x in own && !IsInner(Abs(d, per, root, level).kids[slot], x) ==> Blk(d1, x) == Blk(d, x)
    ensures Abs(d1, per, Ptr(Blk(d, root), i), level - 1) == Abs(d, per, root, level).kids[i]
  {
    var n := Abs(d, per, root, level);
    forall x | x in Blocks(n.kids[i])
      ensures Blk(d1, x) == Blk(d, x)
    {
      Apart(root, n.kids, slot, rest, own, x);
    }
    FrameBlocks(d, d1, per, Ptr(Blk(d, root), i), level - 1);
  }

  lemma Apart(b: nat, kids: seq<Node>, slot: nat, rest: multiset<nat>, own: set<nat>, x: nat)
    requires slot < |kids| && Blocks(Inner(b, kids)) + rest == multiset(own)
    requires x == b || x in rest || exists i :: 0 <= i < |kids| && i != slot && x in Blocks(kids[i])
    ensures x in own && !IsInner(kids[slot], x)
  {
    Separate(b, kids, slot, rest, own, x);
    if IsInner(kids[slot], x) { InnerInBlocks(kids[slot], x); }
  }

  /** The pointer block after a child grew, rewritten if the child's root is new. */
  lemma KidGrown(d: seq<Block>, d1: seq<Block>, per: nat, root: nat, level: nat, slot: nat, child: nat,
                 rest: multiset<nat>, own: set<nat>, own1: set<nat>)
    requires level > 0 && 0 < root < |d1| && slot < per && |d1[root]| == 4 * per && child < U32
    requires Blocks(Abs(d, per, root, level)) + rest == multiset(own)
    requires forall x :: x in own && !IsInner(Abs(d, per, root, level).kids[slot], x) ==> Blk(d1, x) == Blk(d, x)
    requires Blocks(Abs(d1, per, child, level - 1)) +
        (multiset{root} + Sum(Abs(d, per, root, level).kids[slot := Nil]) + rest) == multiset(own1)
    ensures var d2 := Relinked(d1, root, slot, Ptr(Blk(d, root), slot), child);
      && Abs(d2, per, root, level) == Inner(root, Abs(d, per, root, level).kids[slot := Abs(d1, per, child, level - 1)])
      && Blocks(Abs(d2, per, root, level)) + rest == multiset(own1)
  {
    var n, c := Abs(d, per, root, level), Abs(d1, per, child, level - 1);
    OtherKidsKept(d, d1, per, root, level, slot, rest, own);
    KidSwapped(root, n.kids, slot, c, rest);
    var n1 := Abs(d1, per, root, level);
    assert n1.kids[slot := c] == n.kids[slot := c];
    if child != Ptr(Blk(d, root), slot) {
      OwnedOnce(root, Sum(n.kids[slot := c]), rest, own1);
      WriteSlot(d1, per, root, level, slot, child);
    }
  }

  lemma OwnedOnce(b: nat, s: multiset<nat>, rest: multiset<nat>, own: set<nat>)
    requires multiset{b} + s + rest == multiset(own)
    ensures b !in s
  {
    assert multiset(own)[b] <= 1;
  }

  /** `n'` maps file block `idx` to `data` and every other file block as `n` does. */
  ghost predicate Remapped(n: Node, n': Node, per: nat, level: nat, idx: nat, data: nat)
    requires per > 0
  {
    forall j :: 0 <= j < Cap(per, level) ==> At(n', per, level, j) == if j == idx then data else At(n, per, level, j)
  }

  lemma KidRemapped(n: Node, per: nat, level: nat, idx: nat, c: Node, data: nat)
    requires per > 0 && level > 0 && n.Inner? && |n.kids| == per && idx < Cap(per, level) && Slot(per, level, idx) < per
    requires Remapped(n.kids[Slot(per, level, idx)], c, per, level - 1, Off(per, level, idx), data)
    ensures Remapped(n, Inner(n.blk, n.kids[Slot(per, level, idx) := c]), per, level, idx, data)
  {
    var n' := Inner(n.blk, n.kids[Slot(per, level, idx) := c]);
    SlotBound(per, level, idx);
    forall j | 0 <= j < Cap(per, level)
      ensures At(n', per, level, j) == if j == idx then data else At(n, per, level, j)
    {
      SlotBound(per, level, j);
    }
  }

  /** The tree at `root` became the tree at `root'` by giving file block `idx` the block `data`:
      unless `data` is 0 it is a fresh zeroed block; the tree and `rest` still own every claimed block
      once; only the tree's own pointer blocks and unclaimed blocks were written. */
  ghost predicate Grew(d: seq<Block>, d': seq<Block>, per: nat, root: nat, root': nat, level: nat, idx: nat, data: nat,
                       rest: multiset<nat>, own: set<nat>, own': set<nat>)
    requires per > 0
  {
    && Splits(d', per, root', level, rest, own')
    && own <= own'
    && Remapped(Abs(d, per, root, level), Abs(d', per, root', level), per, level, idx, data)
    && (data != 0 ==> data in own' && data !in own && Blk(d', data) == Zeros(4 * per))
    && (forall x :: x in own && !IsInner(Abs(d, per, root, level), x) ==> Blk(d', x) == Blk(d, x))
  }

  /** What allocating `needs` blocks does to the number of free ones, `free` before and `free'` after: it takes what it
      needs if there is that much, and everything there is otherwise. */
  ghost predicate Spent(free: nat, free': nat, needs: nat, data: nat) {
    && (data != 0 <==> free >= needs)
    && free' == if free >= needs then free - needs else 0
  }

  /** A data block on its own. */
  lemma GrewLeaf(d: seq<Block>, per: nat, b: nat, rest: multiset<nat>, own: set<nat>)
    requires per > 0 && 0 < b < |d| && b !in own && rest == multiset(own)
    ensures Grew(d, d[b := Zeros(4 * per)], per, 0, b, 0, 0, b, rest, own, own + {b})
  {
  }

  /** Running out of blocks before anything was created. */
  lemma GrewNothing(d: seq<Block>, per: nat, root: nat, level: nat, idx: nat, rest: multiset<nat>, own: set<nat>)
    requires per > 0 && Splits(d, per, root, level, rest, own) && Hole(d, per, root, level, idx)
    ensures Grew(d, d, per, root, root, level, idx, 0, rest, own, own)
  {
  }

  /** A fresh pointer block, then a growth below it, is a growth of the empty tree. */
  lemma GrewFresh(d: seq<Block>, d': seq<Block>, per: nat, b: nat, level: nat, idx: nat, data: nat,
                  rest: multiset<nat>, own: set<nat>, own': set<nat>)
    requires per > 0 && level > 0 && 0 < b < |d| && b !in own && rest == multiset(own) && idx < Cap(per, level)
    requires Grew(d[b := Zeros(4 * per)], d', per, b, b, level, idx, data, rest, own + {b}, own')
    ensures Grew(d, d', per, 0, b, level, idx, data, rest, own, own')
  {
    var d1 := d[b := Zeros(4 * per)];
    EmptyTree(d1, per, b, level);
    EmptyAt(d1, per, b, level);
    forall x | x in own
      ensures Blk(d', x) == Blk(d, x)
    {
      if IsInner(Abs(d1, per, b, level), x) {
        InnerInBlocks(Abs(d1, per, b, level), x);
      }
    }
  }

  lemma EmptyNeeds(d: seq<Block>, per: nat, b: nat, level: nat, idx: nat)
    requires per > 0 && level > 0 && 0 < b < |d| && d[b] == Zeros(4 * per) && idx < Cap(per, level)
    ensures Needs(Abs(d, per, b, level), per, level, idx) == level
  {
    EmptyTree(d, per, b, level);
    SlotBound(per, level, idx);
  }

  lemma EmptyAt(d: seq<Block>, per: nat, b: nat, level: nat)
    requires per > 0 && level > 0 && 0 < b < |d| && d[b] == Zeros(4 * per)
    ensures forall j :: 0 <= j < Cap(per, level) ==> At(Abs(d, per, b, level), per, level, j) == 0
  {
    EmptyTree(d, per, b, level);
    forall j | 0 <= j < Cap(per, level)
      ensures At(Abs(d, per, b, level), per, level, j) == 0
    {
      SlotBound(per, level, j);
    }
  }

  /** The pointer block rewritten if the child's root is new. */
  function Relinked(d: seq<Block>, root: nat, slot: nat, before: nat, child: nat): seq<Block>
    requires root < |d| && 4 * slot + 4 <= |d[root]| && child < U32
  {
    if child == before then d else d[root := Wr32(d[root], 4 * slot, child)]
  }

  /** A growth of one child, then the relinked pointer block, is a growth of the tree. */
  lemma GrewKid(d: seq<Block>, d1: seq<Block>, per: nat, root: nat, level: nat, idx: nat, slot: nat, before: nat,
      child: nat,
                data: nat, rest: multiset<nat>, rest1: multiset<nat>, own: set<nat>, own1: set<nat>)
    requires per > 0 && level > 0 && idx < Cap(per, level) && child < U32
    requires root != 0 && Splits(d, per, root, level, rest, own)
    requires root < |d1| && |d1[root]| == 4 * per && slot == Slot(per, level, idx) < per &&
        before == Ptr(Blk(d, root), slot)
    requires rest1 == Beside(d, per, root, level, slot, rest)
    requires Grew(d, d1, per, before, child, level - 1, Off(per, level, idx), data, rest1, own, own1)
    ensures Grew(d, Relinked(d1, root, slot, before, child), per, root, root, level, idx, data, rest, own, own1)
  {
    var n := Abs(d, per, root, level);
    var d2 := Relinked(d1, root, slot, before, child);
    KidGrown(d, d1, per, root, level, slot, child, rest, own, own1);
    KidRemapped(n, per, level, idx, Abs(d1, per, child, level - 1), data);
    assert root in own by { assert root in Blocks(n) + rest; }
    GrewKidFrame(d, d1, d2, n, root, slot, own);
  }

  lemma GrewKidFrame(d: seq<Block>, d1: seq<Block>, d2: seq<Block>, n: Node, root: nat, slot: nat, own: set<nat>)
    requires n.Inner? && n.blk == root && slot < |n.kids|
    requires forall x :: x in own && !IsInner(n.kids[slot], x) ==> Blk(d1, x) == Blk(d, x)
    requires forall x :: x != root ==> Blk(d2, x) == Blk(d1, x)
    ensures forall x :: x in own && !IsInner(n, x) ==> Blk(d2, x) == Blk(d, x)
  {
    forall x | x in own && !IsInner(n, x)
      ensures Blk(d2, x) == Blk(d, x)
    {
      NotInnerKid(n, slot, x);
    }
  }

  lemma NotInnerKid(n: Node, slot: nat, x: nat)
    requires n.Inner? && slot < |n.kids| && !IsInner(n, x)
    ensures x != n.blk && !IsInner(n.kids[slot], x)
  {
  }

  /** Everything claimed outside child `slot`: the pointer block, the siblings and the rest. */
  ghost function Beside(d: seq<Block>, per: nat, root: nat, level: nat, slot: nat, rest: multiset<nat>): multiset<nat>
    requires level > 0 && slot < per && root != 0
  {
    multiset{root} + Sum(Abs(d, per, root, level).kids[slot := Nil]) + rest
  }

  /** Stepping down to the child that covers `idx`. */
  lemma Descend(d: seq<Block>, per: nat, root: nat, level: nat, idx: nat, slot: nat, child: nat, rest: multiset<nat>,
      own: set<nat>)
    requires per > 0 && level > 0 && idx < Cap(per, level) && 0 < root < |d|
    requires Hole(d, per, root, level, idx) && Splits(d, per, root, level, rest, own)
    requires slot == Slot(per, level, idx) < per && child == Ptr(d[root], slot)
    ensures Hole(d, per, child, level - 1, Off(per, level, idx))
    ensures Splits(d, per, child, level - 1, Beside(d, per, root, level, slot, rest), own)
  {
    KidSwapped(root, Abs(d, per, root, level).kids, slot, Nil, rest);
  }

  lemma RootOwned(d: seq<Block>, per: nat, root: nat, level: nat, rest: multiset<nat>, own: set<nat>)
    requires root != 0 && Splits(d, per, root, level, rest, own)
    ensures root in own
  {
    assert root in Blocks(Abs(d, per, root, level));
    assert root in multiset(own);
  }
}
