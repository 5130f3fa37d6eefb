/** What free_indirect_from does to a pointer block through its in-memory copy (kernel/fs/ext2.c:462-502):
    the slots are trimmed one by one in the copy, which is written back, or dropped with the block. */
module BlockTrim {
  import opened Bytes
  import opened Chunks
  import opened BlockTree

  /** The tree at `root` became its trim, at `root'`: the tree and `rest` still own every claimed block
      once, and of the blocks kept only pointer blocks of the old tree were written. */
  ghost predicate Trimmed(d: seq<Block>, d': seq<Block>, per: nat, root: nat, root': nat, level: nat, start: nat,
                          rest: multiset<nat>, own: set<nat>, own': set<nat>)
    requires per > 0
  {
    && Abs(d', per, root', level) == Trim(Abs(d, per, root, level), per, level, start)
    && Splits(d', per, root', level, rest, own')
    && own' <= own
    && (start > 0 ==> root' == root)
    && (forall x :: x in own' && !IsInner(Abs(d, per, root, level), x) ==> Blk(d', x) == Blk(d, x))
  }

  /** `ks` are the subtrees behind the slots of the buffered pointer block `b`. */
  ghost predicate Buffered(d: seq<Block>, per: nat, b: Block, level: nat, ks: seq<Node>) {
    |ks| == per && forall i :: 0 <= i < per ==> ks[i] == Abs(d, per, Ptr(b, i), level)
  }

  /** The first `s` slots are trimmed, the others untouched. */
  ghost predicate TrimmedTo(n: Node, per: nat, level: nat, start: nat, ks: seq<Node>, s: nat)
    requires level > 0
  {
    && n.Inner? && |n.kids| == |ks| == per
    && (forall i :: 0 <= i < per && i < s ==>
        ks[i] == Trim(n.kids[i], per, level - 1, Sat(start, Start(Cap(per, level - 1), i))))
    && (forall i :: s <= i < per ==> ks[i] == n.kids[i])
  }

  lemma BufferOf(d: seq<Block>, per: nat, root: nat, level: nat, start: nat)
    requires level > 0 && 0 < root < |d|
    ensures Buffered(d, per, d[root], level - 1, Abs(d, per, root, level).kids)
    ensures TrimmedTo(Abs(d, per, root, level), per, level, start, Abs(d, per, root, level).kids, 0)
  {
  }

  lemma Release(b: nat, rest: multiset<nat>, own: set<nat>)
    requires multiset{b} + rest == multiset(own)
    ensures b in own && rest == multiset(own - {b})
  {
    assert (multiset{b} + rest)[b] == multiset(own)[b];
    forall x ensures rest[x] == multiset(own - {b})[x] {
      assert (multiset{b} + rest)[x] == multiset(own)[x];
    }
  }

  /** Releasing a data block, or a pointer block whose slots are all gone. */
  lemma TrimmedLeaf(d: seq<Block>, per: nat, b: nat, rest: multiset<nat>, own: set<nat>)
    requires per > 0 && b != 0 && Splits(d, per, b, 0, rest, own)
    ensures b in own && Trimmed(d, d, per, b, 0, 0, 0, rest, own, own - {b})
  {
    assert Blocks(Abs(d, per, b, 0)) == multiset{b};
    Release(b, rest, own);
  }

  lemma TrimmedNothing(d: seq<Block>, per: nat, root: nat, level: nat, start: nat, rest: multiset<nat>, own: set<nat>)
    requires per > 0 && Splits(d, per, root, level, rest, own)
    requires root == 0 || (level == 0 && start > 0)
    ensures Trimmed(d, d, per, root, root, level, start, rest, own, own)
  {
  }

  /** One slot trimmed: the other subtrees and the pointer block itself are as before. */
  lemma SlotTrimmed(d: seq<Block>, d1: seq<Block>, per: nat, b: Block, level: nat, ks: seq<Node>, root: nat, s: nat,
      child: nat,
                    rest: multiset<nat>, own: set<nat>, own1: set<nat>, start: nat)
    requires per > 0 && s < per && Buffered(d, per, b, level, ks) && |b| == 4 * per &&
        (child == 0 || child == Ptr(b, s))
    requires Blocks(Inner(root, ks)) + rest == multiset(own)
    requires Trimmed(d, d1, per, Ptr(b, s), child, level, start, multiset{root} + Sum(ks[s := Nil]) + rest, own, own1)
    ensures var k := Trim(ks[s], per, level, start);
      && Buffered(d1, per, if child == Ptr(b, s) then b else Wr32(b, 4 * s, 0), level, ks[s := k])
      && Blocks(Inner(root, ks[s := k])) + rest == multiset(own1)
    ensures Blk(d1, root) == Blk(d, root)
  {
    var k := Trim(ks[s], per, level, start);
    KidSwapped(root, ks, s, k, rest);
    Apart(root, ks, s, rest, own, root);
    assert root in own1 by { assert root in multiset(own1); }
    var b1 := if child == Ptr(b, s) then b else Wr32(b, 4 * s, 0);
    forall i | 0 <= i < per
      ensures Abs(d1, per, Ptr(b1, i), level) == ks[s := k][i]
    {
      if child != Ptr(b, s) { PtrWritten(b, s, 0, i); }
      if i != s { OtherSlotKept(d, d1, per, b, level, ks, root, s, i, rest, own, own1); }
    }
  }

  lemma OtherSlotKept(d: seq<Block>, d1: seq<Block>, per: nat, b: Block, level: nat, ks: seq<Node>, root: nat, s: nat,
      i: nat,
                      rest: multiset<nat>, own: set<nat>, own1: set<nat>)
    requires s < per && i < per && i != s && Buffered(d, per, b, level, ks)
    requires Blocks(Inner(root, ks)) + rest == multiset(own) && Sum(ks[s := Nil]) <= multiset(own1)
    requires forall x :: x in own1 && !IsInner(ks[s], x) ==> Blk(d1, x) == Blk(d, x)
    ensures Abs(d1, per, Ptr(b, i), level) == ks[i]
  {
    forall x | x in Blocks(ks[i])
      ensures Blk(d1, x) == Blk(d, x)
    {
      Apart(root, ks, s, rest, own, x);
      SumOther(ks, s, i);
      assert x in multiset(own1);
    }
    FrameBlocks(d, d1, per, Ptr(b, i), level);
  }

  /** All slots of a tree trimmed from 0: nothing is left below the pointer block. */
  lemma AllGone(n: Node, per: nat, level: nat, ks: seq<Node>, root: nat, rest: multiset<nat>, own: set<nat>)
    requires level > 0 && TrimmedTo(n, per, level, 0, ks, per) && Blocks(Inner(root, ks)) + rest == multiset(own)
    ensures root in own && rest == multiset(own - {root})
  {
    SumOfNils(ks);
    Release(root, rest, own);
  }

  /** The buffer written back makes the disk hold the trimmed tree. */
  lemma WrittenBack(d: seq<Block>, per: nat, root: nat, level: nat, b: Block, n: Node, ks: seq<Node>, start: nat,
                    rest: multiset<nat>, own: set<nat>)
    requires level > 0 && 0 < root < |d| && start > 0 && n.Inner? && n.blk == root
    requires Buffered(d, per, b, level - 1, ks) && TrimmedTo(n, per, level, start, ks, per)
    requires Blocks(Inner(root, ks)) + rest == multiset(own)
    ensures Abs(d[root := b], per, root, level) == Trim(n, per, level, start)
    ensures Splits(d[root := b], per, root, level, rest, own)
  {
    var d' := d[root := b];
    forall i | 0 <= i < per
      ensures Abs(d', per, root, level).kids[i] == ks[i]
    {
      SlotWrittenBack(d, per, root, level, b, ks, i, rest, own);
    }
    assert Abs(d', per, root, level).kids == ks;
    assert Trim(n, per, level, start).kids == ks;
  }

  lemma SlotWrittenBack(d: seq<Block>, per: nat, root: nat, level: nat, b: Block, ks: seq<Node>, i: nat,
      rest: multiset<nat>, own: set<nat>)
    requires level > 0 && 0 < root < |d| && i < per
    requires Buffered(d, per, b, level - 1, ks) && Blocks(Inner(root, ks)) + rest == multiset(own)
    ensures Abs(d[root := b], per, Ptr(b, i), level - 1) == ks[i]
  {
    NotBelow(root, ks, i, rest, own);
    FrameWrite(d, per, root, b, Ptr(b, i), level - 1);
  }

  lemma NotBelow(root: nat, ks: seq<Node>, i: nat, rest: multiset<nat>, own: set<nat>)
    requires i < |ks| && Blocks(Inner(root, ks)) + rest == multiset(own)
    ensures root !in Blocks(ks[i])
  {
    SumSplit(ks, i);
    assert (Blocks(Inner(root, ks)) + rest)[root] <= 1;
  }

  // ---------------------------------------------------------------- the loop over the slots

  /** Slots below `s` are trimmed in the buffer `b`; the disk `d` differs from the first disk `d0` only
      in pointer blocks of the tree, and not in the pointer block itself. */
  ghost predicate Trimming(d0: seq<Block>, d: seq<Block>, per: nat, root: nat, l: nat, start: nat, b: Block,
      ks: seq<Node>, s: nat,
                           rest: multiset<nat>, own0: set<nat>, own: set<nat>)
  {
    && root != 0
    && Buffered(d, per, b, l, ks)
    && TrimmedTo(Abs(d0, per, root, l + 1), per, l + 1, start, ks, s)
    && Blocks(Inner(root, ks)) + rest == multiset(own)
    && own <= own0
    && Blk(d, root) == Blk(d0, root)
    && (forall x :: x in own && !IsInner(Abs(d0, per, root, l + 1), x) ==> Blk(d, x) == Blk(d0, x))
  }

  lemma TrimmingStart(d: seq<Block>, per: nat, root: nat, level: nat, l: nat, start: nat, rest: multiset<nat>,
      own: set<nat>)
    requires level == l + 1 && 0 < root < |d| && Splits(d, per, root, level, rest, own)
    ensures Abs(d, per, root, level).Inner?
    ensures Trimming(d, d, per, root, l, start, d[root], Abs(d, per, root, level).kids, 0, rest, own, own)
  {
    BufferOf(d, per, root, level, start);
  }

  /** What a slot's subtree is to be trimmed to, seen from the slot. */
  function Rest(per: nat, l: nat, start: nat, s: nat): nat
  {
    Sat(start, Start(Cap(per, l), s))
  }

  /** A slot left alone because its subtree is missing or ends below `start`. */
  lemma TrimmingSkip(d0: seq<Block>, d: seq<Block>, per: nat, root: nat, l: nat, start: nat, b: Block, ks: seq<Node>,
      s: nat,
                     rest: multiset<nat>, own0: set<nat>, own: set<nat>)
    requires per > 0 && s < per && Trimming(d0, d, per, root, l, start, b, ks, s, rest, own0, own)
    requires Ptr(b, s) == 0 || Start(Cap(per, l), s) + Cap(per, l) <= start
    ensures Trimming(d0, d, per, root, l, start, b, ks, s + 1, rest, own0, own)
  {
    var k := Abs(d0, per, root, l + 1).kids[s];
    assert ks[s] == k == Abs(d, per, Ptr(b, s), l);
    if Ptr(b, s) != 0 {
      AbsShaped(d, per, Ptr(b, s), l);
      TrimPast(k, per, l, Rest(per, l, start, s));
    }
  }

  lemma TrimmingStep(d0: seq<Block>, d: seq<Block>, d1: seq<Block>, per: nat, root: nat, l: nat, start: nat, b: Block,
      ks: seq<Node>, s: nat,
                     before: nat, child: nat, sub: nat, rest: multiset<nat>, rest1: multiset<nat>, own0: set<nat>,
                         own: set<nat>, own1: set<nat>)
    requires per > 0 && s < per && Trimming(d0, d, per, root, l, start, b, ks, s, rest, own0, own)
    requires |b| == 4 * per && before == Ptr(b, s) && (child == 0 || child == before) && sub == Rest(per, l, start, s)
    requires rest1 == multiset{root} + Sum(ks[s := Nil]) + rest
    requires Trimmed(d, d1, per, before, child, l, sub, rest1, own, own1)
    ensures Trimming(d0, d1, per, root, l, start, if child == before then b else Wr32(b, 4 * s, 0),
                     ks[s := Trim(ks[s], per, l, sub)], s + 1, rest, own0, own1)
  {
    SlotTrimmed(d, d1, per, b, l, ks, root, s, child, rest, own, own1, sub);
    TrimmingFrame(d0, d, d1, per, root, l, start, b, ks, s, rest, own0, own, own1);
  }

  lemma TrimmingFrame(d0: seq<Block>, d: seq<Block>, d1: seq<Block>, per: nat, root: nat, l: nat, start: nat, b: Block,
      ks: seq<Node>, s: nat,
                      rest: multiset<nat>, own0: set<nat>, own: set<nat>, own1: set<nat>)
    requires per > 0 && s < per && Trimming(d0, d, per, root, l, start, b, ks, s, rest, own0, own) && own1 <= own
    requires forall x :: x in own1 && !IsInner(ks[s], x) ==> Blk(d1, x) == Blk(d, x)
    ensures forall x :: x in own1 && !IsInner(Abs(d0, per, root, l + 1), x) ==> Blk(d1, x) == Blk(d0, x)
  {
    forall x | x in own1 && !IsInner(Abs(d0, per, root, l + 1), x)
      ensures Blk(d1, x) == Blk(d0, x)
    {
      NotInnerKid(Abs(d0, per, root, l + 1), s, x);
    }
  }

  /** The child trimmed in slot `s` as a tree of its own. */
  lemma TrimmingChild(d0: seq<Block>, d: seq<Block>, per: nat, root: nat, l: nat, start: nat, b: Block, ks: seq<Node>,
      s: nat,
                      rest: multiset<nat>, own0: set<nat>, own: set<nat>)
    requires per > 0 && s < per && Trimming(d0, d, per, root, l, start, b, ks, s, rest, own0, own)
    ensures Splits(d, per, Ptr(b, s), l, multiset{root} + Sum(ks[s := Nil]) + rest, own)
  {
    KidSwapped(root, ks, s, Nil, rest);
  }

  lemma TrimmingEmpty(d0: seq<Block>, d: seq<Block>, per: nat, root: nat, level: nat, l: nat, b: Block, ks: seq<Node>,
                      rest: multiset<nat>, own0: set<nat>, own: set<nat>)
    requires per > 0 && level == l + 1 && Trimming(d0, d, per, root, l, 0, b, ks, per, rest, own0, own)
    ensures root in own && Trimmed(d0, d, per, root, 0, level, 0, rest, own0, own - {root})
  {
    AllGone(Abs(d0, per, root, level), per, level, ks, root, rest, own);
  }

  lemma TrimmingDone(d0: seq<Block>, d: seq<Block>, per: nat, root: nat, level: nat, l: nat, start: nat, b: Block,
      ks: seq<Node>,
                     rest: multiset<nat>, own0: set<nat>, own: set<nat>)
    requires per > 0 && level == l + 1 && start > 0 && root < |d| &&
        Trimming(d0, d, per, root, l, start, b, ks, per, rest, own0, own)
    ensures Trimmed(d0, d[root := b], per, root, root, level, start, rest, own0, own)
  {
    WrittenBack(d, per, root, level, b, Abs(d0, per, root, level), ks, start, rest, own);
    assert IsInner(Abs(d0, per, root, level), root);
  }
}
