/** The block map of a whole inode: twelve data blocks and one tree each of levels 1, 2 and 3
    (kernel/fs/ext2.c:157-170, 504-577), and the bytes a file is read as. */
module Files {
  import opened Bytes
  import opened Chunks
  import opened BlockTree
  import opened BlockTrim

  const NDIR := 12      // direct slots
  const DIND := 13      // the double-indirect slot, after the single-indirect one
  const TIND := 14      // the triple-indirect slot
  const NSLOTS := 15

  function LevelOf(k: nat): nat { if k < NDIR then 0 else k - NDIR + 1 }

  /** First file block behind slot `k` of the inode. */
  function BaseOf(per: nat, k: nat): nat {
    if k <= NDIR then k else BaseOf(per, k - 1) + Cap(per, k - NDIR)
  }

  /** The slot that covers a file block, NSLOTS beyond the triple-indirect reach, and the index in it. */
  function SlotIdx(per: nat, f: nat): (k: nat)
    ensures k <= NSLOTS
  {
    if f < NDIR then f
    else if f < BaseOf(per, DIND) then NDIR
    else if f < BaseOf(per, TIND) then DIND
    else if f < BaseOf(per, NSLOTS) then TIND
    else NSLOTS
  }

  lemma Bases(per: nat)
    ensures BaseOf(per, NDIR) == NDIR && BaseOf(per, DIND) == NDIR + Cap(per, 1)
    ensures BaseOf(per, TIND) == BaseOf(per, DIND) + Cap(per, 2) &&
        BaseOf(per, NSLOTS) == BaseOf(per, TIND) + Cap(per, 3)
    ensures Cap(per, 0) == 1
  {
    assert BaseOf(per, 12) == 12;
  }

  /** The products of the code: per, per*per and per*per*per. */
  lemma Caps(per: nat)
    requires per > 0
    ensures Cap(per, 1) == per && Cap(per, 2) == per * per && Cap(per, 3) == per * per * per
  {
    StartIsProduct(1, per);
    assert Cap(per, 1) == per;
    StartIsProduct(per, per);
    assert Cap(per, 2) == per * per;
    StartIsProduct(per * per, per);
  }

  function InIdx(per: nat, f: nat): nat {
    Sat(f, BaseOf(per, SlotIdx(per, f)))
  }

  lemma InIdxBound(per: nat, f: nat)
    requires SlotIdx(per, f) < NSLOTS
    ensures InIdx(per, f) < Cap(per, LevelOf(SlotIdx(per, f))) && f == BaseOf(per, SlotIdx(per, f)) + InIdx(per, f)
  {
    Bases(per);
  }

  ghost function Slots(d: seq<Block>, per: nat, ib: seq<nat>): seq<Node>
    requires |ib| == NSLOTS
  {
    seq(NSLOTS, k requires 0 <= k < NSLOTS => Abs(d, per, ib[k], LevelOf(k)))
  }

  /** Disk block of file block `f`, 0 for a hole: slot after slot, each covering its level's span. */
  ghost function MapFrom(ns: seq<Node>, k: nat, per: nat, f: nat): nat
    requires per > 0
  {
    if ns == [] then 0
    else if f < Cap(per, LevelOf(k)) then At(ns[0], per, LevelOf(k), f)
    else MapFrom(ns[1..], k + 1, per, f - Cap(per, LevelOf(k)))
  }

  ghost function MapOf(ns: seq<Node>, per: nat, f: nat): nat
    requires |ns| == NSLOTS && per > 0
  {
    MapFrom(ns, 0, per, f)
  }

  lemma {:induction false} MapFromSlot(ns: seq<Node>, k: nat, per: nat, f: nat)
    requires |ns| == NSLOTS && per > 0 && k <= NSLOTS && BaseOf(per, k) <= f
    ensures MapFrom(ns[k..], k, per, f - BaseOf(per, k)) ==
            if SlotIdx(per, f) < NSLOTS then At(ns[SlotIdx(per, f)], per, LevelOf(SlotIdx(per, f)), InIdx(per, f))
                else 0
    decreases NSLOTS - k
  {
    Bases(per);
    if k < NSLOTS {
      assert ns[k..][1..] == ns[k + 1..];
      assert BaseOf(per, k + 1) == BaseOf(per, k) + Cap(per, LevelOf(k));
      if f >= BaseOf(per, k + 1) {
        MapFromSlot(ns, k + 1, per, f);
      } else {
        assert SlotIdx(per, f) == k;
      }
    }
  }

  /** The one slot that decides. */
  lemma MapOfSlot(ns: seq<Node>, per: nat, f: nat)
    requires |ns| == NSLOTS && per > 0
    ensures MapOf(ns, per, f) ==
            if SlotIdx(per, f) < NSLOTS then At(ns[SlotIdx(per, f)], per, LevelOf(SlotIdx(per, f)), InIdx(per, f))
                else 0
  {
    assert ns[0..] == ns;
    assert BaseOf(per, 0) == 0;
    MapFromSlot(ns, 0, per, f);
  }

  /** map_indirect: follow the pointer blocks on the disk. */
  function MapIndirect(d: seq<Block>, per: nat, p: nat, level: nat, idx: nat): nat
    requires per > 0 && level > 0
    decreases level
  {
    if p == 0 then 0
    else if level == 1 then Ptr(Blk(d, p), idx)
    else MapIndirect(d, per, Ptr(Blk(d, p), idx / Cap(per, level - 1)), level - 1, idx % Cap(per, level - 1))
  }

  /** map_block, with the code's branches. */
  function MapBlock(d: seq<Block>, per: nat, ib: seq<nat>, fblk: nat): nat
    requires per > 0 && |ib| == NSLOTS
  {
    if fblk < NDIR then ib[fblk] else
    var f1 := fblk - NDIR;
    if f1 < per then MapIndirect(d, per, ib[NDIR], 1, f1) else
    var f2 := f1 - per;
    if f2 < per * per then MapIndirect(d, per, ib[DIND], 2, f2) else
    var f3 := f2 - per * per;
    if f3 < per * per * per then MapIndirect(d, per, ib[TIND], 3, f3) else 0
  }

  lemma {:induction false} MapIndirectIsAt(d: seq<Block>, per: nat, p: nat, level: nat, idx: nat)
    requires per > 0 && level > 0 && idx < Cap(per, level)
    ensures MapIndirect(d, per, p, level, idx) == At(Abs(d, per, p, level), per, level, idx)
    decreases level
  {
    SlotBound(per, level, idx);
    AtIsDivMod(Cap(per, level - 1), idx);
    var q := Ptr(Blk(d, p), Slot(per, level, idx));
    if p != 0 && level > 1 {
      MapIndirectIsAt(d, per, q, level - 1, Off(per, level, idx));
    }
  }

  lemma MapBlockIsMap(d: seq<Block>, per: nat, ib: seq<nat>, fblk: nat)
    requires per > 0 && |ib| == NSLOTS
    ensures MapBlock(d, per, ib, fblk) == MapOf(Slots(d, per, ib), per, fblk)
  {
    Bases(per);
    Caps(per);
    MapOfSlot(Slots(d, per, ib), per, fblk);
    var k := SlotIdx(per, fblk);
    if NDIR <= k < NSLOTS {
      InIdxBound(per, fblk);
      MapIndirectIsAt(d, per, ib[k], LevelOf(k), InIdx(per, fblk));
    }
  }

  /** A pointer block of the inode. */
  ghost predicate IsPointer(ns: seq<Node>, x: nat) {
    exists k :: 0 <= k < |ns| && IsInner(ns[k], x)
  }

  /** The inode and `rest` together own every claimed block once. */
  ghost predicate Holds(d: seq<Block>, per: nat, ib: seq<nat>, rest: multiset<nat>, own: set<nat>) {
    |ib| == NSLOTS && Sum(Slots(d, per, ib)) + rest == multiset(own)
  }

  // ---------------------------------------------------------------- one slot at a time

  /** Everything claimed outside slot `k`. */
  ghost function Around(d: seq<Block>, per: nat, ib: seq<nat>, k: nat, rest: multiset<nat>): multiset<nat>
    requires |ib| == NSLOTS && k < NSLOTS
  {
    Sum(Slots(d, per, ib)[k := Nil]) + rest
  }

  lemma SlotSplits(d: seq<Block>, per: nat, ib: seq<nat>, k: nat, rest: multiset<nat>, own: set<nat>)
    requires Holds(d, per, ib, rest, own) && k < NSLOTS
    ensures Splits(d, per, ib[k], LevelOf(k), Around(d, per, ib, k, rest), own)
  {
    SumSplit(Slots(d, per, ib), k);
  }

  /** Blocks of `rest` and of the other slots are no pointer blocks of slot `k`. */
  lemma SlotApart(ns: seq<Node>, k: nat, rest: multiset<nat>, own: set<nat>, x: nat)
    requires Sum(ns) + rest == multiset(own) && k < |ns|
    requires x in rest || exists i :: 0 <= i < |ns| && i != k && x in Blocks(ns[i])
    ensures x in own && x !in Blocks(ns[k]) && !IsInner(ns[k], x)
  {
    SumSplit(ns, k);
    if i :| 0 <= i < |ns| && i != k && x in Blocks(ns[i]) {
      SumOther(ns, k, i);
    }
    assert x in Sum(ns[k := Nil]) + rest;
    assert (Sum(ns) + rest)[x] <= 1;
    if IsInner(ns[k], x) { InnerInBlocks(ns[k], x); }
  }

  /** Slot `k` now roots tree `r`, and of the blocks still owned only that tree's were written. */
  lemma SlotSwapped(d: seq<Block>, d': seq<Block>, per: nat, ib: seq<nat>, k: nat, r: nat, rest: multiset<nat>,
      own: set<nat>, own': set<nat>)
    requires Holds(d, per, ib, rest, own) && k < NSLOTS
    requires Splits(d', per, r, LevelOf(k), Around(d, per, ib, k, rest), own')
    requires forall x :: x in own && x in own' && !IsInner(Slots(d, per, ib)[k], x) ==> Blk(d', x) == Blk(d, x)
    ensures Slots(d', per, ib[k := r]) == Slots(d, per, ib)[k := Abs(d', per, r, LevelOf(k))]
    ensures Holds(d', per, ib[k := r], rest, own')
  {
    var ns := Slots(d, per, ib);
    var t := Abs(d', per, r, LevelOf(k));
    var ms, us := Slots(d', per, ib[k := r]), ns[k := t];
    forall i | 0 <= i < NSLOTS
      ensures ms[i] == us[i]
    {
      if i != k { OtherSlotSame(d, d', per, ib, k, i, rest, own, own'); }
    }
    assert Slots(d', per, ib[k := r]) == ns[k := t];
    SumUpdate(ns, k, t);
  }

  lemma OtherSlotSame(d: seq<Block>, d': seq<Block>, per: nat, ib: seq<nat>, k: nat, i: nat, rest: multiset<nat>,
      own: set<nat>, own': set<nat>)
    requires Holds(d, per, ib, rest, own) && k < NSLOTS && i < NSLOTS && i != k
    requires Around(d, per, ib, k, rest) <= multiset(own')
    requires forall x :: x in own && x in own' && !IsInner(Slots(d, per, ib)[k], x) ==> Blk(d', x) == Blk(d, x)
    ensures Abs(d', per, ib[i], LevelOf(i)) == Abs(d, per, ib[i], LevelOf(i))
  {
    var ns := Slots(d, per, ib);
    forall x | x in Blocks(ns[i])
      ensures Blk(d', x) == Blk(d, x)
    {
      SlotApart(ns, k, rest, own, x);
      SumOther(ns, k, i);
      assert x in multiset(own');
    }
    FrameBlocks(d, d', per, ib[i], LevelOf(i));
  }

  // ---------------------------------------------------------------- growing

  /** The inode's map gained file block `f` and nothing else; unless `data` is 0, it is a fresh zeroed
      block; of the blocks owned before only the inode's pointer blocks were written. */
  ghost predicate FileGrew(d: seq<Block>, d': seq<Block>, per: nat, ib: seq<nat>, ib': seq<nat>, f: nat, data: nat,
                           rest: multiset<nat>, own: set<nat>, own': set<nat>)
    requires per > 0 && |ib| == NSLOTS
  {
    && Holds(d', per, ib', rest, own') && own <= own'
    && (forall j :: MapOf(Slots(d', per, ib'), per, j) == if j == f then data else MapOf(Slots(d, per, ib), per, j))
    && (data != 0 ==> data in own' && data !in own && Blk(d', data) == Zeros(4 * per))
    && (forall x :: x in own && !IsPointer(Slots(d, per, ib), x) ==> Blk(d', x) == Blk(d, x))
  }

  /** The blocks file block `f`, a hole, needs: itself and the pointer blocks missing on the way. */
  ghost function FileNeeds(d: seq<Block>, per: nat, ib: seq<nat>, f: nat): nat
    requires per > 0 && |ib| == NSLOTS && SlotIdx(per, f) < NSLOTS
  {
    var k := SlotIdx(per, f);
    Needs(Slots(d, per, ib)[k], per, LevelOf(k), InIdx(per, f))
  }

  /** The slot of the inode that leads to file block `f` is empty. */
  predicate Rootless(per: nat, ib: seq<nat>, f: nat)
    requires |ib| == NSLOTS
  {
    SlotIdx(per, f) < NSLOTS && ib[SlotIdx(per, f)] == 0
  }

  lemma SlotGrew(d: seq<Block>, d': seq<Block>, per: nat, ib: seq<nat>, f: nat, k: nat, r: nat, data: nat,
                 rest: multiset<nat>, own: set<nat>, own': set<nat>)
    requires per > 0 && Holds(d, per, ib, rest, own) && SlotIdx(per, f) == k < NSLOTS
    requires Grew(d, d', per, ib[k], r, LevelOf(k), InIdx(per, f), data, Around(d, per, ib, k, rest), own, own')
    ensures FileGrew(d, d', per, ib, ib[k := r], f, data, rest, own, own')
    ensures ib[k] == 0 ==> forall x :: x in own ==> Blk(d', x) == Blk(d, x)
  {
    var ns := Slots(d, per, ib);
    SlotSwapped(d, d', per, ib, k, r, rest, own, own');
    var ns' := Slots(d', per, ib[k := r]);
    forall j
      ensures MapOf(ns', per, j) == if j == f then data else MapOf(ns, per, j)
    {
      MapOfSlot(ns, per, j);
      MapOfSlot(ns', per, j);
      if SlotIdx(per, j) == k {
        InIdxBound(per, j);
        InIdxBound(per, f);
      }
    }
    assert forall x :: IsInner(ns[k], x) ==> IsPointer(ns, x);
  }

  lemma BeyondReach(d: seq<Block>, per: nat, ib: seq<nat>, f: nat, rest: multiset<nat>, own: set<nat>)
    requires per > 0 && Holds(d, per, ib, rest, own) && SlotIdx(per, f) == NSLOTS
    ensures FileGrew(d, d, per, ib, ib, f, 0, rest, own, own)
  {
    MapOfSlot(Slots(d, per, ib), per, f);
  }

  // ---------------------------------------------------------------- trimming

  /** free_from on values: every slot trimmed to what is below file block `from`. */
  function TrimFile(ns: seq<Node>, per: nat, from: nat): (r: seq<Node>)
    ensures |r| == |ns|
  {
    seq(|ns|, k requires 0 <= k < |ns| => Trim(ns[k], per, LevelOf(k), Sat(from, BaseOf(per, k))))
  }

  /** The map after a trim: kept below `from`, all holes from `from` on. */
  lemma TrimFileMap(d: seq<Block>, per: nat, ib: seq<nat>, from: nat, f: nat)
    requires per > 0 && |ib| == NSLOTS
    ensures MapOf(TrimFile(Slots(d, per, ib), per, from), per, f) == if f < from then MapOf(Slots(d, per, ib), per, f)
        else 0
  {
    var k := SlotIdx(per, f);
    MapOfSlot(Slots(d, per, ib), per, f);
    MapOfSlot(TrimFile(Slots(d, per, ib), per, from), per, f);
    if k < NSLOTS {
      InIdxBound(per, f);
      AbsShaped(d, per, ib[k], LevelOf(k));
      TrimAt(Slots(d, per, ib)[k], per, LevelOf(k), Sat(from, BaseOf(per, k)), InIdx(per, f));
    }
  }

  /** Slots below `k` are trimmed, the others untouched. */
  ghost predicate FileTrimming(d0: seq<Block>, d: seq<Block>, per: nat, ib0: seq<nat>, ib: seq<nat>, from: nat, k: nat,
                               rest: multiset<nat>, own0: set<nat>, own: set<nat>)
  {
    && |ib0| == NSLOTS && Holds(d, per, ib, rest, own) && own <= own0
    && (forall i :: 0 <= i < NSLOTS ==>
         Slots(d, per, ib)[i] == if i < k then TrimFile(Slots(d0, per, ib0), per, from)[i] else Slots(d0, per, ib0)[i])
    && (forall x :: x in own && !IsPointer(Slots(d0, per, ib0), x) ==> Blk(d, x) == Blk(d0, x))
  }

  lemma FileTrimStep(d0: seq<Block>, d: seq<Block>, d': seq<Block>, per: nat, ib0: seq<nat>, ib: seq<nat>, from: nat,
      k: nat, start: nat, r: nat,
                     rest: multiset<nat>, own0: set<nat>, own: set<nat>, own': set<nat>)
    requires per > 0 && k < NSLOTS && FileTrimming(d0, d, per, ib0, ib, from, k, rest, own0, own)
    requires start == Sat(from, BaseOf(per, k))
    requires Trimmed(d, d', per, ib[k], r, LevelOf(k), start, Around(d, per, ib, k, rest), own, own')
    ensures FileTrimming(d0, d', per, ib0, ib[k := r], from, k + 1, rest, own0, own')
  {
    SlotSwapped(d, d', per, ib, k, r, rest, own, own');
    var ns0 := Slots(d0, per, ib0);
    assert Slots(d, per, ib)[k] == ns0[k];
    assert forall x :: IsInner(ns0[k], x) ==> IsPointer(ns0, x);
  }

  /** A slot that free_from leaves out because it ends below `from`. */
  lemma FileTrimSkip(d0: seq<Block>, d: seq<Block>, per: nat, ib0: seq<nat>, ib: seq<nat>, from: nat, k: nat,
                     rest: multiset<nat>, own0: set<nat>, own: set<nat>)
    requires per > 0 && k < NSLOTS && FileTrimming(d0, d, per, ib0, ib, from, k, rest, own0, own)
    requires BaseOf(per, k) + Cap(per, LevelOf(k)) <= from
    ensures FileTrimming(d0, d, per, ib0, ib, from, k + 1, rest, own0, own)
  {
    AbsShaped(d0, per, ib0[k], LevelOf(k));
    TrimPast(Slots(d0, per, ib0)[k], per, LevelOf(k), Sat(from, BaseOf(per, k)));
  }

  // ---------------------------------------------------------------- bytes

  /** Byte `pos` of the file: 0 in a hole. Blocks hold 4 * per bytes. */
  ghost function ByteOf(d: seq<Block>, per: nat, ib: seq<nat>, pos: nat): byte
    requires per > 0 && |ib| == NSLOTS
  {
    ByteIn(d, MapOf(Slots(d, per, ib), per, GroupAt(4 * per, pos)), BitAt(4 * per, pos))
  }

  ghost function ByteIn(d: seq<Block>, b: nat, o: nat): byte {
    if b == 0 || o >= |Blk(d, b)| then 0 else Blk(d, b)[o]
  }

  lemma MapInSum(ns: seq<Node>, per: nat, f: nat)
    requires |ns| == NSLOTS && per > 0 && MapOf(ns, per, f) != 0
    ensures MapOf(ns, per, f) in Sum(ns)
  {
    var k := SlotIdx(per, f);
    MapOfSlot(ns, per, f);
    AtInBlocks(ns[k], per, LevelOf(k), InIdx(per, f));
    SumSplit(ns, k);
  }

  /** A data block is owned, outside `rest`, and no pointer block. */
  lemma DataBlock(d: seq<Block>, per: nat, ib: seq<nat>, f: nat, rest: multiset<nat>, own: set<nat>)
    requires per > 0 && Holds(d, per, ib, rest, own) && MapOf(Slots(d, per, ib), per, f) != 0
    ensures var x := MapOf(Slots(d, per, ib), per, f);
      x in own && x !in rest && x in Sum(Slots(d, per, ib)) && !IsPointer(Slots(d, per, ib), x)
  {
    var ns := Slots(d, per, ib);
    var x, k := MapOf(ns, per, f), SlotIdx(per, f);
    MapInSum(ns, per, f);
    MapOfSlot(ns, per, f);
    assert (Sum(ns) + rest)[x] <= 1 && x in Sum(ns) + rest;
    AtInBlocks(ns[k], per, LevelOf(k), InIdx(per, f));
    SumSplit(ns, k);
    AtNotInner(ns[k], per, LevelOf(k), InIdx(per, f));
    forall i | 0 <= i < NSLOTS
      ensures !IsInner(ns[i], x)
    {
      if i != k && IsInner(ns[i], x) {
        InnerInBlocks(ns[i], x);
        SumOther(ns, k, i);
      }
    }
  }

  /** Two file blocks never share a disk block. */
  lemma MapDistinct(d: seq<Block>, per: nat, ib: seq<nat>, f: nat, g: nat, rest: multiset<nat>, own: set<nat>)
    requires per > 0 && Holds(d, per, ib, rest, own) && f != g && MapOf(Slots(d, per, ib), per, f) != 0
    ensures MapOf(Slots(d, per, ib), per, f) != MapOf(Slots(d, per, ib), per, g)
  {
    var ns := Slots(d, per, ib);
    var x, k, h := MapOf(ns, per, f), SlotIdx(per, f), SlotIdx(per, g);
    MapInSum(ns, per, f);
    MapOfSlot(ns, per, f);
    MapOfSlot(ns, per, g);
    assert (Sum(ns) + rest)[x] <= 1;
    if h < NSLOTS && MapOf(ns, per, g) == x {
      InIdxBound(per, f);
      InIdxBound(per, g);
      SumSplit(ns, k);
      AtInBlocks(ns[k], per, LevelOf(k), InIdx(per, f));
      if h == k {
        AbsShaped(d, per, ib[k], LevelOf(k));
        AtDistinct(ns[k], per, LevelOf(k), InIdx(per, f), InIdx(per, g));
      } else {
        AtInBlocks(ns[h], per, LevelOf(h), InIdx(per, g));
        SumOther(ns, k, h);
      }
    }
  }

  /** The file has the same tree of blocks with the same contents. */
  ghost predicate Kept(d: seq<Block>, d': seq<Block>, per: nat, ib: seq<nat>)
    requires |ib| == NSLOTS
  {
    Slots(d', per, ib) == Slots(d, per, ib) && forall x :: x in Sum(Slots(d, per, ib)) ==> Blk(d', x) == Blk(d, x)
  }

  /** A file all of whose blocks are as they were has the map and the bytes it had. */
  lemma Untouched(d: seq<Block>, d': seq<Block>, per: nat, ib: seq<nat>)
    requires per > 0 && |ib| == NSLOTS
    requires forall x :: x in Sum(Slots(d, per, ib)) ==> Blk(d', x) == Blk(d, x)
    ensures Kept(d, d', per, ib)
    ensures forall pos :: ByteOf(d', per, ib, pos) == ByteOf(d, per, ib, pos)
  {
    var ns, ms := Slots(d, per, ib), Slots(d', per, ib);
    forall k | 0 <= k < NSLOTS
      ensures ms[k] == ns[k]
    {
      SumSplit(ns, k);
      FrameBlocks(d, d', per, ib[k], LevelOf(k));
    }
    assert ms == ns;
    forall pos
      ensures ByteOf(d', per, ib, pos) == ByteOf(d, per, ib, pos)
    {
      if MapOf(ns, per, GroupAt(4 * per, pos)) != 0 { MapInSum(ns, per, GroupAt(4 * per, pos)); }
    }
  }

  /** Gaining a zeroed block where there was a hole changes no byte. */
  lemma GrewBytes(d: seq<Block>, d': seq<Block>, per: nat, ib: seq<nat>, ib': seq<nat>, f: nat, data: nat,
                  rest: multiset<nat>, own: set<nat>, own': set<nat>, pos: nat)
    requires per > 0 && Holds(d, per, ib, rest, own) && MapOf(Slots(d, per, ib), per, f) == 0
    requires FileGrew(d, d', per, ib, ib', f, data, rest, own, own')
    ensures ByteOf(d', per, ib', pos) == ByteOf(d, per, ib, pos)
  {
    var g := GroupAt(4 * per, pos);
    if g != f && MapOf(Slots(d, per, ib), per, g) != 0 {
      DataBlock(d, per, ib, g, rest, own);
    }
  }

  lemma RestNotPointer(d: seq<Block>, per: nat, ib: seq<nat>, rest: multiset<nat>, own: set<nat>, x: nat)
    requires Holds(d, per, ib, rest, own) && x in rest
    ensures x in own && !IsPointer(Slots(d, per, ib), x)
  {
    var ns := Slots(d, per, ib);
    assert x in Sum(ns) + rest && (Sum(ns) + rest)[x] <= 1;
    if IsPointer(ns, x) {
      var k :| 0 <= k < |ns| && IsInner(ns[k], x);
      InnerInBlocks(ns[k], x);
      SumSplit(ns, k);
    }
  }

  /** Writing the block behind file block `f` keeps the map and changes the bytes of `f` only. */
  lemma WroteBlock(d: seq<Block>, per: nat, ib: seq<nat>, f: nat, c: Block, rest: multiset<nat>, own: set<nat>)
    requires per > 0 && Holds(d, per, ib, rest, own)
    requires 0 < MapOf(Slots(d, per, ib), per, f) < |d| && |c| == 4 * per
    ensures var x := MapOf(Slots(d, per, ib), per, f);
      && Slots(d[x := c], per, ib) == Slots(d, per, ib) && Holds(d[x := c], per, ib, rest, own)
      && (forall pos {:trigger ByteOf(d[x := c], per, ib, pos)} :: ByteOf(d[x := c], per, ib,
          pos) == if GroupAt(4 * per, pos) == f then c[BitAt(4 * per, pos)] else ByteOf(d, per, ib, pos))
  {
    var ns := Slots(d, per, ib);
    var x := MapOf(ns, per, f);
    var d' := d[x := c];
    var ms := Slots(d', per, ib);
    DataBlock(d, per, ib, f, rest, own);
    forall k | 0 <= k < NSLOTS
      ensures ms[k] == ns[k]
    {
      assert forall y :: IsInner(ns[k], y) ==> IsPointer(ns, y);
      Frame(d, d', per, ib[k], LevelOf(k));
    }
    assert ms == ns;
    forall pos
      ensures ByteOf(d', per, ib, pos) == if GroupAt(4 * per, pos) == f then c[BitAt(4 * per, pos)]
          else ByteOf(d, per, ib, pos)
    {
      var g := GroupAt(4 * per, pos);
      if g != f { MapDistinct(d, per, ib, f, g, rest, own); }
    }
  }

  /** The file's bytes are those it had, overwritten from `off` on with the first `n` of `buf`. */
  ghost predicate Wrote(d0: seq<Block>, ib0: seq<nat>, d: seq<Block>, ib: seq<nat>, per: nat, off: nat, buf: Block,
      n: nat)
    requires per > 0 && |ib0| == |ib| == NSLOTS && n <= |buf|
  {
    forall pos: nat :: ByteOf(d, per, ib, pos) == if off <= pos < off + n then buf[pos - off]
        else ByteOf(d0, per, ib0, pos)
  }

  lemma WroteMore(d0: seq<Block>, ib0: seq<nat>, d1: seq<Block>, ib1: seq<nat>, d: seq<Block>, ib: seq<nat>, per: nat,
      off: nat, buf: Block, n: nat, m: nat)
    requires per > 0 && |ib0| == |ib1| == |ib| == NSLOTS && n + m <= |buf|
    requires Wrote(d0, ib0, d1, ib1, per, off, buf, n) && Wrote(d1, ib1, d, ib, per, off + n, buf[n..], m)
    ensures Wrote(d0, ib0, d, ib, per, off, buf, n + m)
  {
  }

  /** The same, said of offsets inside one file block: `buf` goes to byte `o` on of file block `f`. */
  ghost predicate WroteIn(d0: seq<Block>, ib0: seq<nat>, d: seq<Block>, ib: seq<nat>, per: nat, f: nat, o: nat,
      buf: Block, n: nat)
    requires per > 0 && |ib0| == |ib| == NSLOTS && n <= |buf|
  {
    forall pos: nat {:trigger ByteOf(d, per, ib, pos)} :: ByteOf(d, per, ib, pos) ==
      if GroupAt(4 * per, pos) == f && o <= BitAt(4 * per, pos) < o + n then buf[BitAt(4 * per, pos) - o]
          else ByteOf(d0, per, ib0, pos)
  }

  lemma WroteChunk(d0: seq<Block>, ib0: seq<nat>, d: seq<Block>, ib: seq<nat>, per: nat, p: nat, buf: Block, n: nat)
    requires per > 0 && |ib0| == |ib| == NSLOTS && n <= |buf| && BitAt(4 * per, p) + n <= 4 * per
    requires WroteIn(d0, ib0, d, ib, per, GroupAt(4 * per, p), BitAt(4 * per, p), buf, n)
    ensures Wrote(d0, ib0, d, ib, per, p, buf, n)
  {
    forall pos: nat ensures ByteOf(d, per, ib, pos) == if p <= pos < p + n then buf[pos - p]
        else ByteOf(d0, per, ib0, pos) {
      WroteChunkAt(d0, ib0, d, ib, per, p, buf, n, pos);
    }
  }

  lemma WroteChunkAt(d0: seq<Block>, ib0: seq<nat>, d: seq<Block>, ib: seq<nat>, per: nat, p: nat, buf: Block, n: nat,
      pos: nat)
    requires per > 0 && |ib0| == |ib| == NSLOTS && n <= |buf| && BitAt(4 * per, p) + n <= 4 * per
    requires WroteIn(d0, ib0, d, ib, per, GroupAt(4 * per, p), BitAt(4 * per, p), buf, n)
    ensures ByteOf(d, per, ib, pos) == if p <= pos < p + n then buf[pos - p] else ByteOf(d0, per, ib0, pos)
  {
    ChunkByte(4 * per, p, buf, n, pos, ByteOf(d, per, ib, pos), ByteOf(d0, per, ib0, pos));
  }

  lemma ChunkByte(bs: nat, p: nat, buf: Block, n: nat, pos: nat, x: byte, y: byte)
    requires bs > 0 && n <= |buf| && BitAt(bs, p) + n <= bs
    requires x == if GroupAt(bs, pos) == GroupAt(bs, p) && BitAt(bs, p) <= BitAt(bs, pos) < BitAt(bs, p) + n
                  then buf[BitAt(bs, pos) - BitAt(bs, p)] else y
    ensures x == if p <= pos < p + n then buf[pos - p] else y
  {
    InChunk(bs, p, n, pos);
  }

  /** Writing `data` at byte `o` of file block `f` into the block it has, which is kept around the data
      unless the data fills it. */
  lemma BlockWritten(d: seq<Block>, per: nat, ib: seq<nat>, f: nat, o: nat, data: Block, x: nat, c: Block,
      rest: multiset<nat>, own: set<nat>)
    requires per > 0 && Holds(d, per, ib, rest, own) && o + |data| <= 4 * per == |c|
    requires x == MapOf(Slots(d, per, ib), per, f) && 0 < x < |d| && |d[x]| == 4 * per
    requires c == Patch(if |data| < 4 * per then d[x] else Zeros(4 * per), o, data)
    ensures Holds(d[x := c], per, ib, rest, own)
    ensures WroteIn(d, ib, d[x := c], ib, per, f, o, data, |data|)
  {
    WroteBlock(d, per, ib, f, c, rest, own);
    forall pos: nat
      ensures ByteOf(d[x := c], per, ib, pos) ==
        if GroupAt(4 * per, pos) == f && o <= BitAt(4 * per, pos) < o + |data| then data[BitAt(4 * per, pos) - o]
            else ByteOf(d, per, ib, pos)
    {
      if GroupAt(4 * per, pos) == f { PatchedByte(d, per, ib, f, o, data, x, c, pos); }
    }
  }

  lemma PatchedByte(d: seq<Block>, per: nat, ib: seq<nat>, f: nat, o: nat, data: Block, x: nat, c: Block, pos: nat)
    requires per > 0 && |ib| == NSLOTS && o + |data| <= 4 * per == |c|
    requires x == MapOf(Slots(d, per, ib), per, f) && 0 < x < |d| && |d[x]| == 4 * per
    requires c == Patch(if |data| < 4 * per then d[x] else Zeros(4 * per), o, data)
    requires GroupAt(4 * per, pos) == f
    ensures c[BitAt(4 * per, pos)] == if o <= BitAt(4 * per, pos) < o + |data| then data[BitAt(4 * per, pos) - o]
        else ByteOf(d, per, ib, pos)
  {
  }

  lemma WroteInAfter(d0: seq<Block>, ib0: seq<nat>, d1: seq<Block>, ib1: seq<nat>, d: seq<Block>, ib: seq<nat>,
      per: nat, f: nat, o: nat, data: Block, n: nat)
    requires per > 0 && |ib0| == |ib1| == |ib| == NSLOTS && n <= |data|
    requires forall pos :: ByteOf(d1, per, ib1, pos) == ByteOf(d0, per, ib0, pos)
    requires WroteIn(d1, ib1, d, ib, per, f, o, data, n)
    ensures WroteIn(d0, ib0, d, ib, per, f, o, data, n)
  {
  }

  /** Bytes `lo` up to `hi` of the file. */
  ghost function Range(d: seq<Block>, per: nat, ib: seq<nat>, lo: nat, hi: nat): (r: Block)
    requires per > 0 && |ib| == NSLOTS && lo <= hi
    ensures |r| == hi - lo
  {
    if lo == hi then [] else Range(d, per, ib, lo, hi - 1) + [ByteOf(d, per, ib, hi - 1)]
  }

  /** `buf` is what the file holds from `off` on. */
  ghost predicate BytesAt(d: seq<Block>, per: nat, ib: seq<nat>, off: nat, buf: Block)
    requires per > 0 && |ib| == NSLOTS
  {
    buf == Range(d, per, ib, off, off + |buf|)
  }

  lemma {:induction false} RangeAt(d: seq<Block>, per: nat, ib: seq<nat>, lo: nat, hi: nat, pos: nat)
    requires per > 0 && |ib| == NSLOTS && lo <= pos < hi
    ensures Range(d, per, ib, lo, hi)[pos - lo] == ByteOf(d, per, ib, pos)
  {
    if pos < hi - 1 { RangeAt(d, per, ib, lo, hi - 1, pos); }
  }

  /** Bytes `p` up to `q` lie in block `x` from `o` on, all zero if it is a hole. */
  ghost predicate Inside(d: seq<Block>, per: nat, ib: seq<nat>, p: nat, q: nat, x: nat, o: nat)
    requires per > 0 && |ib| == NSLOTS
  {
    forall pos {:trigger ByteOf(d, per, ib, pos)} :: p <= pos < q ==>
        ByteOf(d, per, ib, pos) == ByteIn(d, x, o + pos - p)
  }

  /** `n` bytes of block content `c` from `o`, or of a hole. */
  function Piece(c: Block, x: nat, o: nat, n: nat): Block
    requires x != 0 ==> o + n <= |c|
  {
    if x == 0 then Zeros(n) else c[o..o + n]
  }

  lemma PieceStep(r: Block, c: Block, x: nat, o: nat, n: nat, b: byte)
    requires (x != 0 ==> o + n + 1 <= |c|) && b == if x == 0 then 0 else c[o + n]
    ensures r + Piece(c, x, o, n) + [b] == r + Piece(c, x, o, n + 1)
  {
    assert Piece(c, x, o, n) + [b] == Piece(c, x, o, n + 1);
    assert r + Piece(c, x, o, n) + [b] == r + (Piece(c, x, o, n) + [b]);
  }

  lemma {:induction false} RangeAppend(d: seq<Block>, per: nat, ib: seq<nat>, lo: nat, p: nat, q: nat, x: nat, o: nat)
    requires per > 0 && |ib| == NSLOTS && lo <= p <= q && Inside(d, per, ib, p, q, x, o) &&
        (x != 0 ==> o + (q - p) <= |Blk(d, x)|)
    ensures Range(d, per, ib, lo, q) == Range(d, per, ib, lo, p) + Piece(Blk(d, x), x, o, q - p)
    decreases q
  {
    if p < q {
      var h := q - 1;
      RangeAppend(d, per, ib, lo, p, h, x, o);
      PieceStep(Range(d, per, ib, lo, p), Blk(d, x), x, o, h - p, ByteOf(d, per, ib, h));
    } else {
      assert Piece(Blk(d, x), x, o, 0) == [];
    }
  }

  /** One block's share of a read, appended to what was read so far. */
  lemma PieceRead(d: seq<Block>, per: nat, ib: seq<nat>, off: nat, p: nat, n: nat, x: nat, o: nat, piece: Block)
    requires per > 0 && |ib| == NSLOTS && off <= p && o == BitAt(4 * per, p) && o + n <= 4 * per
    requires x == MapOf(Slots(d, per, ib), per, GroupAt(4 * per, p)) && (x != 0 ==> o + n <= |Blk(d, x)|)
    requires piece == Piece(Blk(d, x), x, o, n)
    ensures |piece| == n && Range(d, per, ib, off, p + n) == Range(d, per, ib, off, p) + piece
  {
    ChunkInside(d, per, ib, p, n, x);
    RangeAppend(d, per, ib, off, p, p + n, x, o);
  }

  lemma ChunkInside(d: seq<Block>, per: nat, ib: seq<nat>, p: nat, n: nat, x: nat)
    requires per > 0 && |ib| == NSLOTS && BitAt(4 * per, p) + n <= 4 * per
    requires x == MapOf(Slots(d, per, ib), per, GroupAt(4 * per, p))
    ensures Inside(d, per, ib, p, p + n, x, BitAt(4 * per, p))
  {
    forall pos | p <= pos < p + n ensures ByteOf(d, per, ib, pos) == ByteIn(d, x, BitAt(4 * per, p) + pos - p) {
      InChunk(4 * per, p, n, pos);
    }
  }

  /** The bytes after a trim: kept in the blocks below `from`, zero beyond. */
  lemma TrimBytes(d0: seq<Block>, d: seq<Block>, per: nat, ib0: seq<nat>, ib: seq<nat>, from: nat,
                  rest: multiset<nat>, own0: set<nat>, own: set<nat>, pos: nat)
    requires per > 0 && Holds(d0, per, ib0, rest, own0)
    requires FileTrimming(d0, d, per, ib0, ib, from, NSLOTS, rest, own0, own)
    ensures ByteOf(d, per, ib, pos) == if GroupAt(4 * per, pos) < from then ByteOf(d0, per, ib0, pos) else 0
  {
    var f := GroupAt(4 * per, pos);
    assert Slots(d, per, ib) == TrimFile(Slots(d0, per, ib0), per, from);
    TrimFileMap(d0, per, ib0, from, f);
    if f < from && MapOf(Slots(d0, per, ib0), per, f) != 0 {
      DataBlock(d0, per, ib0, f, rest, own0);
      DataBlock(d, per, ib, f, rest, own);
    }
  }

  /** What a full write put there a read of the same range gets back. */
  lemma ReadBack(d0: seq<Block>, ib0: seq<nat>, d: seq<Block>, ib: seq<nat>, per: nat, off: nat, buf: Block)
    requires per > 0 && |ib0| == |ib| == NSLOTS && Wrote(d0, ib0, d, ib, per, off, buf, |buf|)
    ensures Range(d, per, ib, off, off + |buf|) == buf
  {
    var r := Range(d, per, ib, off, off + |buf|);
    forall k | 0 <= k < |buf| ensures r[k] == buf[k] {
      RangeAt(d, per, ib, off, off + |buf|, off + k);
    }
  }

  /** The file keeps the bytes of its first `keep` blocks and is all holes beyond. */
  ghost predicate CutAt(d0: seq<Block>, ib0: seq<nat>, d: seq<Block>, ib: seq<nat>, per: nat, keep: nat)
    requires per > 0 && |ib0| == |ib| == NSLOTS
  {
    && (forall pos: nat {:trigger ByteOf(d, per, ib, pos)} ::
         ByteOf(d, per, ib, pos) == if GroupAt(4 * per, pos) < keep then ByteOf(d0, per, ib0, pos) else 0)
    && (forall f: nat :: MapOf(Slots(d, per, ib), per, f) == if f < keep then MapOf(Slots(d0, per, ib0), per, f) else 0)
  }

  /** What free_from leaves, in terms of bytes, blocks and the other files' blocks. */
  lemma Trimmed15(d0: seq<Block>, d: seq<Block>, per: nat, ib0: seq<nat>, ib: seq<nat>, keep: nat,
                  rest: multiset<nat>, own0: set<nat>, own: set<nat>)
    requires per > 0 && Holds(d0, per, ib0, rest, own0)
    requires FileTrimming(d0, d, per, ib0, ib, keep, NSLOTS, rest, own0, own)
    ensures CutAt(d0, ib0, d, ib, per, keep)
    ensures forall y :: y in rest ==> Blk(d, y) == Blk(d0, y)
  {
    assert Slots(d, per, ib) == TrimFile(Slots(d0, per, ib0), per, keep);
    forall pos: nat ensures ByteOf(d, per, ib, pos) == if GroupAt(4 * per, pos) < keep then ByteOf(d0, per, ib0, pos)
        else 0 {
      TrimBytes(d0, d, per, ib0, ib, keep, rest, own0, own, pos);
    }
    forall f: nat ensures MapOf(Slots(d, per, ib), per, f) == if f < keep then MapOf(Slots(d0, per, ib0), per, f)
        else 0 {
      TrimFileMap(d0, per, ib0, keep, f);
    }
    forall y | y in rest ensures Blk(d, y) == Blk(d0, y) {
      RestNotPointer(d0, per, ib0, rest, own0, y);
      RestNotPointer(d, per, ib, rest, own, y);
    }
  }

  /** free_from(0) leaves the file nothing. */
  lemma AllTrimmed(d0: seq<Block>, d: seq<Block>, per: nat, ib0: seq<nat>, ib: seq<nat>, rest: multiset<nat>,
      own0: set<nat>, own: set<nat>)
    requires Holds(d0, per, ib0, rest, own0) && FileTrimming(d0, d, per, ib0, ib, 0, NSLOTS, rest, own0, own)
    ensures rest == multiset(own) && forall y :: y in rest ==> Blk(d, y) == Blk(d0, y)
  {
    var ns := Slots(d, per, ib);
    forall k | 0 <= k < NSLOTS ensures ns[k] == Nil {
      assert Sat(0, BaseOf(per, k)) == 0;
    }
    SumOfNils(ns);
    assert Sum(ns) + rest == rest;
    forall y | y in rest ensures Blk(d, y) == Blk(d0, y) {
      RestNotPointer(d0, per, ib0, rest, own0, y);
    }
  }

  /** The file reads as before up to `len`. */
  ghost predicate KeepsBelow(d0: seq<Block>, ib0: seq<nat>, d: seq<Block>, ib: seq<nat>, per: nat, len: nat)
    requires per > 0 && |ib0| == |ib| == NSLOTS
  {
    forall pos: nat {:trigger ByteOf(d, per, ib, pos)} :: pos < len ==>
        ByteOf(d, per, ib, pos) == ByteOf(d0, per, ib0, pos)
  }

  /** A cut to `len` bytes keeps all of them. */
  lemma CutBelow(d0: seq<Block>, ib0: seq<nat>, d: seq<Block>, ib: seq<nat>, per: nat, len: nat)
    requires per > 0 && |ib0| == |ib| == NSLOTS && CutAt(d0, ib0, d, ib, per, GroupsFor(len, 4 * per))
    ensures KeepsBelow(d0, ib0, d, ib, per, len)
  {
    forall pos: nat | pos < len ensures ByteOf(d, per, ib, pos) == ByteOf(d0, per, ib0, pos) {
      CutKeeps(per, len, pos);
    }
  }

  /** Every byte below `len` lies in a block that a cut to `len` bytes keeps. */
  lemma CutKeeps(per: nat, len: nat, pos: nat)
    requires per > 0 && pos < len
    ensures GroupAt(4 * per, pos) < GroupsFor(len, 4 * per)
  {
    GroupsCover(len, 4 * per);
    Located(len, 4 * per, GroupsFor(len, 4 * per), pos);
  }

  /** The bytes of a file at [p, p + n) inside one block are those at offset [o, o + n) of file block `f`. */
  lemma InChunk(bs: nat, p: nat, n: nat, pos: nat)
    requires bs > 0 && BitAt(bs, p) + n <= bs
    ensures p <= pos < p + n <==>
        GroupAt(bs, pos) == GroupAt(bs, p) && BitAt(bs, p) <= BitAt(bs, pos) < BitAt(bs, p) + n
    ensures GroupAt(bs, pos) == GroupAt(bs, p) ==> pos - p == BitAt(bs, pos) - BitAt(bs, p)
  {
    Recombine(bs, p);
    Recombine(bs, pos);
    if GroupAt(bs, pos) < GroupAt(bs, p) {
      StartMono(bs, GroupAt(bs, pos), GroupAt(bs, p));
    } else if GroupAt(bs, pos) > GroupAt(bs, p) {
      StartMono(bs, GroupAt(bs, p), GroupAt(bs, pos));
    }
  }

  // ---------------------------------------------------------------- all inodes of a volume

  /** The map of an inode that is not in use. */
  function NoBlocks(): (ib: seq<nat>)
    ensures |ib| == NSLOTS && forall k :: 0 <= k < NSLOTS ==> ib[k] == 0
  {
    seq(NSLOTS, _ => 0)
  }

  ghost function SumFiles(d: seq<Block>, per: nat, ibs: seq<seq<nat>>): multiset<nat>
    requires forall i :: 0 <= i < |ibs| ==> |ibs[i]| == NSLOTS
  {
    if ibs == [] then multiset{} else Sum(Slots(d, per, ibs[0])) + SumFiles(d, per, ibs[1..])
  }

  lemma NoBlocksEmpty(d: seq<Block>, per: nat)
    ensures Sum(Slots(d, per, NoBlocks())) == multiset{}
  {
    var ns := Slots(d, per, NoBlocks());
    forall k | 0 <= k < NSLOTS ensures ns[k] == Nil {
      assert NoBlocks()[k] == 0;
    }
    SumOfNils(ns);
  }

  /** A block map of the one block `b`. */
  lemma OneBlock(d: seq<Block>, per: nat, b: nat)
    requires b != 0
    ensures Sum(Slots(d, per, NoBlocks()[0 := b])) == multiset{b}
  {
    var ib := NoBlocks()[0 := b];
    var ns := Slots(d, per, ib);
    assert ns[0] == Leaf(b);
    forall k | 0 < k < NSLOTS ensures ns[k] == Nil {
      assert NoBlocks()[k] == 0;
    }
    SumOfNils(ns[0 := Nil]);
    SumSplit(ns, 0);
  }

  lemma OneBlockMap(d: seq<Block>, per: nat, b: nat, f: nat)
    requires b != 0 && per > 0
    ensures MapOf(Slots(d, per, NoBlocks()[0 := b]), per, f) == if f == 0 then b else 0
  {
    var ns := Slots(d, per, NoBlocks()[0 := b]);
    MapOfSlot(ns, per, f);
    var k := SlotIdx(per, f);
    assert 0 < k < NSLOTS ==> NoBlocks()[k] == 0;
  }

  lemma {:induction false} SumFilesUpdate(d: seq<Block>, per: nat, ibs: seq<seq<nat>>, i: nat, ib: seq<nat>)
    requires forall j :: 0 <= j < |ibs| ==> |ibs[j]| == NSLOTS
    requires i < |ibs| && |ib| == NSLOTS
    ensures SumFiles(d, per, ibs[i := ib]) == Sum(Slots(d, per, ib)) + SumFiles(d, per, ibs[i := NoBlocks()])
    decreases |ibs|
  {
    NoBlocksEmpty(d, per);
    var a, b := ibs[i := ib], ibs[i := NoBlocks()];
    if i == 0 {
      assert a[1..] == ibs[1..] == b[1..];
    } else {
      assert a[1..] == ibs[1..][i - 1 := ib] && b[1..] == ibs[1..][i - 1 := NoBlocks()];
      SumFilesUpdate(d, per, ibs[1..], i - 1, ib);
    }
  }

  lemma {:induction false} SumFilesMember(d: seq<Block>, per: nat, ibs: seq<seq<nat>>, i: nat)
    requires forall j :: 0 <= j < |ibs| ==> |ibs[j]| == NSLOTS
    requires i < |ibs|
    ensures Sum(Slots(d, per, ibs[i])) <= SumFiles(d, per, ibs)
    decreases |ibs|
  {
    if i > 0 { SumFilesMember(d, per, ibs[1..], i - 1); }
  }

  /** Files none of whose blocks changed still own the same blocks. */
  lemma {:induction false} SumFilesSame(d: seq<Block>, d': seq<Block>, per: nat, ibs: seq<seq<nat>>)
    requires per > 0 && forall j :: 0 <= j < |ibs| ==> |ibs[j]| == NSLOTS
    requires forall x :: x in SumFiles(d, per, ibs) ==> Blk(d', x) == Blk(d, x)
    ensures SumFiles(d', per, ibs) == SumFiles(d, per, ibs)
    decreases |ibs|
  {
    if ibs != [] {
      Untouched(d, d', per, ibs[0]);
      SumFilesSame(d, d', per, ibs[1..]);
    }
  }

  /** One inode changed, and of the others' blocks none: the volume's books still balance, and every
      other inode keeps its map and its bytes. */
  lemma OneChanged(d: seq<Block>, d': seq<Block>, per: nat, ibs: seq<seq<nat>>, i: nat, ib: seq<nat>, own': set<nat>)
    requires per > 0 && (forall j :: 0 <= j < |ibs| ==> |ibs[j]| == NSLOTS) && i < |ibs|
    requires Holds(d', per, ib, SumFiles(d, per, ibs[i := NoBlocks()]), own')
    requires forall x :: x in SumFiles(d, per, ibs[i := NoBlocks()]) ==> Blk(d', x) == Blk(d, x)
    ensures SumFiles(d', per, ibs[i := ib]) == multiset(own')
    ensures forall j :: 0 <= j < |ibs| && j != i ==> Kept(d, d', per, ibs[j])
    ensures forall j, pos :: 0 <= j < |ibs| && j != i ==> ByteOf(d', per, ibs[j], pos) == ByteOf(d, per, ibs[j], pos)
  {
    var others := ibs[i := NoBlocks()];
    SumFilesSame(d, d', per, others);
    SumFilesUpdate(d', per, ibs, i, ib);
    forall j | 0 <= j < |ibs| && j != i
      ensures Kept(d, d', per, ibs[j])
      ensures forall pos :: ByteOf(d', per, ibs[j], pos) == ByteOf(d, per, ibs[j], pos)
    {
      assert others[j] == ibs[j];
      SumFilesMember(d, per, others, j);
      Untouched(d, d', per, ibs[j]);
    }
  }
}
