/** Directory blocks: variable-length records that tile a block, split and merged in place
    (kernel/fs/ext2.c, dir_walk, dir_add_entry and dir_remove_entry). */
module DirBlock {
  import opened Bytes
  import opened Vfs

  /** A name in use: {inode number, type, name}. Names are bytes without a terminator. */
  datatype Entry = Entry(name: Block, ino: nat, ftype: byte)

  function Ino(b: Block, o: nat): nat
    requires o + 8 <= |b|
  {
    Rd32(b, o)
  }

  function Rlen(b: Block, o: nat): nat
    requires o + 8 <= |b|
  {
    Rd16(b, o + 4)
  }

  function Nlen(b: Block, o: nat): nat
    requires o + 8 <= |b|
  {
    b[o + 6]
  }

  /** A multiple of four. */
  predicate Aligned(n: nat) {
    n == 0 || (n >= 4 && Aligned(n - 4))
  }

  lemma {:induction false} AlignedIsMod(n: nat)
    ensures Aligned(n) <==> n % 4 == 0
  {
    if n >= 4 {
      AlignedIsMod(n - 4);
    }
  }

  lemma AlignedRest(a: nat, b: nat)
    requires Aligned(a) && Aligned(b) && b <= a
    ensures Aligned(a - b)
  {
    AlignedIsMod(a);
    AlignedIsMod(b);
    AlignedIsMod(a - b);
  }

  /** align4: the next multiple of four. */
  function Align4(n: nat): (r: nat)
    ensures Aligned(r) && n <= r < n + 4
  {
    if n == 0 then 0 else 4 + Align4(if n < 4 then 0 else n - 4)
  }

  lemma {:induction false} Align4Is(n: nat)
    ensures Align4(n) == (n + 3) / 4 * 4
  {
    if n >= 4 {
      Align4Is(n - 4);
    }
  }

  /** A record at `o` that lies inside the block and holds its own name. */
  predicate Record(b: Block, o: nat) {
    && o + 8 <= |b|
    && Aligned(Rlen(b, o)) && 8 + Nlen(b, o) <= Rlen(b, o) && o + Rlen(b, o) <= |b|
    && (Ino(b, o) != 0 ==> Nlen(b, o) > 0)
  }

  /** Records follow one another from `o` exactly to `e`. */
  predicate Spans(b: Block, o: nat, e: nat)
    decreases |b| - o
  {
    o == e <= |b| || (o < e <= |b| && Record(b, o) && Spans(b, o + Rlen(b, o), e))
  }

  predicate Tiled(b: Block) {
    Spans(b, 0, |b|)
  }

  function Name(b: Block, o: nat): Block
    requires Record(b, o)
  {
    b[o + 8..o + 8 + Nlen(b, o)]
  }

  /** The entry of the record at `o`, none if the record is void. */
  function EntryAt(b: Block, o: nat): seq<Entry>
    requires Record(b, o)
  {
    if Ino(b, o) == 0 then [] else [Entry(Name(b, o), Ino(b, o), b[o + 7])]
  }

  function Upto(b: Block, o: nat, e: nat): seq<Entry>
    requires Spans(b, o, e)
    decreases |b| - o
  {
    if o == e then [] else EntryAt(b, o) + Upto(b, o + Rlen(b, o), e)
  }

  function Entries(b: Block): seq<Entry>
    requires Tiled(b)
  {
    Upto(b, 0, |b|)
  }

  // ------------------------------------------------------------ splitting and framing walks

  lemma Assoc(a: seq<Entry>, b: seq<Entry>, c: seq<Entry>)
    ensures a + b + c == a + (b + c)
  {
  }

  lemma {:induction false} Joined(b: Block, o: nat, m: nat, e: nat)
    requires Spans(b, o, m) && Spans(b, m, e)
    ensures Spans(b, o, e) && Upto(b, o, e) == Upto(b, o, m) + Upto(b, m, e)
    decreases |b| - o
  {
    if o != m {
      var n := o + Rlen(b, o);
      StepInside(b, o, m);
      Joined(b, n, m, e);
      Assoc(EntryAt(b, o), Upto(b, n, m), Upto(b, m, e));
    }
  }

  /** A record is a walk of one step. */
  lemma One(b: Block, o: nat)
    requires Record(b, o)
    ensures Spans(b, o, o + Rlen(b, o)) && Upto(b, o, o + Rlen(b, o)) == EntryAt(b, o)
  {
    assert Spans(b, o + Rlen(b, o), o + Rlen(b, o));
  }

  lemma SameRecord(b: Block, b': Block, o: nat)
    requires Record(b, o) && |b'| == |b| && (forall i :: o <= i < o + Rlen(b, o) ==> b'[i] == b[i])
    ensures Record(b', o) && Rlen(b', o) == Rlen(b, o) && EntryAt(b', o) == EntryAt(b, o)
  {
    assert Record(b', o);
    assert Name(b', o) == Name(b, o);
  }

  /** A walk reads only the bytes it passes over. */
  lemma {:induction false} SameWalk(b: Block, b': Block, o: nat, e: nat)
    requires Spans(b, o, e) && |b'| == |b| && (forall i :: o <= i < e ==> b'[i] == b[i])
    ensures Spans(b', o, e) && Upto(b', o, e) == Upto(b, o, e)
    decreases |b| - o
  {
    if o != e {
      StepInside(b, o, e);
      SameRecord(b, b', o);
      SameWalk(b, b', o + Rlen(b, o), e);
    }
  }

  lemma StepInside(b: Block, o: nat, e: nat)
    requires Spans(b, o, e) && o != e
    ensures o + Rlen(b, o) <= e && Spans(b, o + Rlen(b, o), e)
  {
  }

  /** Bytes changed on [o, m) only: the walks up to `o` and from `m` on stay, the middle is new. */
  lemma Respliced(b: Block, b': Block, o: nat, m: nat)
    requires Spans(b, 0, o) && Spans(b, o, m) && Spans(b, m, |b|)
    requires Outside(b, b', o, m) && Spans(b', o, m)
    ensures Tiled(b) && Entries(b) == Upto(b, 0, o) + Upto(b, o, m) + Upto(b, m, |b|)
    ensures Tiled(b') && Entries(b') == Upto(b, 0, o) + Upto(b', o, m) + Upto(b, m, |b|)
  {
    SameWalk(b, b', 0, o);
    SameWalk(b, b', m, |b|);
    Joined(b, 0, o, m);
    Joined(b, 0, m, |b|);
    Joined(b', 0, o, m);
    Joined(b', 0, m, |b|);
  }

  // ------------------------------------------------------------ writing records

  /** The blocks differ on [lo, hi) at most. */
  predicate Outside(b: Block, c: Block, lo: nat, hi: nat) {
    |c| == |b| && forall i {:trigger c[i]} :: 0 <= i < |b| && !(lo <= i < hi) ==> c[i] == b[i]
  }

  /** The header and the name of a record; the record's other bytes stay. */
  function Put(b: Block, o: nat, ino: nat, rlen: nat, ftype: byte, name: Block): (r: Block)
    requires o + 8 + |name| <= |b| && ino < U32 && rlen < U16 && |name| < 256
    ensures Outside(b, r, o, o + 8 + |name|)
  {
    Patch(Wr16(Wr32(b, o, ino), o + 4, rlen)[o + 6 := |name|][o + 7 := ftype], o + 8, name)
  }

  /** A record on disk: inode number, length, name length, type, name. */
  lemma OnDisk(b: Block, o: nat, ino: nat, rlen: nat, ftype: byte, name: Block)
    requires o + 8 + |name| <= |b| && ino < U32 && rlen < U16 && |name| < 256
    ensures var r := Put(b, o, ino, rlen, ftype, name);
      && r[o] == ino % 0x100 && r[o + 1] == ino / 0x100 % 0x100 && r[o + 2] == ino / 0x1_0000 % 0x100
      && r[o + 3] == ino / 0x100_0000 && r[o + 4] == rlen % 0x100 && r[o + 5] == rlen / 0x100
      && r[o + 6] == |name| && r[o + 7] == ftype && r[o + 8..o + 8 + |name|] == name
  {
    var b1 := Wr32(b, o, ino);
    LittleEndian(b, o, ino);
    var b2 := Wr16(b1, o + 4, rlen);
    assert b2[o + 4] == rlen % 0x100 && b2[o + 5] == rlen / 0x100;
    assert b2[o] == b1[o] && b2[o + 1] == b1[o + 1] && b2[o + 2] == b1[o + 2] && b2[o + 3] == b1[o + 3];
  }

  lemma PutIs(b: Block, o: nat, ino: nat, rlen: nat, ftype: byte, name: Block)
    requires o + rlen <= |b| && 0 < ino < U32 && rlen < U16 && 0 < |name| < 256 && 8 + |name| <= rlen && Aligned(rlen)
    ensures var r := Put(b, o, ino, rlen, ftype, name);
      Record(r, o) && Rlen(r, o) == rlen && EntryAt(r, o) == [Entry(name, ino, ftype)]
  {
    var b1 := Wr32(b, o, ino);
    var b2 := Wr16(b1, o + 4, rlen);
    assert Rd32(b2, o) == ino;
    var b3: Block := b2[o + 6 := |name|][o + 7 := ftype];
    assert Rd32(b3, o) == ino && Rd16(b3, o + 4) == rlen;
    var r := Patch(b3, o + 8, name);
    assert Rd32(r, o) == ino && Rd16(r, o + 4) == rlen;
    assert Record(r, o);
    assert Name(r, o) == name;
  }

  /** Cutting the record at `o` down to `len` bytes keeps its entry. */
  lemma CutHere(b: Block, o: nat, len: nat)
    requires Record(b, o) && 8 + Nlen(b, o) <= len <= Rlen(b, o) && Aligned(len)
    ensures len < U16
    ensures var r := Wr16(b, o + 4, len); Record(r, o) && Rlen(r, o) == len && EntryAt(r, o) == EntryAt(b, o)
  {
    var r := Wr16(b, o + 4, len);
    assert Record(r, o);
    assert Name(r, o) == Name(b, o);
  }

  /** Where a new record fits: after the name of the record at `o`, or all over it if it is void. */
  function Ideal(b: Block, o: nat): nat
    requires Record(b, o)
  {
    if Ino(b, o) == 0 then 0 else Align4(8 + Nlen(b, o))
  }

  /** `s` is `r` with `e` put in somewhere, the order of the rest kept. */
  ghost predicate Inserted(r: seq<Entry>, s: seq<Entry>, e: Entry) {
    exists k :: 0 <= k <= |r| && s == r[..k] + [e] + r[k..]
  }

  lemma InsertedAfter(r: seq<Entry>, s: seq<Entry>, pre: seq<Entry>, mid: seq<Entry>, post: seq<Entry>, e: Entry)
    requires r == pre + mid + post && s == pre + (mid + [e]) + post
    ensures Inserted(r, s, e)
  {
    var k := |pre| + |mid|;
    assert r[..k] == pre + mid && r[k..] == post;
    Assoc(pre, mid, [e]);
  }

  /** Two records side by side. */
  lemma Two(b: Block, o: nat, m: nat, x: seq<Entry>, y: seq<Entry>)
    requires Record(b, o) && o + Rlen(b, o) == m && EntryAt(b, o) == x
    requires Record(b, m) && EntryAt(b, m) == y
    ensures Spans(b, o, m + Rlen(b, m)) && Upto(b, o, m + Rlen(b, m)) == x + y
  {
    var e := m + Rlen(b, m);
    assert Spans(b, e, e) && Spans(b, m, e);
    assert Upto(b, m, e) == y + [];
  }

  /** `b'` differs from `b` within the record at `o` only, and there holds the record's old entry, if
      any, and then `e`. */
  predicate Widened(b: Block, b': Block, o: nat, e: Entry)
    requires Record(b, o)
  {
    var m := o + Rlen(b, o);
    Outside(b, b', o, m) && Spans(b', o, m) && Upto(b', o, m) == EntryAt(b, o) + [e]
  }

  lemma AddedInVoid(b: Block, o: nat, e: Entry)
    requires Record(b, o) && Ino(b, o) == 0 && 0 < e.ino < U32 && 0 < |e.name| < 256 && Rlen(b, o) >= 8 + |e.name|
    ensures Widened(b, Put(b, o, e.ino, Rlen(b, o), e.ftype, e.name), o, e)
  {
    PutIs(b, o, e.ino, Rlen(b, o), e.ftype, e.name);
    One(Put(b, o, e.ino, Rlen(b, o), e.ftype, e.name), o);
  }

  /** The record at `o` cut down to `ideal` bytes and a new one in the room behind it. */
  lemma AddedInSlack(b: Block, o: nat, ideal: nat, rest: nat, e: Entry)
    requires Record(b, o) && 8 + Nlen(b, o) <= ideal && Aligned(ideal) && ideal + rest == Rlen(b, o) &&
        8 + |e.name| <= rest
    requires 0 < e.ino < U32 && 0 < |e.name| < 256
    ensures ideal < U16 && Widened(b, Put(Wr16(b, o + 4, ideal), o + ideal, e.ino, rest, e.ftype, e.name), o, e)
  {
    CutHere(b, o, ideal);
    var c := Wr16(b, o + 4, ideal);
    CutOutside(b, c, o, ideal);
    Behind(b, c, o, ideal, rest, e);
  }

  lemma CutOutside(b: Block, c: Block, o: nat, ideal: nat)
    requires o + 6 <= |b| && ideal < U16 && 8 <= ideal && o + ideal <= |b| && c == Wr16(b, o + 4, ideal)
    ensures Outside(b, c, o, o + ideal)
  {
  }

  lemma Behind(b: Block, c: Block, o: nat, ideal: nat, rest: nat, e: Entry)
    requires Record(b, o) && Outside(b, c, o, o + ideal) && 8 <= ideal && ideal + rest == Rlen(b, o)
    requires Record(c, o) && Rlen(c, o) == ideal && EntryAt(c, o) == EntryAt(b, o)
    requires 0 < e.ino < U32 && 0 < |e.name| < 256 && 8 + |e.name| <= rest
    ensures Widened(b, Put(c, o + ideal, e.ino, rest, e.ftype, e.name), o, e)
  {
    AlignedRest(Rlen(b, o), ideal);
    PutIs(c, o + ideal, e.ino, rest, e.ftype, e.name);
    SlackFilled(b, c, Put(c, o + ideal, e.ino, rest, e.ftype, e.name), o, ideal, rest, e);
  }

  lemma SlackFilled(b: Block, c: Block, b': Block, o: nat, ideal: nat, rest: nat, e: Entry)
    requires Record(b, o) && Outside(b, c, o, o + ideal) && ideal + rest == Rlen(b, o)
    requires Record(c, o) && Rlen(c, o) == ideal && EntryAt(c, o) == EntryAt(b, o)
    requires Record(b', o + ideal) && Rlen(b', o + ideal) == rest && EntryAt(b', o + ideal) == [e]
    requires Outside(c, b', o + ideal, o + ideal + 8 + |e.name|) && 8 + |e.name| <= rest
    ensures Widened(b, b', o, e)
  {
    SameRecord(c, b', o);
    Two(b', o, o + ideal, EntryAt(b, o), [e]);
  }

  lemma WidenedIs(b: Block, b': Block, o: nat, e: Entry)
    requires Spans(b, 0, o) && Record(b, o) && Spans(b, o + Rlen(b, o), |b|) && Widened(b, b', o, e)
    ensures Tiled(b) && |b'| == |b| && Tiled(b') && Inserted(Entries(b), Entries(b'), e)
  {
    var m := o + Rlen(b, o);
    One(b, o);
    Respliced(b, b', o, m);
    var was, now := Upto(b, o, m), Upto(b', o, m);
    assert was == EntryAt(b, o) && now == was + [e];
    InsertedAfter(Entries(b), Entries(b'), Upto(b, 0, o), was, Upto(b, m, |b|), e);
  }

  // ------------------------------------------------------------ the loops over one block

  /** A void record is taken over whole; one in use gives up what its name does not need. */
  method PutEntry(b: Block, o: nat, e: Entry) returns (b': Block)
    requires Record(b, o) && 0 < e.ino < U32 && 0 < |e.name| < 256 && Rlen(b, o) - Ideal(b, o) >= Align4(8 + |e.name|)
    ensures Widened(b, b', o, e)
  {
    var rlen, ideal := Rlen(b, o), Ideal(b, o);
    if Ino(b, o) == 0 {
      b' := Put(b, o, e.ino, rlen, e.ftype, e.name);
      AddedInVoid(b, o, e);
      return;
    }
    var spare := rlen - ideal;
    AddedInSlack(b, o, ideal, spare, e);
    b' := Put(Wr16(b, o + 4, ideal), o + ideal, e.ino, spare, e.ftype, e.name);
  }

  /** The record at `o` has fewer than `need` bytes to spare. */
  predicate Tight(b: Block, need: nat, o: nat) {
    Spans(b, 0, o) && Record(b, o) ==> Rlen(b, o) - Ideal(b, o) < need
  }

  ghost predicate NoSlack(b: Block, need: nat) {
    forall o :: 0 <= o < |b| ==> Tight(b, need, o)
  }

  /** The scan of dir_add_entry over one block: the entry goes into the first record with room for
      it; without one the block is as it was. */
  method AddInBlock(b: Block, e: Entry) returns (ok: bool, b': Block)
    requires Tiled(b) && 0 < e.ino < U32 && 0 < |e.name| < 256
    ensures |b'| == |b| && Tiled(b')
    ensures ok ==> Inserted(Entries(b), Entries(b'), e)
    ensures ok <==> !NoSlack(b, Align4(8 + |e.name|))
    ensures !ok ==> b' == b
  {
    var need := Align4(8 + |e.name|);
    var o := 0;
    while o + 8 <= |b|
      invariant Spans(b, 0, o) && Spans(b, o, |b|)
      invariant forall p :: 0 <= p < o ==> Tight(b, need, p)
      decreases |b| - o
    {
      if Rlen(b, o) - Ideal(b, o) >= need {
        assert !Tight(b, need, o);
        b' := PutEntry(b, o, e);
        WidenedIs(b, b', o, e);
        return true, b';
      }
      Advance(b, o, need);
      o := o + Rlen(b, o);
    }
    return false, b;
  }

  lemma Advance(b: Block, o: nat, need: nat)
    requires Spans(b, 0, o) && Spans(b, o, |b|) && o < |b| && Tight(b, need, o)
    ensures Record(b, o) && Spans(b, 0, o + Rlen(b, o)) && Spans(b, o + Rlen(b, o), |b|)
    ensures forall p :: o <= p < o + Rlen(b, o) ==> Tight(b, need, p)
  {
    One(b, o);
    Joined(b, 0, o, o + Rlen(b, o));
    Between(b, o);
  }

  /** No walk from the start of the block stops inside a record. */
  lemma {:induction false} NotInside(b: Block, s: nat, o: nat, p: nat)
    requires Spans(b, s, o) && Record(b, o) && o < p < o + Rlen(b, o)
    ensures !Spans(b, s, p)
    decreases |b| - s
  {
    if s != o {
      NotInside(b, s + Rlen(b, s), o, p);
    } else if Spans(b, s, p) {
      StepInside(b, s, p);
    }
  }

  lemma Between(b: Block, o: nat)
    requires Spans(b, 0, o) && Record(b, o)
    ensures forall p :: o < p < o + Rlen(b, o) ==> !Spans(b, 0, p)
  {
    forall p | o < p < o + Rlen(b, o) ensures !Spans(b, 0, p) {
      NotInside(b, 0, o, p);
    }
  }

  // ------------------------------------------------------------ taking a name out

  /** The first entry named `name` is number `k`. */
  predicate FirstAt(r: seq<Entry>, name: Block, k: nat) {
    k < |r| && r[k].name == name && forall j :: 0 <= j < k ==> r[j].name != name
  }

  predicate Absent(r: seq<Entry>, name: Block) {
    forall j :: 0 <= j < |r| ==> r[j].name != name
  }

  /** `s` is `r` without its first entry named `name`, whose inode is `ino`. */
  ghost predicate Removed(r: seq<Entry>, s: seq<Entry>, name: Block, ino: nat) {
    exists k :: 0 <= k < |r| && FirstAt(r, name, k) && r[k].ino == ino && s == r[..k] + r[k + 1..]
  }

  lemma RemovedFrom(r: seq<Entry>, s: seq<Entry>, pre: seq<Entry>, e: Entry, post: seq<Entry>)
    requires r == pre + [e] + post && s == pre + post && Absent(pre, e.name)
    ensures Removed(r, s, e.name, e.ino)
  {
    var k := |pre|;
    assert r[..k] == pre && r[k + 1..] == post && r[k] == e;
    assert FirstAt(r, e.name, k);
  }

  lemma AbsentFrom(r: seq<Entry>, pre: seq<Entry>, mid: seq<Entry>, name: Block)
    requires r == pre + mid && Absent(pre, name) && Absent(mid, name)
    ensures Absent(r, name)
  {
  }

  /** The record before takes over the bytes of the record at `o`. */
  lemma Merged(b: Block, p: nat, o: nat)
    requires Record(b, p) && o == p + Rlen(b, p) && Record(b, o) && |b| < U16
    ensures var b' := Wr16(b, p + 4, Rlen(b, p) + Rlen(b, o));
      Outside(b, b', p, o) && Record(b', p) && Rlen(b', p) == Rlen(b, p) + Rlen(b, o) && EntryAt(b', p) == EntryAt(b, p)
  {
    var b' := Wr16(b, p + 4, Rlen(b, p) + Rlen(b, o));
    AlignedSum(Rlen(b, p), Rlen(b, o));
    assert Record(b', p);
    assert Name(b', p) == Name(b, p);
  }

  lemma AlignedSum(a: nat, b: nat)
    requires Aligned(a) && Aligned(b)
    ensures Aligned(a + b)
  {
    AlignedIsMod(a);
    AlignedIsMod(b);
    AlignedIsMod(a + b);
  }

  lemma Voided(b: Block, o: nat)
    requires Record(b, o)
    ensures var b' := Wr32(b, o, 0);
        Outside(b, b', o, o + Rlen(b, o)) && Record(b', o) && Rlen(b', o) == Rlen(b, o) && EntryAt(b', o) == []
  {
    assert Record(Wr32(b, o, 0), o);
  }

  /** `b'` differs from `b` between `p` and the end of the record at `o`, where it has lost that
      record's entry. */
  predicate Shrunk(b: Block, b': Block, p: nat, o: nat)
    requires Record(b, o) && Spans(b, p, o)
  {
    var m := o + Rlen(b, o);
    Outside(b, b', p, m) && Spans(b', p, m) && Upto(b', p, m) == Upto(b, p, o)
  }

  lemma MergedIs(b: Block, p: nat, o: nat)
    requires Record(b, p) && o == p + Rlen(b, p) && Record(b, o) && |b| < U16
    ensures Spans(b, p, o) && Shrunk(b, Wr16(b, p + 4, Rlen(b, p) + Rlen(b, o)), p, o)
  {
    Merged(b, p, o);
    One(b, p);
    One(Wr16(b, p + 4, Rlen(b, p) + Rlen(b, o)), p);
  }

  lemma VoidedIs(b: Block, o: nat)
    requires Record(b, o)
    ensures Shrunk(b, Wr32(b, o, 0), o, o)
  {
    Voided(b, o);
    One(Wr32(b, o, 0), o);
  }

  lemma ShrunkIs(b: Block, b': Block, p: nat, o: nat, e: Entry)
    requires Spans(b, 0, p) && Spans(b, p, o) && Record(b, o) && Spans(b, o + Rlen(b, o), |b|)
    requires Shrunk(b, b', p, o) && EntryAt(b, o) == [e] && Spans(b, 0, o) && Absent(Upto(b, 0, o), e.name)
    ensures Tiled(b) && Tiled(b') && Removed(Entries(b), Entries(b'), e.name, e.ino)
  {
    var m := o + Rlen(b, o);
    One(b, o);
    Joined(b, p, o, m);
    Joined(b, 0, p, o);
    Respliced(b, b', p, m);
    var post := Upto(b, m, |b|);
    assert Entries(b) == Upto(b, 0, o) + [e] + post by {
      Assoc(Upto(b, 0, p), Upto(b, p, o), [e]);
    }
    RemovedFrom(Entries(b), Entries(b'), Upto(b, 0, o), e, post);
  }

  /** The scan of dir_remove_entry over one block: the first entry with the name goes, merged into the
      record before it or, at the start of the block, voided; 0 when there is none. */
  method RemoveInBlock(b: Block, name: Block) returns (ino: nat, b': Block)
    requires Tiled(b) && |b| < U16
    ensures |b'| == |b| && Tiled(b')
    ensures ino != 0 ==> Removed(Entries(b), Entries(b'), name, ino)
    ensures ino == 0 ==> b' == b && Absent(Entries(b), name)
  {
    var o: nat, prev: nat, havePrev := 0, 0, false;
    while o + 8 <= |b|
      invariant Spans(b, 0, o) && Spans(b, o, |b|) && Absent(Upto(b, 0, o), name)
      invariant if havePrev then Spans(b, 0, prev) && Record(b, prev) && prev + Rlen(b, prev) == o else o == 0
      decreases |b| - o
    {
      if Ino(b, o) != 0 && Nlen(b, o) == |name| && Name(b, o) == name {
        ino := Ino(b, o);
        b' := TakeOut(b, o, prev, havePrev);
        return;
      }
      Passed(b, o, name);
      prev, havePrev, o := o, true, o + Rlen(b, o);
    }
    return 0, b;
  }

  method TakeOut(b: Block, o: nat, prev: nat, havePrev: bool) returns (b': Block)
    requires Record(b, o) && Ino(b, o) != 0 && |b| < U16 && Spans(b, 0, o) && Spans(b, o + Rlen(b, o), |b|)
    requires Absent(Upto(b, 0, o), Name(b, o))
    requires if havePrev then Spans(b, 0, prev) && Record(b, prev) && prev + Rlen(b, prev) == o else o == 0
    ensures Tiled(b) && |b'| == |b| && Tiled(b') && Removed(Entries(b), Entries(b'), Name(b, o), Ino(b, o))
  {
    if havePrev {
      b' := Wr16(b, prev + 4, Rlen(b, prev) + Rlen(b, o));
      MergedIs(b, prev, o);
      ShrunkIs(b, b', prev, o, EntryAt(b, o)[0]);
    } else {
      b' := Wr32(b, o, 0);
      VoidedIs(b, o);
      ShrunkIs(b, b', o, o, EntryAt(b, o)[0]);
    }
  }

  lemma Passed(b: Block, o: nat, name: Block)
    requires Spans(b, 0, o) && Spans(b, o, |b|) && o < |b| && Absent(Upto(b, 0, o), name)
    requires Record(b, o) && Absent(EntryAt(b, o), name)
    ensures Spans(b, 0, o + Rlen(b, o)) && Spans(b, o + Rlen(b, o), |b|) && Absent(Upto(b, 0, o + Rlen(b, o)), name)
  {
    One(b, o);
    Joined(b, 0, o, o + Rlen(b, o));
    AbsentFrom(Upto(b, 0, o + Rlen(b, o)), Upto(b, 0, o), EntryAt(b, o), name);
  }

  // ------------------------------------------------------------ dir_walk over one block

  /** Lookup: the inode of the first entry with the name, 0 when there is none. */
  method FindInBlock(b: Block, name: Block) returns (ino: nat, ftype: byte)
    requires Tiled(b)
    ensures ino == 0 ==> Absent(Entries(b), name)
    ensures ino != 0 ==> Found(Entries(b), name, ino, ftype)
  {
    var o := 0;
    while o + 8 <= |b|
      invariant Spans(b, 0, o) && Spans(b, o, |b|) && Absent(Upto(b, 0, o), name)
      decreases |b| - o
    {
      if Ino(b, o) != 0 && Nlen(b, o) == |name| && Name(b, o) == name {
        FoundHere(b, o);
        return Ino(b, o), b[o + 7];
      }
      Passed(b, o, name);
      o := o + Rlen(b, o);
    }
    return 0, 0;
  }

  /** The first entry of that name has that inode and type. */
  ghost predicate Found(r: seq<Entry>, name: Block, ino: nat, ftype: byte) {
    exists k :: 0 <= k < |r| && FirstAt(r, name, k) && r[k] == Entry(name, ino, ftype)
  }

  lemma FoundIn(r: seq<Entry>, pre: seq<Entry>, mid: seq<Entry>, post: seq<Entry>, e: Entry)
    requires r == pre + mid + post && Absent(pre, e.name) && Found(mid, e.name, e.ino, e.ftype)
    ensures Found(r, e.name, e.ino, e.ftype)
  {
    var k :| 0 <= k < |mid| && FirstAt(mid, e.name, k) && mid[k] == e;
    assert r[|pre| + k] == e;
    assert forall j :: 0 <= j < |pre| + k ==> r[j] == if j < |pre| then pre[j] else mid[j - |pre|];
    assert FirstAt(r, e.name, |pre| + k);
  }

  lemma FoundHere(b: Block, o: nat)
    requires Spans(b, 0, o) && Record(b, o) && Spans(b, o + Rlen(b, o), |b|) && Ino(b, o) != 0 &&
        Absent(Upto(b, 0, o), Name(b, o))
    ensures Tiled(b) && Found(Entries(b), Name(b, o), Ino(b, o), b[o + 7])
  {
    Cover(b, o);
    var e := EntryAt(b, o)[0];
    assert FirstAt([e], e.name, 0);
    FoundIn(Entries(b), Upto(b, 0, o), [e], Upto(b, o + Rlen(b, o), |b|), e);
  }

  lemma Cover(b: Block, o: nat)
    requires Spans(b, 0, o) && Record(b, o) && Spans(b, o + Rlen(b, o), |b|)
    ensures Tiled(b) && Entries(b) == Upto(b, 0, o) + EntryAt(b, o) + Upto(b, o + Rlen(b, o), |b|)
  {
    One(b, o);
    Joined(b, 0, o, o + Rlen(b, o));
    Joined(b, 0, o + Rlen(b, o), |b|);
  }

  /** The entries an index counts: all of them, or those whose names the VFS can hold. */
  function Shown(r: seq<Entry>, all: bool): seq<Entry> {
    if r == [] then []
    else Shown(r[..|r| - 1], all) + if all || |r[|r| - 1].name| <= NAME_MAX then [r[|r| - 1]] else []
  }

  /** What an index counts is every entry, as often as it is there, but for names too long; with `all` even those. */
  lemma {:induction false} ShownIs(r: seq<Entry>, all: bool, e: Entry)
    ensures multiset(Shown(r, all))[e] == if all || |e.name| <= NAME_MAX then multiset(r)[e] else 0
    ensures all ==> Shown(r, all) == r
  {
    if r != [] {
      var init, last := r[..|r| - 1], r[|r| - 1];
      ShownIs(init, all, e);
      assert r == init + [last];
    }
  }

  lemma {:induction false} ShownSum(r: seq<Entry>, s: seq<Entry>, all: bool)
    ensures Shown(r + s, all) == Shown(r, all) + Shown(s, all)
  {
    if s == [] {
      assert r + s == r;
    } else {
      var t := s[..|s| - 1];
      ShownSum(r, t, all);
      assert (r + s)[..|r + s| - 1] == r + t;
      Assoc(Shown(r, all), Shown(t, all), if all || |s[|s| - 1].name| <= NAME_MAX then [s[|s| - 1]] else []);
    }
  }

  /** `s` is the part of `t` from `n` on. */
  ghost predicate Within(s: seq<Entry>, t: seq<Entry>, n: nat) {
    n + |s| <= |t| && forall k {:trigger s[k]} :: 0 <= k < |s| ==> t[n + k] == s[k]
  }

  lemma WithinMiddle(p: seq<Entry>, s: seq<Entry>, q: seq<Entry>)
    ensures Within(s, p + s + q, |p|)
  {
  }

  lemma ShownParts(r: seq<Entry>, pre: seq<Entry>, mid: seq<Entry>, post: seq<Entry>, all: bool)
    requires r == pre + mid + post
    ensures |Shown(pre + mid, all)| == |Shown(pre, all)| + |Shown(mid, all)|
    ensures Within(Shown(mid, all), Shown(r, all), |Shown(pre, all)|)
  {
    ShownSum(pre, mid, all);
    ShownSum(pre + mid, post, all);
    WithinMiddle(Shown(pre, all), Shown(mid, all), Shown(post, all));
  }

  lemma ShownOne(e: Entry, all: bool)
    ensures Shown([e], all) == if all || |e.name| <= NAME_MAX then [e] else []
  {
    assert [e][..0] == [];
  }

  /** With every entry shown, the index is the entry's place. */
  lemma {:induction false} ShownAll(r: seq<Entry>)
    ensures Shown(r, true) == r
  {
    if r != [] {
      ShownAll(r[..|r| - 1]);
      assert r == r[..|r| - 1] + [r[|r| - 1]];
    }
  }

  /** `e` is entry number `index` of a count that stands at `n` before `s`. */
  ghost predicate Picked(s: seq<Entry>, index: nat, n: nat, e: Entry) {
    n <= index < n + |s| && e == s[index - n]
  }

  lemma PickedWithin(s: seq<Entry>, t: seq<Entry>, n: nat, index: nat, e: Entry)
    requires Picked(s, index, n, e) && Within(s, t, n)
    ensures index < |t| && e == t[index]
  {
    assert s[index - n] == t[n + (index - n)];
  }

  /** Readdir: entry number `index` of those shown, `seen` having gone by in earlier blocks; without it,
      how many have gone by after this block. */
  method NthInBlock(b: Block, all: bool, index: nat, seen0: nat) returns (found: bool, e: Entry, seen: nat)
    requires Tiled(b) && seen0 <= index
    ensures found ==> Picked(Shown(Entries(b), all), index, seen0, e)
    ensures !found ==> seen == seen0 + |Shown(Entries(b), all)| <= index
  {
    var o := 0;
    seen := seen0;
    e := Entry([], 0, 0);
    while o + 8 <= |b|
      invariant Spans(b, 0, o) && Spans(b, o, |b|) && seen == seen0 + |Shown(Upto(b, 0, o), all)| <= index
      decreases |b| - o
    {
      Counted(b, o, all);
      if Ino(b, o) != 0 && (all || Nlen(b, o) <= NAME_MAX) {
        if seen == index {
          return true, Entry(Name(b, o), Ino(b, o), b[o + 7]), seen;
        }
        seen := seen + 1;
      }
      o := o + Rlen(b, o);
    }
    found := false;
  }

  lemma Counted(b: Block, o: nat, all: bool)
    requires Spans(b, 0, o) && Spans(b, o, |b|) && o < |b|
    ensures Tiled(b) && Record(b, o) && Spans(b, 0, o + Rlen(b, o)) && Spans(b, o + Rlen(b, o), |b|)
    ensures Counts(Entries(b), Upto(b, 0, o), EntryAt(b, o), Upto(b, 0, o + Rlen(b, o)), all)
  {
    Cover(b, o);
    One(b, o);
    Joined(b, 0, o, o + Rlen(b, o));
    CountsNext(Entries(b), Upto(b, 0, o), EntryAt(b, o), Upto(b, o + Rlen(b, o), |b|), all);
  }

  /** Passing the entries `mid`, none or one, counts it if it is shown, as number |Shown(pre)| of `r`. */
  ghost predicate Counts(r: seq<Entry>, pre: seq<Entry>, mid: seq<Entry>, next: seq<Entry>, all: bool) {
    var n := |Shown(pre, all)|;
    if mid != [] && (all || |mid[0].name| <= NAME_MAX)
    then |Shown(next, all)| == n + 1 && n < |Shown(r, all)| && Shown(r, all)[n] == mid[0]
    else |Shown(next, all)| == n
  }

  lemma CountsNext(r: seq<Entry>, pre: seq<Entry>, mid: seq<Entry>, post: seq<Entry>, all: bool)
    requires r == pre + mid + post && |mid| <= 1
    ensures Counts(r, pre, mid, pre + mid, all)
  {
    ShownSum(pre, mid, all);
    ShownSum(pre + mid, post, all);
    if mid != [] {
      assert mid == [mid[0]];
      ShownOne(mid[0], all);
    }
  }
}
