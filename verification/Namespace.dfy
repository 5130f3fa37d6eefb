/** Names and the inodes they stand for: over all directories together an inode in use is named no more
    often than its link count allows, and no name stands for an inode that is free. */
module Namespace {
  import opened Bytes
  import opened DirBlock

  const DOT: byte := 46

  /** dir_is_empty's test of a name: "." or "..", up to the first NUL. */
  predicate Dots(name: Block) {
    |name| > 0 && name[0] == DOT && (|name| == 1 || name[1] == 0 || (name[1] == DOT && (|name| == 2 || name[2] == 0)))
  }

  /** For names without a NUL, as C strings are, the test is exact. */
  lemma DotsExact(name: Block)
    requires 0 !in name
    ensures Dots(name) <==> name == [DOT] || name == [DOT, DOT]
  {
  }

  /** How many entries of `r`, "." and ".." aside, name inode `ino`. */
  function Naming(r: seq<Entry>, ino: nat): nat {
    if r == [] then 0
        else Naming(r[..|r| - 1], ino) + (if r[|r| - 1].ino == ino && !Dots(r[|r| - 1].name) then 1 else 0)
  }

  /** How many names inode `ino` has in all directories. */
  function Refs(ns: seq<seq<Entry>>, ino: nat): nat {
    if ns == [] then 0 else Refs(ns[..|ns| - 1], ino) + Naming(ns[|ns| - 1], ino)
  }

  predicate Differ(r: seq<Entry>, j: nat, k: nat) {
    j < k < |r| ==> r[j].name != r[k].name
  }

  ghost predicate Unique(r: seq<Entry>) {
    forall j: nat, k: nat {:trigger Differ(r, j, k)} :: Differ(r, j, k)
  }

  /** Entry `k`, unless it is "." or "..", stands for an inode in use. */
  ghost predicate Good(r: seq<Entry>, k: nat, live: set<nat>) {
    k < |r| && !Dots(r[k].name) ==> r[k].ino > 0 && r[k].ino - 1 in live
  }

  /** A directory has no name twice, and every name in it stands for an inode in use. */
  ghost predicate Sound(r: seq<Entry>, live: set<nat>) {
    Unique(r) && forall k: nat {:trigger Good(r, k, live)} :: Good(r, k, live)
  }

  ghost predicate SoundAt(ns: seq<seq<Entry>>, i: nat, live: set<nat>) {
    i < |ns| ==> Sound(ns[i], live)
  }

  /** The inode with index `x`, if in use, has no more names than its quota. */
  ghost predicate Covered(ns: seq<seq<Entry>>, quota: seq<nat>, live: set<nat>, x: nat) {
    x in live && x < |quota| ==> Refs(ns, x + 1) <= quota[x]
  }

  /** No directory has a name twice; every name stands for an inode in use; no inode has more names than
      its quota, one for a directory and the link count for a file. */
  ghost predicate Linked(ns: seq<seq<Entry>>, quota: seq<nat>, live: set<nat>) {
    && |ns| == |quota|
    && (forall i: nat {:trigger SoundAt(ns, i, live)} :: SoundAt(ns, i, live))
    && (forall x: nat {:trigger Covered(ns, quota, live, x)} :: Covered(ns, quota, live, x))
  }

  // ------------------------------------------------------------ counting

  lemma {:induction false} NamingSum(r: seq<Entry>, s: seq<Entry>, ino: nat)
    ensures Naming(r + s, ino) == Naming(r, ino) + Naming(s, ino)
  {
    if s == [] {
      assert r + s == r;
    } else {
      var t := s[..|s| - 1];
      NamingSum(r, t, ino);
      assert (r + s)[..|r + s| - 1] == r + t;
    }
  }

  lemma NamingOne(e: Entry, ino: nat)
    ensures Naming([e], ino) == if e.ino == ino && !Dots(e.name) then 1 else 0
  {
    assert [e][..0] == [];
  }

  lemma NamingMiddle(p: seq<Entry>, e: Entry, q: seq<Entry>, ino: nat)
    ensures Naming(p + [e] + q, ino) == Naming(p + q, ino) + if e.ino == ino && !Dots(e.name) then 1 else 0
  {
    NamingSum(p + [e], q, ino);
    NamingSum(p, [e], ino);
    NamingSum(p, q, ino);
    NamingOne(e, ino);
  }

  lemma NamingInserted(r: seq<Entry>, s: seq<Entry>, e: Entry, ino: nat)
    requires Inserted(r, s, e)
    ensures Naming(s, ino) == Naming(r, ino) + if e.ino == ino && !Dots(e.name) then 1 else 0
  {
    var k :| 0 <= k <= |r| && s == r[..k] + [e] + r[k..];
    NamingMiddle(r[..k], e, r[k..], ino);
    assert r == r[..k] + r[k..];
  }

  lemma TakenOut(r: seq<Entry>, s: seq<Entry>, k: nat, e: Entry)
    requires k < |r| && s == r[..k] + r[k + 1..] && e == r[k]
    ensures Inserted(s, r, e)
  {
    assert s[..k] == r[..k] && s[k..] == r[k + 1..];
    assert r == s[..k] + [e] + s[k..];
  }

  lemma NamingRemoved(r: seq<Entry>, s: seq<Entry>, name: Block, c: nat, ino: nat)
    requires Removed(r, s, name, c)
    ensures Naming(r, ino) == Naming(s, ino) + if c == ino && !Dots(name) then 1 else 0
  {
    var k :| 0 <= k < |r| && FirstAt(r, name, k) && r[k].ino == c && s == r[..k] + r[k + 1..];
    var e := r[k];
    TakenOut(r, s, k, e);
    NamingInserted(s, r, e, ino);
  }

  lemma {:induction false} NamingMember(r: seq<Entry>, k: nat)
    requires k < |r| && !Dots(r[k].name)
    ensures Naming(r, r[k].ino) > 0
  {
    if k < |r| - 1 {
      NamingMember(r[..|r| - 1], k);
    }
  }

  lemma {:induction false} NamingNone(r: seq<Entry>, ino: nat)
    requires forall k :: 0 <= k < |r| ==> Dots(r[k].name) || r[k].ino != ino
    ensures Naming(r, ino) == 0
  {
    if r != [] {
      NamingNone(r[..|r| - 1], ino);
    }
  }

  lemma {:induction false} RefsUpdate(ns: seq<seq<Entry>>, i: nat, r: seq<Entry>, ino: nat)
    requires i < |ns|
    ensures Refs(ns[i := r], ino) == Refs(ns, ino) - Naming(ns[i], ino) + Naming(r, ino)
  {
    var init := ns[..|ns| - 1];
    if i == |ns| - 1 {
      assert ns[i := r][..|ns| - 1] == init;
    } else {
      RefsUpdate(init, i, r, ino);
      assert ns[i := r][..|ns| - 1] == init[i := r];
    }
  }

  lemma {:induction false} RefsMember(ns: seq<seq<Entry>>, i: nat, k: nat)
    requires i < |ns| && k < |ns[i]| && !Dots(ns[i][k].name)
    ensures Refs(ns, ns[i][k].ino) > 0
  {
    if i == |ns| - 1 {
      NamingMember(ns[i], k);
    } else {
      RefsMember(ns[..|ns| - 1], i, k);
    }
  }

  lemma {:induction false} RefsNone(ns: seq<seq<Entry>>, quota: seq<nat>, live: set<nat>, x: nat)
    requires Linked(ns, quota, live) && x !in live
    ensures Refs(ns, x + 1) == 0
  {
    forall i | 0 <= i < |ns| ensures Naming(ns[i], x + 1) == 0 {
      assert SoundAt(ns, i, live);
      forall k | 0 <= k < |ns[i]| ensures Dots(ns[i][k].name) || ns[i][k].ino != x + 1 {
        assert Good(ns[i], k, live);
      }
      NamingNone(ns[i], x + 1);
    }
    RefsAllNone(ns, x + 1);
  }

  lemma {:induction false} RefsAllNone(ns: seq<seq<Entry>>, ino: nat)
    requires forall i :: 0 <= i < |ns| ==> Naming(ns[i], ino) == 0
    ensures Refs(ns, ino) == 0
  {
    if ns != [] {
      RefsAllNone(ns[..|ns| - 1], ino);
    }
  }

  // ------------------------------------------------------------ what the operations keep

  ghost predicate DotsUpto(r: seq<Entry>, n: nat)
    requires n <= |r|
  {
    forall k :: 0 <= k < n ==> Dots(r[k].name)
  }

  lemma DotsNext(r: seq<Entry>, n: nat)
    requires n < |r|
    ensures DotsUpto(r, n + 1) <==> DotsUpto(r, n) && Dots(r[n].name)
  {
  }

  /** Nothing but "." and "..". */
  ghost predicate AllDots(r: seq<Entry>) {
    DotsUpto(r, |r|)
  }

  /** alloc_inode and the first write of the inode, with nothing but "." and ".." in it. */
  lemma LinkedNew(ns: seq<seq<Entry>>, quota: seq<nat>, live: set<nat>, x: nat, r: seq<Entry>, q: nat)
    requires Linked(ns, quota, live) && x !in live && x < |ns| && ns[x] == [] && AllDots(r) && Unique(r)
    ensures Linked(ns[x := r], quota[x := q], live + {x}) && Refs(ns[x := r], x + 1) == 0
  {
    RefsNone(ns, quota, live, x);
    forall y: nat ensures Refs(ns[x := r], y) == Refs(ns, y) {
      NamingNone(r, y);
      RefsUpdate(ns, x, r, y);
    }
    var ns', quota', live' := ns[x := r], quota[x := q], live + {x};
    forall i: nat ensures SoundAt(ns', i, live') {
      if i != x && i < |ns| {
        assert SoundAt(ns, i, live);
        SoundMore(ns[i], live, live');
      }
    }
    forall y: nat ensures Covered(ns', quota', live', y) {
      assert Covered(ns, quota, live, y);
    }
  }

  lemma SoundMore(r: seq<Entry>, live: set<nat>, live': set<nat>)
    requires Sound(r, live) && live <= live'
    ensures Sound(r, live')
  {
    forall k: nat ensures Good(r, k, live') {
      assert Good(r, k, live);
    }
  }

  lemma Elements(r: seq<Entry>, s: seq<Entry>, e: Entry) returns (k: nat)
    requires Inserted(r, s, e)
    ensures k < |s| == |r| + 1 && s[k] == e && forall j :: 0 <= j < |s| && j != k ==>
        s[j] == if j < k then r[j] else r[j - 1]
  {
    k :| 0 <= k <= |r| && s == r[..k] + [e] + r[k..];
  }

  lemma SoundInserted(r: seq<Entry>, s: seq<Entry>, e: Entry, live: set<nat>)
    requires Sound(r, live) && Inserted(r, s, e) && Absent(r, e.name) && e.ino > 0 && e.ino - 1 in live
    ensures Sound(s, live)
  {
    var k := Elements(r, s, e);
    forall a: nat, b: nat | a < b < |s| ensures Differ(s, a, b) {
      if a != k && b != k {
        assert Differ(r, if a < k then a else a - 1, if b < k then b else b - 1);
      }
    }
    forall a: nat ensures Good(s, a, live) {
      if a != k { assert a > 0 || a < k; assert Good(r, if a < k then a else a - 1, live); }
    }
  }

  lemma Remaining(r: seq<Entry>, s: seq<Entry>, name: Block, c: nat) returns (k: nat)
    requires Removed(r, s, name, c)
    ensures k < |r| == |s| + 1 && r[k].name == name && r[k].ino == c && forall j :: 0 <= j < |s| ==>
        s[j] == if j < k then r[j] else r[j + 1]
  {
    k :| 0 <= k < |r| && FirstAt(r, name, k) && r[k].ino == c && s == r[..k] + r[k + 1..];
  }

  lemma SoundRemoved(r: seq<Entry>, s: seq<Entry>, name: Block, c: nat, live: set<nat>)
    requires Sound(r, live) && Removed(r, s, name, c)
    ensures Sound(s, live) && Absent(s, name) && (!Dots(name) ==> c > 0 && c - 1 in live)
  {
    var k := Remaining(r, s, name, c);
    forall a: nat, b: nat | a < b < |s| ensures Differ(s, a, b) {
      assert Differ(r, if a < k then a else a + 1, if b < k then b else b + 1);
    }
    forall a: nat ensures Good(s, a, live) {
      assert Good(r, if a < k then a else a + 1, live);
    }
    assert Good(r, k, live);
    forall a: nat | a < |s| ensures s[a].name != name {
      if a < k { assert Differ(r, a, k); } else { assert Differ(r, k, a + 1); }
    }
  }

  lemma RefsInserted(ns: seq<seq<Entry>>, i: nat, s: seq<Entry>, e: Entry)
    requires i < |ns| && Inserted(ns[i], s, e)
    ensures forall x: nat :: Refs(ns[i := s], x) <= Refs(ns, x) + if e.ino == x then 1 else 0
  {
    forall x: nat ensures Refs(ns[i := s], x) <= Refs(ns, x) + if e.ino == x then 1 else 0 {
      NamingInserted(ns[i], s, e, x);
      RefsUpdate(ns, i, s, x);
    }
  }

  /** A name more, for an inode that has one to spare. */
  lemma LinkedAdd(ns: seq<seq<Entry>>, quota: seq<nat>, live: set<nat>, i: nat, s: seq<Entry>, e: Entry, x: nat)
    requires Linked(ns, quota, live) && i < |ns| && Inserted(ns[i], s, e) && Absent(ns[i], e.name)
    requires e.ino == x + 1 && x in live && x < |quota| && Refs(ns, x + 1) < quota[x]
    ensures Linked(ns[i := s], quota, live)
  {
    assert SoundAt(ns, i, live);
    SoundInserted(ns[i], s, e, live);
    RefsInserted(ns, i, s, e);
    LinkedOne(ns, quota, live, i, s);
  }

  /** One directory's names replaced. */
  lemma LinkedOne(ns: seq<seq<Entry>>, quota: seq<nat>, live: set<nat>, i: nat, s: seq<Entry>)
    requires Linked(ns, quota, live) && i < |ns| && Sound(s, live)
    requires forall x: nat :: x in live && x < |quota| ==>
        Refs(ns[i := s], x + 1) <= Refs(ns, x + 1) || Refs(ns[i := s], x + 1) <= quota[x]
    ensures Linked(ns[i := s], quota, live)
  {
    var ns' := ns[i := s];
    forall j: nat ensures SoundAt(ns', j, live) {
      assert SoundAt(ns, j, live);
    }
    forall x: nat ensures Covered(ns', quota, live, x) {
      assert Covered(ns, quota, live, x);
    }
  }

  /** A name less. */
  lemma LinkedRemove(ns: seq<seq<Entry>>, quota: seq<nat>, live: set<nat>, i: nat, s: seq<Entry>, name: Block, c: nat)
    requires Linked(ns, quota, live) && i < |ns| && Removed(ns[i], s, name, c) && !Dots(name)
    ensures Linked(ns[i := s], quota, live) && Absent(s, name)
    ensures c > 0 && c - 1 in live && Refs(ns[i := s], c) == Refs(ns, c) - 1
  {
    var r := ns[i];
    assert SoundAt(ns, i, live);
    SoundRemoved(r, s, name, c, live);
    forall x: nat ensures Refs(ns[i := s], x) == Refs(ns, x) - if c == x then 1 else 0 {
      NamingRemoved(r, s, name, c, x);
      RefsUpdate(ns, i, s, x);
    }
    LinkedOne(ns, quota, live, i, s);
  }

  /** Freeing an inode that has no name left. */
  lemma LinkedFree(ns: seq<seq<Entry>>, quota: seq<nat>, live: set<nat>, x: nat)
    requires Linked(ns, quota, live) && x < |ns| && Refs(ns, x + 1) == 0 && AllDots(ns[x])
    ensures Linked(ns[x := []], quota, live - {x})
  {
    forall y: nat ensures Refs(ns[x := []], y) == Refs(ns, y) {
      NamingNone(ns[x], y);
      RefsUpdate(ns, x, [], y);
    }
    var ns', live' := ns[x := []], live - {x};
    forall i: nat ensures SoundAt(ns', i, live') {
      assert SoundAt(ns, i, live);
      if i < |ns| && i != x {
        forall k: nat ensures Good(ns[i], k, live') {
          assert Good(ns[i], k, live);
          if k < |ns[i]| && !Dots(ns[i][k].name) { RefsMember(ns, i, k); }
        }
      }
    }
    forall y: nat ensures Covered(ns', quota, live', y) {
      assert Covered(ns, quota, live, y);
    }
  }

  /** A link count may change as long as it still covers the names. */
  lemma LinkedQuota(ns: seq<seq<Entry>>, quota: seq<nat>, live: set<nat>, x: nat, q: nat)
    requires Linked(ns, quota, live) && x < |ns| && Refs(ns, x + 1) <= q
    ensures Linked(ns, quota[x := q], live)
  {
    var quota' := quota[x := q];
    forall y: nat ensures Covered(ns, quota', live, y) {
      assert Covered(ns, quota, live, y);
    }
  }

  /** A name found stands for an inode in use, which has at least this name and at most its quota. */
  lemma FoundLinked(ns: seq<seq<Entry>>, quota: seq<nat>, live: set<nat>, i: nat, name: Block, c: nat, ftype: byte)
    requires Linked(ns, quota, live) && i < |ns| && !Dots(name) && Found(ns[i], name, c + 1,
        ftype) && forall x :: x in live ==> x < |ns|
    ensures c in live && c < |ns| && 1 <= Refs(ns, c + 1) <= quota[c]
    ensures !Absent(ns[i], name) && !AllDots(ns[i])
  {
    var r := ns[i];
    var k :| 0 <= k < |r| && FirstAt(r, name, k) && r[k] == Entry(name, c + 1, ftype);
    assert SoundAt(ns, i, live) && Good(r, k, live);
    RefsMember(ns, i, k);
    assert Covered(ns, quota, live, c);
  }
}
