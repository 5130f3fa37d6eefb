/** What "." and ".." stand for (kernel/fs/ext2.c, ext2_create), over all directories together. */
module Dotted {
  import opened Bytes
  import opened DirBlock
  import opened Namespace

  /** What a new directory holds. */
  function DotNames(ino: nat, parent: nat): seq<Entry> {
    [Entry([DOT], ino, 2)] + [Entry([DOT, DOT], parent, 2)]
  }

  /** In `r` the name "." stands for `ino` and ".." for `parent`. */
  ghost predicate DotsOf(r: seq<Entry>, ino: nat, parent: nat) {
    Found(r, [DOT], ino, 2) && Found(r, [DOT, DOT], parent, 2)
  }

  lemma DotsLead(ino: nat, parent: nat)
    ensures DotsOf(DotNames(ino, parent), ino, parent)
  {
    var r := DotNames(ino, parent);
    assert FirstAt(r, [DOT], 0) && r[0] == Entry([DOT], ino, 2);
    assert FirstAt(r, [DOT, DOT], 1) && r[1] == Entry([DOT, DOT], parent, 2);
  }

  /** The "." of directory `x` is itself. */
  ghost predicate SelfAt(ns: seq<seq<Entry>>, dirs: set<nat>, x: nat) {
    x in dirs && x < |ns| ==> Found(ns[x], [DOT], x + 1, 2)
  }

  /** Entry `k` of directory `i`, "." and ".." aside, has the type of the inode it names, and if that is directory `c`
      its ".." is `i`. */
  ghost predicate BackAt(ns: seq<seq<Entry>>, dirs: set<nat>, i: nat, k: nat, c: nat) {
    i < |ns| && k < |ns[i]| && !Dots(ns[i][k].name) && ns[i][k].ino == c + 1 ==>
      if c in dirs then ns[i][k].ftype == 2 && c < |ns| && Found(ns[c], [DOT, DOT], i + 1, 2) else ns[i][k].ftype == 1
  }

  /** In every directory "." is the directory, and ".." the one that names it. */
  ghost predicate Leads(ns: seq<seq<Entry>>, dirs: set<nat>) {
    && (forall x: nat {:trigger SelfAt(ns, dirs, x)} :: SelfAt(ns, dirs, x))
    && (forall i: nat, k: nat, c: nat {:trigger BackAt(ns, dirs, i, k, c)} :: BackAt(ns, dirs, i, k, c))
  }

  // ------------------------------------------------------------ names that stay

  lemma FoundInserted(r: seq<Entry>, s: seq<Entry>, e: Entry, name: Block, ino: nat, ftype: byte)
    requires Found(r, name, ino, ftype) && Inserted(r, s, e) && e.name != name
    ensures Found(s, name, ino, ftype)
  {
    var k :| 0 <= k < |r| && FirstAt(r, name, k) && r[k] == Entry(name, ino, ftype);
    var at :| 0 <= at <= |r| && s == r[..at] + [e] + r[at..];
    var j := if k < at then k else k + 1;
    assert s[j] == r[k];
    forall a | 0 <= a < j ensures s[a].name != name {
      if a != at { assert s[a] == r[if a < at then a else a - 1]; }
    }
    assert FirstAt(s, name, j);
  }

  lemma FoundRemoved(r: seq<Entry>, s: seq<Entry>, gone: Block, c: nat, name: Block, ino: nat, ftype: byte)
    requires Found(r, name, ino, ftype) && Removed(r, s, gone, c) && gone != name
    ensures Found(s, name, ino, ftype)
  {
    var k :| 0 <= k < |r| && FirstAt(r, name, k) && r[k] == Entry(name, ino, ftype);
    var at := Remaining(r, s, gone, c);
    var j := if k < at then k else k - 1;
    assert FirstAt(s, name, j) && s[j] == r[k];
  }

  /** A name more. */
  lemma DottedAdd(ns: seq<seq<Entry>>, dirs: set<nat>, i: nat, s: seq<Entry>, e: Entry, x: nat)
    requires Leads(ns, dirs) && i < |ns| && Inserted(ns[i], s, e) && !Dots(e.name) && e.ino == x + 1
    requires if x in dirs then e.ftype == 2 && x < |ns| && x != i && Found(ns[x], [DOT, DOT], i + 1, 2)
        else e.ftype == 1
    ensures Leads(ns[i := s], dirs)
  {
    var r := ns[i];
    forall ino: nat, name: Block | Dots(name) && Found(r, name, ino, 2) ensures Found(s, name, ino, 2) {
      FoundInserted(r, s, e, name, ino, 2);
    }
    var ns' := ns[i := s];
    var at := Elements(r, s, e);
    forall j: nat, k: nat, c: nat ensures BackAt(ns', dirs, j, k, c) {
      if j == i && k > at { assert BackAt(ns, dirs, j, k - 1, c); } else { assert BackAt(ns, dirs, j, k, c); }
    }
    forall y: nat ensures SelfAt(ns', dirs, y) {
      assert SelfAt(ns, dirs, y);
    }
  }

  /** A name less. */
  lemma DottedRemove(ns: seq<seq<Entry>>, dirs: set<nat>, i: nat, s: seq<Entry>, name: Block, x: nat)
    requires Leads(ns, dirs) && i < |ns| && Removed(ns[i], s, name, x + 1) && !Dots(name)
    ensures Leads(ns[i := s], dirs)
  {
    var r := ns[i];
    forall ino: nat, dot: Block | Dots(dot) && Found(r, dot, ino, 2) ensures Found(s, dot, ino, 2) {
      FoundRemoved(r, s, name, x + 1, dot, ino, 2);
    }
    var ns' := ns[i := s];
    var at := Remaining(r, s, name, x + 1);
    forall j: nat, k: nat, c: nat ensures BackAt(ns', dirs, j, k, c) {
      assert BackAt(ns, dirs, j, if j == i && k >= at then k + 1 else k, c);
    }
    forall y: nat ensures SelfAt(ns', dirs, y) {
      assert SelfAt(ns, dirs, y);
    }
  }

  /** No entry names an inode that is not in use. */
  lemma Unnamed(ns: seq<seq<Entry>>, live: set<nat>, x: nat, i: nat, k: nat)
    requires SoundAt(ns, i, live) && x !in live && i < |ns| && k < |ns[i]| && !Dots(ns[i][k].name)
    ensures ns[i][k].ino != x + 1
  {
    assert Good(ns[i], k, live);
  }

  /** A directory taken into use, under a parent, without a name yet. */
  lemma DottedNew(ns: seq<seq<Entry>>, quota: seq<nat>, live: set<nat>, dirs: set<nat>, x: nat, parent: nat)
    requires Leads(ns, dirs) && Linked(ns, quota, live) && x !in live && dirs <= live && x < |ns| && ns[x] == []
    ensures Leads(ns[x := DotNames(x + 1, parent)], dirs + {x})
  {
    var ns', dirs' := ns[x := DotNames(x + 1, parent)], dirs + {x};
    DotsLead(x + 1, parent);
    forall y: nat ensures SelfAt(ns', dirs', y) {
      assert SelfAt(ns, dirs, y);
    }
    forall j: nat, k: nat, c: nat ensures BackAt(ns', dirs', j, k, c) {
      assert BackAt(ns, dirs, j, k, c) && SoundAt(ns, j, live);
      if j < |ns| && j != x && k < |ns[j]| && !Dots(ns[j][k].name) { Unnamed(ns, live, x, j, k); }
    }
  }

  /** A directory without a name freed. */
  lemma DottedFree(ns: seq<seq<Entry>>, dirs: set<nat>, x: nat)
    requires Leads(ns, dirs) && x < |ns| && Refs(ns, x + 1) == 0 && AllDots(ns[x])
    ensures Leads(ns[x := []], dirs - {x})
  {
    var ns', dirs' := ns[x := []], dirs - {x};
    forall y: nat ensures SelfAt(ns', dirs', y) {
      assert SelfAt(ns, dirs, y);
    }
    forall j: nat, k: nat, c: nat ensures BackAt(ns', dirs', j, k, c) {
      assert BackAt(ns, dirs, j, k, c);
      if j < |ns| && j != x && k < |ns[j]| && !Dots(ns[j][k].name) { RefsMember(ns, j, k); }
    }
  }
}
