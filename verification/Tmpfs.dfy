/** The directories of the memory file system (kernel/fs/tmpfs.c): linked lists of entries, re-threaded in place, over
    reference-counted vnodes. Memory is explicit: an address stands for an object while it is in its map, and freeing
    takes it out. */
module Tmpfs {
  import opened Vfs

  datatype Kind = Reg | Dir | Lnk | Chr

  /** tmpfs_dirent_t; 0 is the null pointer. */
  datatype Dirent = Dirent(name: string, vn: nat, next: nat)

  /** vnode_t; `head` is that of a directory. */
  datatype Vnode = Vnode(kind: Kind, refs: nat, head: nat)

  type Ents = map<nat, Dirent>

  /** The memory, and what is not in it: the addresses along each list, the list an entry is on, and the references
      that are not names (open descriptions, and the one of the root). */
  datatype State = State(ents: Ents, vnodes: map<nat, Vnode>, lists: map<nat, seq<nat>>, own: map<nat, nat>,
      opens: multiset<nat>)

  // ------------------------------------------------------------ the invariant

  function At(c: seq<nat>, i: nat): nat {
    if i < |c| then c[i] else 0
  }

  /** Following `next` from `head` gives exactly `c`, and ends. */
  ghost predicate Chain(ents: Ents, head: nat, c: seq<nat>) {
    && head == At(c, 0)
    && forall i: nat {:trigger LinkAt(ents, c, i)} :: i < |c| ==> LinkAt(ents, c, i)
  }

  ghost predicate LinkAt(ents: Ents, c: seq<nat>, i: nat)
    requires i < |c|
  {
    c[i] != 0 && c[i] in ents && ents[c[i]].next == At(c, i + 1)
  }

  ghost predicate NoDup(c: seq<nat>) {
    forall i, j :: 0 <= i < j < |c| ==> c[i] != c[j]
  }

  /** The names of a vnode. */
  ghost function Names(ents: Ents, v: nat): set<nat> {
    set e | e in ents && ents[e].vn == v
  }

  /** A directory's list is a chain, of entries that are on this list only. */
  ghost predicate DirOk(s: State, d: nat) {
    d in s.lists ==>
      && d in s.vnodes && Chain(s.ents, s.vnodes[d].head, s.lists[d]) && NoDup(s.lists[d])
      && forall e :: e in s.lists[d] ==> e in s.own && s.own[e] == d
  }

  /** An entry is on its list, and its vnode is there. */
  ghost predicate EntOk(s: State, e: nat) {
    e in s.ents ==> e != 0 && e in s.own && s.own[e] in s.lists && e in s.lists[s.own[e]] && s.ents[e].vn in s.vnodes
  }

  /** A vnode counts its names and its other references. */
  ghost predicate VnodeOk(s: State, v: nat) {
    && (v in s.vnodes ==>
        v != 0 && s.vnodes[v].refs == |Names(s.ents, v)| + s.opens[v] && (s.vnodes[v].kind.Dir? ==> v in s.lists))
    && (v in s.opens ==> v in s.vnodes)
    && (v in s.lists ==> v in s.vnodes && s.vnodes[v].kind.Dir?)
  }

  ghost predicate Inv(s: State) {
    && (forall d: nat {:trigger DirOk(s, d)} :: DirOk(s, d))
    && (forall e: nat {:trigger EntOk(s, e)} :: EntOk(s, e))
    && (forall v: nat {:trigger VnodeOk(s, v)} :: VnodeOk(s, v))
  }

  // ------------------------------------------------------------ what it stands for

  /** The names and vnodes along a list. */
  type Rows = seq<(string, nat)>

  ghost function RowsOf(ents: Ents, c: seq<nat>): (r: Rows)
    ensures |r| == |c|
  {
    seq(|c|, i requires 0 <= i < |c| => RowOf(ents, c[i]))
  }

  ghost function RowOf(ents: Ents, e: nat): (string, nat) {
    if e in ents then (ents[e].name, ents[e].vn) else ("", 0)
  }

  /** Directories as rows of names, what every vnode is, and the references that are not names: no addresses of
      entries, no links, no counts. */
  datatype Abs = Abs(dirs: map<nat, Rows>, kinds: map<nat, Kind>, opens: multiset<nat>)

  ghost function View(s: State): Abs {
    Abs(map d | d in s.lists :: RowsOf(s.ents, s.lists[d]), map v | v in s.vnodes :: s.vnodes[v].kind, s.opens)
  }

  /** A vnode that something still leads to. */
  ghost predicate Held(a: Abs, v: nat) {
    v in a.opens || exists d, k :: NamedAt(a, d, k, v)
  }

  ghost predicate NamedAt(a: Abs, d: nat, k: nat, v: nat) {
    d in a.dirs && k < |a.dirs[d]| && a.dirs[d][k].1 == v
  }

  // ------------------------------------------------------------ taking an entry out, putting one in

  /** The list without its element `i`. */
  function Without<T>(c: seq<T>, i: nat): seq<T>
    requires i < |c|
  {
    c[..i] + c[i + 1..]
  }

  /** Entry `i` leaves the list of `d`: what pointed to it points past it. Its reference stays, as one that is not a
      name. */
  ghost function Detach(s: State, d: nat, i: nat): State
    requires d in s.lists && d in s.vnodes && i < |s.lists[d]| && s.lists[d][i] in s.ents
    requires i > 0 ==> s.lists[d][i - 1] in s.ents
  {
    var c := s.lists[d];
    var x := s.ents[c[i]];
    var ents := if i == 0 then s.ents else s.ents[c[i - 1] := s.ents[c[i - 1]].(next := x.next)];
    var vnodes := if i == 0 then s.vnodes[d := s.vnodes[d].(head := x.next)] else s.vnodes;
    State(ents - {c[i]}, vnodes, s.lists[d := Without(c, i)], s.own - {c[i]}, s.opens + multiset{x.vn})
  }

  /** A reference to `v` that is not a name becomes one: entry `e`, first on the list of `d`. */
  ghost function Attach(s: State, d: nat, e: nat, name: string, v: nat): State
    requires d in s.lists && d in s.vnodes
  {
    State(s.ents[e := Dirent(name, v, s.vnodes[d].head)], s.vnodes[d := s.vnodes[d].(head := e)],
          s.lists[d := [e] + s.lists[d]], s.own[e := d], s.opens - multiset{v})
  }

  lemma ChainIn(ents: Ents, head: nat, c: seq<nat>)
    requires Chain(ents, head, c)
    ensures forall x :: x in c ==> x in ents && x != 0
  {
    forall i: nat | i < |c| ensures c[i] in ents && c[i] != 0 { assert LinkAt(ents, c, i); }
  }

  lemma NamesPut(ents: Ents, e: nat, x: Dirent, v: nat)
    ensures e !in ents ==> Names(ents[e := x], v) == if x.vn == v then Names(ents, v) + {e} else Names(ents, v)
    ensures e in ents && ents[e].vn == x.vn ==> Names(ents[e := x], v) == Names(ents, v)
  {
  }

  lemma NamesCut(ents: Ents, e: nat, v: nat)
    requires e in ents
    ensures Names(ents - {e}, v) == Names(ents, v) - {e} && (e in Names(ents, v) <==> ents[e].vn == v)
  {
  }

  lemma AttachInv(s: State, d: nat, e: nat, name: string, v: nat)
    requires Inv(s) && d in s.lists && d in s.vnodes && e != 0 && e !in s.ents && v in s.opens
    ensures Inv(Attach(s, d, e, name, v))
  {
    var t := Attach(s, d, e, name, v);
    forall x: nat ensures DirOk(t, x) {
      AttachDir(s, d, e, name, v, x);
    }
    forall x: nat ensures EntOk(t, x) {
      assert EntOk(s, x) && VnodeOk(s, v);
      if x in t.ents && x != e { assert x in t.lists[t.own[x]]; }
    }
    forall x: nat ensures VnodeOk(t, x) {
      assert VnodeOk(s, x);
      NamesPut(s.ents, e, t.ents[e], x);
    }
  }

  lemma AttachDir(s: State, d: nat, e: nat, name: string, v: nat, x: nat)
    requires Inv(s) && d in s.lists && d in s.vnodes && e != 0 && e !in s.ents && v in s.opens
    ensures DirOk(Attach(s, d, e, name, v), x)
  {
    var t := Attach(s, d, e, name, v);
    assert DirOk(s, x) && DirOk(s, d);
    if x in t.lists {
      var c, c' := s.lists[x], t.lists[x];
      ChainIn(s.ents, s.vnodes[x].head, c);
      forall i: nat | i < |c'| ensures LinkAt(t.ents, c', i) {
        if x == d {
          if i > 0 { assert LinkAt(s.ents, c, i - 1); }
        } else {
          assert LinkAt(s.ents, c, i);
        }
      }
    }
  }

  ghost predicate Detachable(s: State, d: nat, i: nat) {
    d in s.lists && d in s.vnodes && i < |s.lists[d]|
    && forall k :: 0 <= k < |s.lists[d]| ==> s.lists[d][k] in s.ents
  }

  lemma DetachInv(s: State, d: nat, i: nat)
    requires Inv(s) && Detachable(s, d, i)
    ensures Inv(Detach(s, d, i))
  {
    var t := Detach(s, d, i);
    var c := s.lists[d];
    forall x: nat ensures DirOk(t, x) {
      DetachDir(s, d, i, x);
    }
    forall x: nat ensures EntOk(t, x) {
      assert EntOk(s, x) && DirOk(s, d);
      if x in t.ents && s.own[x] == d { WithoutIn(c, i, x); }
    }
    forall x: nat ensures VnodeOk(t, x) {
      assert VnodeOk(s, x) && EntOk(s, c[i]);
      var ents := if i == 0 then s.ents else s.ents[c[i - 1] := s.ents[c[i - 1]].(next := s.ents[c[i]].next)];
      if i > 0 { NamesPut(s.ents, c[i - 1], ents[c[i - 1]], x); }
      NamesCut(ents, c[i], x);
    }
  }

  lemma WithoutIn(c: seq<nat>, i: nat, x: nat)
    requires i < |c| && x in c && x != c[i]
    ensures x in Without(c, i)
  {
    var k :| 0 <= k < |c| && c[k] == x;
    if k < i { assert Without(c, i)[k] == x; } else { assert Without(c, i)[k - 1] == x; }
  }

  lemma DetachDir(s: State, d: nat, i: nat, x: nat)
    requires Inv(s) && Detachable(s, d, i)
    ensures DirOk(Detach(s, d, i), x)
  {
    var t := Detach(s, d, i);
    assert DirOk(s, x) && DirOk(s, d);
    if x in t.lists {
      var c, c' := s.lists[x], t.lists[x];
      ChainIn(s.ents, s.vnodes[x].head, c);
      assert LinkAt(s.ents, s.lists[d], i);
      forall k: nat | k < |c'| ensures LinkAt(t.ents, c', k) {
        if x == d {
          assert LinkAt(s.ents, c, if k < i then k else k + 1);
          if k + 1 == i { assert LinkAt(s.ents, c, i); }
        } else {
          assert LinkAt(s.ents, c, k);
          assert c[k] in c && s.lists[d][i] in s.lists[d];
          if i > 0 { assert s.lists[d][i - 1] in s.lists[d]; }
        }
      }
    }
  }

  /** The directory's head set and then the child counted, as one change. */
  lemma ThreadIs(s: State, d: nat, e: nat, name: string, v: nat)
    requires d in s.lists && d in s.vnodes && v in s.vnodes
    ensures var vn := s.vnodes[d := s.vnodes[d].(head := e)];
      State(s.ents[e := Dirent(name, v, s.vnodes[d].head)], vn[v := vn[v].(refs := vn[v].refs + 1)],
          s.lists[d := [e] + s.lists[d]], s.own[e := d], s.opens)
      == Attach(Take(s, v), d, e, name, v)
  {
    assert s.opens + multiset{v} - multiset{v} == s.opens;
    var vn, wn := s.vnodes[d := s.vnodes[d].(head := e)], Take(s, v).vnodes;
    assert vn[v := vn[v].(refs := vn[v].refs + 1)] == wn[d := wn[d].(head := e)];
  }

  lemma AttachView(s: State, d: nat, e: nat, name: string, v: nat)
    requires Inv(s) && d in s.lists && d in s.vnodes && e !in s.ents
    ensures var a := View(s); var rows: Rows := [(name, v)] + a.dirs[d];
      View(Attach(s, d, e, name, v)) == Abs(a.dirs[d := rows], a.kinds, a.opens - multiset{v})
  {
    var t, a := Attach(s, d, e, name, v), View(s);
    var rows: Rows := [(name, v)] + a.dirs[d];
    forall x | x in s.lists ensures View(t).dirs[x] == if x == d then rows else a.dirs[x] {
      AttachRows(s, d, e, name, v, x);
    }
    assert View(t).dirs == a.dirs[d := rows];
    AttachKinds(s, d, e, name, v);
  }

  lemma AttachKinds(s: State, d: nat, e: nat, name: string, v: nat)
    requires d in s.lists && d in s.vnodes
    ensures View(Attach(s, d, e, name, v)).kinds == View(s).kinds
  {
  }

  lemma AttachRows(s: State, d: nat, e: nat, name: string, v: nat, x: nat)
    requires Inv(s) && d in s.lists && d in s.vnodes && e !in s.ents && x in s.lists
    ensures var t, rows := Attach(s, d, e, name, v), RowsOf(s.ents, s.lists[x]);
      RowsOf(t.ents, t.lists[x]) == if x == d then [(name, v)] + rows else rows
  {
    assert DirOk(s, x);
    ChainIn(s.ents, s.vnodes[x].head, s.lists[x]);
  }

  lemma DetachView(s: State, d: nat, i: nat)
    requires Inv(s) && Detachable(s, d, i)
    ensures var a := View(s);
      View(Detach(s, d, i)) == Abs(a.dirs[d := Without(a.dirs[d], i)], a.kinds, a.opens + multiset{a.dirs[d][i].1})
  {
    var t, a := Detach(s, d, i), View(s);
    var rows := Without(a.dirs[d], i);
    forall x | x in s.lists ensures View(t).dirs[x] == if x == d then rows else a.dirs[x] {
      assert DirOk(s, x) && DirOk(s, d);
      ChainIn(s.ents, s.vnodes[x].head, s.lists[x]);
      DetachRows(s, d, i, x);
    }
    assert View(t).dirs == a.dirs[d := rows];
  }

  lemma DetachRows(s: State, d: nat, i: nat, x: nat)
    requires Inv(s) && Detachable(s, d, i) && x in s.lists
    ensures RowsOf(Detach(s, d, i).ents, Detach(s, d, i).lists[x]) ==
      if x == d then Without(RowsOf(s.ents, s.lists[d]), i) else RowsOf(s.ents, s.lists[x])
  {
    var t, c := Detach(s, d, i), s.lists[x];
    var out := s.lists[d][i];
    assert DirOk(s, x) && DirOk(s, d) && out in s.lists[d];
    ChainIn(s.ents, s.vnodes[x].head, c);
    if x == d {
      assert forall k :: 0 <= k < |c| && k != i ==> c[k] != out;
      RowsWithout(s.ents, t.ents, c, i);
    } else {
      assert forall k :: 0 <= k < |c| ==> c[k] != out && RowOf(t.ents, c[k]) == RowOf(s.ents, c[k]);
      assert RowsOf(t.ents, c) == RowsOf(s.ents, c);
    }
  }

  lemma RowsWithout(ents: Ents, ents': Ents, c: seq<nat>, i: nat)
    requires i < |c| && forall k :: 0 <= k < |c| && k != i ==> RowOf(ents', c[k]) == RowOf(ents, c[k])
    ensures RowsOf(ents', Without(c, i)) == Without(RowsOf(ents, c), i)
  {
    var l, r := RowsOf(ents', Without(c, i)), Without(RowsOf(ents, c), i);
    forall k | 0 <= k < |l| ensures l[k] == r[k] {
      var j := if k < i then k else k + 1;
      assert Without(c, i)[k] == c[j] && r[k] == RowOf(ents, c[j]);
    }
  }

  // ------------------------------------------------------------ references

  /** One more, or one fewer, reference to `v` that is not a name. */
  ghost function Take(s: State, v: nat): State
    requires v in s.vnodes
  {
    s.(vnodes := s.vnodes[v := s.vnodes[v].(refs := s.vnodes[v].refs + 1)], opens := s.opens + multiset{v})
  }

  ghost function Drop(s: State, v: nat): State
    requires v in s.vnodes && s.vnodes[v].refs > 0
  {
    s.(vnodes := s.vnodes[v := s.vnodes[v].(refs := s.vnodes[v].refs - 1)], opens := s.opens - multiset{v})
  }

  ghost function Free(s: State, v: nat): State {
    s.(vnodes := s.vnodes - {v}, lists := s.lists - {v})
  }

  ghost function Fresh(s: State, v: nat, kind: Kind): State {
    s.(vnodes := s.vnodes[v := Vnode(kind, 0, 0)], lists := if kind.Dir? then s.lists[v := []] else s.lists)
  }

  lemma TakeInv(s: State, v: nat)
    requires Inv(s) && v in s.vnodes
    ensures Inv(Take(s, v)) && View(Take(s, v)) == View(s).(opens := s.opens + multiset{v})
  {
    var t := Take(s, v);
    forall x: nat ensures DirOk(t, x) { assert DirOk(s, x); }
    forall x: nat ensures EntOk(t, x) { assert EntOk(s, x); }
    forall x: nat ensures VnodeOk(t, x) { assert VnodeOk(s, x) && VnodeOk(s, v); }
  }

  /** A reference that is not a name is counted, so the guarded decrement always decrements. */
  lemma Counted(s: State, v: nat)
    requires Inv(s) && v in s.opens
    ensures v in s.vnodes && s.vnodes[v].refs > 0
  {
    assert VnodeOk(s, v);
  }

  lemma DropInv(s: State, v: nat)
    requires Inv(s) && v in s.opens && v in s.vnodes && s.vnodes[v].refs > 0
    ensures Inv(Drop(s, v)) && View(Drop(s, v)) == View(s).(opens := s.opens - multiset{v})
  {
    var t := Drop(s, v);
    forall x: nat ensures DirOk(t, x) { assert DirOk(s, x); }
    forall x: nat ensures EntOk(t, x) { assert EntOk(s, x); }
    forall x: nat ensures VnodeOk(t, x) { assert VnodeOk(s, x) && VnodeOk(s, v); }
  }

  /** The count is zero exactly when nothing leads to the vnode. */
  lemma ZeroIffLost(s: State, v: nat)
    requires Inv(s) && v in s.vnodes
    ensures s.vnodes[v].refs == 0 <==> !Held(View(s), v)
  {
    assert VnodeOk(s, v);
    if e :| e in Names(s.ents, v) {
      assert EntOk(s, e);
      var d := s.own[e];
      var k :| 0 <= k < |s.lists[d]| && s.lists[d][k] == e;
      assert NamedAt(View(s), d, k, v);
    }
    if d, k: nat :| NamedAt(View(s), d, k, v) {
      assert DirOk(s, d) && LinkAt(s.ents, s.lists[d], k);
      assert s.lists[d][k] in Names(s.ents, v);
    }
  }

  /** A lost vnode whose list is empty can go. */
  lemma FreeInv(s: State, v: nat)
    requires Inv(s) && v in s.vnodes && s.vnodes[v].refs == 0 && (v in s.lists ==> s.lists[v] == [])
    ensures Inv(Free(s, v)) && View(Free(s, v)) == Abs(View(s).dirs - {v}, View(s).kinds - {v}, s.opens)
  {
    var t := Free(s, v);
    assert VnodeOk(s, v);
    forall x: nat ensures DirOk(t, x) { assert DirOk(s, x); }
    forall x: nat ensures EntOk(t, x) {
      assert EntOk(s, x) && x !in Names(s.ents, v);
    }
    forall x: nat ensures VnodeOk(t, x) { assert VnodeOk(s, x); }
    assert View(t).dirs == View(s).dirs - {v} && View(t).kinds == View(s).kinds - {v};
  }

  lemma FreshInv(s: State, v: nat, kind: Kind)
    requires Inv(s) && v != 0 && v !in s.vnodes
    ensures Inv(Fresh(s, v, kind))
  {
    var t := Fresh(s, v, kind);
    assert VnodeOk(s, v);
    forall x: nat ensures DirOk(t, x) { assert DirOk(s, x); }
    forall x: nat ensures EntOk(t, x) { assert EntOk(s, x); }
    forall x: nat ensures VnodeOk(t, x) {
      assert VnodeOk(s, x);
      if e :| e in Names(s.ents, v) { assert EntOk(s, e); }
    }
  }

  lemma FreshView(s: State, v: nat, kind: Kind)
    ensures View(Fresh(s, v, kind)) == Blank(View(s), v, kind)
  {
    var t := Fresh(s, v, kind);
    assert View(t).kinds == View(s).kinds[v := kind];
    assert View(t).dirs == if kind.Dir? then View(s).dirs[v := []] else View(s).dirs;
  }

  /** Nothing dangles: what a name or a description leads to is in memory, and counts it; the entries of a list are in
      memory, and the list ends after them. */
  lemma NothingDangles(s: State, d: nat, k: nat)
    requires Inv(s) && d in s.lists && k < |s.lists[d]|
    ensures s.lists[d][k] in s.ents && s.ents[s.lists[d][k]].next == At(s.lists[d], k + 1)
    ensures var v := View(s).dirs[d][k].1; v in s.vnodes && s.vnodes[v].refs > 0
    ensures forall v :: v in s.opens ==> v in s.vnodes && s.vnodes[v].refs > 0
  {
    assert DirOk(s, d);
    var c := s.lists[d];
    assert LinkAt(s.ents, c, k);
    assert EntOk(s, c[k]) && View(s).dirs[d][k] == RowOf(s.ents, c[k]);
    var v := s.ents[c[k]].vn;
    ZeroIffLost(s, v);
    assert NamedAt(View(s), d, k, v);
    forall w | w in s.opens ensures w in s.vnodes && s.vnodes[w].refs > 0 { Counted(s, w); }
  }

  // ------------------------------------------------------------ names in rows

  /** The first row with the name, or the number of rows. */
  function First(rows: Rows, name: string): (k: nat)
    ensures k <= |rows| && (k < |rows| ==> rows[k].0 == name) && forall j :: 0 <= j < k ==> rows[j].0 != name
  {
    Seek(rows, name, 0)
  }

  function Seek(rows: Rows, name: string, i: nat): (k: nat)
    requires i <= |rows|
    ensures i <= k <= |rows| && (k < |rows| ==> rows[k].0 == name) && forall j :: i <= j < k ==> rows[j].0 != name
    decreases |rows| - i
  {
    if i == |rows| || rows[i].0 == name then i else Seek(rows, name, i + 1)
  }

  /** The vnode of a name, 0 if there is none. */
  function Got(rows: Rows, name: string): nat {
    var k := First(rows, name);
    if k < |rows| then rows[k].1 else 0
  }

  lemma FirstIs(rows: Rows, name: string, k: nat)
    requires k <= |rows| && (k < |rows| ==> rows[k].0 == name) && forall j :: 0 <= j < k ==> rows[j].0 != name
    ensures First(rows, name) == k
  {
  }

  // ------------------------------------------------------------ the operations on rows

  /** A name for `v`, first in `d`. */
  ghost function Named(a: Abs, d: nat, name: string, v: nat): Abs
    requires d in a.dirs
  {
    a.(dirs := a.dirs[d := [(name, v)] + a.dirs[d]])
  }

  ghost function Created(a: Abs, d: nat, name: string, kind: Kind, v: nat): Abs
    requires d in a.dirs
  {
    Named(Blank(a, v, kind), d, Cut(name), v)
  }

  /** A new vnode, without a name. */
  ghost function Blank(a: Abs, v: nat, kind: Kind): Abs {
    Abs(if kind.Dir? then a.dirs[v := []] else a.dirs, a.kinds[v := kind], a.opens)
  }

  ghost function Unnamed(a: Abs, d: nat, i: nat): Abs
    requires d in a.dirs && i < |a.dirs[d]|
  {
    a.(dirs := a.dirs[d := Without(a.dirs[d], i)])
  }

  /** A vnode goes if nothing leads to it any more. */
  ghost function Collected(a: Abs, v: nat): Abs {
    if Held(a, v) then a else Abs(a.dirs - {v}, a.kinds - {v}, a.opens)
  }

  /** The name goes, and with it the vnode if that was all that led to it. */
  ghost function Unlinked(a: Abs, d: nat, i: nat): Abs
    requires d in a.dirs && i < |a.dirs[d]|
  {
    Collected(Unnamed(a, d, i), a.dirs[d][i].1)
  }

  /** A directory with something in it. */
  ghost predicate Busy(a: Abs, v: nat) {
    v in a.dirs && a.dirs[v] != []
  }

  /** Why a name cannot go, 0 if it can. */
  ghost function Refused(a: Abs, d: nat, name: string): int
    requires d in a.dirs
  {
    if First(a.dirs[d], name) == |a.dirs[d]| then ENOENT
    else if Busy(a, Got(a.dirs[d], name)) then ENOTEMPTY
    else 0
  }

  /** A new name, counted. */
  lemma LinkInv(s: State, d: nat, e: nat, name: string, v: nat)
    requires Inv(s) && d in s.lists && v in s.vnodes && e != 0 && e !in s.ents
    ensures d in s.vnodes
    ensures var t := Attach(Take(s, v), d, e, name, v); Inv(t) && View(t) == Named(View(s), d, name, v)
  {
    assert VnodeOk(s, d);
    TakeInv(s, v);
    AttachInv(Take(s, v), d, e, name, v);
    AttachView(Take(s, v), d, e, name, v);
  }

  /** All other entries are where they were, with their names and vnodes. */
  ghost predicate Kept(s: State, t: State, dir: nat, j: nat) {
    && dir in s.lists && j < |s.lists[dir]|
    && (forall d :: d in t.lists ==>
        d in s.lists && t.lists[d] == if d == dir then Without(s.lists[dir], j) else s.lists[d])
    && (forall x :: x in s.ents && x != s.lists[dir][j] ==> x in t.ents && RowOf(t.ents, x) == RowOf(s.ents, x))
  }

  /** Entry `e` moved to the front of `nd` under a new name, its reference with it. */
  ghost function Move(s: State, od: nat, i: nat, nd: nat, name: string): State
    requires Detachable(s, od, i) && nd in s.lists && nd in s.vnodes
  {
    Attach(Detach(s, od, i), nd, s.lists[od][i], name, s.ents[s.lists[od][i]].vn)
  }

  /** In memory: what pointed to the entry points past it, then the entry is written over and is the head. */
  lemma MoveMemory(s: State, od: nat, i: nat, nd: nat, name: string)
    requires Inv(s) && Detachable(s, od, i) && nd in s.lists && nd in s.vnodes
    ensures var c, x := s.lists[od], s.ents[s.lists[od][i]];
      var ents := if i == 0 then s.ents else s.ents[c[i - 1] := s.ents[c[i - 1]].(next := x.next)];
      var vnodes := if i == 0 then s.vnodes[od := s.vnodes[od].(head := x.next)] else s.vnodes;
      var t := Move(s, od, i, nd, name);
      && c[i] in ents && ents[c[i]] == x
      && t.ents == ents[c[i] := Dirent(name, x.vn, vnodes[nd].head)]
      && t.vnodes == vnodes[nd := vnodes[nd].(head := c[i])]
  {
    assert DirOk(s, od);
    var c, x := s.lists[od], s.ents[s.lists[od][i]];
    var ents := if i == 0 then s.ents else s.ents[c[i - 1] := s.ents[c[i - 1]].(next := x.next)];
    assert i > 0 ==> c[i - 1] != c[i];
    var t := Move(s, od, i, nd, name);
    var y := t.ents[c[i]];
    assert (ents - {c[i]})[c[i] := y] == ents[c[i] := y];
  }

  lemma MoveInv(s: State, od: nat, i: nat, nd: nat, name: string)
    requires Inv(s) && Detachable(s, od, i) && nd in s.lists && nd in s.vnodes
    ensures Inv(Move(s, od, i, nd, name))
    ensures View(Move(s, od, i, nd, name)) == Moved(View(s), od, i, nd, name)
  {
    var e := s.lists[od][i];
    var t, v := Detach(s, od, i), s.ents[e].vn;
    assert EntOk(s, e);
    DetachInv(s, od, i);
    DetachView(s, od, i);
    AttachInv(t, nd, e, name, v);
    AttachView(t, nd, e, name, v);
    assert View(s).dirs[od][i] == RowOf(s.ents, e);
    assert (s.opens + multiset{v}) - multiset{v} == s.opens;
  }

  /** Row `i` of `od` taken to the front of `nd`. */
  ghost function Moved(a: Abs, od: nat, i: nat, nd: nat, name: string): Abs
    requires od in a.dirs && i < |a.dirs[od]| && nd in a.dirs
  {
    Named(Unnamed(a, od, i), nd, name, a.dirs[od][i].1)
  }

  /** Why a rename is refused, 0 if it is not. */
  ghost function RenameRefused(a: Abs, od: nat, oldname: string, nd: nat, newname: string): int {
    if od !in a.dirs || nd !in a.dirs then ENOTDIR
    else if First(a.dirs[od], oldname) == |a.dirs[od]| then ENOENT
    else if First(a.dirs[nd], newname) == |a.dirs[nd]| || Got(a.dirs[nd], newname) == Got(a.dirs[od], oldname) then 0
    else if Busy(a, Got(a.dirs[nd], newname)) then ENOTEMPTY
    else 0
  }

  /** A rename that is not refused: nothing if both names are of one vnode; otherwise what had the new name is
      unlinked and the row moves. */
  ghost predicate Renames(a: Abs, a': Abs, od: nat, oldname: string, nd: nat, newname: string)
    requires od in a.dirs && nd in a.dirs
  {
    var j := First(a.dirs[nd], newname);
    if j < |a.dirs[nd]| && Got(a.dirs[nd], newname) == Got(a.dirs[od], oldname) then a' == a
    else
      var b := if j < |a.dirs[nd]| then Unlinked(a, nd, j) else a;
      && od in b.dirs && nd in b.dirs && First(b.dirs[od], oldname) < |b.dirs[od]|
      && a' == Moved(b, od, First(b.dirs[od], oldname), nd, Cut(newname))
  }

  lemma InDir(s: State, d: nat)
    requires Inv(s) && d in s.lists
    ensures d in s.vnodes && forall k :: 0 <= k < |s.lists[d]| ==> s.lists[d][k] in s.ents
  {
    assert DirOk(s, d);
    ChainIn(s.ents, s.vnodes[d].head, s.lists[d]);
  }

  /** What the emptiness test of a vnode under a name reads. */
  lemma HasList(s: State, d: nat, j: nat)
    requires Inv(s) && d in s.lists && j < |s.lists[d]|
    ensures var v := View(s).dirs[d][j].1;
        v in s.vnodes && (Busy(View(s), v) <==> s.vnodes[v].kind.Dir? && s.vnodes[v].head != 0)
  {
    InDir(s, d);
    var e := s.lists[d][j];
    assert EntOk(s, e) && View(s).dirs[d][j] == RowOf(s.ents, e);
    var v := s.ents[e].vn;
    assert VnodeOk(s, v) && DirOk(s, v);
    if v in s.lists && s.lists[v] != [] { assert LinkAt(s.ents, s.lists[v], 0); }
  }

  /** After the destination is unlinked, both directories and the source are still there. */
  lemma StillThere(s: State, t: State, nd: nat, j: nat, od: nat, k: nat, oldname: string)
    requires Inv(s) && od in s.lists && nd in s.lists && j < |s.lists[nd]| && Kept(s, t, nd, j)
    requires View(t) == Unlinked(View(s), nd, j) && !Busy(View(s), View(s).dirs[nd][j].1)
    requires k == First(View(s).dirs[od], oldname) < |s.lists[od]| && View(s).dirs[od][k].1 != View(s).dirs[nd][j].1
    ensures od in t.lists && nd in t.lists
    ensures var i := First(View(t).dirs[od], oldname);
        i < |t.lists[od]| && t.lists[od][i] == s.lists[od][k] && s.lists[od][k] in t.ents
  {
    var a, b := View(s), View(t);
    var dst := a.dirs[nd][j].1;
    assert dst != od && dst != nd;
    assert od in b.dirs && nd in b.dirs;
    InDir(s, od);
    InDir(s, nd);
    assert a.dirs[od][k] == RowOf(s.ents, s.lists[od][k]) && a.dirs[nd][j] == RowOf(s.ents, s.lists[nd][j]);
    if od == nd { FirstWithout(a.dirs[od], oldname, j); }
  }

  /** The first of a name keeps its place in the order when another row goes. */
  lemma FirstWithout(rows: Rows, name: string, j: nat)
    requires j < |rows| && j != First(rows, name)
    ensures First(Without(rows, j), name) == var k := First(rows, name); if j < k then k - 1 else k
  {
    var k := First(rows, name);
    FirstIs(Without(rows, j), name, if j < k then k - 1 else k);
  }

  /** Where a pointer to an entry is kept. */
  datatype Loc = Head(dir: nat) | Next(ent: nat)

  /** What points to element `i` of the list of `d`. */
  ghost function LocOf(d: nat, c: seq<nat>, i: nat): Loc
    requires i <= |c|
  {
    if i == 0 then Head(d) else Next(c[i - 1])
  }

  /** The bounded copy of a name into an entry. */
  method CopyName(name: string) returns (r: string)
    ensures r == Cut(name)
  {
    r := [];
    while |r| < |name| && |r| < NAME_MAX
      invariant |r| <= |name| && |r| <= NAME_MAX && r == name[..|r|]
      decreases |name| - |r|
    {
      r := r + [name[|r|]];
    }
  }

  class Fs {
    var ents: Ents
    var vnodes: map<nat, Vnode>
    ghost var lists: map<nat, seq<nat>>
    ghost var own: map<nat, nat>
    var opens: multiset<nat>

    ghost function St(): State
      reads this
    {
      State(ents, vnodes, lists, own, opens)
    }

    ghost predicate Valid()
      reads this
    {
      Inv(St())
    }

    ghost function Abstract(): Abs
      reads this
    {
      View(St())
    }

    /** tmpfs_create_root: an empty directory with one reference. */
    constructor (root: nat)
      requires root != 0
      ensures Valid() && ents == map[] && Abstract() == Abs(map[root := []], map[root := Dir], multiset{root})
    {
      ents, vnodes := map[], map[root := Vnode(Dir, 1, 0)];
      lists, own, opens := map[root := []], map[], multiset{root};
    }

    /** What a location holds, and what of the chain it is. */
    method Load(pp: Loc, ghost d: nat, ghost i: nat) returns (p: nat)
      requires Valid() && d in lists && i <= |lists[d]| && pp == LocOf(d, lists[d], i)
      ensures p == At(lists[d], i) && (p == 0 <==> i == |lists[d]|) && (p != 0 ==> p in ents)
    {
      ghost var c := lists[d];
      assert DirOk(St(), d);
      if i > 0 { assert LinkAt(ents, c, i - 1); }
      if i < |c| { assert LinkAt(ents, c, i); }
      match pp {
        case Head(dir) => p := vnodes[dir].head;
        case Next(ent) => p := ents[ent].next;
      }
    }

    /** tmpfs_lookup. */
    method Lookup(dir: nat, name: string) returns (v: nat)
      requires Valid() && dir in vnodes
      ensures vnodes[dir].kind.Dir? <==> dir in lists
      ensures if dir in lists then v == Got(Abstract().dirs[dir], name) else v == 0
      ensures dir in lists ==> (v == 0 <==> First(Abstract().dirs[dir], name) == |lists[dir]|)
      ensures LookupSays(TreeOf(Abstract()), dir, name, v)
    {
      assert VnodeOk(St(), dir);
      if !vnodes[dir].kind.Dir? { return 0; }
      ghost var i, rows := 0, Abstract().dirs[dir];
      Looked(Abstract(), dir, name);
      var e := Load(Head(dir), dir, 0);
      while e != 0
        invariant i <= |lists[dir]| && e == At(lists[dir], i) && (e == 0 <==> i == |lists[dir]|) &&
            (e != 0 ==> e in ents)
        invariant forall k :: 0 <= k < i ==> rows[k].0 != name
        decreases |lists[dir]| - i
      {
        assert rows[i] == RowOf(ents, e);
        if ents[e].name == name {
          FirstIs(rows, name, i);
          assert EntOk(St(), e) && VnodeOk(St(), ents[e].vn);
          return ents[e].vn;
        }
        e := Load(Next(e), dir, i + 1);
        i := i + 1;
      }
      FirstIs(rows, name, i);
      v := 0;
    }

    /** The search of tmpfs_unlink and tmpfs_rename: where the pointer to the named entry is kept. */
    method Find(dir: nat, name: string) returns (pp: Loc, e: nat, ghost i: nat)
      requires Valid() && dir in lists
      ensures i == First(Abstract().dirs[dir], name) && pp == LocOf(dir, lists[dir], i) && e == At(lists[dir], i)
      ensures (e == 0 <==> i == |lists[dir]|) && (e != 0 ==> e in ents)
    {
      ghost var rows := Abstract().dirs[dir];
      pp, i := Head(dir), 0;
      e := Load(pp, dir, 0);
      while e != 0 && ents[e].name != name
        invariant i <= |lists[dir]| && pp == LocOf(dir, lists[dir], i) && e == At(lists[dir], i)
        invariant (e == 0 <==> i == |lists[dir]|) && (e != 0 ==> e in ents)
        invariant forall k :: 0 <= k < i ==> rows[k].0 != name
        decreases |lists[dir]| - i
      {
        assert rows[i] == RowOf(ents, e);
        pp := Next(e);
        e := Load(pp, dir, i + 1);
        i := i + 1;
      }
      if e != 0 { assert rows[i] == RowOf(ents, e); }
      FirstIs(rows, name, i);
    }
  
    /** tmpfs_link: a name for a vnode that is there, at the front, with one more reference. `e` is the memory the
        entry gets, 0 if there is none. */
    method Link(dir: nat, name: string, child: nat, e: nat) returns (r: nat)
      requires Valid() && (dir != 0 ==> dir in vnodes) && (child != 0 ==> child in vnodes) && e !in ents
      modifies this
      ensures Valid()
      ensures r == if dir in old(lists) && child != 0 && e != 0 then child else 0
      ensures if r != 0 then Abstract() == Named(old(Abstract()), dir, Cut(name), child) else St() == old(St())
      ensures forall x :: x in lists <==> x in old(lists)
    {
      assert VnodeOk(St(), dir);
      if dir == 0 || !vnodes[dir].kind.Dir? || child == 0 { return 0; }
      if e == 0 { return 0; }
      LinkInv(St(), dir, e, Cut(name), child);
      var copy := CopyName(name);
      Thread(dir, e, copy, child);
      r := child;
    }

    /** The entry filled in, in front of the list, and counted. */
    method Thread(dir: nat, e: nat, name: string, child: nat)
      requires dir in lists && dir in vnodes && child in vnodes
      modifies this
      ensures St() == Attach(Take(old(St()), child), dir, e, name, child)
    {
      ThreadIs(St(), dir, e, name, child);
      ents := ents[e := Dirent(name, child, vnodes[dir].head)];
      vnodes := vnodes[dir := vnodes[dir].(head := e)];
      vnodes := vnodes[child := vnodes[child].(refs := vnodes[child].refs + 1)];
      lists, own := lists[dir := [e] + lists[dir]], own[e := dir];
    }

    /** *pp := p and kfree of the entry that was there. */
    method Unthread(pp: Loc, e: nat, ghost dir: nat, ghost i: nat)
      requires Valid() && dir in lists && i < |lists[dir]| && pp == LocOf(dir, lists[dir], i) && e == lists[dir][i] &&
          e in ents
      modifies this
      ensures old(Detachable(St(), dir, i)) && St() == Detach(old(St()), dir, i)
    {
      ghost var c := lists[dir];
      assert DirOk(St(), dir);
      ChainIn(ents, vnodes[dir].head, c);
      var x := ents[e];
      match pp {
        case Head(d) => vnodes := vnodes[d := vnodes[d].(head := x.next)];
        case Next(p) => ents := ents[p := ents[p].(next := x.next)];
      }
      ents := ents - {e};
      lists, own, opens := lists[dir := Without(c, i)], own - {e}, opens + multiset{x.vn};
    }

    /** The reference of a name that is gone: freed with the last one. */
    method Release(v: nat)
      requires Valid() && v in opens && (v in lists ==> lists[v] == [])
      modifies this
      ensures Valid() && Abstract() == Collected(old(Abstract()).(opens := old(opens) - multiset{v}), v)
      ensures ents == old(ents) && forall d :: d in lists ==> d in old(lists) && lists[d] == old(lists)[d]
    {
      ghost var s := St();
      Counted(s, v);
      DropInv(s, v);
      if vnodes[v].refs != 0 { vnodes := vnodes[v := vnodes[v].(refs := vnodes[v].refs - 1)]; }
      opens := opens - multiset{v};
      assert St() == Drop(s, v);
      ZeroIffLost(St(), v);
      if vnodes[v].refs == 0 {
        FreeInv(St(), v);
        vnodes, lists := vnodes - {v}, lists - {v};
      }
    }

    /** tmpfs_unlink. */
    method Unlink(dir: nat, name: string) returns (rc: int)
      requires Valid() && dir in vnodes
      modifies this
      ensures Valid()
      ensures rc == var a := old(Abstract()); if dir !in a.dirs then ENOTDIR else Refused(a, dir, name)
      ensures UnlinkSays(TreeOf(old(Abstract())), dir, name, rc)
      ensures rc == 0 ==> Abstract() == Unlinked(old(Abstract()), dir, First(old(Abstract()).dirs[dir], name))
      ensures rc != 0 ==> St() == old(St())
      ensures rc == 0 ==> Kept(old(St()), St(), dir, First(old(Abstract()).dirs[dir], name))
    {
      assert VnodeOk(St(), dir);
      Unlinking(Abstract(), dir, name);
      if !vnodes[dir].kind.Dir? { return ENOTDIR; }
      ghost var s, a := St(), Abstract();
      var pp, e, i := Find(dir, name);
      if e == 0 { return ENOENT; }
      var vn := ents[e].vn;
      assert EntOk(s, e) && VnodeOk(s, vn) && DirOk(s, vn) && a.dirs[dir][i] == RowOf(ents, e);
      if vn in lists && lists[vn] != [] { assert LinkAt(ents, lists[vn], 0); }
      if vnodes[vn].kind.Dir? && vnodes[vn].head != 0 { return ENOTEMPTY; }
      TakeOut(pp, e, dir, i);
      rc := 0;
    }

    /** The entry found is taken out and freed, and its reference given up. */
    method TakeOut(pp: Loc, e: nat, ghost dir: nat, ghost i: nat)
      requires Valid() && dir in lists && i < |lists[dir]| && pp == LocOf(dir, lists[dir], i) && e == lists[dir][i] &&
          e in ents
      requires var v := ents[e].vn; v != dir && (v in lists ==> lists[v] == [])
      modifies this
      ensures Valid() && Abstract() == Unlinked(old(Abstract()), dir, i) && Kept(old(St()), St(), dir, i)
    {
      ghost var s, a := St(), Abstract();
      var vn := ents[e].vn;
      Unthread(pp, e, dir, i);
      DetachInv(s, dir, i);
      DetachView(s, dir, i);
      assert a.dirs[dir][i] == RowOf(s.ents, e);
      assert opens - multiset{vn} == a.opens;
      assert Abstract().(opens := opens - multiset{vn}) == Unnamed(a, dir, i);
      Release(vn);
    }

    /** tmpfs_create: a new vnode under a new name. `vn` and `e` are the memory it gets, 0 if there is none. */
    method Create(dir: nat, name: string, kind: Kind, vn: nat, e: nat) returns (r: nat)
      requires Valid() && dir in vnodes && vn !in vnodes && e !in ents
      modifies this
      ensures Valid()
      ensures r == var a := old(Abstract());
        if dir in a.dirs && First(a.dirs[dir], name) == |a.dirs[dir]| && vn != 0 && e != 0 then vn else 0
      ensures var m := TreeOf(old(Abstract())); r != 0 <==> dir in m && name !in m[dir] && vn != 0 && e != 0
      ensures Abstract() == if r != 0 then Created(old(Abstract()), dir, name, kind, vn) else old(Abstract())
    {
      if dir in lists { MapGot(Abstract().dirs[dir], name); }
      var there := Lookup(dir, name);
      if there != 0 { return 0; }
      if vn == 0 { return 0; }
      ghost var s := St();
      MkVnode(vn, kind);
      r := Link(dir, name, vn, e);
      if r == 0 { Unmake(vn, s); }
    }

    /** mk_vnode. */
    method MkVnode(vn: nat, kind: Kind)
      requires Valid() && vn != 0 && vn !in vnodes
      modifies this
      ensures Valid() && St() == Fresh(old(St()), vn, kind) && Abstract() == Blank(old(Abstract()), vn, kind)
      ensures vn !in old(lists) && vn in vnodes
    {
      assert VnodeOk(St(), vn);
      FreshInv(St(), vn, kind);
      FreshView(St(), vn, kind);
      vnodes := vnodes[vn := Vnode(kind, 0, 0)];
      lists := if kind.Dir? then lists[vn := []] else lists;
    }

    /** The kfree of a vnode that got no name. */
    method Unmake(vn: nat, ghost s: State)
      requires vn !in s.vnodes && vn !in s.lists && exists kind :: St() == Fresh(s, vn, kind)
      modifies this
      ensures St() == s
    {
      vnodes, lists := vnodes - {vn}, lists - {vn};
    }

    /** vfs_open and file_put on a vnode of this file system: the count goes up and down, and closing frees nothing. */
    method Open(v: nat)
      requires Valid() && v in vnodes
      modifies this
      ensures Valid() && Abstract() == old(Abstract()).(opens := old(opens) + multiset{v})
    {
      TakeInv(St(), v);
      vnodes := vnodes[v := vnodes[v].(refs := vnodes[v].refs + 1)];
      opens := opens + multiset{v};
      assert St() == Take(old(St()), v);
    }

    method Close(v: nat)
      requires Valid() && v in opens
      modifies this
      ensures Valid() && Abstract() == old(Abstract()).(opens := old(opens) - multiset{v})
    {
      Counted(St(), v);
      DropInv(St(), v);
      if vnodes[v].refs != 0 { vnodes := vnodes[v := vnodes[v].(refs := vnodes[v].refs - 1)]; }
      opens := opens - multiset{v};
      assert St() == Drop(old(St()), v);
    }
  
    /** The second search of tmpfs_rename, for the entry itself. */
    method FindEntry(dir: nat, src: nat, ghost i: nat) returns (pp: Loc)
      requires Valid() && dir in lists && i < |lists[dir]| && lists[dir][i] == src
      ensures pp == LocOf(dir, lists[dir], i) && src in ents
    {
      ghost var k := 0;
      pp := Head(dir);
      var e := Load(pp, dir, 0);
      assert DirOk(St(), dir) && LinkAt(ents, lists[dir], i);
      while e != 0 && e != src
        invariant k <= i && pp == LocOf(dir, lists[dir], k) && e == At(lists[dir], k) && e != 0 && e in ents
        decreases i - k
      {
        pp := Next(e);
        e := Load(pp, dir, k + 1);
        k := k + 1;
      }
    }

    /** The entry re-threaded: past it in the old list, in front of the new one, with its new name. */
    method Rethread(pp: Loc, src: nat, newdir: nat, name: string, ghost olddir: nat, ghost i: nat)
      requires Valid() && olddir in lists && i < |lists[olddir]| && lists[olddir][i] == src && src in ents
      requires pp == LocOf(olddir, lists[olddir], i) && newdir in lists && newdir in vnodes
      modifies this
      ensures old(Detachable(St(), olddir, i)) && St() == Move(old(St()), olddir, i, newdir, name)
    {
      ghost var s := St();
      assert DirOk(s, olddir);
      ChainIn(ents, vnodes[olddir].head, lists[olddir]);
      MoveMemory(s, olddir, i, newdir, name);
      match pp {
        case Head(d) => vnodes := vnodes[d := vnodes[d].(head := ents[src].next)];
        case Next(p) => ents := ents[p := ents[p].(next := ents[src].next)];
      }
      ents := ents[src := Dirent(name, ents[src].vn, vnodes[newdir].head)];
      vnodes := vnodes[newdir := vnodes[newdir].(head := src)];
      ghost var t := Move(s, olddir, i, newdir, name);
      lists, own := t.lists, t.own;
      assert opens == t.opens;
    }

    /** tmpfs_rename. */
    method Rename(olddir: nat, oldname: string, newdir: nat, newname: string) returns (rc: int)
      requires Valid() && olddir in vnodes && newdir in vnodes
      modifies this
      ensures Valid() && rc == RenameRefused(old(Abstract()), olddir, oldname, newdir, newname)
      ensures RenameSays(TreeOf(old(Abstract())), olddir, oldname, newdir, newname, rc)
      ensures rc == 0 ==> Renames(old(Abstract()), Abstract(), olddir, oldname, newdir, newname)
      ensures rc != 0 ==> St() == old(St())
    {
      ghost var s, a := St(), Abstract();
      assert VnodeOk(s, olddir) && VnodeOk(s, newdir);
      Renaming(a, olddir, oldname, newdir, newname);
      if !vnodes[olddir].kind.Dir? || !vnodes[newdir].kind.Dir? { return ENOTDIR; }
      var pp, src, i := Find(olddir, oldname);
      if src == 0 { return ENOENT; }
      assert a.dirs[olddir][i] == RowOf(ents, src);
      var dst := Lookup(newdir, newname);
      if dst != 0 {
        if dst == ents[src].vn { return 0; }
        rc, pp, i := Clear(newdir, newname, dst, olddir, src, oldname);
        if rc < 0 { return; }
      }
      InDir(St(), olddir);
      InDir(St(), newdir);
      MoveInv(St(), olddir, i, newdir, Cut(newname));
      var copy := CopyName(newname);
      Rethread(pp, src, newdir, copy, olddir, i);
      rc := 0;
    }

    /** The destination of a rename unlinked, and the source found again. */
    method Clear(newdir: nat, newname: string, dst: nat, olddir: nat, src: nat, ghost oldname: string)
      returns (rc: int, pp: Loc, ghost i: nat)
      requires Valid() && olddir in lists && newdir in lists
      requires var a := Abstract();
          First(a.dirs[newdir], newname) < |a.dirs[newdir]| && dst == Got(a.dirs[newdir], newname)
      requires var k := First(Abstract().dirs[olddir], oldname);
          k < |lists[olddir]| && src == lists[olddir][k] && src in ents && ents[src].vn != dst
      modifies this
      ensures Valid() && rc == if Busy(old(Abstract()), dst) then ENOTEMPTY else 0
      ensures rc != 0 ==> St() == old(St())
      ensures rc == 0 ==> Abstract() == Unlinked(old(Abstract()), newdir, First(old(Abstract()).dirs[newdir], newname))
      ensures rc == 0 ==> olddir in lists && newdir in lists && src in ents
      ensures rc == 0 ==>
          i == First(Abstract().dirs[olddir], oldname) < |lists[olddir]| && lists[olddir][i] == src &&
          pp == LocOf(olddir, lists[olddir], i)
    {
      ghost var s, a := St(), Abstract();
      pp, i := Head(olddir), 0;
      InDir(s, newdir);
      ghost var j, k := First(a.dirs[newdir], newname), First(a.dirs[olddir], oldname);
      HasList(s, newdir, j);
      if vnodes[dst].kind.Dir? && vnodes[dst].head != 0 { return ENOTEMPTY, pp, i; }
      rc := Unlink(newdir, newname);
      StillThere(s, St(), newdir, j, olddir, k, oldname);
      i := First(Abstract().dirs[olddir], oldname);
      pp := FindEntry(olddir, src, i);
    }
  
    /** Calls by anyone, with whatever memory the allocator hands out. */
    method Step(op: Op)
      requires Valid()
      modifies this
      ensures Valid() && Does(old(Abstract()), op, Abstract())
    {
      ghost var a := Abstract();
      Listed(St());
      match op {
        case Make(dir, name, kind, vn, e) =>
          if dir in vnodes && vn !in vnodes && e !in ents { var r := Create(dir, name, kind, vn, e); }
        case Remove(dir, name) => if dir in vnodes { var rc := Unlink(dir, name); }
        case Ren(olddir, oldname, newdir, newname) =>
          if olddir in vnodes && newdir in vnodes { var rc := Rename(olddir, oldname, newdir, newname); }
        case Hold(v) => if v in vnodes { Open(v); }
        case Let(v) => if v in opens { Close(v); }
      }
    }

    /** Any run, with what it goes through. Names in a directory stay distinct. */
    method Run(ops: seq<Op>) returns (ghost h: seq<Abs>)
      requires Valid()
      modifies this
      ensures Valid() && Trace(h, ops) && h[0] == old(Abstract()) && h[|ops|] == Abstract()
      ensures Unique(old(Abstract())) ==> Unique(Abstract())
    {
      h := [Abstract()];
      IsSound(St());
      for i := 0 to |ops|
        invariant Valid() && |h| == i + 1 && h[0] == old(Abstract()) && h[i] == Abstract() && Trace(h, ops[..i])
      {
        Step(ops[i]);
        IsSound(St());
        TraceMore(h, ops, i, Abstract());
        h := h + [Abstract()];
      }
      assert ops[..|ops|] == ops;
      if Unique(h[0]) { TraceUnique(h, ops, |ops|); }
    }
  }

  datatype Op =
    | Make(dir: nat, name: Leaf, kind: Kind, vn: nat, e: nat)
    | Remove(dir: nat, name: Leaf)
    | Ren(olddir: nat, oldname: Leaf, newdir: nat, newname: Leaf)
    | Hold(v: nat)
    | Let(v: nat)

  // ------------------------------------------------------------ what the calls answer, on directories as maps

  function MapOf(rows: Rows): map<string, nat> {
    if rows == [] then map[] else MapOf(rows[1..])[rows[0].0 := rows[0].1]
  }

  /** The map of a directory is what lookup answers. */
  lemma {:induction false} MapGot(rows: Rows, name: string)
    ensures name in MapOf(rows) <==> First(rows, name) < |rows|
    ensures name in MapOf(rows) ==> MapOf(rows)[name] == Got(rows, name)
  {
    if rows != [] {
      MapGot(rows[1..], name);
      FirstIs(rows, name, if rows[0].0 == name then 0 else First(rows[1..], name) + 1);
    }
  }

  type Tree = map<nat, map<string, nat>>

  ghost function TreeOf(a: Abs): Tree {
    map d | d in a.dirs :: MapOf(a.dirs[d])
  }

  /** A directory with something in it. */
  predicate Full(m: Tree, v: nat) {
    v in m && m[v] != map[]
  }

  predicate LookupSays(m: Tree, d: nat, name: string, v: nat) {
    v == if d in m && name in m[d] then m[d][name] else 0
  }

  predicate UnlinkSays(m: Tree, d: nat, name: string, rc: int) {
    && (rc == ENOTDIR <==> d !in m)
    && (rc == ENOENT <==> d in m && name !in m[d])
    && (rc == ENOTEMPTY <==> d in m && name in m[d] && Full(m, m[d][name]))
    && (rc == 0 <==> d in m && name in m[d] && !Full(m, m[d][name]))
  }

  /** A rename goes through if the old name is there and the new one is not, or is of the same vnode, or of anything but
      a directory with something in it. */
  predicate RenameSays(m: Tree, od: nat, oldname: string, nd: nat, newname: string, rc: int) {
    && (rc == ENOTDIR <==> od !in m || nd !in m)
    && (rc == ENOENT <==> od in m && nd in m && oldname !in m[od])
    && (rc == ENOTEMPTY <==>
        od in m && nd in m && oldname in m[od] && newname in m[nd] && m[nd][newname] != m[od][oldname] &&
        Full(m, m[nd][newname]))
    && (rc == 0 <==>
        od in m && nd in m && oldname in m[od] &&
        (newname !in m[nd] || m[nd][newname] == m[od][oldname] || !Full(m, m[nd][newname])))
  }

  lemma FullIsBusy(a: Abs, v: nat)
    ensures Full(TreeOf(a), v) <==> Busy(a, v)
  {
    if v in a.dirs && a.dirs[v] != [] {
      MapGot(a.dirs[v], a.dirs[v][0].0);
      FirstIs(a.dirs[v], a.dirs[v][0].0, 0);
    }
  }

  lemma Looked(a: Abs, d: nat, name: string)
    requires d in a.dirs
    ensures LookupSays(TreeOf(a), d, name, Got(a.dirs[d], name))
  {
    MapGot(a.dirs[d], name);
  }

  lemma Unlinking(a: Abs, d: nat, name: string)
    ensures UnlinkSays(TreeOf(a), d, name, if d in a.dirs then Refused(a, d, name) else ENOTDIR)
  {
    if d in a.dirs {
      MapGot(a.dirs[d], name);
      FullIsBusy(a, Got(a.dirs[d], name));
    }
  }

  lemma Renaming(a: Abs, od: nat, oldname: string, nd: nat, newname: string)
    ensures RenameSays(TreeOf(a), od, oldname, nd, newname, RenameRefused(a, od, oldname, nd, newname))
  {
    if od in a.dirs && nd in a.dirs {
      MapGot(a.dirs[od], oldname);
      MapGot(a.dirs[nd], newname);
      FullIsBusy(a, Got(a.dirs[nd], newname));
    }
  }

  // ------------------------------------------------------------ runs

  /** What a call does. A create may also fail for want of memory. */
  ghost predicate Does(a: Abs, op: Op, a': Abs) {
    match op
    case Make(d, name, kind, v, _) =>
      a' == a ||
          (d in a.dirs && v !in a.kinds && First(a.dirs[d], name) == |a.dirs[d]| && a' == Created(a, d, name, kind, v))
    case Remove(d, name) =>
      if d in a.dirs && Refused(a, d, name) == 0 then a' == Unlinked(a, d, First(a.dirs[d], name)) else a' == a
    case Ren(od, oldname, nd, newname) =>
      if RenameRefused(a, od, oldname, nd, newname) == 0 then Renames(a, a', od, oldname, nd, newname) else a' == a
    case Hold(v) => a' == if v in a.kinds then a.(opens := a.opens + multiset{v}) else a
    case Let(v) => a' == if v in a.opens then a.(opens := a.opens - multiset{v}) else a
  }

  /** Directories, and nothing else, have rows, and what they name is in memory. */
  ghost predicate Sound(a: Abs) {
    && (forall d {:trigger d in a.dirs} {:trigger d in a.kinds} :: d in a.dirs <==> d in a.kinds && a.kinds[d].Dir?)
    && (forall d, k: nat, v {:trigger NamedAt(a, d, k, v)} :: NamedAt(a, d, k, v) ==> v in a.kinds)
  }

  lemma Listed(s: State)
    requires Inv(s)
    ensures forall d {:trigger d in s.lists} :: d in s.lists ==> d in s.vnodes
  {
    forall d | d in s.lists ensures d in s.vnodes { assert DirOk(s, d); }
  }

  lemma IsSound(s: State)
    requires Inv(s)
    ensures Sound(View(s))
  {
    var a := View(s);
    forall d ensures d in a.dirs <==> d in a.kinds && a.kinds[d].Dir? { assert VnodeOk(s, d); }
    forall d, k: nat, v | NamedAt(a, d, k, v) ensures v in a.kinds {
      assert DirOk(s, d);
      ChainIn(s.ents, s.vnodes[d].head, s.lists[d]);
      assert a.dirs[d][k] == RowOf(s.ents, s.lists[d][k]) && EntOk(s, s.lists[d][k]);
    }
  }

  ghost predicate DidAt(h: seq<Abs>, ops: seq<Op>, i: nat) {
    i < |ops| && i + 1 < |h| ==> Does(h[i], ops[i], h[i + 1]) && Sound(h[i + 1])
  }

  /** What the file system goes through as the calls are made. */
  ghost predicate Trace(h: seq<Abs>, ops: seq<Op>) {
    |h| == |ops| + 1 && Sound(h[0]) && forall i: nat {:trigger DidAt(h, ops, i)} :: DidAt(h, ops, i)
  }

  lemma Did(h: seq<Abs>, ops: seq<Op>, i: nat)
    requires Trace(h, ops) && i < |ops|
    ensures Sound(h[i]) && Does(h[i], ops[i], h[i + 1]) && Sound(h[i + 1])
  {
    assert DidAt(h, ops, i);
    if i > 0 {
      var j: nat := i - 1;
      assert DidAt(h, ops, j);
    }
  }

  lemma TraceMore(h: seq<Abs>, ops: seq<Op>, n: nat, a: Abs)
    requires n < |ops| && Trace(h, ops[..n]) && Does(h[n], ops[n], a) && Sound(a)
    ensures Trace(h + [a], ops[..n + 1])
  {
    var h', ops' := h + [a], ops[..n + 1];
    forall i: nat ensures DidAt(h', ops', i) {
      assert DidAt(h, ops[..n], i);
    }
  }

  lemma {:induction false} TraceUnique(h: seq<Abs>, ops: seq<Op>, n: nat)
    requires Trace(h, ops) && n <= |ops| && Unique(h[0])
    ensures Unique(h[n])
  {
    if n > 0 {
      var i: nat := n - 1;
      TraceUnique(h, ops, i);
      Did(h, ops, i);
      DoesUnique(h[i], ops[i], h[n]);
    }
  }

  lemma DoesUnique(a: Abs, op: Op, a': Abs)
    requires Unique(a) && Does(a, op, a') && Sound(a)
    ensures Unique(a')
  {
    match op {
      case Make(d, name, kind, v, _) => if a' != a { CreateUnique(a, d, name, kind, v); }
      case Remove(d, name) => if a' != a { UnlinkedUnique(a, d, First(a.dirs[d], name)); }
      case Ren(od, oldname, nd, newname) => if a' != a { RenameUnique(a, a', od, oldname, nd, newname); }
      case Hold(v) =>
      case Let(v) =>
    }
  }

  // ------------------------------------------------------------ unique names, and the directory as a map

  ghost predicate Distinct(rows: Rows) {
    forall i, j :: 0 <= i < j < |rows| ==> rows[i].0 != rows[j].0
  }

  ghost predicate Tidy(rows: Rows) {
    Distinct(rows) && forall i :: 0 <= i < |rows| ==> |rows[i].0| <= NAME_MAX
  }

  ghost predicate Unique(a: Abs) {
    forall d {:trigger d in a.dirs} :: d in a.dirs ==> Tidy(a.dirs[d])
  }

  /** Unlinking a name is deleting it from the map, if names are distinct. */
  lemma MapWithout(rows: Rows, i: nat)
    requires Distinct(rows) && i < |rows|
    ensures MapOf(Without(rows, i)) == MapOf(rows) - {rows[i].0}
  {
    var rest := Without(rows, i);
    forall name ensures name in MapOf(rest) <==> name in MapOf(rows) && name != rows[i].0 {
      MapAtWithout(rows, i, name);
    }
    forall name | name in MapOf(rest) ensures MapOf(rest)[name] == MapOf(rows)[name] {
      MapAtWithout(rows, i, name);
    }
  }

  lemma MapAtWithout(rows: Rows, i: nat, name: string)
    requires Distinct(rows) && i < |rows|
    ensures name in MapOf(Without(rows, i)) <==> name in MapOf(rows) && name != rows[i].0
    ensures name in MapOf(Without(rows, i)) ==>
        name in MapOf(rows) && MapOf(Without(rows, i))[name] == MapOf(rows)[name]
  {
    if name == rows[i].0 {
      FirstGone(rows, i);
      MapGot(Without(rows, i), name);
    } else {
      MapAtOther(rows, i, name);
    }
  }

  lemma MapAtOther(rows: Rows, i: nat, name: string)
    requires i < |rows| && name != rows[i].0
    ensures name in MapOf(Without(rows, i)) <==> name in MapOf(rows)
    ensures name in MapOf(rows) ==> MapOf(Without(rows, i))[name] == MapOf(rows)[name]
  {
    MapGot(Without(rows, i), name);
    MapGot(rows, name);
    FirstWithout(rows, name, i);
  }

  lemma FirstGone(rows: Rows, i: nat)
    requires Distinct(rows) && i < |rows|
    ensures First(Without(rows, i), rows[i].0) == |rows| - 1
  {
    FirstIs(Without(rows, i), rows[i].0, |rows| - 1);
  }

  lemma MapPush(rows: Rows, name: string, v: nat)
    ensures MapOf([(name, v)] + rows) == MapOf(rows)[name := v]
  {
    var more: Rows := [(name, v)] + rows;
    assert more[1..] == rows;
  }

  lemma TidyPush(rows: Rows, name: string, v: nat)
    requires Tidy(rows) && |name| <= NAME_MAX
    ensures Tidy([(name, v)] + rows) <==> First(rows, name) == |rows|
  {
    var more: Rows := [(name, v)] + rows;
    var k := First(rows, name);
    if k < |rows| { assert more[0].0 == more[k + 1].0; }
  }

  lemma TidyWithout(rows: Rows, i: nat)
    requires Tidy(rows) && i < |rows|
    ensures Tidy(Without(rows, i))
  {
  }

  /** Names stay distinct exactly if the name fits an entry or its cut form is
      new too: the test for an existing name is made on the uncut one. */
  lemma CreateUnique(a: Abs, d: nat, name: string, kind: Kind, v: nat)
    requires Unique(a) && d in a.dirs && d != v && First(a.dirs[d], name) == |a.dirs[d]|
    ensures Unique(Created(a, d, name, kind, v)) <==> |name| <= NAME_MAX || First(a.dirs[d], Cut(name)) == |a.dirs[d]|
  {
    var b := Created(a, d, name, kind, v);
    TidyPush(a.dirs[d], Cut(name), v);
    assert d in b.dirs;
    if Tidy(b.dirs[d]) {
      forall x | x in b.dirs ensures Tidy(b.dirs[x]) { assert x in a.dirs || b.dirs[x] == []; }
    }
  }

  /** A created name is inserted in the map of its directory, for a vnode of the kind asked for; a new directory is
      empty, and all else is as it was. */
  lemma CreateMap(a: Abs, d: nat, name: string, kind: Kind, v: nat)
    requires d in a.dirs && d != v && v !in a.dirs
    ensures var b := Created(a, d, name, kind, v);
      && b.kinds == a.kinds[v := kind] && b.opens == a.opens
      && TreeOf(b) == (if kind.Dir? then TreeOf(a)[v := map[]] else TreeOf(a))[d := MapOf(a.dirs[d])[Cut(name) := v]]
  {
    MapPush(a.dirs[d], Cut(name), v);
  }

  /** A long name created twice: the second is not seen to be there. */
  lemma LongNameTwice(a: Abs, d: nat, name: string, v: nat, w: nat)
    requires Unique(a) && d in a.dirs && d != v && d != w && |name| > NAME_MAX
    ensures var b := Created(a, d, name, Reg, v);
        First(b.dirs[d], name) == |b.dirs[d]| && !Unique(Created(b, d, name, Reg, w))
  {
    var b := Created(a, d, name, Reg, v);
    FirstIs(b.dirs[d], name, |b.dirs[d]|);
    var c := Created(b, d, name, Reg, w);
    assert d in c.dirs && c.dirs[d][0].0 == c.dirs[d][1].0;
  }

  /** Unlinking deletes the name from the map of its directory and changes no other directory; it takes away the vnode
      of the name if no name and no description leads to it, and nothing else. */
  lemma UnlinkedMap(a: Abs, d: nat, i: nat)
    requires Unique(a) && d in a.dirs && i < |a.dirs[d]| && !Busy(a, a.dirs[d][i].1)
    ensures var b, v := Unlinked(a, d, i), a.dirs[d][i].1;
      && Unique(b) && d in b.dirs && MapOf(b.dirs[d]) == MapOf(a.dirs[d]) - {a.dirs[d][i].0}
      && (forall x :: x in b.dirs && x != d ==> x in a.dirs && b.dirs[x] == a.dirs[x])
      && (forall x :: x in a.dirs && x !in b.dirs ==> x == v && !Held(b, v))
      && b.kinds == (if Held(b, v) then a.kinds else a.kinds - {v}) && b.opens == a.opens
  {
    var b, v := Unlinked(a, d, i), a.dirs[d][i].1;
    UnlinkedUnique(a, d, i);
    MapWithout(a.dirs[d], i);
    var u := Unnamed(a, d, i);
    if !Held(u, v) {
      assert v !in b.opens;
      forall x, k: nat ensures !NamedAt(b, x, k, v) { assert !NamedAt(u, x, k, v); }
      assert !Held(b, v);
    }
  }

  lemma UnlinkedUnique(a: Abs, d: nat, i: nat)
    requires Unique(a) && d in a.dirs && i < |a.dirs[d]|
    ensures Unique(Unlinked(a, d, i))
  {
    TidyWithout(a.dirs[d], i);
  }

  /** The directories as they are when the row moves. */
  ghost function Cleared(a: Abs, nd: nat, newname: string): Abs
    requires nd in a.dirs
  {
    var j := First(a.dirs[nd], newname);
    if j < |a.dirs[nd]| then Unlinked(a, nd, j) else a
  }

  /** What has the new name is gone from the directory, which is otherwise as it was. */
  lemma ClearedMap(a: Abs, nd: nat, newname: string)
    requires Unique(a) && nd in a.dirs &&
        (First(a.dirs[nd], newname) < |a.dirs[nd]| ==> !Busy(a, Got(a.dirs[nd], newname)))
    ensures var b := Cleared(a, nd, newname);
      && Unique(b) && nd in b.dirs && First(b.dirs[nd], newname) == |b.dirs[nd]|
      && MapOf(b.dirs[nd]) == MapOf(a.dirs[nd]) - {newname}
      && (forall x :: x in b.dirs && x != nd ==> x in a.dirs && b.dirs[x] == a.dirs[x])
  {
    var rows := a.dirs[nd];
    var j := First(rows, newname);
    if j < |rows| {
      UnlinkedMap(a, nd, j);
      FirstGone(rows, j);
    } else {
      MapGot(rows, newname);
    }
  }

  lemma AbsentWithout(rows: Rows, name: string, i: nat)
    requires i < |rows| && First(rows, name) == |rows|
    ensures First(Without(rows, i), name) == |rows| - 1
  {
    FirstWithout(rows, name, i);
  }

  /** A rename of two names of one vnode changes nothing. */
  ghost predicate SameFile(a: Abs, od: nat, oldname: string, nd: nat, newname: string)
    requires od in a.dirs && nd in a.dirs
  {
    First(a.dirs[nd], newname) < |a.dirs[nd]| && Got(a.dirs[nd], newname) == Got(a.dirs[od], oldname)
  }

  /** A rename is a move on the maps: the old name goes from its directory, and the new one is there, with the same
      vnode, whatever it was before; every other directory that is left is as it was. */
  lemma RenameMap(a: Abs, a': Abs, od: nat, oldname: string, nd: nat, newname: string)
    requires Unique(a) && RenameRefused(a, od, oldname, nd, newname) == 0 && |newname| <= NAME_MAX
    requires Renames(a, a', od, oldname, nd, newname) && !SameFile(a, od, oldname, nd, newname)
    ensures od in a'.dirs && nd in a'.dirs
    ensures var v, m := Got(a.dirs[od], oldname), MapOf(a.dirs[nd]);
      if od == nd then MapOf(a'.dirs[nd]) == ((m - {newname}) - {oldname})[newname := v]
      else MapOf(a'.dirs[nd]) == m[newname := v] && MapOf(a'.dirs[od]) == MapOf(a.dirs[od]) - {oldname}
    ensures forall x :: x in a'.dirs && x != od && x != nd ==> x in a.dirs && a'.dirs[x] == a.dirs[x]
  {
    var b := Cleared(a, nd, newname);
    var i := First(b.dirs[od], oldname);
    ClearedMap(a, nd, newname);
    MovedRow(a, od, oldname, nd, newname);
    MapWithout(b.dirs[od], i);
    MapPush(Unnamed(b, od, i).dirs[nd], newname, b.dirs[od][i].1);
    if od != nd {
      var m, v := MapOf(a.dirs[nd]), b.dirs[od][i].1;
      assert (m - {newname})[newname := v] == m[newname := v];
    }
  }

  /** It takes away no vnode but the one that had the new name, if nothing leads to that any more. */
  lemma RenameMemory(a: Abs, a': Abs, od: nat, oldname: string, nd: nat, newname: string)
    requires Unique(a) && RenameRefused(a, od, oldname, nd, newname) == 0
    requires Renames(a, a', od, oldname, nd, newname) && !SameFile(a, od, oldname, nd, newname)
    ensures a'.opens == a.opens
    ensures if newname in MapOf(a.dirs[nd]) then
        var v := MapOf(a.dirs[nd])[newname]; a'.kinds == if Held(a', v) then a.kinds else a.kinds - {v}
      else a'.kinds == a.kinds
  {
    var j := First(a.dirs[nd], newname);
    MapGot(a.dirs[nd], newname);
    if j < |a.dirs[nd]| {
      var b, v := Unlinked(a, nd, j), a.dirs[nd][j].1;
      var i := First(b.dirs[od], oldname);
      UnlinkedMap(a, nd, j);
      MovedRow(a, od, oldname, nd, newname);
      MovedHeld(b, od, i, nd, Cut(newname), v);
    }
  }

  /** A move leads to what was led to before. */
  lemma MovedHeld(a: Abs, od: nat, i: nat, nd: nat, name: string, v: nat)
    requires od in a.dirs && i < |a.dirs[od]| && nd in a.dirs && a.dirs[od][i].1 != v
    ensures Held(Moved(a, od, i, nd, name), v) <==> Held(a, v)
  {
    var u, b := Unnamed(a, od, i), Moved(a, od, i, nd, name);
    if v !in a.opens {
      if x, k: nat :| NamedAt(a, x, k, v) {
        var k1 := if x == od && k > i then k - 1 else k;
        assert NamedAt(u, x, k1, v);
        assert NamedAt(b, x, if x == nd then k1 + 1 else k1, v);
      }
      if x, k: nat :| NamedAt(b, x, k, v) {
        assert x == nd ==> k > 0;
        var k1 := if x == nd then k - 1 else k;
        assert NamedAt(u, x, k1, v);
        assert NamedAt(a, x, if x == od && k1 >= i then k1 + 1 else k1, v);
      }
    }
  }

  /** The row that moves is the one of the old name, also after the destination is cleared. */
  lemma MovedRow(a: Abs, od: nat, oldname: string, nd: nat, newname: string)
    requires RenameRefused(a, od, oldname, nd, newname) == 0 && !SameFile(a, od, oldname, nd, newname)
    requires od in Cleared(a, nd, newname).dirs
    ensures var b := Cleared(a, nd, newname); Got(b.dirs[od], oldname) == Got(a.dirs[od], oldname)
  {
    var j := First(a.dirs[nd], newname);
    if od == nd && j < |a.dirs[nd]| { GotWithout(a.dirs[od], oldname, j); }
  }

  lemma GotWithout(rows: Rows, name: string, j: nat)
    requires j < |rows| && j != First(rows, name)
    ensures Got(Without(rows, j), name) == Got(rows, name)
  {
    var rest, k := Without(rows, j), First(rows, name);
    var i := if j < k then k - 1 else k;
    FirstWithout(rows, name, j);
    assert k < |rows| ==> rest[i] == rows[k];
  }

  /** After a rename names are distinct exactly if the new name fits an entry or its cut form is not that of another
      row. */
  lemma RenameUnique(a: Abs, a': Abs, od: nat, oldname: string, nd: nat, newname: string)
    requires Unique(a) && RenameRefused(a, od, oldname, nd, newname) == 0
    requires Renames(a, a', od, oldname, nd, newname)
    ensures SameFile(a, od, oldname, nd, newname) ==> Unique(a')
    ensures !SameFile(a, od, oldname, nd, newname) ==>
      var rows := Unnamed(a, od, First(a.dirs[od], oldname)).dirs[nd];
      (Unique(a') <==> |newname| <= NAME_MAX || First(rows, Cut(newname)) == |rows|)
  {
    if !SameFile(a, od, oldname, nd, newname) {
      var b := Cleared(a, nd, newname);
      var i := First(b.dirs[od], oldname);
      var u := Unnamed(b, od, i);
      ClearedMap(a, nd, newname);
      TidyWithout(b.dirs[od], i);
      if od == nd { AbsentWithout(b.dirs[nd], newname, i); }
      TidyPush(u.dirs[nd], Cut(newname), b.dirs[od][i].1);
      assert Unique(a') ==> nd in a'.dirs;
    }
  }
}
