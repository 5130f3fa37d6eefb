/** File descriptors (kernel/fs/vfs.c): per-process tables of references to open-file descriptions, shared
    by dup, fork and clone, and the vnodes and pipes behind them. Nothing here is ever reused: a freed
    object keeps its place and is marked. */
module Descriptors {
  import opened Vfs

  const MAX_FDS := 32
  const EMPTY := -1      // an empty slot, a process without a table, a table without a shared count

  /** An open-file description. */
  datatype File = File(vnode: nat, write: bool, refcount: int, freed: bool)

  datatype Table = Table(slots: seq<int>, freed: bool)

  /** A vnode with, for a pipe, the counts of its ends. `names` are the references a file system holds itself. */
  datatype Vnode = Vnode(fifo: bool, names: nat, refcount: int, readers: int, writers: int, freed: bool)

  datatype Proc = Proc(table: int, rc: int)

  // ------------------------------------------------------------ counting references

  /** How many slots name file `f`. */
  ghost function Refs(ts: seq<Table>, f: int): nat {
    if ts == [] then 0 else Refs(ts[..|ts| - 1], f) + multiset(ts[|ts| - 1].slots)[f]
  }

  lemma {:induction false} RefsUpdate(ts: seq<Table>, k: nat, t: Table, f: int)
    requires k < |ts|
    ensures Refs(ts[k := t], f) == Refs(ts, f) - multiset(ts[k].slots)[f] + multiset(t.slots)[f]
  {
    var init := ts[..|ts| - 1];
    if k == |ts| - 1 {
      assert ts[k := t][..|ts| - 1] == init;
    } else {
      RefsUpdate(init, k, t, f);
      assert ts[k := t][..|ts| - 1] == init[k := t];
    }
  }

  lemma RefsMore(ts: seq<Table>, t: Table, f: int)
    ensures Refs(ts + [t], f) == Refs(ts, f) + multiset(t.slots)[f]
  {
    assert (ts + [t])[..|ts|] == ts;
  }

  /** How many open descriptions stand on vnode `v`, for writing or not. */
  ghost function Opens(fs: seq<File>, v: nat, write: bool): nat {
    if fs == [] then 0
    else Opens(fs[..|fs| - 1], v, write) + Stands(fs[|fs| - 1], v, write)
  }

  ghost function Stands(f: File, v: nat, write: bool): nat {
    if !f.freed && f.vnode == v && f.write == write then 1 else 0
  }

  lemma {:induction false} OpensUpdate(fs: seq<File>, k: nat, x: File, v: nat, write: bool)
    requires k < |fs|
    ensures Opens(fs[k := x], v, write) == Opens(fs, v, write) - Stands(fs[k], v, write) + Stands(x, v, write)
  {
    var init := fs[..|fs| - 1];
    if k == |fs| - 1 {
      assert fs[k := x][..|fs| - 1] == init;
    } else {
      OpensUpdate(init, k, x, v, write);
      assert fs[k := x][..|fs| - 1] == init[k := x];
    }
  }

  lemma OpensMore(fs: seq<File>, x: File, v: nat, write: bool)
    ensures Opens(fs + [x], v, write) == Opens(fs, v, write) + Stands(x, v, write)
  {
    assert (fs + [x])[..|fs|] == fs;
  }

  /** How many processes have table `k`. */
  ghost function Sharers(ps: seq<Proc>, k: int): nat {
    if ps == [] then 0 else Sharers(ps[..|ps| - 1], k) + if ps[|ps| - 1].table == k then 1 else 0
  }

  lemma {:induction false} SharersUpdate(ps: seq<Proc>, p: nat, x: Proc, k: int)
    requires p < |ps|
    ensures Sharers(ps[p := x], k) == Sharers(ps, k) - (if ps[p].table == k then 1 else 0) + if x.table == k then 1
        else 0
  {
    var init := ps[..|ps| - 1];
    if p == |ps| - 1 {
      assert ps[p := x][..|ps| - 1] == init;
    } else {
      SharersUpdate(init, p, x, k);
      assert ps[p := x][..|ps| - 1] == init[p := x];
    }
  }

  lemma SharersMore(ps: seq<Proc>, x: Proc, k: int)
    ensures Sharers(ps + [x], k) == Sharers(ps, k) + if x.table == k then 1 else 0
  {
    assert (ps + [x])[..|ps|] == ps;
  }

  // ------------------------------------------------------------ the invariant

  /** A description's count is the number of slots that name it, plus one for `extra` while a reference to it
      is being given up; it is freed when the count is nought and not before. */
  ghost predicate FileOk(fs: seq<File>, ts: seq<Table>, vs: seq<Vnode>, extra: int, f: nat) {
    f < |fs| ==>
      && fs[f].refcount == Refs(ts, f) + (if f == extra then 1 else 0)
      && (fs[f].freed <==> fs[f].refcount == 0)
      && fs[f].vnode < |vs| && (!fs[f].freed ==> !vs[fs[f].vnode].freed)
  }

  /** A vnode's count is its names and the descriptions on it, a pipe's ends are the descriptions on each side,
      and a pipe is freed with its last end and not before. */
  ghost predicate VnodeOk(fs: seq<File>, vs: seq<Vnode>, v: nat) {
    v < |vs| ==>
      && vs[v].refcount == vs[v].names + Opens(fs, v, false) + Opens(fs, v, true)
      && (vs[v].fifo ==>
          vs[v].names == 0 && vs[v].readers == Opens(fs, v, false) && vs[v].writers == Opens(fs, v, true))
      && (vs[v].freed <==> vs[v].fifo && vs[v].refcount == 0)
  }

  /** A table in use names live descriptions only, and is freed with its last process, except that `dying`, which
      has none, is just being emptied. */
  ghost predicate TableOk(fs: seq<File>, ts: seq<Table>, ps: seq<Proc>, dying: int, k: nat) {
    k < |ts| ==>
      && |ts[k].slots| == MAX_FDS
      && (forall i :: 0 <= i < MAX_FDS ==> ts[k].slots[i] == EMPTY || 0 <= ts[k].slots[i] < |fs|)
      && (ts[k].freed ==> forall i :: 0 <= i < MAX_FDS ==> ts[k].slots[i] == EMPTY)
      && (ts[k].freed <==> Sharers(ps, k) == 0 && k != dying)
      && (k == dying ==> Sharers(ps, k) == 0)
  }

  /** A process has a table or none; a shared count is the number of processes that have the table. */
  ghost predicate ProcOk(ts: seq<Table>, rcs: seq<int>, ps: seq<Proc>, p: nat) {
    p < |ps| ==>
      && (ps[p].table == EMPTY || 0 <= ps[p].table < |ts|)
      && (ps[p].rc == EMPTY ||
          (0 <= ps[p].rc < |rcs| && ps[p].table != EMPTY && rcs[ps[p].rc] == Sharers(ps, ps[p].table)))
      && (ps[p].rc == EMPTY && ps[p].table != EMPTY ==> Sharers(ps, ps[p].table) == 1)
  }

  /** Processes that have the same table have the same shared count, and the other way round. */
  ghost predicate Paired(ps: seq<Proc>, p: nat, q: nat) {
    p < |ps| && q < |ps| && ps[p].rc != EMPTY ==> (ps[p].rc == ps[q].rc <==> ps[p].table == ps[q].table)
  }

  ghost predicate Inv(fs: seq<File>, ts: seq<Table>, rcs: seq<int>, vs: seq<Vnode>, ps: seq<Proc>, extra: int,
      dying: int) {
    && (forall f: nat {:trigger FileOk(fs, ts, vs, extra, f)} :: FileOk(fs, ts, vs, extra, f))
    && (forall v: nat {:trigger VnodeOk(fs, vs, v)} :: VnodeOk(fs, vs, v))
    && (forall k: nat {:trigger TableOk(fs, ts, ps, dying, k)} :: TableOk(fs, ts, ps, dying, k))
    && (forall p: nat {:trigger ProcOk(ts, rcs, ps, p)} :: ProcOk(ts, rcs, ps, p))
    && (forall p: nat, q: nat {:trigger Paired(ps, p, q)} :: Paired(ps, p, q))
    && -1 <= extra < |fs| && dying < |ts|
  }

  // ------------------------------------------------------------ one slot changes

  /** Slot `i` of table `k` set to `f`. */
  function WithSlot(ts: seq<Table>, k: nat, i: nat, f: int): seq<Table>
    requires k < |ts| && i < |ts[k].slots|
  {
    ts[k := ts[k].(slots := ts[k].slots[i := f])]
  }

  lemma SlotRefs(ts: seq<Table>, k: nat, i: nat, x: int, f: int)
    requires k < |ts| && i < |ts[k].slots|
    ensures Refs(WithSlot(ts, k, i, x), f) == Refs(ts, f) - (if ts[k].slots[i] == f then 1 else 0) + if x == f then 1
        else 0
  {
    RefsUpdate(ts, k, ts[k].(slots := ts[k].slots[i := x]), f);
  }

  /** Emptying a slot leaves one reference to give up. */
  lemma Emptied(fs: seq<File>, ts: seq<Table>, rcs: seq<int>, vs: seq<Vnode>, ps: seq<Proc>, dying: int, k: nat, i: nat)
    requires Inv(fs, ts, rcs, vs, ps, EMPTY, dying) && k < |ts| && i < |ts[k].slots| && 0 <= ts[k].slots[i] < |fs|
    ensures Inv(fs, WithSlot(ts, k, i, EMPTY), rcs, vs, ps, ts[k].slots[i], dying)
  {
    var ts', x := WithSlot(ts, k, i, EMPTY), ts[k].slots[i];
    forall f: nat ensures FileOk(fs, ts', vs, x, f) {
      assert FileOk(fs, ts, vs, EMPTY, f);
      SlotRefs(ts, k, i, EMPTY, f);
    }
    forall j: nat ensures TableOk(fs, ts', ps, dying, j) {
      assert TableOk(fs, ts, ps, dying, j);
    }
    forall p: nat ensures ProcOk(ts', rcs, ps, p) {
      assert ProcOk(ts, rcs, ps, p);
    }
  }

  /** A live description named once more. */
  lemma Named(fs: seq<File>, ts: seq<Table>, rcs: seq<int>, vs: seq<Vnode>, ps: seq<Proc>, dying: int, k: nat, i: nat,
      x: nat)
    requires Inv(fs, ts, rcs, vs, ps, EMPTY, dying) && k < |ts| && !ts[k].freed && i < |ts[k].slots| &&
        ts[k].slots[i] == EMPTY
    requires x < |fs| && !fs[x].freed
    ensures Inv(fs[x := fs[x].(refcount := fs[x].refcount + 1)], WithSlot(ts, k, i, x), rcs, vs, ps, EMPTY, dying)
  {
    var ts', fs' := WithSlot(ts, k, i, x), fs[x := fs[x].(refcount := fs[x].refcount + 1)];
    forall f: nat ensures FileOk(fs', ts', vs, EMPTY, f) {
      assert FileOk(fs, ts, vs, EMPTY, f);
      SlotRefs(ts, k, i, x, f);
    }
    forall v: nat ensures VnodeOk(fs', vs, v) {
      assert VnodeOk(fs, vs, v);
      OpensUpdate(fs, x, fs'[x], v, false);
      OpensUpdate(fs, x, fs'[x], v, true);
    }
    forall j: nat ensures TableOk(fs', ts', ps, dying, j) {
      assert TableOk(fs, ts, ps, dying, j);
    }
    forall p: nat ensures ProcOk(ts', rcs, ps, p) {
      assert ProcOk(ts, rcs, ps, p);
    }
  }

  // ------------------------------------------------------------ a reference given up

  /** What pipe_detach and file_put leave of the vnode of a description that is freed. */
  function Detached(v: Vnode, write: bool): Vnode {
    var w := if !v.fifo then v
             else if write then v.(writers := if v.writers != 0 then v.writers - 1 else 0)
             else v.(readers := if v.readers != 0 then v.readers - 1 else 0);
    var x := w.(refcount := if w.refcount != 0 then w.refcount - 1 else 0);
    x.(freed := x.freed || (x.fifo && x.refcount == 0))
  }

  /** The last reference: the description goes, and with a pipe's last one the pipe. No count saturates. */
  lemma LastPut(fs: seq<File>, ts: seq<Table>, rcs: seq<int>, vs: seq<Vnode>, ps: seq<Proc>, dying: int, x: nat)
    requires x < |fs| && Inv(fs, ts, rcs, vs, ps, x, dying) && fs[x].refcount == 1
    ensures fs[x].vnode < |vs| && !vs[fs[x].vnode].freed
    ensures Inv(fs[x := fs[x].(refcount := 0, freed := true)], ts, rcs,
        vs[fs[x].vnode := Detached(vs[fs[x].vnode], fs[x].write)], ps, EMPTY, dying)
  {
    var v := fs[x].vnode;
    assert FileOk(fs, ts, vs, x, x);
    var fs', vs' := fs[x := fs[x].(refcount := 0, freed := true)], vs[v := Detached(vs[v], fs[x].write)];
    forall u: nat ensures VnodeOk(fs', vs', u) {
      assert VnodeOk(fs, vs, u);
      OpensUpdate(fs, x, fs'[x], u, false);
      OpensUpdate(fs, x, fs'[x], u, true);
    }
    forall f: nat ensures FileOk(fs', ts, vs', EMPTY, f) {
      assert FileOk(fs, ts, vs, x, f) && VnodeOk(fs, vs, v) && VnodeOk(fs', vs', v);
      if f < |fs| && f != x && !fs[f].freed && fs[f].vnode == v { StandsOn(fs', v, f); }
    }
    forall k: nat ensures TableOk(fs', ts, ps, dying, k) {
      assert TableOk(fs, ts, ps, dying, k);
    }
  }

  lemma {:induction false} StandsOn(fs: seq<File>, v: nat, f: nat)
    requires f < |fs| && !fs[f].freed && fs[f].vnode == v
    ensures Opens(fs, v, false) + Opens(fs, v, true) > 0
  {
    if f < |fs| - 1 { StandsOn(fs[..|fs| - 1], v, f); }
  }

  lemma OnePut(fs: seq<File>, ts: seq<Table>, rcs: seq<int>, vs: seq<Vnode>, ps: seq<Proc>, dying: int, x: nat)
    requires x < |fs| && Inv(fs, ts, rcs, vs, ps, x, dying) && fs[x].refcount > 1
    ensures Inv(fs[x := fs[x].(refcount := fs[x].refcount - 1)], ts, rcs, vs, ps, EMPTY, dying)
  {
    var fs' := fs[x := fs[x].(refcount := fs[x].refcount - 1)];
    forall u: nat ensures VnodeOk(fs', vs, u) {
      assert VnodeOk(fs, vs, u);
      OpensUpdate(fs, x, fs'[x], u, false);
      OpensUpdate(fs, x, fs'[x], u, true);
    }
    forall f: nat ensures FileOk(fs', ts, vs, EMPTY, f) {
      assert FileOk(fs, ts, vs, x, f);
    }
    forall k: nat ensures TableOk(fs', ts, ps, dying, k) {
      assert TableOk(fs, ts, ps, dying, k);
    }
  }

  // ------------------------------------------------------------ new objects

  function NoFds(): (s: seq<int>)
    ensures |s| == MAX_FDS && forall i :: 0 <= i < MAX_FDS ==> s[i] == EMPTY
  {
    seq(MAX_FDS, _ => EMPTY)
  }

  lemma {:induction false} NoSharers(ts: seq<Table>, rcs: seq<int>, ps: seq<Proc>, k: int)
    requires k >= |ts| && forall p: nat :: p < |ps| ==> ps[p].table < k
    ensures Sharers(ps, k) == 0
  {
    if ps != [] { NoSharers(ts, rcs, ps[..|ps| - 1], k); }
  }

  /** A process without a table gets an empty one. */
  lemma TableAttached(fs: seq<File>, ts: seq<Table>, rcs: seq<int>, vs: seq<Vnode>, ps: seq<Proc>, p: nat)
    requires Inv(fs, ts, rcs, vs, ps, EMPTY, EMPTY) && p < |ps| && ps[p].table == EMPTY
    ensures Inv(fs, ts + [Table(NoFds(), false)], rcs, vs, ps[p := Proc(|ts|, EMPTY)], EMPTY, EMPTY)
  {
    var t, x := Table(NoFds(), false), Proc(|ts|, EMPTY);
    var ts', ps' := ts + [t], ps[p := x];
    assert ProcOk(ts, rcs, ps, p);
    forall q: nat | q < |ps| ensures ps[q].table < |ts| {
      assert ProcOk(ts, rcs, ps, q);
    }
    NoSharers(ts, rcs, ps, |ts|);
    forall f: nat ensures FileOk(fs, ts', vs, EMPTY, f) {
      assert FileOk(fs, ts, vs, EMPTY, f);
      RefsMore(ts, t, f);
    }
    forall k: nat ensures TableOk(fs, ts', ps', EMPTY, k) {
      assert TableOk(fs, ts, ps, EMPTY, k);
      SharersUpdate(ps, p, x, k);
    }
    forall q: nat ensures ProcOk(ts', rcs, ps', q) {
      assert ProcOk(ts, rcs, ps, q);
      if q < |ps| { SharersUpdate(ps, p, x, ps'[q].table); }
    }
    forall q: nat, r: nat ensures Paired(ps', q, r) {
      assert Paired(ps, q, r);
    }
  }

  /** A vnode with one description more. */
  function Reattached(v: Vnode, write: bool): Vnode {
    var w := if !v.fifo then v else if write then v.(writers := v.writers + 1) else v.(readers := v.readers + 1);
    w.(refcount := w.refcount + 1, freed := false)
  }

  /** A new description in an empty slot, on a vnode that counts it. */
  lemma Opened(fs: seq<File>, ts: seq<Table>, rcs: seq<int>, vs: seq<Vnode>, ps: seq<Proc>, k: nat, i: nat, v: nat,
      write: bool)
    requires Inv(fs, ts, rcs, vs, ps, EMPTY, EMPTY) && k < |ts| && !ts[k].freed && i < |ts[k].slots| &&
        ts[k].slots[i] == EMPTY && v < |vs|
    ensures Inv(fs + [File(v, write, 1, false)], WithSlot(ts, k, i, |fs|), rcs, vs[v := Reattached(vs[v], write)], ps,
        EMPTY, EMPTY)
  {
    var x := File(v, write, 1, false);
    var fs', ts', vs' := fs + [x], WithSlot(ts, k, i, |fs|), vs[v := Reattached(vs[v], write)];
    NewFileRefs(fs, ts, ps, |fs|);
    forall f: nat ensures FileOk(fs', ts', vs', EMPTY, f) {
      assert FileOk(fs, ts, vs, EMPTY, f);
      OpenedFile(fs, ts, vs, k, i, v, write, f);
    }
    OpenedVnodes(fs, x, vs);
    forall j: nat ensures TableOk(fs', ts', ps, EMPTY, j) {
      assert TableOk(fs, ts, ps, EMPTY, j);
    }
    forall p: nat ensures ProcOk(ts', rcs, ps, p) {
      assert ProcOk(ts, rcs, ps, p);
    }
  }

  lemma OpenedFile(fs: seq<File>, ts: seq<Table>, vs: seq<Vnode>, k: nat, i: nat, v: nat, write: bool, f: nat)
    requires FileOk(fs, ts, vs, EMPTY, f) && k < |ts| && i < |ts[k].slots| && ts[k].slots[i] == EMPTY && v < |vs| &&
        Refs(ts, |fs|) == 0
    ensures FileOk(fs + [File(v, write, 1, false)], WithSlot(ts, k, i, |fs|), vs[v := Reattached(vs[v], write)], EMPTY,
        f)
  {
    SlotRefs(ts, k, i, |fs|, f);
  }

  lemma OpenedVnodes(fs: seq<File>, x: File, vs: seq<Vnode>)
    requires x.vnode < |vs| && !x.freed && forall u: nat {:trigger VnodeOk(fs, vs, u)} :: VnodeOk(fs, vs, u)
    ensures var fs', vs' := fs + [x], vs[x.vnode := Reattached(vs[x.vnode], x.write)];
        forall u: nat {:trigger VnodeOk(fs', vs', u)} :: VnodeOk(fs', vs', u)
  {
    var fs', vs' := fs + [x], vs[x.vnode := Reattached(vs[x.vnode], x.write)];
    forall u: nat ensures VnodeOk(fs', vs', u) {
      assert VnodeOk(fs, vs, u);
      OpensMore(fs, x, u, false);
      OpensMore(fs, x, u, true);
    }
  }

  /** A pipe without ends, which counts as freed until it has some. */
  const NEW_PIPE := Vnode(true, 0, 0, 0, 0, true)

  lemma PipeMore(fs: seq<File>, ts: seq<Table>, rcs: seq<int>, vs: seq<Vnode>, ps: seq<Proc>)
    requires Inv(fs, ts, rcs, vs, ps, EMPTY, EMPTY)
    ensures Inv(fs, ts, rcs, vs + [NEW_PIPE], ps, EMPTY, EMPTY)
  {
    var vs' := vs + [NEW_PIPE];
    forall f: nat ensures FileOk(fs, ts, vs', EMPTY, f) && (f < |fs| ==> fs[f].vnode < |vs|) {
      assert FileOk(fs, ts, vs, EMPTY, f);
    }
    NobodyOn(fs, |vs|, false);
    NobodyOn(fs, |vs|, true);
    forall u: nat ensures VnodeOk(fs, vs', u) {
      assert VnodeOk(fs, vs, u);
    }
  }

  lemma {:induction false} NobodyOn(fs: seq<File>, v: nat, write: bool)
    requires forall f: nat :: f < |fs| ==> fs[f].vnode != v
    ensures Opens(fs, v, write) == 0
  {
    if fs != [] { NobodyOn(fs[..|fs| - 1], v, write); }
  }

  /** Nothing names a description that does not exist yet. */
  lemma NewFileRefs(fs: seq<File>, ts: seq<Table>, ps: seq<Proc>, f: int)
    requires (forall k: nat {:trigger TableOk(fs, ts, ps, EMPTY, k)} :: TableOk(fs, ts, ps, EMPTY, k)) && f >= |fs|
    ensures Refs(ts, f) == 0
  {
    forall k | 0 <= k < |ts| ensures f !in ts[k].slots {
      assert TableOk(fs, ts, ps, EMPTY, k);
    }
    Unnamed(ts, f);
  }

  lemma {:induction false} Unnamed(ts: seq<Table>, f: int)
    requires forall k :: 0 <= k < |ts| ==> f !in ts[k].slots
    ensures Refs(ts, f) == 0
  {
    if ts != [] { Unnamed(ts[..|ts| - 1], f); }
  }

  // ------------------------------------------------------------ processes and tables

  /** An empty table that no process has yet. */
  lemma TableMore(fs: seq<File>, ts: seq<Table>, rcs: seq<int>, vs: seq<Vnode>, ps: seq<Proc>)
    requires Inv(fs, ts, rcs, vs, ps, EMPTY, EMPTY)
    ensures Inv(fs, ts + [Table(NoFds(), false)], rcs, vs, ps, EMPTY, |ts|)
  {
    var t := Table(NoFds(), false);
    var ts' := ts + [t];
    forall f: nat ensures FileOk(fs, ts', vs, EMPTY, f) {
      assert FileOk(fs, ts, vs, EMPTY, f);
      RefsMore(ts, t, f);
    }
    forall q: nat ensures ProcOk(ts', rcs, ps, q) && (q < |ps| ==> ps[q].table < |ts|) {
      assert ProcOk(ts, rcs, ps, q);
    }
    NoSharers(ts, rcs, ps, |ts|);
    forall k: nat ensures TableOk(fs, ts', ps, |ts|, k) {
      assert TableOk(fs, ts, ps, EMPTY, k);
    }
  }

  /** A new process takes over a table that nobody has. */
  lemma ProcMore(fs: seq<File>, ts: seq<Table>, rcs: seq<int>, vs: seq<Vnode>, ps: seq<Proc>, k: int)
    requires Inv(fs, ts, rcs, vs, ps, EMPTY, k) && (k == EMPTY || 0 <= k)
    ensures Inv(fs, ts, rcs, vs, ps + [Proc(k, EMPTY)], EMPTY, EMPTY)
  {
    var x := Proc(k, EMPTY);
    var ps' := ps + [x];
    if k >= 0 {
      assert TableOk(fs, ts, ps, k, k);
      NobodyHas(ps, k);
    }
    forall j: nat ensures TableOk(fs, ts, ps', EMPTY, j) {
      assert TableOk(fs, ts, ps, k, j);
      SharersMore(ps, x, j);
    }
    forall q: nat ensures ProcOk(ts, rcs, ps', q) {
      assert ProcOk(ts, rcs, ps, q);
      if q < |ps'| { SharersMore(ps, x, ps'[q].table); }
    }
    forall q: nat, r: nat ensures Paired(ps', q, r) {
      assert Paired(ps, q, r) && ProcOk(ts, rcs, ps, q);
    }
  }

  lemma {:induction false} NobodyHas(ps: seq<Proc>, k: int)
    requires Sharers(ps, k) == 0
    ensures forall q :: 0 <= q < |ps| ==> ps[q].table != k
  {
    if ps != [] { NobodyHas(ps[..|ps| - 1], k); }
  }

  lemma {:induction false} HasSharer(ps: seq<Proc>, q: nat)
    requires q < |ps|
    ensures Sharers(ps, ps[q].table) > 0
  {
    if q < |ps| - 1 { HasSharer(ps[..|ps| - 1], q); }
  }

  /** The process, sole owner of its table so far, gets a shared count of one. */
  lemma CountMade(fs: seq<File>, ts: seq<Table>, rcs: seq<int>, vs: seq<Vnode>, ps: seq<Proc>, p: nat)
    requires Inv(fs, ts, rcs, vs, ps, EMPTY, EMPTY) && p < |ps| && ps[p].table != EMPTY && ps[p].rc == EMPTY
    ensures Inv(fs, ts, rcs + [1], vs, ps[p := Proc(ps[p].table, |rcs|)], EMPTY, EMPTY)
  {
    var x := Proc(ps[p].table, |rcs|);
    var ps', rcs' := ps[p := x], rcs + [1];
    assert ProcOk(ts, rcs, ps, p);
    forall j: nat ensures TableOk(fs, ts, ps', EMPTY, j) {
      assert TableOk(fs, ts, ps, EMPTY, j);
      SharersUpdate(ps, p, x, j);
    }
    forall q: nat ensures ProcOk(ts, rcs', ps', q) {
      assert ProcOk(ts, rcs, ps, q);
      if q < |ps| { SharersUpdate(ps, p, x, ps'[q].table); }
    }
    forall q: nat, r: nat ensures Paired(ps', q, r) {
      assert Paired(ps, q, r) && ProcOk(ts, rcs, ps, q) && ProcOk(ts, rcs, ps, r);
      if q < |ps| && r < |ps| && q != r && ps[q].table == ps[r].table && (q == p || r == p) { TwoSharers(ps, q, r); }
    }
  }

  lemma {:induction false} TwoSharers(ps: seq<Proc>, q: nat, r: nat)
    requires q < |ps| && r < |ps| && q != r && ps[q].table == ps[r].table
    ensures Sharers(ps, ps[q].table) >= 2
  {
    var n := |ps| - 1;
    if q == n {
      HasSharer(ps[..n], r);
    } else if r == n {
      HasSharer(ps[..n], q);
    } else {
      TwoSharers(ps[..n], q, r);
    }
  }

  /** A new process shares the table and its count. */
  lemma SharerMore(fs: seq<File>, ts: seq<Table>, rcs: seq<int>, vs: seq<Vnode>, ps: seq<Proc>, p: nat)
    requires Inv(fs, ts, rcs, vs, ps, EMPTY, EMPTY) && p < |ps| && ps[p].rc != EMPTY
    ensures 0 <= ps[p].rc < |rcs| && Inv(fs, ts, rcs[ps[p].rc := rcs[ps[p].rc] + 1], vs, ps + [ps[p]], EMPTY, EMPTY)
  {
    var x := ps[p];
    assert ProcOk(ts, rcs, ps, p);
    var ps', rcs' := ps + [x], rcs[x.rc := rcs[x.rc] + 1];
    HasSharer(ps, p);
    forall j: nat ensures TableOk(fs, ts, ps', EMPTY, j) {
      assert TableOk(fs, ts, ps, EMPTY, j);
      SharersMore(ps, x, j);
    }
    forall q: nat ensures ProcOk(ts, rcs', ps', q) {
      assert ProcOk(ts, rcs, ps, q) && Paired(ps, p, q);
      if q < |ps'| { SharersMore(ps, x, ps'[q].table); }
      if q < |ps| && ps[q].rc == EMPTY { assert Paired(ps, p, q); }
    }
    forall q: nat, r: nat ensures Paired(ps', q, r) {
      assert Paired(ps, q, r) && Paired(ps, p, r) && Paired(ps, q, p);
    }
  }

  /** A process lets go of its table, which is then `dying` if nobody else has it. */
  lemma Left(fs: seq<File>, ts: seq<Table>, rcs: seq<int>, vs: seq<Vnode>, ps: seq<Proc>, p: nat)
    requires Inv(fs, ts, rcs, vs, ps, EMPTY, EMPTY) && p < |ps| && ps[p].table != EMPTY
    ensures ps[p].rc != EMPTY ==> 0 <= ps[p].rc < |rcs|
    ensures var rcs' := if ps[p].rc == EMPTY then rcs else rcs[ps[p].rc := rcs[ps[p].rc] - 1];
      var last := ps[p].rc == EMPTY || rcs'[ps[p].rc] <= 0;
      Inv(fs, ts, rcs', vs, ps[p := Proc(EMPTY, EMPTY)], EMPTY, if last then ps[p].table else EMPTY)
  {
    var x, k := Proc(EMPTY, EMPTY), ps[p].table;
    assert ProcOk(ts, rcs, ps, p);
    var rcs' := if ps[p].rc == EMPTY then rcs else rcs[ps[p].rc := rcs[ps[p].rc] - 1];
    var dying := if ps[p].rc == EMPTY || rcs'[ps[p].rc] <= 0 then k else EMPTY;
    var ps' := ps[p := x];
    SharersUpdate(ps, p, x, k);
    forall j: nat ensures TableOk(fs, ts, ps', dying, j) {
      assert TableOk(fs, ts, ps, EMPTY, j);
      SharersUpdate(ps, p, x, j);
    }
    forall q: nat ensures ProcOk(ts, rcs', ps', q) {
      assert ProcOk(ts, rcs, ps, q) && Paired(ps, p, q);
      if q < |ps| { SharersUpdate(ps, p, x, ps'[q].table); }
      if q < |ps| && q != p && ps[q].table == k && k != EMPTY { TwoSharers(ps, p, q); }
    }
    forall q: nat, r: nat ensures Paired(ps', q, r) {
      assert Paired(ps, q, r) && ProcOk(ts, rcs, ps, q);
    }
  }

  /** An emptied table that nobody has is freed. */
  lemma Buried(fs: seq<File>, ts: seq<Table>, rcs: seq<int>, vs: seq<Vnode>, ps: seq<Proc>, k: nat)
    requires k < |ts| && Inv(fs, ts, rcs, vs, ps, EMPTY, k) && forall i :: 0 <= i < |ts[k].slots| ==>
        ts[k].slots[i] == EMPTY
    ensures Inv(fs, ts[k := ts[k].(freed := true)], rcs, vs, ps, EMPTY, EMPTY)
  {
    var ts' := ts[k := ts[k].(freed := true)];
    forall f: nat ensures FileOk(fs, ts', vs, EMPTY, f) {
      assert FileOk(fs, ts, vs, EMPTY, f);
      RefsUpdate(ts, k, ts'[k], f);
    }
    forall j: nat ensures TableOk(fs, ts', ps, EMPTY, j) {
      assert TableOk(fs, ts, ps, k, j);
    }
    forall p: nat ensures ProcOk(ts', rcs, ps, p) {
      assert ProcOk(ts, rcs, ps, p);
    }
  }

  // ------------------------------------------------------------ the operations

  datatype Op =
    | OpOpen(p: nat, v: nat, write: bool)
    | OpClose(p: nat, fd: int)
    | OpDup2(p: nat, oldfd: int, newfd: int)
    | OpDupFd(p: nat, fd: int, lo: int)
    | OpPipe(p: nat)
    | OpFork(p: nat)
    | OpShare(p: nat)
    | OpExit(p: nat)

  class Kernel {
    var files: seq<File>
    var tables: seq<Table>
    var rcs: seq<int>
    var vnodes: seq<Vnode>
    var procs: seq<Proc>

    /** Every count is exact, and what nothing refers to is freed. */
    ghost predicate Valid()
      reads this
    {
      Inv(files, tables, rcs, vnodes, procs, EMPTY, EMPTY)
    }

    /** fd_table: the process's table, attached on first use. */
    method FdTable(p: nat) returns (k: nat)
      requires Valid() && p < |procs|
      modifies `tables, `procs
      ensures Valid() && Attached(old(tables), old(procs), tables, procs, p, k)
    {
      if procs[p].table == EMPTY {
        TableAttached(files, tables, rcs, vnodes, procs, p);
        tables, procs := tables + [Table(NoFds(), false)], procs[p := Proc(|tables|, EMPTY)];
      } else {
        assert ProcOk(tables, rcs, procs, p);
      }
      k := procs[p].table;
      OwnTable(files, tables, rcs, vnodes, procs, p);
    }

    /** fd_alloc: the lowest empty slot from 3 on. */
    method FdAlloc(k: nat) returns (fd: int)
      requires k < |tables| && |tables[k].slots| == MAX_FDS
      ensures fd == EMFILE || 3 <= fd < MAX_FDS
      ensures fd != EMFILE ==> tables[k].slots[fd] == EMPTY && forall i :: 3 <= i < fd ==> tables[k].slots[i] != EMPTY
      ensures fd == EMFILE ==> forall i :: 3 <= i < MAX_FDS ==> tables[k].slots[i] != EMPTY
    {
      for i := 3 to MAX_FDS
        invariant forall j :: 3 <= j < i ==> tables[k].slots[j] != EMPTY
      {
        if tables[k].slots[i] == EMPTY { return i; }
      }
      fd := EMFILE;
    }

    /** file_put: one reference less; with the last the description is freed and its vnode told. */
    method FilePut(f: nat, ghost dying: int)
      requires f < |files| && Inv(files, tables, rcs, vnodes, procs, f, dying)
      modifies `files, `vnodes
      ensures Inv(files, tables, rcs, vnodes, procs, EMPTY, dying) && |files| == old(|files|) &&
          |vnodes| == old(|vnodes|)
      ensures Kept(old(files), old(vnodes), files, vnodes)
    {
      assert FileOk(files, tables, vnodes, f, f);
      var x := files[f];
      if x.refcount - 1 > 0 {
        OnePut(files, tables, rcs, vnodes, procs, dying, f);
        files := files[f := x.(refcount := x.refcount - 1)];
        return;
      }
      LastPut(files, tables, rcs, vnodes, procs, dying, f);
      vnodes := vnodes[x.vnode := Detached(vnodes[x.vnode], x.write)];
      files := files[f := x.(refcount := 0, freed := true)];
    }

    /** The slot is emptied and its reference given up. */
    method Drop(k: nat, fd: nat, ghost dying: int)
      requires Inv(files, tables, rcs, vnodes, procs, EMPTY, dying) && k < |tables| && fd < |tables[k].slots| &&
          0 <= tables[k].slots[fd] < |files|
      modifies `files, `vnodes, `tables
      ensures Inv(files, tables, rcs, vnodes, procs, EMPTY, dying) && tables == WithSlot(old(tables), k, fd, EMPTY)
      ensures |files| == old(|files|) && |vnodes| == old(|vnodes|) && Kept(old(files), old(vnodes), files, vnodes)
    {
      var f := tables[k].slots[fd];
      Emptied(files, tables, rcs, vnodes, procs, dying, k, fd);
      tables := WithSlot(tables, k, fd, EMPTY);
      FilePut(f, dying);
    }

    /** vfs_close. Closing an empty slot of the console's three succeeds and does nothing. */
    method Close(p: nat, fd: int) returns (r: int)
      requires Valid() && p < |procs|
      modifies `files, `vnodes, `tables, `procs
      ensures Valid() && Elsewhere(old(tables), old(procs), tables, procs, p) &&
          Kept(old(files), old(vnodes), files, vnodes)
      ensures |files| == old(|files|)
      ensures var was := Fds(old(tables), old(procs), p);
        if fd < 0 || fd >= MAX_FDS then r == EBADF && Fds(tables, procs, p) == was
        else if |was| == MAX_FDS && was[fd] != EMPTY then r == 0 && Fds(tables, procs, p) == was[fd := EMPTY]
        else r == (if fd <= 2 then 0 else EBADF) && Fds(tables, procs, p) == was
    {
      var k := FdTable(p);
      if fd < 0 || fd >= MAX_FDS { return EBADF; }
      OwnTable(files, tables, rcs, vnodes, procs, p);
      if tables[k].slots[fd] == EMPTY { return if fd <= 2 then 0 else EBADF; }
      Drop(k, fd, EMPTY);
      r := 0;
    }

    /** One more slot names the description that slot `from` names. */
    method Link(k: nat, from: nat, to: nat)
      requires Valid() && k < |tables| && !tables[k].freed && |tables[k].slots| == MAX_FDS && from < MAX_FDS &&
          to < MAX_FDS
      requires 0 <= tables[k].slots[from] < |files| && tables[k].slots[to] == EMPTY
      modifies `files, `tables
      ensures Valid() && tables == WithSlot(old(tables), k, to, old(tables)[k].slots[from])
      ensures |files| == old(|files|) && Kept(old(files), vnodes, files, vnodes)
    {
      var f: nat := tables[k].slots[from];
      LiveSlot(files, tables, rcs, vnodes, procs, EMPTY, k, from);
      Named(files, tables, rcs, vnodes, procs, EMPTY, k, to, f);
      tables := WithSlot(tables, k, to, f);
      files := files[f := files[f].(refcount := files[f].refcount + 1)];
    }

    /** vfs_dup2. */
    method Dup2(p: nat, oldfd: int, newfd: int) returns (r: int)
      requires Valid() && p < |procs|
      modifies `files, `vnodes, `tables, `procs
      ensures Valid() && Elsewhere(old(tables), old(procs), tables, procs, p) &&
          Kept(old(files), old(vnodes), files, vnodes)
      ensures |files| == old(|files|)
      ensures var was := Fds(old(tables), old(procs), p);
        if 0 <= oldfd < MAX_FDS && 0 <= newfd < MAX_FDS && |was| == MAX_FDS && was[oldfd] != EMPTY
        then r == newfd && Fds(tables, procs, p) == was[newfd := was[oldfd]]
        else r == EBADF && Fds(tables, procs, p) == was
    {
      var k := FdTable(p);
      OwnTable(files, tables, rcs, vnodes, procs, p);
      if oldfd < 0 || oldfd >= MAX_FDS || tables[k].slots[oldfd] == EMPTY { return EBADF; }
      if newfd < 0 || newfd >= MAX_FDS { return EBADF; }
      if oldfd == newfd { return newfd; }
      if tables[k].slots[newfd] != EMPTY { Drop(k, newfd, EMPTY); }
      Link(k, oldfd, newfd);
      r := newfd;
    }

    /** vfs_fcntl F_DUPFD: the lowest empty slot from `lo` on. */
    method DupFd(p: nat, fd: int, lo: int) returns (r: int)
      requires Valid() && p < |procs|
      modifies `files, `tables, `procs
      ensures Valid() && Elsewhere(old(tables), old(procs), tables, procs, p) && Kept(old(files), vnodes, files, vnodes)
      ensures |files| == old(|files|)
      ensures var was := Fds(old(tables), old(procs), p);
        if 0 <= fd < MAX_FDS && |was| == MAX_FDS && was[fd] != EMPTY
        then (r == EMFILE && Fds(tables, procs, p) == was && forall i :: lo <= i && 0 <= i < MAX_FDS ==>
            was[i] != EMPTY)
          || (0 <= r < MAX_FDS && lo <= r && was[r] == EMPTY && Fds(tables, procs,
              p) == was[r := was[fd]] && forall i :: lo <= i && 0 <= i < r ==> was[i] != EMPTY)
        else r == EBADF && Fds(tables, procs, p) == was
    {
      var k := FdTable(p);
      OwnTable(files, tables, rcs, vnodes, procs, p);
      if fd < 0 || fd >= MAX_FDS || tables[k].slots[fd] == EMPTY { return EBADF; }
      var i := if lo < 0 then 0 else lo;
      while i < MAX_FDS
        invariant 0 <= i && lo <= i && forall j :: lo <= j && 0 <= j < i && j < MAX_FDS ==> tables[k].slots[j] != EMPTY
      {
        if tables[k].slots[i] == EMPTY {
          Link(k, fd, i);
          return i;
        }
        i := i + 1;
      }
      r := EMFILE;
    }

    /** vfs_open once the path has been resolved to a vnode. */
    method Open(p: nat, v: nat, write: bool) returns (fd: int)
      requires Valid() && p < |procs| && v < |vnodes| && !vnodes[v].fifo
      modifies `files, `vnodes, `tables, `procs
      ensures Valid() && Elsewhere(old(tables), old(procs), tables, procs, p) &&
          Kept(old(files), old(vnodes), files, vnodes)
      ensures var was := Fds(old(tables), old(procs), p);
        if fd == EMFILE then
          && Fds(tables, procs, p) == was && files == old(files) && vnodes == old(vnodes)
          && |was| == MAX_FDS && forall i :: 3 <= i < MAX_FDS ==> was[i] != EMPTY
        else
          && 3 <= fd < MAX_FDS && |was| == MAX_FDS && was[fd] == EMPTY && (forall i :: 3 <= i < fd ==> was[i] != EMPTY)
          && Fds(tables, procs, p) == was[fd := |old(files)|] && files == old(files) + [File(v, write, 1, false)]
    {
      var k := FdTable(p);
      fd := FdAlloc(k);
      if fd < 0 { return; }
      Opened(files, tables, rcs, vnodes, procs, k, fd, v, write);
      tables := WithSlot(tables, k, fd, |files|);
      files := files + [File(v, write, 1, false)];
      vnodes := vnodes[v := Reattached(vnodes[v], write)];
    }

    /** vfs_pipe: both ends or neither. */
    method MakePipe(p: nat) returns (r: int, rfd: int, wfd: int)
      requires Valid() && p < |procs|
      modifies `files, `vnodes, `tables, `procs
      ensures Valid() && Elsewhere(old(tables), old(procs), tables, procs, p) &&
          Kept(old(files), old(vnodes), files, vnodes)
      ensures r == 0 || r == EMFILE
      ensures var was := Fds(old(tables), old(procs), p); var n, v := |old(files)|, |old(vnodes)|;
        if r == EMFILE then
          && Fds(tables, procs, p) == was && files == old(files) && vnodes == old(vnodes)
          && NotTwo(was)
        else
          && FirstTwo(was, rfd, wfd) && Fds(tables, procs, p) == was[rfd := n][wfd := n + 1]
          && files == old(files) + [File(v, false, 1, false)] + [File(v, true, 1, false)] &&
              vnodes == old(vnodes) + [Vnode(true, 0, 2, 1, 1, false)]
    {
      var k := FdTable(p);
      ghost var ts := tables;
      rfd, wfd := TwoSlots(k, |files|);
      if wfd < 0 { return EMFILE, EMPTY, EMPTY; }
      PipeInstalled(files, ts, rcs, vnodes, procs, k, rfd, wfd);
      PipeNamed(old(tables), old(procs), ts, procs, p, k, rfd, wfd, |files|);
      PipeKept(files, vnodes);
      var v := |vnodes|;
      tables := WithSlot(tables, k, wfd, |files| + 1);
      vnodes := vnodes + [Vnode(true, 0, 2, 1, 1, false)];
      files := files + [File(v, false, 1, false)] + [File(v, true, 1, false)];
      r := 0;
    }

    /** The two slots of a pipe, the first of them filled while the second is looked for. */
    method TwoSlots(k: nat, f: nat) returns (rfd: int, wfd: int)
      requires k < |tables| && |tables[k].slots| == MAX_FDS
      modifies `tables
      ensures wfd < 0 ==> tables == old(tables) && NotTwo(old(tables)[k].slots)
      ensures wfd >= 0 ==> FirstTwo(old(tables)[k].slots, rfd, wfd) && tables == WithSlot(old(tables), k, rfd, f)
    {
      rfd := FdAlloc(k);
      if rfd < 0 { return rfd, rfd; }
      tables := WithSlot(tables, k, rfd, f);
      wfd := FdAlloc(k);
      if wfd < 0 {
        tables := WithSlot(tables, k, rfd, EMPTY);
        assert tables[k].slots == old(tables)[k].slots && tables == old(tables);
        assert forall i :: 3 <= i < MAX_FDS && i != rfd ==>
            old(tables)[k].slots[i] == WithSlot(old(tables), k, rfd, f)[k].slots[i];
      } else {
        assert forall i :: 3 <= i < MAX_FDS && i != rfd ==> tables[k].slots[i] == old(tables)[k].slots[i];
      }
    }

    /** vfs_fork_fds: a new process with a table of its own that names what the parent's names. */
    method Fork(p: nat) returns (c: nat)
      requires Valid() && p < |procs|
      modifies `files, `tables, `procs
      ensures Valid() && c == old(|procs|) && |procs| == c + 1 && procs[..c] == old(procs) && procs[c].rc == EMPTY
      ensures |tables| >= old(|tables|) && tables[..old(|tables|)] == old(tables)
      ensures if old(procs)[p].table == EMPTY then procs[c].table == EMPTY
          else procs[c].table == old(|tables|) < |tables|
      ensures Fds(tables, procs, c) == Fds(old(tables), old(procs), p)
      ensures |files| == old(|files|) && Kept(old(files), vnodes, files, vnodes)
    {
      c := |procs|;
      if procs[p].table == EMPTY {
        ProcMore(files, tables, rcs, vnodes, procs, EMPTY);
        procs := procs + [Proc(EMPTY, EMPTY)];
        return;
      }
      OwnTable(files, tables, rcs, vnodes, procs, p);
      var k := |tables|;
      CopyTable(procs[p].table);
      ProcMore(files, tables, rcs, vnodes, procs, k);
      procs := procs + [Proc(k, EMPTY)];
    }

    /** The copy loop of vfs_fork_fds. */
    method CopyTable(s: nat)
      requires Valid() && s < |tables| && !tables[s].freed && |tables[s].slots| == MAX_FDS
      requires forall i :: 0 <= i < MAX_FDS ==> tables[s].slots[i] == EMPTY || 0 <= tables[s].slots[i] < |files|
      modifies `files, `tables
      ensures Inv(files, tables, rcs, vnodes, procs, EMPTY, old(|tables|))
      ensures tables == old(tables) + [Table(old(tables)[s].slots, false)]
      ensures |files| == old(|files|) && Kept(old(files), vnodes, files, vnodes)
    {
      var k := |tables|;
      ghost var ts := tables;
      TableMore(files, tables, rcs, vnodes, procs);
      tables := tables + [Table(NoFds(), false)];
      for i := 0 to MAX_FDS
        invariant Inv(files, tables, rcs, vnodes, procs, EMPTY, k) && |files| == old(|files|) &&
            Kept(old(files), vnodes, files, vnodes)
        invariant |tables| == k + 1 && tables[..k] == ts && !tables[k].freed && |tables[k].slots| == MAX_FDS
        invariant forall j :: 0 <= j < MAX_FDS ==> tables[k].slots[j] == if j < i then ts[s].slots[j] else EMPTY
      {
        assert tables[s] == ts[s];
        if tables[s].slots[i] != EMPTY { CopySlot(s, k, i); }
      }
      assert tables[k].slots == ts[s].slots;
    }

    method CopySlot(s: nat, k: nat, i: nat)
      requires Inv(files, tables, rcs, vnodes, procs, EMPTY, k) && s < k < |tables| && !tables[k].freed
      requires i < |tables[s].slots| && i < |tables[k].slots| && 0 <= tables[s].slots[i] < |files| &&
          tables[k].slots[i] == EMPTY
      modifies `files, `tables
      ensures Inv(files, tables, rcs, vnodes, procs, EMPTY, k) && |files| == old(|files|) &&
          Kept(old(files), vnodes, files, vnodes)
      ensures tables == WithSlot(old(tables), k, i, old(tables)[s].slots[i])
    {
      var f: nat := tables[s].slots[i];
      LiveSlot(files, tables, rcs, vnodes, procs, k, s, i);
      Named(files, tables, rcs, vnodes, procs, k, k, i, f);
      tables := WithSlot(tables, k, i, f);
      files := files[f := files[f].(refcount := files[f].refcount + 1)];
    }

    /** vfs_share_fds: a new process on the same table, under a shared count. */
    method Share(p: nat) returns (c: nat)
      requires Valid() && p < |procs|
      modifies `tables, `rcs, `procs
      ensures Valid() && c == old(|procs|) && |procs| == c + 1 && procs[c] == procs[p] && procs[p].rc != EMPTY
      ensures procs[..c] == old(procs)[p := procs[p]] &&
          (old(procs)[p].table != EMPTY ==> procs[p].table == old(procs)[p].table && tables == old(tables))
      ensures old(procs)[p].table == EMPTY ==>
          procs[p].table == old(|tables|) && tables == old(tables) + [Table(NoFds(), false)]
      ensures Fds(tables, procs, p) == Fds(old(tables), old(procs), p) == Fds(tables, procs, c)
    {
      c := |procs|;
      var k := FdTable(p);
      if procs[p].rc == EMPTY {
        CountMade(files, tables, rcs, vnodes, procs, p);
        procs := procs[p := Proc(k, |rcs|)];
        rcs := rcs + [1];
      }
      SharerMore(files, tables, rcs, vnodes, procs, p);
      var r := procs[p].rc;
      rcs := rcs[r := rcs[r] + 1];
      procs := procs + [procs[p]];
    }

    /** vfs_close_all: the process lets go of its table, and the last one to do so closes every descriptor in it
        and frees it. */
    method Exit(p: nat)
      requires Valid() && p < |procs|
      modifies `files, `vnodes, `tables, `rcs, `procs
      ensures Valid() && |procs| == old(|procs|) && procs == old(procs)[p := procs[p]] &&
          procs[p] == (if old(procs)[p].table == EMPTY then old(procs)[p] else Proc(EMPTY, EMPTY))
      ensures |tables| == old(|tables|) && forall k :: 0 <= k < |tables| && k != old(procs)[p].table ==>
          tables[k] == old(tables)[k]
      ensures var k := old(procs)[p].table;
        0 <= k < |tables| ==>
            if Sharers(old(procs), k) > 1 then tables == old(tables) else tables[k] == Table(NoFds(), true)
      ensures |files| == old(|files|) && Kept(old(files), old(vnodes), files, vnodes)
    {
      var k := procs[p].table;
      if k == EMPTY { return; }
      OwnTable(files, tables, rcs, vnodes, procs, p);
      assert ProcOk(tables, rcs, procs, p);
      Left(files, tables, rcs, vnodes, procs, p);
      var r := procs[p].rc;
      procs := procs[p := Proc(EMPTY, EMPTY)];
      if r != EMPTY {
        rcs := rcs[r := rcs[r] - 1];
        if rcs[r] > 0 { return; }
      }
      HasSharer(old(procs), p);
      CloseTable(k);
    }

    /** The closing loop of vfs_close_all, on a table that no process has any more. */
    method CloseTable(k: nat)
      requires k < |tables| && Inv(files, tables, rcs, vnodes, procs, EMPTY, k)
      modifies `files, `vnodes, `tables
      ensures Valid() && tables == old(tables)[k := Table(NoFds(), true)]
      ensures |files| == old(|files|) && Kept(old(files), old(vnodes), files, vnodes)
    {
      assert TableOk(files, tables, procs, k, k);
      ghost var ts := tables;
      for i := 0 to MAX_FDS
        invariant Inv(files, tables, rcs, vnodes, procs, EMPTY, k) && |files| == old(|files|) &&
            Kept(old(files), old(vnodes), files, vnodes)
        invariant |tables| == |ts| && tables == ts[k := tables[k]] && |tables[k].slots| == MAX_FDS
        invariant forall j :: 0 <= j < i ==> tables[k].slots[j] == EMPTY
      {
        assert TableOk(files, tables, procs, k, k);
        if tables[k].slots[i] != EMPTY { Drop(k, i, k); }
      }
      Buried(files, tables, rcs, vnodes, procs, k);
      tables := tables[k := tables[k].(freed := true)];
      assert tables[k].slots == NoFds();
    }

    /** One request of a process. */
    method Step(op: Op)
      requires Valid()
      modifies this
      ensures Valid() && Kept(old(files), old(vnodes), files, vnodes)
      ensures if op.p < old(|procs|) then Passed(|old(files)|, old(tables), old(procs), tables, procs, op.p)
              else files == old(files) && tables == old(tables) && vnodes == old(vnodes) && procs == old(procs)
    {
      if op.p >= |procs| { return; }
      ghost var ts, ps, n := tables, procs, |files|;
      HasTables(files, tables, rcs, vnodes, procs);
      match op {
        case OpOpen(p, v, write) =>
          if v >= |vnodes| || vnodes[v].fifo {
            UnmovedPassed(n, ts, ps, p);
            return;
          }
          var fd := Open(p, v, write);
        case OpClose(p, fd) => var r := Close(p, fd);
        case OpDup2(p, o, d) => var r := Dup2(p, o, d);
        case OpDupFd(p, fd, lo) => var r := DupFd(p, fd, lo);
        case OpPipe(p) => var r, rfd, wfd := MakePipe(p);
        case OpFork(p) =>
          var c := Fork(p);
          ForkPassed(n, ts, ps, tables, procs, p);
          return;
        case OpShare(p) =>
          var c := Share(p);
          SharePassed(n, ts, ps, tables, procs, p);
          return;
        case OpExit(p) =>
          Exit(p);
          ExitPassed(n, ts, ps, tables, procs, p);
          return;
      }
      ElsewherePassed(n, ts, ps, tables, procs, op.p);
    }

    /** Whatever processes do and in whatever order, every count stays exact. */
    method Run(ops: seq<Op>)
      requires Valid()
      modifies this
      ensures Valid()
    {
      for k := 0 to |ops|
        invariant Valid()
      {
        Step(ops[k]);
      }
    }
  }

  /** The table of a process names live descriptions only. */
  lemma OwnTable(fs: seq<File>, ts: seq<Table>, rcs: seq<int>, vs: seq<Vnode>, ps: seq<Proc>, p: nat)
    requires Inv(fs, ts, rcs, vs, ps, EMPTY, EMPTY) && p < |ps| && ps[p].table != EMPTY
    ensures var k := ps[p].table; 0 <= k < |ts| && !ts[k].freed && |ts[k].slots| == MAX_FDS
    ensures forall i :: 0 <= i < MAX_FDS ==> ts[ps[p].table].slots[i] == EMPTY || 0 <= ts[ps[p].table].slots[i] < |fs|
  {
    assert ProcOk(ts, rcs, ps, p);
    assert TableOk(fs, ts, ps, EMPTY, ps[p].table);
    HasSharer(ps, p);
  }

  /** The descriptors of a process; one without a table has none. */
  function Fds(ts: seq<Table>, ps: seq<Proc>, p: nat): seq<int> {
    if p < |ps| && 0 <= ps[p].table < |ts| then ts[ps[p].table].slots else NoFds()
  }

  /** Process `p` has table `k`, attached just now if it had none; nothing else has changed. */
  ghost predicate Attached(ts0: seq<Table>, ps0: seq<Proc>, ts: seq<Table>, ps: seq<Proc>, p: nat, k: nat) {
    && p < |ps0| && k < |ts| && !ts[k].freed && |ts[k].slots| == MAX_FDS && ps == ps0[p := Proc(k, ps0[p].rc)]
    && (if ps0[p].table == EMPTY then ts == ts0 + [Table(NoFds(), false)] && k == |ts0|
        else ts == ts0 && ps0[p].table == k)
  }

  /** The two lowest empty slots from 3 on. */
  predicate FirstTwo(slots: seq<int>, i: int, j: int) {
    && |slots| == MAX_FDS && 3 <= i < j < MAX_FDS && slots[i] == slots[j] == EMPTY
    && forall x :: 3 <= x < j && x != i ==> slots[x] != EMPTY
  }

  predicate NotTwo(slots: seq<int>) {
    |slots| == MAX_FDS && forall i, j :: 3 <= i < j < MAX_FDS ==> slots[i] != EMPTY || slots[j] != EMPTY
  }

  /** No process other than `p` and no table other than its own has changed. */
  ghost predicate Elsewhere(ts0: seq<Table>, ps0: seq<Proc>, ts: seq<Table>, ps: seq<Proc>, p: nat) {
    && p < |ps0| == |ps| && |ts0| <= |ts|
    && ps == ps0[p := ps[p]] && ps[p].rc == ps0[p].rc &&
        ps[p].table == (if ps0[p].table == EMPTY then |ts0| else ps0[p].table) < |ts|
    && forall k :: 0 <= k < |ts0| && k != ps[p].table ==> ts[k] == ts0[k]
  }

  /** Descriptions stay what they are, freed ones stay freed, and new ones stand on no pipe there was before. */
  ghost predicate Kept(fs0: seq<File>, vs0: seq<Vnode>, fs: seq<File>, vs: seq<Vnode>) {
    && |fs0| <= |fs| && |vs0| <= |vs|
    && (forall f {:trigger fs[f]} :: 0 <= f < |fs0| ==> SameEnd(fs0[f], fs[f]))
    && (forall f {:trigger fs[f]} :: |fs0| <= f < |fs| ==> fs[f].vnode >= |vs0| || !vs0[fs[f].vnode].fifo)
    && (forall v {:trigger vs[v]} :: 0 <= v < |vs0| ==> vs[v].fifo == vs0[v].fifo)
  }

  predicate SameEnd(x: File, y: File) {
    y.vnode == x.vnode && y.write == x.write && (x.freed ==> y.freed)
  }

  /** What is named was named before, or is new. */
  predicate Inherits(fds: seq<int>, was: seq<int>, n: nat) {
    forall i :: 0 <= i < |fds| ==> fds[i] == EMPTY || fds[i] >= n || fds[i] in was
  }

  /** The process whose descriptors `q` starts from when `p` acts. */
  function From(ps0: seq<Proc>, p: nat, q: nat): nat {
    if q < |ps0| then q else p
  }

  /** A process names only what it, or the process that forked it, named before, and what is new; and nobody gets
      into a table but by sharing it with `p`. */
  ghost predicate PassedTo(n: nat, ts0: seq<Table>, ps0: seq<Proc>, ts: seq<Table>, ps: seq<Proc>, p: nat, q: nat) {
    p < |ps0| && q < |ps| ==>
      && Inherits(Fds(ts, ps, q), Fds(ts0, ps0, From(ps0, p, q)), n)
      && (ps[q].table == EMPTY || ps[q].table >= |ts0| || ps[q].table == ps0[From(ps0, p, q)].table)
      && (q < |ps0| && q != p && (ps0[q].table == EMPTY || ps0[q].table != ps0[p].table) ==>
          ps[q] == ps0[q] && Fds(ts, ps, q) == Fds(ts0, ps0, q))
  }

  /** What a request of process `p` does to who names what. */
  ghost predicate Passed(n: nat, ts0: seq<Table>, ps0: seq<Proc>, ts: seq<Table>, ps: seq<Proc>, p: nat) {
    && p < |ps0| <= |ps| && |ts0| <= |ts|
    && forall q: nat {:trigger PassedTo(n, ts0, ps0, ts, ps, p, q)} :: PassedTo(n, ts0, ps0, ts, ps, p, q)
  }

  ghost predicate Tabled(ts: seq<Table>, ps: seq<Proc>) {
    forall q :: 0 <= q < |ps| ==> ps[q].table == EMPTY || 0 <= ps[q].table < |ts|
  }

  lemma HasTables(fs: seq<File>, ts: seq<Table>, rcs: seq<int>, vs: seq<Vnode>, ps: seq<Proc>)
    requires Inv(fs, ts, rcs, vs, ps, EMPTY, EMPTY)
    ensures Tabled(ts, ps)
  {
    forall q | 0 <= q < |ps| ensures ps[q].table == EMPTY || 0 <= ps[q].table < |ts| {
      assert ProcOk(ts, rcs, ps, q);
    }
  }

  lemma ElsewherePassed(n: nat, ts0: seq<Table>, ps0: seq<Proc>, ts: seq<Table>, ps: seq<Proc>, p: nat)
    requires Tabled(ts0, ps0) && Elsewhere(ts0, ps0, ts, ps, p) && Inherits(Fds(ts, ps, p), Fds(ts0, ps0, p), n)
    ensures Passed(n, ts0, ps0, ts, ps, p)
  {
    forall q: nat ensures PassedTo(n, ts0, ps0, ts, ps, p, q) {
    }
  }

  lemma UnmovedPassed(n: nat, ts: seq<Table>, ps: seq<Proc>, p: nat)
    requires p < |ps|
    ensures Passed(n, ts, ps, ts, ps, p)
  {
    forall q: nat ensures PassedTo(n, ts, ps, ts, ps, p, q) {
    }
  }

  lemma ForkPassed(n: nat, ts0: seq<Table>, ps0: seq<Proc>, ts: seq<Table>, ps: seq<Proc>, p: nat)
    requires Tabled(ts0, ps0) && p < |ps0| && |ps| == |ps0| + 1 && ps[..|ps0|] == ps0 && |ts0| <= |ts| &&
        ts[..|ts0|] == ts0
    requires Fds(ts, ps, |ps0|) == Fds(ts0, ps0, p) && (ps[|ps0|].table == EMPTY || ps[|ps0|].table >= |ts0|)
    ensures Passed(n, ts0, ps0, ts, ps, p)
  {
    forall q: nat ensures PassedTo(n, ts0, ps0, ts, ps, p, q) {
      if q < |ps0| { assert ps[..|ps0|][q] == ps0[q]; }
    }
  }

  lemma SharePassed(n: nat, ts0: seq<Table>, ps0: seq<Proc>, ts: seq<Table>, ps: seq<Proc>, p: nat)
    requires Tabled(ts0, ps0) && p < |ps0| && |ps| == |ps0| + 1 && ps[..|ps0|] == ps0[p := ps[p]] && ps[|ps0|] == ps[p]
    requires if ps0[p].table == EMPTY then ps[p].table == |ts0| && ts == ts0 + [Table(NoFds(), false)]
        else ps[p].table == ps0[p].table && ts == ts0
    ensures Passed(n, ts0, ps0, ts, ps, p)
  {
    forall q: nat ensures PassedTo(n, ts0, ps0, ts, ps, p, q) {
      if q < |ps0| { assert ps[q] == ps0[p := ps[p]][q]; }
    }
  }

  lemma ExitPassed(n: nat, ts0: seq<Table>, ps0: seq<Proc>, ts: seq<Table>, ps: seq<Proc>, p: nat)
    requires Tabled(ts0, ps0) && p < |ps0| == |ps| && ps == ps0[p := ps[p]] && ps[p].table == EMPTY && |ts| == |ts0|
    requires forall k :: 0 <= k < |ts| && k != ps0[p].table ==> ts[k] == ts0[k]
    requires 0 <= ps0[p].table < |ts| ==> ts == ts0 || ts[ps0[p].table].slots == NoFds()
    ensures Passed(n, ts0, ps0, ts, ps, p)
  {
    forall q: nat ensures PassedTo(n, ts0, ps0, ts, ps, p, q) {
    }
  }

  /** What a slot names is live. */
  lemma LiveSlot(fs: seq<File>, ts: seq<Table>, rcs: seq<int>, vs: seq<Vnode>, ps: seq<Proc>, dying: int, k: nat,
      i: nat)
    requires Inv(fs, ts, rcs, vs, ps, EMPTY, dying) && k < |ts| && i < |ts[k].slots| && 0 <= ts[k].slots[i] < |fs|
    ensures !fs[ts[k].slots[i]].freed
  {
    var f := ts[k].slots[i];
    assert FileOk(fs, ts, vs, EMPTY, f);
    NamedBy(ts, k, i);
  }

  lemma {:induction false} NamedBy(ts: seq<Table>, k: nat, i: nat)
    requires k < |ts| && i < |ts[k].slots|
    ensures Refs(ts, ts[k].slots[i]) > 0
  {
    if k < |ts| - 1 {
      NamedBy(ts[..|ts| - 1], k, i);
    } else {
      assert ts[k].slots[i] in multiset(ts[k].slots);
    }
  }

  lemma PipeNamed(ts0: seq<Table>, ps0: seq<Proc>, ts: seq<Table>, ps: seq<Proc>, p: nat, k: nat, i: int, j: int,
      n: nat)
    requires Attached(ts0, ps0, ts, ps, p, k) && FirstTwo(ts[k].slots, i, j)
    ensures var ts' := WithSlot(WithSlot(ts, k, i, n), k, j, n + 1); var was := Fds(ts0, ps0, p);
      Elsewhere(ts0, ps0, ts', ps, p) && FirstTwo(was, i, j) && Fds(ts', ps, p) == was[i := n][j := n + 1]
  {
  }

  lemma PipeKept(fs: seq<File>, vs: seq<Vnode>)
    ensures Kept(fs, vs, fs + [File(|vs|, false, 1, false)] + [File(|vs|, true, 1, false)],
        vs + [Vnode(true, 0, 2, 1, 1, false)])
  {
  }

  lemma PipeInstalled(fs: seq<File>, ts: seq<Table>, rcs: seq<int>, vs: seq<Vnode>, ps: seq<Proc>, k: nat, i: nat,
      j: nat)
    requires Inv(fs, ts, rcs, vs, ps, EMPTY, EMPTY) && k < |ts| && !ts[k].freed && i < |ts[k].slots| &&
        j < |ts[k].slots| && i != j
    requires ts[k].slots[i] == ts[k].slots[j] == EMPTY
    ensures Inv(fs + [File(|vs|, false, 1, false)] + [File(|vs|, true, 1, false)],
        WithSlot(WithSlot(ts, k, i, |fs|), k, j, |fs| + 1), rcs,
                vs + [Vnode(true, 0, 2, 1, 1, false)], ps, EMPTY, EMPTY)
  {
    var v := |vs|;
    var vs1 := vs + [NEW_PIPE];
    PipeMore(fs, ts, rcs, vs, ps);
    Opened(fs, ts, rcs, vs1, ps, k, i, v, false);
    var vs2 := vs1[v := Reattached(vs1[v], false)];
    Opened(fs + [File(v, false, 1, false)], WithSlot(ts, k, i, |fs|), rcs, vs2, ps, k, j, v, true);
    assert vs2[v := Reattached(vs2[v], true)] == vs + [Vnode(true, 0, 2, 1, 1, false)];
  }

  /** A kernel with one process, no descriptors yet and any file system behind it. */
  lemma InitialInv(vs: seq<Vnode>)
    requires forall v :: 0 <= v < |vs| ==> vs[v] == Vnode(false, vs[v].names, vs[v].names, 0, 0, false)
    ensures Inv([], [], [], vs, [Proc(EMPTY, EMPTY)], EMPTY, EMPTY)
  {
    var ps := [Proc(EMPTY, EMPTY)];
    forall v: nat ensures VnodeOk([], vs, v) {
    }
  }

  // ------------------------------------------------------------ what is freed, and what is not

  /** A description is freed exactly when no process names it. */
  lemma FreedIffUnnamed(fs: seq<File>, ts: seq<Table>, rcs: seq<int>, vs: seq<Vnode>, ps: seq<Proc>, f: nat)
    requires Inv(fs, ts, rcs, vs, ps, EMPTY, EMPTY) && f < |fs|
    ensures fs[f].freed <==> forall p: nat :: p < |ps| ==> f !in Fds(ts, ps, p)
  {
    assert FileOk(fs, ts, vs, EMPTY, f);
    if forall p: nat :: p < |ps| ==> f !in Fds(ts, ps, p) {
      forall k | 0 <= k < |ts| ensures f !in ts[k].slots {
        assert TableOk(fs, ts, ps, EMPTY, k);
        if !ts[k].freed {
          var p := SharerOf(ps, k);
          assert f !in Fds(ts, ps, p);
        }
      }
      Unnamed(ts, f);
    } else {
      var p: nat :| p < |ps| && f in Fds(ts, ps, p);
      assert ProcOk(ts, rcs, ps, p);
      var i :| 0 <= i < |Fds(ts, ps, p)| && Fds(ts, ps, p)[i] == f;
      NamedBy(ts, ps[p].table, i);
    }
  }

  lemma {:induction false} SharerOf(ps: seq<Proc>, k: int) returns (p: nat)
    requires Sharers(ps, k) > 0
    ensures p < |ps| && ps[p].table == k
  {
    if ps[|ps| - 1].table == k { p := |ps| - 1; } else { p := SharerOf(ps[..|ps| - 1], k); }
  }

  /** The descriptions of a pipe: `r` for reading and `w` for writing, and no others. */
  ghost predicate TwoEnds(fs: seq<File>, v: nat, r: nat, w: nat) {
    && r < |fs| && w < |fs| && r != w && fs[r].vnode == fs[w].vnode == v && !fs[r].write && fs[w].write
    && forall f {:trigger fs[f]} :: 0 <= f < |fs| && fs[f].vnode == v ==> f == r || f == w
  }

  /** A pipe counts one reader while its read end is named by somebody, and one writer while its write end is; it
      is freed when neither is. */
  lemma EndsCounted(fs: seq<File>, ts: seq<Table>, rcs: seq<int>, vs: seq<Vnode>, ps: seq<Proc>, v: nat, r: nat, w: nat)
    requires Inv(fs, ts, rcs, vs, ps, EMPTY, EMPTY) && v < |vs| && vs[v].fifo && TwoEnds(fs, v, r, w)
    ensures vs[v].readers == (if fs[r].freed then 0 else 1) && vs[v].writers == (if fs[w].freed then 0 else 1)
    ensures vs[v].freed <==> fs[r].freed && fs[w].freed
  {
    assert VnodeOk(fs, vs, v);
    OneOpens(fs, v, r, false);
    OneOpens(fs, v, w, true);
  }

  lemma {:induction false} OneOpens(fs: seq<File>, v: nat, x: nat, write: bool)
    requires x < |fs| && fs[x].vnode == v && fs[x].write == write
    requires forall f {:trigger fs[f]} :: 0 <= f < |fs| && fs[f].vnode == v && fs[f].write == write ==> f == x
    ensures Opens(fs, v, write) == if fs[x].freed then 0 else 1
  {
    var init := fs[..|fs| - 1];
    if x == |fs| - 1 {
      forall f | 0 <= f < |init| ensures Stands(init[f], v, write) == 0 {
        assert init[f] == fs[f];
      }
      NoneOpen(init, v, write);
    } else {
      assert Stands(fs[|fs| - 1], v, write) == 0;
      OneOpens(init, v, x, write);
    }
  }

  lemma {:induction false} NoneOpen(fs: seq<File>, v: nat, write: bool)
    ensures Opens(fs, v, write) == 0 <==> forall f :: 0 <= f < |fs| ==> Stands(fs[f], v, write) == 0
  {
    if fs != [] {
      NoneOpen(fs[..|fs| - 1], v, write);
      assert Opens(fs, v, write) == 0 ==> forall f :: 0 <= f < |fs| - 1 ==> fs[..|fs| - 1][f] == fs[f];
    }
  }

  /** Which vnodes stay in memory though nothing refers to them: the regular ones without a name whose every
      description is closed. Of a pipe nothing stays. */
  lemma Unreclaimed(fs: seq<File>, ts: seq<Table>, rcs: seq<int>, vs: seq<Vnode>, ps: seq<Proc>, v: nat)
    requires Inv(fs, ts, rcs, vs, ps, EMPTY, EMPTY) && v < |vs|
    ensures vs[v].refcount == 0 && !vs[v].freed <==>
      !vs[v].fifo && vs[v].names == 0 && forall f :: 0 <= f < |fs| && fs[f].vnode == v ==> fs[f].freed
  {
    assert VnodeOk(fs, vs, v);
    NoneOpen(fs, v, false);
    NoneOpen(fs, v, true);
    assert forall f :: 0 <= f < |fs| ==>
        (fs[f].vnode == v ==> fs[f].freed) == (Stands(fs[f], v, false) == 0 && Stands(fs[f], v, true) == 0);
  }

  /** Such a vnode: a process opens a file without a name and closes it, and what began as a vnode nobody refers to
      is one again, and not freed. */
  lemma OpenedAndClosed(write: bool)
    ensures var v := Vnode(false, 0, 0, 0, 0, false); var x := File(0, write, 1, false); var t := Table(NoFds(), false);
      && Inv([x], [t.(slots := NoFds()[3 := 0])], [], [Reattached(v, write)], [Proc(0, EMPTY)], EMPTY, EMPTY)
      && Inv([x.(refcount := 0, freed := true)], [t], [], [v], [Proc(0, EMPTY)], EMPTY, EMPTY)
  {
    var v, x := Vnode(false, 0, 0, 0, 0, false), File(0, write, 1, false);
    var ts := [Table(NoFds(), false)];
    InitialInv([v]);
    TableAttached([], [], [], [v], [Proc(EMPTY, EMPTY)], 0);
    assert [] + ts == ts && [Proc(EMPTY, EMPTY)][0 := Proc(0, EMPTY)] == [Proc(0, EMPTY)];
    Opened([], ts, [], [v], [Proc(0, EMPTY)], 0, 3, 0, write);
    var ts', vs' := WithSlot(ts, 0, 3, 0), [Reattached(v, write)];
    assert [] + [x] == [x] && [v][0 := Reattached(v, write)] == vs' && ts' == [Table(NoFds()[3 := 0], false)];
    Emptied([x], ts', [], vs', [Proc(0, EMPTY)], EMPTY, 0, 3);
    assert ts'[0].slots[3 := EMPTY] == NoFds() && WithSlot(ts', 0, 3, EMPTY) == ts;
    LastPut([x], ts, [], vs', [Proc(0, EMPTY)], EMPTY, 0);
    assert vs'[0 := Detached(vs'[0], write)] == [v] &&
        [x][0 := x.(refcount := 0, freed := true)] == [x.(refcount := 0, freed := true)];
  }
}
