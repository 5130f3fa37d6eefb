/** Which vnodes of the memory file system stay in memory (kernel/fs/tmpfs.c, and file_put of kernel/fs/vfs.c, which
    gives up a reference to one but never frees it). */
module TmpfsLeak {
  import opened Vfs
  import opened Tmpfs

  ghost predicate HasName(a: Abs, v: nat) {
    exists d, k: nat :: NamedAt(a, d, k, v)
  }

  // ------------------------------------------------------------ names under each change

  lemma NamesNamed(a: Abs, d: nat, name: string, v: nat, x: nat)
    requires d in a.dirs
    ensures HasName(Named(a, d, name, v), x) <==> x == v || HasName(a, x)
  {
    var b := Named(a, d, name, v);
    assert NamedAt(b, d, 0, v);
    if y, k: nat :| NamedAt(b, y, k, x) && !(y == d && k == 0) { assert NamedAt(a, y, if y == d then k - 1 else k, x); }
    if y, k: nat :| NamedAt(a, y, k, x) { assert NamedAt(b, y, if y == d then k + 1 else k, x); }
  }

  lemma NamesUnnamed(a: Abs, d: nat, i: nat, x: nat)
    requires d in a.dirs && i < |a.dirs[d]|
    ensures HasName(Unnamed(a, d, i), x) ==> HasName(a, x)
    ensures HasName(a, x) && x != a.dirs[d][i].1 ==> HasName(Unnamed(a, d, i), x)
    ensures HasName(a, a.dirs[d][i].1)
  {
    var b := Unnamed(a, d, i);
    assert NamedAt(a, d, i, a.dirs[d][i].1);
    if y, k: nat :| NamedAt(b, y, k, x) { assert NamedAt(a, y, if y == d && k >= i then k + 1 else k, x); }
    if y, k: nat :| NamedAt(a, y, k, x) && !(y == d && k == i) {
      assert NamedAt(b, y, if y == d && k > i then k - 1 else k, x);
    }
  }

  lemma NamesCollected(a: Abs, v: nat, x: nat)
    ensures HasName(Collected(a, v), x) ==> HasName(a, x)
  {
    if y, k: nat :| NamedAt(Collected(a, v), y, k, x) { assert NamedAt(a, y, k, x); }
  }

  // ------------------------------------------------------------ one step

  /** The last name of `v` goes in the step from `a` to `a'`. */
  ghost predicate Loses(a: Abs, a': Abs, v: nat) {
    HasName(a, v) && !HasName(a', v)
  }

  /** A new vnode has a name; one without names stays, and without names; and one whose last name goes stays in memory
      exactly if somebody has it open. */
  ghost predicate Fair(a: Abs, a': Abs, v: nat) {
    && (v in a'.kinds && v !in a.kinds ==> HasName(a', v))
    && (v in a.kinds && !HasName(a, v) ==> v in a'.kinds && !HasName(a', v))
    && (Loses(a, a', v) ==> (v in a'.kinds <==> v in a.opens))
  }

  lemma CreatedFair(a: Abs, d: nat, name: string, kind: Kind, v: nat, x: nat)
    requires Sound(a) && d in a.dirs && v !in a.kinds
    ensures Fair(a, Created(a, d, name, kind, v), x)
  {
    var b := Blank(a, v, kind);
    NamesNamed(b, d, Cut(name), v, x);
    if y, k: nat :| NamedAt(b, y, k, x) { assert NamedAt(a, y, k, x); }
    if y, k: nat :| NamedAt(a, y, k, x) { assert NamedAt(b, y, k, x); }
  }

  lemma UnlinkedFair(a: Abs, d: nat, i: nat, x: nat)
    requires Sound(a) && d in a.dirs && i < |a.dirs[d]| && !Busy(a, a.dirs[d][i].1)
    ensures Fair(a, Unlinked(a, d, i), x) && (HasName(Unlinked(a, d, i), x) ==> HasName(a, x))
  {
    var v, u := a.dirs[d][i].1, Unnamed(a, d, i);
    NamesUnnamed(a, d, i, x);
    NamesCollected(u, v, x);
    if y, k: nat :| NamedAt(a, y, k, x) { assert x in a.kinds; }
    if x == v {
      FreedUnlessOpen(a, d, i);
    } else if y, k: nat :| NamedAt(u, y, k, x) {
      NamesElsewhere(u, v, y, k, x);
    }
  }

  /** A vnode that goes was an empty directory, or none, so no name goes with it. */
  lemma NamesElsewhere(u: Abs, v: nat, y: nat, k: nat, x: nat)
    requires NamedAt(u, y, k, x) && (v in u.dirs ==> u.dirs[v] == [])
    ensures HasName(Collected(u, v), x)
  {
    assert y != v;
    assert NamedAt(Collected(u, v), y, k, x);
  }

  /** When the last name of a vnode goes it is freed, unless somebody has it open. */
  lemma FreedUnlessOpen(a: Abs, d: nat, i: nat)
    requires d in a.dirs && i < |a.dirs[d]|
    ensures var v, a' := a.dirs[d][i].1, Unlinked(a, d, i);
      v in a.kinds && !HasName(a', v) ==> (v in a'.kinds <==> v in a.opens)
  {
    var v, u := a.dirs[d][i].1, Unnamed(a, d, i);
    if Held(u, v) && v !in u.opens {
      var y, k: nat :| NamedAt(u, y, k, v);
      assert NamedAt(Unlinked(a, d, i), y, k, v);
    }
  }

  /** Moving a row changes nobody's having a name. */
  lemma NamesMoved(b: Abs, od: nat, i: nat, nd: nat, name: string, x: nat)
    requires od in b.dirs && i < |b.dirs[od]| && nd in b.dirs
    ensures HasName(Moved(b, od, i, nd, name), x) <==> HasName(b, x)
  {
    NamesUnnamed(b, od, i, x);
    NamesNamed(Unnamed(b, od, i), nd, name, b.dirs[od][i].1, x);
  }

  /** What a rename replaces loses its name as by an unlink, and what it moves keeps one. */
  lemma RenamedFair(a: Abs, a': Abs, od: nat, oldname: string, nd: nat, newname: string, x: nat)
    requires Sound(a) && RenameRefused(a, od, oldname, nd, newname) == 0 && Renames(a, a', od, oldname, nd, newname)
    ensures Fair(a, a', x)
  {
    if !SameFile(a, od, oldname, nd, newname) {
      var j, b := First(a.dirs[nd], newname), Cleared(a, nd, newname);
      NamesMoved(b, od, First(b.dirs[od], oldname), nd, Cut(newname), x);
      if j < |a.dirs[nd]| { UnlinkedFair(a, nd, j, x); }
    }
  }

  /** Descriptions coming and going change no name. */
  lemma OpensFair(a: Abs, opens: multiset<nat>, x: nat)
    ensures Fair(a, a.(opens := opens), x)
  {
    var a' := a.(opens := opens);
    if y, k: nat :| NamedAt(a', y, k, x) { assert NamedAt(a, y, k, x); }
    if y, k: nat :| NamedAt(a, y, k, x) { assert NamedAt(a', y, k, x); }
  }

  /** Every call. */
  lemma DoesFair(a: Abs, op: Op, a': Abs, x: nat)
    requires Sound(a) && Does(a, op, a')
    ensures Fair(a, a', x)
  {
    OpensFair(a, a'.opens, x);
    match op {
      case Make(d, name, kind, v, _) => if a' != a { CreatedFair(a, d, name, kind, v, x); }
      case Remove(d, name) => if a' != a { UnlinkedFair(a, d, First(a.dirs[d], name), x); }
      case Ren(od, oldname, nd, newname) => if a' != a { RenamedFair(a, a', od, oldname, nd, newname, x); }
      case Hold(v) =>
      case Let(v) =>
    }
  }

  // ------------------------------------------------------------ every run

  /** In step `i` of a run the last name of `v` goes, while somebody has it open. */
  ghost predicate LostOpen(h: seq<Abs>, v: nat, i: nat) {
    i + 1 < |h| && Loses(h[i], h[i + 1], v) && v in h[i].opens
  }

  /** From then on it is in memory without a name. */
  lemma {:induction false} StaysLost(h: seq<Abs>, ops: seq<Op>, v: nat, i: nat, j: nat)
    requires Trace(h, ops) && LostOpen(h, v, i) && i < j < |h|
    ensures v in h[j].kinds && !HasName(h[j], v)
    decreases j
  {
    var k: nat := j - 1;
    Did(h, ops, k);
    DoesFair(h[k], ops[k], h[j], v);
    if i < k { StaysLost(h, ops, v, i, k); }
  }

  /** What is in memory without a name lost its last one while it was open. */
  lemma {:induction false} WasLost(h: seq<Abs>, ops: seq<Op>, root: nat, v: nat, j: nat) returns (i: nat)
    requires Trace(h, ops) && h[0].kinds.Keys == {root} && v != root && j < |h| && v in h[j].kinds && !HasName(h[j], v)
    ensures i < j && LostOpen(h, v, i)
    decreases j
  {
    var k: nat := j - 1;
    Did(h, ops, k);
    DoesFair(h[k], ops[k], h[j], v);
    if Loses(h[k], h[j], v) { i := k; } else { i := WasLost(h, ops, root, v, k); }
  }

  /** For every run from an empty file system and every vnode but the root: it is in memory without a name exactly if
      its last name went while somebody had it open, however long ago; and one whose last name goes otherwise is gone
      with it. */
  lemma NamelessIffLostOpen(h: seq<Abs>, ops: seq<Op>, root: nat, v: nat, j: nat)
    requires Trace(h, ops) && h[0].kinds.Keys == {root} && v != root && j < |h|
    ensures v in h[j].kinds && !HasName(h[j], v) <==> exists i: nat :: i < j && LostOpen(h, v, i)
    ensures j > 0 && Loses(h[j - 1], h[j], v) && v !in h[j - 1].opens ==> v !in h[j].kinds
  {
    if v in h[j].kinds && !HasName(h[j], v) { var i := WasLost(h, ops, root, v, j); }
    if i: nat :| i < j && LostOpen(h, v, i) { StaysLost(h, ops, v, i, j); }
    if j > 0 {
      var k: nat := j - 1;
      Did(h, ops, k);
      DoesFair(h[k], ops[k], h[j], v);
    }
  }

  /** Vnode `v` lost its last name while open, somewhere in the run. */
  ghost predicate Orphaned(h: seq<Abs>, v: nat) {
    exists i: nat :: LostOpen(h, v, i)
  }

  /** Any run from an empty file system: what stays in memory for good, though nothing leads to it, is exactly what lost
      its last name while somebody had it open and is closed by now. */
  method Run(ops: seq<Op>, root: nat) returns (fs: Fs, ghost h: seq<Abs>)
    requires root != 0
    ensures fresh(fs) && fs.Valid() && Trace(h, ops) && h[|ops|] == fs.Abstract()
    ensures forall v :: v != root ==> (v in fs.vnodes && !Held(fs.Abstract(), v) <==> Orphaned(h, v) && v !in fs.opens)
  {
    fs := new Fs(root);
    h := fs.Run(ops);
    forall v | v != root ensures v in fs.vnodes && !Held(fs.Abstract(), v) <==> Orphaned(h, v) && v !in fs.opens {
      assert h[0].kinds.Keys == {root};
      NamelessIffLostOpen(h, ops, root, v, |ops|);
    }
  }

  /** A file made, opened, unlinked and closed again: nothing leads to it, and its vnode is still there. */
  method UnlinkedWhileOpen() returns (fs: Fs)
    ensures fs.Valid() && 2 in fs.vnodes && fs.vnodes[2].refs == 0 && !Held(fs.Abstract(), 2)
  {
    fs := new Fs(1);
    Made(fs.Abstract());
    var vn := fs.Create(1, "f", Reg, 2, 1);
    Unnaming(fs.Abstract());
    fs.Open(2);
    var rc := fs.Unlink(1, "f");
    fs.Close(2);
    ZeroIffLost(fs.St(), 2);
  }

  /** The file made. */
  ghost function OneFile(): Abs {
    Abs(map[1 := [("f", 2)]], map[1 := Dir, 2 := Reg], multiset{1})
  }

  lemma Made(a: Abs)
    requires a == Abs(map[1 := []], map[1 := Dir], multiset{1})
    ensures 1 in a.kinds && 2 !in a.kinds && 1 in a.dirs && First(a.dirs[1], "f") == |a.dirs[1]| &&
        Created(a, 1, "f", Reg, 2) == OneFile()
  {
    var b := Created(a, 1, "f", Reg, 2);
    assert b.dirs[1] == [("f", 2)];
    assert b.dirs == OneFile().dirs && b.kinds == OneFile().kinds;
  }

  /** Its name removed with a description open, and the description closed. */
  lemma Unnaming(a: Abs)
    requires a == OneFile()
    ensures 2 in a.kinds && 1 in a.kinds && 1 in a.dirs && 2 !in a.dirs
    ensures var b := a.(opens := a.opens + multiset{2});
      && First(b.dirs[1], "f") == 0 && |b.dirs[1]| == 1 && Refused(b, 1, "f") == 0
      && var c := Unlinked(b, 1, 0);
      var d := c.(opens := c.opens - multiset{2});
      2 in c.opens && 2 in d.kinds && !Held(d, 2)
  {
    var b := a.(opens := a.opens + multiset{2});
    assert 2 in Unnamed(b, 1, 0).opens;
  }
}
