/** The directories of the memory file system as a graph: what a rename does to it (kernel/fs/tmpfs.c). */
module TmpfsTree {
  import opened Vfs
  import opened Tmpfs

  /** Directory `y` has a name in `x`. */
  ghost predicate Edge(a: Abs, x: nat, y: nat) {
    y in a.dirs && exists k: nat :: NamedAt(a, x, k, y)
  }

  ghost predicate Path(a: Abs, p: seq<nat>) {
    p != [] && forall i: nat {:trigger Hop(a, p, i)} :: i + 1 < |p| ==> Hop(a, p, i)
  }

  ghost predicate Hop(a: Abs, p: seq<nat>, i: nat)
    requires i + 1 < |p|
  {
    Edge(a, p[i], p[i + 1])
  }

  ghost predicate Leads(a: Abs, p: seq<nat>, x: nat, y: nat) {
    Path(a, p) && p[0] == x && p[|p| - 1] == y
  }

  /** `y` is `x` or below it. */
  ghost predicate Reaches(a: Abs, x: nat, y: nat) {
    exists p :: Leads(a, p, x, y)
  }

  ghost predicate Cycle(a: Abs, p: seq<nat>) {
    |p| >= 2 && Leads(a, p, p[0], p[0])
  }

  /** No directory is below itself. */
  ghost predicate Acyclic(a: Abs) {
    forall p :: !Cycle(a, p)
  }

  // ------------------------------------------------------------ edges

  lemma EdgeUnnamed(a: Abs, d: nat, i: nat, x: nat, y: nat)
    requires d in a.dirs && i < |a.dirs[d]|
    ensures Edge(Unnamed(a, d, i), x, y) ==> Edge(a, x, y)
    ensures Edge(a, x, y) && !(x == d && y == a.dirs[d][i].1) ==> Edge(Unnamed(a, d, i), x, y)
  {
    var b := Unnamed(a, d, i);
    if k: nat :| NamedAt(b, x, k, y) {
      assert NamedAt(a, x, if x == d && k >= i then k + 1 else k, y);
    }
    if k: nat :| NamedAt(a, x, k, y) && !(x == d && k == i) {
      assert NamedAt(b, x, if x == d && k > i then k - 1 else k, y);
    }
  }

  lemma EdgeCollected(a: Abs, v: nat, x: nat, y: nat)
    ensures Edge(Collected(a, v), x, y) ==> Edge(a, x, y)
    ensures Edge(a, x, y) && x != v && y != v ==> Edge(Collected(a, v), x, y)
  {
    var b := Collected(a, v);
    if k: nat :| NamedAt(b, x, k, y) { assert NamedAt(a, x, k, y); }
    if k: nat :| NamedAt(a, x, k, y) && x != v { assert NamedAt(b, x, k, y); }
  }

  lemma EdgeNamed(a: Abs, d: nat, name: string, v: nat, x: nat, y: nat)
    requires d in a.dirs
    ensures Edge(Named(a, d, name, v), x, y) <==> Edge(a, x, y) || (x == d && y == v && v in a.dirs)
  {
    var b := Named(a, d, name, v);
    if k: nat :| NamedAt(b, x, k, y) && !(x == d && k == 0) { assert NamedAt(a, x, if x == d then k - 1 else k, y); }
    if k: nat :| NamedAt(a, x, k, y) { assert NamedAt(b, x, if x == d then k + 1 else k, y); }
    assert NamedAt(b, d, 0, v);
  }

  /** A rename that moves something. */
  ghost predicate Moves(a: Abs, a': Abs, od: nat, oldname: string, nd: nat, newname: string) {
    && RenameRefused(a, od, oldname, nd, newname) == 0 && Renames(a, a', od, oldname, nd, newname)
    && !SameFile(a, od, oldname, nd, newname)
  }

  lemma EdgeCleared(a: Abs, nd: nat, newname: string, x: nat, y: nat)
    requires nd in a.dirs
    ensures Edge(Cleared(a, nd, newname), x, y) ==> Edge(a, x, y)
    ensures Edge(a, x, y) &&
        (First(a.dirs[nd], newname) < |a.dirs[nd]| ==> x != Got(a.dirs[nd], newname) && y != Got(a.dirs[nd], newname))
      ==> Edge(Cleared(a, nd, newname), x, y)
  {
    var j := First(a.dirs[nd], newname);
    if j < |a.dirs[nd]| {
      EdgeUnnamed(a, nd, j, x, y);
      EdgeCollected(Unnamed(a, nd, j), a.dirs[nd][j].1, x, y);
    }
  }

  /** The edges after a rename: none is new but that from the new directory to what moved; none is gone but that from
      the old directory to it, and those of what was replaced. */
  lemma EdgeMoved(a: Abs, a': Abs, od: nat, oldname: string, nd: nat, newname: string, x: nat, y: nat)
    requires Moves(a, a', od, oldname, nd, newname)
    ensures var v, w := Got(a.dirs[od], oldname), Got(a.dirs[nd], newname);
      && (Edge(a', x, y) ==> Edge(a, x, y) || (x == nd && y == v))
      && (Edge(a, x, y) && !(x == od && y == v) && (Replaces(a, nd, newname) ==> x != w && y != w) ==> Edge(a', x, y))
  {
    var b := Cleared(a, nd, newname);
    var i := First(b.dirs[od], oldname);
    MovedRow(a, od, oldname, nd, newname);
    EdgeCleared(a, nd, newname, x, y);
    EdgeUnnamed(b, od, i, x, y);
    EdgeNamed(Unnamed(b, od, i), nd, Cut(newname), b.dirs[od][i].1, x, y);
  }

  ghost predicate Replaces(a: Abs, nd: nat, newname: string)
    requires nd in a.dirs
  {
    First(a.dirs[nd], newname) < |a.dirs[nd]|
  }

  // ------------------------------------------------------------ paths

  lemma SubPath(a: Abs, p: seq<nat>, i: nat, j: nat)
    requires Path(a, p) && i < j <= |p|
    ensures Path(a, p[i..j])
  {
    var q := p[i..j];
    forall k: nat | k + 1 < |q| ensures Hop(a, q, k) { assert Hop(a, p, i + k); }
  }

  lemma Joined(a: Abs, p: seq<nat>, q: seq<nat>)
    requires Path(a, p) && Path(a, q) && p[|p| - 1] == q[0]
    ensures Path(a, p + q[1..])
  {
    var r := p + q[1..];
    forall k: nat | k + 1 < |r| ensures Hop(a, r, k) {
      if k + 1 < |p| { assert Hop(a, p, k); } else { assert Hop(a, q, k - |p| + 1); }
    }
  }

  /** A path in the new graph from `v` to `nd` holds one in the old graph: cut it before its first new edge. */
  lemma {:induction false} OldPath(a: Abs, a': Abs, v: nat, nd: nat, p: seq<nat>)
    requires forall x, y :: Edge(a', x, y) ==> Edge(a, x, y) || (x == nd && y == v)
    requires Leads(a', p, v, nd)
    ensures Reaches(a, v, nd)
    decreases |p|
  {
    if i: nat :| i + 1 < |p| && p[i] == nd && p[i + 1] == v {
      SubPath(a', p, 0, i + 1);
      OldPath(a, a', v, nd, p[0..i + 1]);
    } else {
      forall k: nat | k + 1 < |p| ensures Hop(a, p, k) { assert Hop(a', p, k); }
      assert Leads(a, p, v, nd);
    }
  }

  /** A rename makes no cycle if the new directory is not the moved one nor below it. */
  lemma StaysAcyclic(a: Abs, a': Abs, v: nat, nd: nat)
    requires forall x, y :: Edge(a', x, y) ==> Edge(a, x, y) || (x == nd && y == v)
    requires Acyclic(a) && !Reaches(a, v, nd)
    ensures Acyclic(a')
  {
    forall p ensures !Cycle(a', p) {
      if Cycle(a', p) {
        if i: nat :| i + 1 < |p| && p[i] == nd && p[i + 1] == v {
          SubPath(a', p, i + 1, |p|);
          SubPath(a', p, 0, i + 1);
          Joined(a', p[i + 1..|p|], p[0..i + 1]);
          OldPath(a, a', v, nd, p[i + 1..|p|] + p[0..i + 1][1..]);
        } else {
          forall k: nat | k + 1 < |p| ensures Hop(a, p, k) { assert Hop(a', p, k); }
          assert Cycle(a, p);
        }
      }
    }
  }

  /** On a path from what moves to the new directory no edge goes away. */
  lemma PathKept(a: Abs, a': Abs, od: nat, oldname: string, nd: nat, newname: string, p: seq<nat>)
    requires Acyclic(a) && Moves(a, a', od, oldname, nd, newname) && Leads(a, p, Got(a.dirs[od], oldname), nd)
    ensures Path(a', p)
  {
    var v, w := Got(a.dirs[od], oldname), Got(a.dirs[nd], newname);
    forall k: nat | k + 1 < |p| ensures Hop(a', p, k) {
      assert Hop(a, p, k);
      EdgeMoved(a, a', od, oldname, nd, newname, p[k], p[k + 1]);
      if p[k + 1] == v {
        SubPath(a, p, 0, k + 2);
        assert Cycle(a, p[0..k + 2]);
      }
      if Replaces(a, nd, newname) {
        assert p[k] != w by { var i: nat :| NamedAt(a, p[k], i, p[k + 1]); }
        assert p[k + 1] != w by { if k + 2 < |p| { assert Hop(a, p, k + 1); } }
      }
    }
  }

  /** Renaming a directory keeps the graph free of cycles exactly if it is not moved into itself or below: the code
      does not look, and such a move cuts the directory off from the root. */
  lemma RenameAcyclic(a: Abs, a': Abs, od: nat, oldname: string, nd: nat, newname: string)
    requires Acyclic(a) && Moves(a, a', od, oldname, nd, newname) && Got(a.dirs[od], oldname) in a'.dirs
    ensures Acyclic(a') <==> !Reaches(a, Got(a.dirs[od], oldname), nd)
  {
    var v := Got(a.dirs[od], oldname);
    forall x, y ensures Edge(a', x, y) ==> Edge(a, x, y) || (x == nd && y == v) {
      EdgeMoved(a, a', od, oldname, nd, newname, x, y);
    }
    if p :| Leads(a, p, v, nd) {
      PathKept(a, a', od, oldname, nd, newname, p);
      MovedRow(a, od, oldname, nd, newname);
      assert NamedAt(a', nd, 0, v);
      var q := p + [v];
      forall k: nat | k + 1 < |q| ensures Hop(a', q, k) {
        if k + 1 < |p| { assert Hop(a', p, k); }
      }
      assert Cycle(a', q);
    } else {
      StaysAcyclic(a, a', v, nd);
    }
  }

  // ------------------------------------------------------------ every run

  lemma FewerEdges(a: Abs, a': Abs)
    requires Acyclic(a) && forall x, y :: Edge(a', x, y) ==> Edge(a, x, y)
    ensures Acyclic(a')
  {
    forall p ensures !Cycle(a', p) {
      if Cycle(a', p) {
        forall k: nat | k + 1 < |p| ensures Hop(a, p, k) { assert Hop(a', p, k); }
        assert Cycle(a, p);
      }
    }
  }

  lemma CreateAcyclic(a: Abs, d: nat, name: string, kind: Kind, v: nat)
    requires Sound(a) && Acyclic(a) && d in a.dirs && v !in a.kinds
    ensures Acyclic(Created(a, d, name, kind, v))
  {
    var b, a' := Blank(a, v, kind), Created(a, d, name, kind, v);
    forall x, y ensures Edge(a', x, y) ==> Edge(a, x, y) || (x == d && y == v) {
      EdgeNamed(b, d, Cut(name), v, x, y);
      if k: nat :| NamedAt(b, x, k, y) { assert NamedAt(a, x, k, y); }
    }
    forall p | |p| > 1 && Path(a, p) ensures p[0] != v { assert Hop(a, p, 0); }
    StaysAcyclic(a, a', v, d);
  }

  lemma UnlinkAcyclic(a: Abs, d: nat, i: nat)
    requires Acyclic(a) && d in a.dirs && i < |a.dirs[d]|
    ensures Acyclic(Unlinked(a, d, i))
  {
    forall x, y ensures Edge(Unlinked(a, d, i), x, y) ==> Edge(a, x, y) {
      EdgeUnnamed(a, d, i, x, y);
      EdgeCollected(Unnamed(a, d, i), a.dirs[d][i].1, x, y);
    }
    FewerEdges(a, Unlinked(a, d, i));
  }

  /** The call moves a directory into itself or below. */
  ghost predicate MovesBelow(a: Abs, op: Op) {
    op.Ren? && RenameRefused(a, op.olddir, op.oldname, op.newdir, op.newname) == 0 &&
        !SameFile(a, op.olddir, op.oldname, op.newdir, op.newname)
    && Got(a.dirs[op.olddir], op.oldname) in a.dirs && Reaches(a, Got(a.dirs[op.olddir], op.oldname), op.newdir)
  }

  lemma MoveAcyclic(a: Abs, a': Abs, od: nat, oldname: Leaf, nd: nat, newname: Leaf)
    requires Acyclic(a) && Moves(a, a', od, oldname, nd, newname)
    ensures Acyclic(a') <==> !MovesBelow(a, Ren(od, oldname, nd, newname))
  {
    var v := Got(a.dirs[od], oldname);
    MovedRow(a, od, oldname, nd, newname);
    if v in a'.dirs {
      RenameAcyclic(a, a', od, oldname, nd, newname);
    } else {
      forall x, y ensures Edge(a', x, y) ==> Edge(a, x, y) { EdgeMoved(a, a', od, oldname, nd, newname, x, y); }
      FewerEdges(a, a');
    }
  }

  /** Every call keeps the graph free of cycles, unless it moves a directory into itself or below. */
  lemma DoesAcyclic(a: Abs, op: Op, a': Abs)
    requires Sound(a) && Acyclic(a) && Does(a, op, a')
    ensures Acyclic(a') <==> !MovesBelow(a, op)
  {
    match op {
      case Make(d, name, kind, v, _) => if a' != a { CreateAcyclic(a, d, name, kind, v); }
      case Remove(d, name) => if a' != a { UnlinkAcyclic(a, d, First(a.dirs[d], name)); }
      case Ren(od, oldname, nd, newname) => if Moves(a, a', od, oldname, nd,
          newname) { MoveAcyclic(a, a', od, oldname, nd, newname); }
      case Hold(v) => OpensAcyclic(a, a');
      case Let(v) => OpensAcyclic(a, a');
    }
  }

  lemma OpensAcyclic(a: Abs, a': Abs)
    requires Acyclic(a) && a'.dirs == a.dirs
    ensures Acyclic(a')
  {
    forall x, y ensures Edge(a', x, y) ==> Edge(a, x, y) {
      if k: nat :| NamedAt(a', x, k, y) { assert NamedAt(a, x, k, y); }
    }
    FewerEdges(a, a');
  }

  /** A run is free of cycles all along exactly if no call of it moves a directory into itself or below. */
  lemma {:induction false} RunAcyclic(h: seq<Abs>, ops: seq<Op>, n: nat)
    requires Trace(h, ops) && n <= |ops| && Acyclic(h[0])
    ensures (forall i :: 0 <= i <= n ==> Acyclic(h[i])) <==> (forall i :: 0 <= i < n ==> !MovesBelow(h[i], ops[i]))
  {
    if n > 0 {
      var m: nat := n - 1;
      RunAcyclic(h, ops, m);
      Did(h, ops, m);
      if Acyclic(h[m]) { DoesAcyclic(h[m], ops[m], h[n]); }
    }
  }

  /** The directory is in memory for good, held by its own entry, though nobody has it open and no path leads to it. */
  ghost predicate CutOff(a: Abs, root: nat, d: nat) {
    d in a.dirs && Held(a, d) && d !in a.opens && !Reaches(a, root, d)
  }

  /** "mkdir d; mv d d/e": from the root, the smallest such move. */
  lemma MovedIntoItself()
    ensures exists a: Abs, a': Abs :: Acyclic(a) && Moves(a, a', 1, "d", 2, "e") && !Acyclic(a') && CutOff(a', 1, 2)
  {
    var a := Abs(map[1 := [("d", 2)], 2 := []], map[1 := Dir, 2 := Dir], multiset{1});
    var a' := Moved(a, 1, 0, 2, "e");
    assert forall x, y :: Edge(a, x, y) ==> x == 1 && y == 2;
    forall p | |p| >= 2 && Path(a, p) ensures p[0] != p[|p| - 1] {
      assert Hop(a, p, 0) && Hop(a, p, |p| - 2);
    }
    assert First(a.dirs[1], "d") == 0 && First(a.dirs[2], "e") == 0;
    assert Moves(a, a', 1, "d", 2, "e");
    assert NamedAt(a', 2, 0, 2) && Hop(a', [2, 2], 0);
    assert Cycle(a', [2, 2]);
    forall p | |p| > 1 && Path(a', p) ensures p[0] != 1 { assert Hop(a', p, 0); }
  }
}
