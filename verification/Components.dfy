/** Paths as strings: separators and components, as path resolution (kernel/fs/vfs.c) and canonicalisation
    (kernel/fs/path.c) see them. */
module Components {
  import opened Vfs

  /** The end of the component that begins at `i`. */
  function Until(p: string, i: nat): (j: nat)
    requires i <= |p|
    ensures i <= j <= |p| && (j < |p| ==> p[j] == '/') && forall k :: i <= k < j ==> p[k] != '/'
    decreases |p| - i
  {
    if i < |p| && p[i] != '/' then Until(p, i + 1) else i
  }

  /** The first place from `i` on that is not a separator. */
  function Past(p: string, i: nat): (j: nat)
    requires i <= |p|
    ensures i <= j <= |p| && (j < |p| ==> p[j] != '/') && forall k :: i <= k < j ==> p[k] == '/'
    decreases |p| - i
  {
    if i < |p| && p[i] == '/' then Past(p, i + 1) else i
  }

  /** The components of a path from `i` on, whole. */
  function Parts(p: string, i: nat): seq<string>
    requires i <= |p|
    decreases |p| - i
  {
    var st := Past(p, i);
    if st == |p| then [] else
      var e := Until(p, st);
      [p[st..e]] + Parts(p, e)
  }

  /** The same, each cut to the longest name. */
  function Comps(p: string, i: nat): seq<string>
    requires i <= |p|
    decreases |p| - i
  {
    var st := Past(p, i);
    if st == |p| then [] else
      var e := Until(p, st);
      [Cut(p[st..e])] + Comps(p, e)
  }

  /** The scan over separators and one component. */
  method Scan(path: string, i: nat) returns (st: nat, e: nat)
    requires i <= |path|
    ensures st == Past(path, i) && e == Until(path, st) && (st < |path| ==> e > st)
  {
    st := i;
    while st < |path| && path[st] == '/'
      invariant i <= st <= |path| && Past(path, st) == Past(path, i)
    {
      st := st + 1;
    }
    e := st;
    while e < |path| && path[e] != '/'
      invariant st <= e <= |path| && Until(path, e) == Until(path, st)
    {
      e := e + 1;
    }
  }

  predicate Plain(c: string) { c != "" && '/' !in c }

  ghost predicate AllPlain(cs: seq<string>) {
    forall i :: 0 <= i < |cs| ==> Plain(cs[i])
  }

  lemma {:induction false} PartsArePlain(p: string, i: nat)
    requires i <= |p|
    ensures AllPlain(Parts(p, i))
    decreases |p| - i
  {
    var st := Past(p, i);
    if st < |p| { PartsArePlain(p, Until(p, st)); }
  }

  /** What comes out has proper components only and fits the buffer with its NUL. */
  // ------------------------------------------------------------ a path after a path

  lemma UntilIs(p: string, i: nat, j: nat)
    requires i <= j <= |p| && (j < |p| ==> p[j] == '/') && forall k :: i <= k < j ==> p[k] != '/'
    ensures Until(p, i) == j
  {
  }

  lemma PastIs(p: string, i: nat, j: nat)
    requires i <= j <= |p| && (j < |p| ==> p[j] != '/') && forall k :: i <= k < j ==> p[k] == '/'
    ensures Past(p, i) == j
  {
  }

  lemma PartsFirst(p: string, i: nat, st: nat, e: nat)
    requires i <= |p| && st == Past(p, i) < |p| && e == Until(p, st)
    ensures Parts(p, i) == [p[st..e]] + Parts(p, e)
  {
  }

  lemma PartsNone(p: string, i: nat)
    requires i <= |p| == Past(p, i)
    ensures Parts(p, i) == []
  {
  }

  /** `t` from `n` on is `q`. */
  ghost predicate Tail(t: string, n: nat, q: string) {
    |t| == n + |q| && forall k :: 0 <= k < |q| ==> t[n + k] == q[k]
  }

  lemma Shifted(t: string, n: nat, q: string, j: nat, i: nat)
    requires Tail(t, n, q) && j <= |q| && i == n + j
    ensures Past(t, i) == n + Past(q, j) && Until(t, i) == n + Until(q, j)
  {
    assert forall k :: n <= k < |t| ==> t[k] == q[k - n];
    PastIs(t, i, n + Past(q, j));
    UntilIs(t, i, n + Until(q, j));
  }

  lemma SliceShifted(t: string, n: nat, q: string, a: nat, b: nat)
    requires Tail(t, n, q) && a <= b <= |q|
    ensures t[n + a..n + b] == q[a..b]
  {
    assert forall k :: n <= k < |t| ==> t[k] == q[k - n];
  }

  lemma FirstShifted(t: string, n: nat, q: string, j: nat, i: nat) returns (st: nat, e: nat, st0: nat, e0: nat)
    requires Tail(t, n, q) && j <= |q| && i == n + j
    ensures j <= st == Past(q, j) <= e == Until(q, st) <= |q| && e0 == n + e
    ensures i <= st0 == Past(t, i) <= e0 == Until(t, st0) <= |t| && (st < |q| <==> st0 < |t|)
    ensures t[st0..e0] == q[st..e] && (st < |q| ==> j < e)
  {
    st := Past(q, j);
    e := Until(q, st);
    st0, e0 := n + st, n + e;
    Shifted(t, n, q, j, i);
    Shifted(t, n, q, st, st0);
    SliceShifted(t, n, q, st, e);
  }

  lemma PartsShiftedOne(q: string, t: string, j: nat, i: nat, st: nat, e: nat, st0: nat, e0: nat)
    requires j <= |q| && st == Past(q, j) < |q| && e == Until(q, st)
    requires i <= |t| && st0 == Past(t, i) < |t| && e0 == Until(t, st0)
    requires t[st0..e0] == q[st..e] && Parts(t, e0) == Parts(q, e)
    ensures Parts(t, i) == Parts(q, j)
  {
    PartsFirst(t, i, st0, e0);
    PartsFirst(q, j, st, e);
  }

  lemma {:induction false} PartsShifted(t: string, n: nat, q: string, j: nat, i: nat)
    requires Tail(t, n, q) && j <= |q| && i == n + j
    ensures Parts(t, i) == Parts(q, j)
    decreases |q| - j
  {
    var st, e, st0, e0 := FirstShifted(t, n, q, j, i);
    if st < |q| {
      PartsShifted(t, n, q, e, e0);
      PartsShiftedOne(q, t, j, i, st, e, st0, e0);
    } else {
      PartsNone(q, j);
      PartsNone(t, i);
    }
  }

  /** In the first of two paths. */
  lemma Inside(p: string, q: string, t: string, i: nat)
    requires i <= |p| && t == p + "/" + q
    ensures Past(t, i) == if Past(p, i) < |p| then Past(p, i) else |p| + 1 + Past(q, 0)
    ensures Until(t, i) == Until(p, i)
  {
    assert forall k :: 0 <= k < |p| ==> t[k] == p[k];
    assert t[|p|] == '/' && forall k :: |p| < k < |t| ==> t[k] == q[k - |p| - 1];
    UntilIs(t, i, Until(p, i));
    PastIs(t, i, if Past(p, i) < |p| then Past(p, i) else |p| + 1 + Past(q, 0));
  }

  lemma PartsFrom(p: string, i: nat, j: nat)
    requires i <= j <= |p| && Past(p, i) == Past(p, j)
    ensures Parts(p, i) == Parts(p, j)
  {
  }

  lemma PartsAfter(p: string, q: string, t: string, i: nat)
    requires i <= |p| == Past(p, i) && t == p + "/" + q
    ensures Parts(t, i) == Parts(q, 0)
  {
    var n := |p| + 1;
    Inside(p, q, t, i);
    Shifted(t, n, q, 0, n);
    PartsFrom(t, i, n);
    PartsShifted(t, n, q, 0, n);
  }

  lemma {:induction false} PartsBoth(p: string, q: string, t: string, i: nat)
    requires i <= |p| && t == p + "/" + q
    ensures Parts(t, i) == Parts(p, i) + Parts(q, 0)
    decreases |p| - i
  {
    Inside(p, q, t, i);
    var st := Past(p, i);
    if st < |p| {
      var e := Until(p, st);
      Inside(p, q, t, st);
      SliceWithin(p, q, t, st, e);
      PartsFirst(p, i, st, e);
      PartsFirst(t, i, st, e);
      PartsBoth(p, q, t, e);
      JoinAssoc([p[st..e]], Parts(p, e), Parts(q, 0));
    } else {
      PartsAfter(p, q, t, i);
    }
  }

  lemma SliceWithin(p: string, q: string, t: string, a: nat, b: nat)
    requires a <= b <= |p| && t == p + "/" + q
    ensures t[a..b] == p[a..b]
  {
  }

  /** The components of a path after a path. */
  lemma PartsJoin(p: string, q: string)
    ensures Parts(p + "/" + q, 0) == Parts(p, 0) + Parts(q, 0)
  {
    PartsBoth(p, q, p + "/" + q, 0);
  }

  lemma JoinAssoc(a: seq<string>, b: seq<string>, c: seq<string>)
    ensures a + (b + c) == a + b + c
  {
  }

  // ------------------------------------------------------------ cut components

  function Cuts(cs: seq<string>): (r: seq<string>)
    ensures |r| == |cs| && forall i {:trigger r[i]} :: 0 <= i < |cs| ==> r[i] == Cut(cs[i])
  {
    seq(|cs|, i requires 0 <= i < |cs| => Cut(cs[i]))
  }

  lemma {:induction false} CompsAreCuts(p: string, i: nat)
    requires i <= |p|
    ensures Comps(p, i) == Cuts(Parts(p, i))
    decreases |p| - i
  {
    var st := Past(p, i);
    if st < |p| {
      CompsAreCuts(p, Until(p, st));
      assert Cuts(Parts(p, i)) == [Cut(p[st..Until(p, st)])] + Cuts(Parts(p, Until(p, st)));
    }
  }

  lemma CompsJoin(p: string, q: string)
    ensures Comps(p + "/" + q, 0) == Comps(p, 0) + Comps(q, 0)
  {
    CompsAreCuts(p + "/" + q, 0);
    CompsAreCuts(p, 0);
    CompsAreCuts(q, 0);
    PartsJoin(p, q);
    assert Cuts(Parts(p, 0) + Parts(q, 0)) == Cuts(Parts(p, 0)) + Cuts(Parts(q, 0));
  }

  lemma CompsFit(p: string, i: nat, k: nat)
    requires i <= |p| && k < |Comps(p, i)|
    ensures |Comps(p, i)[k]| <= NAME_MAX
  {
    CompsAreCuts(p, i);
  }

  /** One component alone. */
  lemma PartsOf(c: string)
    requires Plain(c)
    ensures Parts(c, 0) == [c] && Parts("/" + c, 0) == [c]
  {
    PastIs(c, 0, 0);
    UntilIs(c, 0, |c|);
    assert c[0..|c|] == c && Parts(c, |c|) == [];
    PartsJoin("", c);
    assert "" + "/" + c == "/" + c && Parts("", 0) == [];
  }

  /** One more component at the end of a path. */
  lemma PartsMore(p: string, c: string)
    requires Plain(c)
    ensures Parts(p + "/" + c, 0) == Parts(p, 0) + [c]
  {
    PartsJoin(p, c);
    PartsOf(c);
  }

  /** A component as it stands in a path. */
  predicate Single(name: string) {
    Plain(name) && |name| <= NAME_MAX
  }

  lemma SingleComp(name: string)
    requires Single(name)
    ensures Comps(name, 0) == [name]
  {
    PartsOf(name);
    CompsAreCuts(name, 0);
  }
}
