/** Lexical canonicalisation of paths (kernel/fs/path.c). */
module Path {
  import opened Vfs
  import opened Components

  const MAX_COMPS := 64

  // ------------------------------------------------------------ what the canonical path is

  /** "/" and the components with "/" between them. */
  function Canon(st: seq<string>): string {
    if st == [] then "/" else if |st| == 1 then "/" + st[0] else Canon(st[..|st| - 1]) + "/" + st[|st| - 1]
  }

  datatype Outcome = Ok(st: seq<string>) | TooLong

  /** One component on the stack: "." does nothing, ".." takes one off, unless there is none; a name goes on if the
      number of names and the buffer, with its NUL, allow it. */
  function Push(st: seq<string>, c: string, size: nat): Outcome {
    if c == "." then Ok(st)
    else if c == ".." then Ok(if st == [] then st else st[..|st| - 1])
    else if |st| >= MAX_COMPS || |Canon(st + [c])| + 1 > size then TooLong
    else Ok(st + [c])
  }

  function Fold(st: seq<string>, cs: seq<string>, size: nat): Outcome
    decreases |cs|
  {
    if cs == [] then Ok(st)
    else
      var r := Push(st, cs[0], size);
      if r == TooLong then TooLong else Fold(r.st, cs[1..], size)
  }

  /** An absolute path stands alone, a relative one is after the working directory. */
  function Full(cwd: string, path: string): seq<string> {
    (if path != "" && path[0] == '/' then [] else Parts(cwd, 0)) + Parts(path, 0)
  }

  /** A component proper: not empty, not "." or "..", without a separator. */
  predicate Proper(c: string) {
    c != "" && c != "." && c != ".." && '/' !in c
  }

  ghost predicate Clean(st: seq<string>) {
    |st| <= MAX_COMPS && forall i :: 0 <= i < |st| ==> Proper(st[i])
  }

  // ------------------------------------------------------------ lemmas about the fold

  lemma {:induction false} FoldClean(st: seq<string>, cs: seq<string>, size: nat)
    requires Clean(st) && AllPlain(cs) && |Canon(st)| + 1 <= size
    ensures var r := Fold(st, cs, size); r.Ok? ==> Clean(r.st) && |Canon(r.st)| + 1 <= size
    decreases |cs|
  {
    if cs != [] {
      var r := Push(st, cs[0], size);
      if r.Ok? {
        if cs[0] == ".." && st != [] { CanonShorter(st); }
        FoldClean(r.st, cs[1..], size);
      }
    }
  }

  lemma CanonShorter(st: seq<string>)
    requires st != []
    ensures |Canon(st[..|st| - 1])| <= |Canon(st)|
  {
    if |st| == 1 { assert st[..0] == []; }
  }

  lemma CanonNext(st: seq<string>, c: string)
    ensures Canon(st + [c]) == if st == [] then "/" + c else Canon(st) + "/" + c
  {
    assert (st + [c])[..|st|] == st;
  }

  lemma CanonLength(st: seq<string>)
    requires Clean(st)
    ensures |Canon(st)| >= 1 && (|Canon(st)| == 1 <==> st == []) && Canon(st)[0] == '/'
  {
    if |st| > 1 { CanonStarts(st); }
  }

  lemma {:induction false} CanonStarts(st: seq<string>)
    ensures |Canon(st)| >= |st| && |Canon(st)| >= 1 && Canon(st)[0] == '/'
  {
    if |st| > 1 { CanonStarts(st[..|st| - 1]); }
  }

  // ------------------------------------------------------------ a canonical path stays as it is

  lemma {:induction false} PartsOfCanon(st: seq<string>)
    requires forall i :: 0 <= i < |st| ==> Proper(st[i])
    ensures Parts(Canon(st), 0) == st
  {
    if st == [] {
      assert Past("/", 0) == 1;
    } else if |st| == 1 {
      PartsOf(st[0]);
      assert st == [st[0]];
    } else {
      var init := st[..|st| - 1];
      PartsOfCanon(init);
      PartsMore(Canon(init), st[|st| - 1]);
      assert init + [st[|st| - 1]] == st;
    }
  }

  lemma {:induction false} CanonPrefix(st: seq<string>, n: nat)
    requires n <= |st|
    ensures |Canon(st[..n])| <= |Canon(st)|
    decreases |st|
  {
    if n == |st| {
      assert st[..n] == st;
    } else {
      CanonShorter(st);
      CanonPrefix(st[..|st| - 1], n);
      assert st[..|st| - 1][..n] == st[..n];
    }
  }

  lemma {:induction false} FoldProper(st: seq<string>, n: nat, size: nat)
    requires Clean(st) && n <= |st| && |Canon(st)| + 1 <= size
    ensures Fold(st[..n], st[n..], size) == Ok(st)
    decreases |st| - n
  {
    if n == |st| {
      assert st[..n] == st;
    } else {
      assert st[..n] + [st[n]] == st[..n + 1] && st[n..][1..] == st[n + 1..];
      CanonPrefix(st, n + 1);
      FoldProper(st, n + 1, size);
    }
  }

  /** Canonicalising a canonical path that fits, from any working directory, gives it back. */
  lemma FixedPoint(st: seq<string>, cwd: string, size: nat)
    requires Clean(st) && |Canon(st)| + 1 <= size
    ensures Fold([], Full(cwd, Canon(st)), size) == Ok(st)
  {
    CanonStarts(st);
    PartsOfCanon(st);
    assert [] + st == st;
    FoldProper(st, 0, size);
    assert st[..0] == [] && st[0..] == st;
  }

  lemma {:induction false} FoldSplit(st: seq<string>, a: seq<string>, b: seq<string>, size: nat)
    ensures Fold(st, a + b, size) == var r := Fold(st, a, size); if r.Ok? then Fold(r.st, b, size) else TooLong
    decreases |a|
  {
    if a == [] {
      assert a + b == b;
    } else {
      assert (a + b)[1..] == a[1..] + b;
      var r := Push(st, a[0], size);
      if r.Ok? { FoldSplit(r.st, a[1..], b, size); }
    }
  }

  /** Canonicalising twice is canonicalising once, whatever the working directory of the second call. */
  lemma Idempotent(cwd: string, cwd2: string, path: string, st: seq<string>, size: nat)
    requires size >= 2 && Fold([], Full(cwd, path), size) == Ok(st)
    ensures Fold([], Full(cwd2, Canon(st)), size) == Ok(st)
  {
    FullIsPlain(cwd, path);
    FoldClean([], Full(cwd, path), size);
    FixedPoint(st, cwd2, size);
  }

  lemma FullIsPlain(cwd: string, path: string)
    ensures AllPlain(Full(cwd, path))
  {
    PartsArePlain(cwd, 0);
    PartsArePlain(path, 0);
  }

  /** A relative path from a working directory is the same path from its canonical form: what chdir stores is as
      good as what it was given. */
  lemma Rebased(cwd: string, path: string, st: seq<string>, size: nat)
    requires size >= 2 && Fold([], Parts(cwd, 0), size) == Ok(st)
    ensures Fold([], Full(cwd, path), size) == Fold([], Full(Canon(st), path), size)
  {
    if !(path != "" && path[0] == '/') {
      PartsArePlain(cwd, 0);
      FoldClean([], Parts(cwd, 0), size);
      FoldSplit([], Parts(cwd, 0), Parts(path, 0), size);
      FoldSplit([], Parts(Canon(st), 0), Parts(path, 0), size);
      PartsOfCanon(st);
      FoldProper(st, 0, size);
      assert st[..0] == [] && st[0..] == st;
    }
  }

  /** A larger buffer never changes the answer, it only refuses less. */
  lemma {:induction false} Wider(st: seq<string>, cs: seq<string>, size: nat, wide: nat)
    requires size <= wide && Fold(st, cs, size).Ok?
    ensures Fold(st, cs, wide) == Fold(st, cs, size)
    decreases |cs|
  {
    if cs != [] { Wider(Push(st, cs[0], size).st, cs[1..], size, wide); }
  }

  // ------------------------------------------------------------ going down and up

  /** A path canonicalises to `out` in a buffer of that size. */
  ghost predicate Gives(cwd: string, path: string, size: nat, out: string) {
    size >= 2 && Fold([], Full(cwd, path), size).Ok? && out == Canon(Fold([], Full(cwd, path), size).st)
  }

  lemma FoldMore(cwd: string, p: string, c: string, size: nat)
    requires p != "" && Plain(c) && Fold([], Full(cwd, p), size).Ok?
    ensures Fold([], Full(cwd, p + "/" + c), size) == Push(Fold([], Full(cwd, p), size).st, c, size)
  {
    var q := p + "/" + c;
    assert q[0] == p[0];
    PartsMore(p, c);
    assert Full(cwd, q) == Full(cwd, p) + [c];
    FoldSplit([], Full(cwd, p), [c], size);
    assert [c][1..] == [];
  }

  /** Where a name leads. */
  function Below(dir: string, x: string): string {
    if dir == "/" then "/" + x else dir + "/" + x
  }

  lemma BelowIs(st: seq<string>, x: string)
    requires forall i :: 0 <= i < |st| ==> Proper(st[i])
    ensures Canon(st + [x]) == Below(Canon(st), x)
  {
    if st != [] {
      assert (st + [x])[..|st|] == st;
      CanonLong(st);
    }
  }

  lemma CanonLong(st: seq<string>)
    requires st != [] && forall i :: 0 <= i < |st| ==> Proper(st[i])
    ensures Canon(st) != "/"
  {
    assert st[|st| - 1] != "";
  }

  /** From wherever a path leads, a proper name goes down to it, if that fits, and ".." goes back up. */
  lemma DownAndUp(cwd: string, p: string, x: string, size: nat, here: string)
    requires p != "" && Proper(x) && Gives(cwd, p, size, here)
    ensures Fold([], Full(cwd, p + "/" + x), size).Ok? <==>
      |Fold([], Full(cwd, p), size).st| < MAX_COMPS && |Below(here, x)| < size
    ensures Fold([], Full(cwd, p + "/" + x), size).Ok? ==>
      Gives(cwd, p + "/" + x, size, Below(here, x)) && Gives(cwd, p + "/" + x + "/..", size, here)
  {
    var st, down := Fold([], Full(cwd, p), size).st, p + "/" + x;
    FullIsPlain(cwd, p);
    FoldClean([], Full(cwd, p), size);
    FoldMore(cwd, p, x, size);
    BelowIs(st, x);
    if Fold([], Full(cwd, down), size).Ok? {
      FoldMore(cwd, down, "..", size);
      assert down + "/" + ".." == down + "/..";
      assert (st + [x])[..|st|] == st;
    }
  }

  /** "." stays, and so does ".." from the root. */
  lemma Stays(cwd: string, p: string, size: nat, here: string)
    requires p != "" && Gives(cwd, p, size, here)
    ensures Gives(cwd, p + "/.", size, here) && (here == "/" ==> Gives(cwd, p + "/..", size, "/"))
    ensures Gives(cwd, "/..", size, "/")
  {
    FullIsPlain(cwd, p);
    FoldClean([], Full(cwd, p), size);
    var st := Fold([], Full(cwd, p), size).st;
    FoldMore(cwd, p, ".", size);
    assert p + "/" + "." == p + "/.";
    FoldMore(cwd, p, "..", size);
    assert p + "/" + ".." == p + "/..";
    if st != [] { CanonLong(st); }
    RootUp(cwd, size);
  }

  lemma RootUp(cwd: string, size: nat)
    requires size >= 2
    ensures Gives(cwd, "/..", size, "/")
  {
    PartsOf("..");
    assert "/" + ".." == "/..";
    assert Full(cwd, "/..") == [".."] && [".."][1..] == [];
  }

  /** A relative path is the path after the working directory, an absolute one the same from anywhere. */
  lemma Relative(cwd: string, cwd2: string, p: string, size: nat, out: string)
    requires cwd != "" && cwd[0] == '/'
    ensures Gives(cwd, p, size, out) <==> Gives(cwd2, if p != "" && p[0] == '/' then p else cwd + "/" + p, size, out)
  {
    PartsJoin(cwd, p);
    assert (cwd + "/" + p)[0] == '/';
    assert [] + Parts(cwd + "/" + p, 0) == Parts(cwd + "/" + p, 0);
  }

  // ------------------------------------------------------------ path_canonicalize

  /** The buffer holds the canonical path of the stack, and `end` where each component ended. */
  ghost predicate Holds(out: array<char>, end: array<nat>, len: nat, ncomp: nat, st: seq<string>, size: nat)
    reads out, end
  {
    && end.Length == MAX_COMPS && Clean(st) && ncomp == |st| && len == |Canon(st)| < size <= out.Length
    && out[..len] == Canon(st)
    && forall k :: 0 <= k < ncomp ==> EndsAt(end[k], st, k)
  }

  /** Component `k` ends where the path of the first k + 1 components does. */
  ghost predicate EndsAt(e: nat, st: seq<string>, k: nat)
    requires k < |st|
  {
    e == |Canon(st[..k + 1])|
  }

  lemma EndsKept(st: seq<string>, c: string, k: nat)
    requires k < |st|
    ensures forall e: nat :: EndsAt(e, st + [c], k) <==> EndsAt(e, st, k)
  {
    assert (st + [c])[..k + 1] == st[..k + 1];
  }

  method Copy(out: array<char>, at: nat, c: string, size: nat) returns (len: nat)
    requires at + |c| <= size <= out.Length
    modifies out
    ensures len == at + |c| && out[..len] == old(out[..at]) + c && out[size..] == old(out[size..])
  {
    len := at;
    for i := 0 to |c|
      invariant len == at + i && out[..len] == old(out[..at]) + c[..i] && out[size..] == old(out[size..])
    {
      out[len] := c[i];
      len := len + 1;
    }
    assert c[..|c|] == c;
  }

  /** "/name" at the end of the buffer, without the separator right after the root. */
  method Append(out: array<char>, end: array<nat>, len: nat, ncomp: nat, c: string, size: nat, ghost st: seq<string>)
      returns (len': nat)
    requires Holds(out, end, len, ncomp, st, size) && Proper(c) && ncomp < MAX_COMPS && |Canon(st + [c])| + 1 <= size
    modifies out, end
    ensures Holds(out, end, len', ncomp + 1, st + [c], size) && out[size..] == old(out[size..])
  {
    CanonLength(st);
    CanonNext(st, c);
    len' := len;
    ghost var full := Canon(st + [c]);
    if len' != 1 {
      out[len'] := '/';
      len' := len' + 1;
    }
    assert out[..len'] + c == full;
    len' := Copy(out, len', c, size);
    end[ncomp] := len';
    ghost var more := st + [c];
    assert more[..ncomp + 1] == more;
    forall k | 0 <= k < ncomp ensures EndsAt(end[k], more, k) {
      EndsKept(st, c, k);
      assert end[k] == old(end[k]);
    }
  }

  /** Taking a component off is going back to where the one before it ended. */
  lemma PopHolds(out: array<char>, end: array<nat>, len: nat, ncomp: nat, st: seq<string>, size: nat)
    requires Holds(out, end, len, ncomp, st, size) && ncomp > 0
    ensures Holds(out, end, if ncomp > 1 then end[ncomp - 2] else 1, ncomp - 1, st[..ncomp - 1], size)
  {
    var init, c := st[..ncomp - 1], st[ncomp - 1];
    assert init + [c] == st && Clean(init);
    CanonNext(init, c);
    assert Canon(init) <= Canon(st);
    var n := |Canon(init)|;
    assert out[..n] == out[..len][..n];
    forall k | 0 <= k < ncomp - 1 ensures EndsAt(end[k], init, k) { EndsKept(init, c, k); }
    if ncomp > 1 {
      assert EndsAt(end[ncomp - 2], init, ncomp - 2) && init[..ncomp - 1] == init;
    } else {
      assert init == [];
    }
  }

  /** The loop over one source, the working directory or the path. */
  method Take(out: array<char>, end: array<nat>, len0: nat, ncomp0: nat, p: string, size: nat, ghost st0: seq<string>)
    returns (ok: bool, len: nat, ncomp: nat, ghost st: seq<string>)
    requires Holds(out, end, len0, ncomp0, st0, size)
    modifies out, end
    ensures ok <==> Fold(st0, Parts(p, 0), size).Ok?
    ensures ok ==> Fold(st0, Parts(p, 0), size) == Ok(st) && Holds(out, end, len, ncomp, st, size)
    ensures out[size..] == old(out[size..])
  {
    len, ncomp, st := len0, ncomp0, st0;
    var i: nat := 0;
    while i < |p|
      invariant i <= |p| && Holds(out, end, len, ncomp, st, size) &&
          Fold(st, Parts(p, i), size) == Fold(st0, Parts(p, 0), size)
      invariant out[size..] == old(out[size..])
      decreases |p| - i
    {
      ghost var cs := Parts(p, i);
      PartsArePlain(p, i);
      var b, e := Scan(p, i);
      if b == |p| { break; }
      var c := p[b..e];
      assert cs[0] == c && cs[1..] == Parts(p, e) && Plain(c);
      i := e;
      if c == "." {
      } else if c == ".." {
        if ncomp > 0 {
          PopHolds(out, end, len, ncomp, st, size);
          ncomp := ncomp - 1;
          len := if ncomp > 0 then end[ncomp - 1] else 1;
          st := st[..ncomp];
        }
      } else {
        CanonLength(st);
        CanonNext(st, c);
        if ncomp >= MAX_COMPS { return false, len, ncomp, st; }
        var need := (if len == 1 then 0 else 1) + |c|;
        if len + need + 1 > size { return false, len, ncomp, st; }
        len := Append(out, end, len, ncomp, c, size, st);
        ncomp := ncomp + 1;
        st := st + [c];
      }
    }
    ok := true;
  }

  /** path_canonicalize. The output is the canonical path of the fold of all components, with a NUL, inside the
      buffer; or it is refused because the fold is, at some component, too long or too deep. */
  method Canonicalize(cwd: string, path: string, out: array<char>, size: nat) returns (rc: int, len: nat)
    requires size <= out.Length
    modifies out
    ensures rc == if size < 2 then EINVAL else if Fold([], Full(cwd, path), size).Ok? then 0 else ERANGE
    ensures rc == 0 ==> var st := Fold([], Full(cwd, path), size).st;
      Clean(st) && len == |Canon(st)| < size && out[..len] == Canon(st) && out[len] == '\0'
    ensures rc == 0 ==> Gives(cwd, path, size, out[..len])
    ensures out[size..] == old(out[size..])
  {
    len := 0;
    if size < 2 { return EINVAL, 0; }
    var end := new nat[MAX_COMPS];
    out[0] := '/';
    len := 1;
    var ncomp, ok := 0, true;
    ghost var st: seq<string> := [];
    var cs := if cwd != "" then cwd else "/";
    assert Parts(cs, 0) == Parts(cwd, 0);
    assert out[..1] == Canon(st);
    FoldSplit([], Parts(cwd, 0), Parts(path, 0), size);
    assert [] + Parts(path, 0) == Parts(path, 0);
    if !(path != "" && path[0] == '/') {
      ok, len, ncomp, st := Take(out, end, len, ncomp, cs, size, st);
      if !ok { return ERANGE, len; }
    }
    ok, len, ncomp, st := Take(out, end, len, ncomp, path, size, st);
    if !ok { return ERANGE, len; }
    out[len] := '\0';
    rc := 0;
  }
}
