/** A pipeline running on the kernel: the shell's run_pipeline and the stages' plumbing (user/sh.c) as calls on the
    descriptor tables of Descriptors, the programs of the stages and all other processes making whatever requests
    they like, and every pipe going through the blocking protocol of PipeProtocol, in any order. */
module Plumbing {
  import opened Descriptors
  import opened Pipeline
  import PipeProtocol

  const OUTSIDE := -2
  const SHELL := -1
  const RUNNING := PLUMBED + 1   // a stage that has gone on to redirections and its program

  /** The descriptor tables and processes, and to whom each process belongs: the shell, a stage, or neither. */
  datatype World = World(ts: seq<Table>, ps: seq<Proc>, group: seq<int>) {
    function Names(q: nat): seq<int> { Fds(ts, ps, q) }
  }

  // ------------------------------------------------------------ who names which end

  /** Only the write end of pipe `w` and the read end of pipe `r`. */
  predicate CleanAt(fds: seq<int>, ends: seq<End>, w: int, r: int, i: nat) {
    i < |ends| ==> (W(ends, i) in fds ==> i == w) && (R(ends, i) in fds ==> i == r)
  }

  ghost predicate Clean(fds: seq<int>, ends: seq<End>, w: int, r: int) {
    forall i: nat {:trigger CleanAt(fds, ends, w, r, i)} :: CleanAt(fds, ends, w, r, i)
  }

  /** No other process has the table of process `q`. */
  ghost predicate Private(ps: seq<Proc>, q: nat) {
    q < |ps| && forall r {:trigger ps[r]} :: 0 <= r < |ps| && r != q && ps[q].table != EMPTY ==>
        ps[r].table != ps[q].table
  }

  /** A process of a stage that runs names no ends but the stage's own input and output, and one outside none. */
  ghost predicate ProcFine(c: Setting, ends: seq<End>, s: Shell, x: World, q: nat) {
    q < |x.ps| == |x.group| ==>
      var g := x.group[q];
      || (g == OUTSIDE && Clean(x.Names(q), ends, -1, -1))
      || (g == SHELL && q == c.shell)
      || (0 <= g < |s.kids| && if s.kids[g].pc < RUNNING then q == s.kids[g].proc
          else Clean(x.Names(q), ends, g, g - 1))
  }

  /** A stage that is not running yet has a table of its own and names what it has got to by then. */
  ghost predicate KidFine(c: Setting, ends: seq<End>, s: Shell, x: World, j: nat)
    requires c.Valid()
  {
    j < |s.kids| ==>
      var k := s.kids[j];
      && k.pc <= RUNNING && Wired(c, j, k) && Piped(c, ends, j) && k.proc < |x.ps| == |x.group| && x.group[k.proc] == j
      && (k.pc < RUNNING ==> Private(x.ps, k.proc) && x.Names(k.proc) == Holding(c, ends, j, k))
  }

  ghost predicate Good(c: Setting, ends: seq<End>, s: Shell, x: World) {
    && c.Valid() && c.shell < |x.ps| == |x.group| && x.group[c.shell] == SHELL && Private(x.ps, c.shell)
    && ShellOk(c, ends, s, x.Names(c.shell)) && Fared(c, s)
    && (forall q: nat {:trigger ProcFine(c, ends, s, x, q)} :: ProcFine(c, ends, s, x, q))
    && (forall j: nat {:trigger KidFine(c, ends, s, x, j)} :: KidFine(c, ends, s, x, j))
  }

  // ------------------------------------------------------------ the pipes that have been made

  ghost predicate EndFine(fs: seq<File>, vs: seq<Vnode>, ends: seq<End>, j: nat) {
    j < |ends| ==> ends[j].v < |vs| && vs[ends[j].v].fifo && TwoEnds(fs, ends[j].v, ends[j].r, ends[j].r + 1)
  }

  ghost predicate Later(ends: seq<End>, i: nat, j: nat) {
    i < j < |ends| ==> ends[i].r + 1 < ends[j].r
  }

  ghost predicate EndsFine(c: Setting, fs: seq<File>, vs: seq<Vnode>, ends: seq<End>) {
    && c.first <= |fs|
    && (forall j: nat {:trigger EndFine(fs, vs, ends, j)} :: EndFine(fs, vs, ends, j))
    && (forall j :: 0 <= j < |ends| ==> c.first <= ends[j].r)
    && (forall i: nat, j: nat {:trigger Later(ends, i, j)} :: Later(ends, i, j))
  }

  lemma EndsKept(c: Setting, fs0: seq<File>, vs0: seq<Vnode>, fs: seq<File>, vs: seq<Vnode>, ends: seq<End>)
    requires EndsFine(c, fs0, vs0, ends) && Kept(fs0, vs0, fs, vs)
    ensures EndsFine(c, fs, vs, ends)
  {
    forall j: nat ensures EndFine(fs, vs, ends, j) {
      assert EndFine(fs0, vs0, ends, j);
      if j < |ends| { TwoEndsKept(fs0, vs0, fs, vs, ends[j].v, ends[j].r, ends[j].r + 1); }
    }
  }

  lemma TwoEndsKept(fs0: seq<File>, vs0: seq<Vnode>, fs: seq<File>, vs: seq<Vnode>, v: nat, r: nat, w: nat)
    requires Kept(fs0, vs0, fs, vs) && v < |vs0| && vs0[v].fifo && TwoEnds(fs0, v, r, w)
    ensures TwoEnds(fs, v, r, w)
  {
    assert SameEnd(fs0[r], fs[r]) && SameEnd(fs0[w], fs[w]);
    forall f | 0 <= f < |fs| && fs[f].vnode == v ensures f == r || f == w {
      if f < |fs0| { assert SameEnd(fs0[f], fs[f]) && fs0[f].vnode == v; }
    }
  }

  /** A pipe just made. */
  lemma EndsMore(c: Setting, fs: seq<File>, vs: seq<Vnode>, fs': seq<File>, vs': seq<Vnode>, ends: seq<End>)
    requires EndsFine(c, fs, vs, ends) && (forall f {:trigger fs[f]} :: 0 <= f < |fs| ==> fs[f].vnode < |vs|)
    requires fs' == fs + [File(|vs|, false, 1, false)] + [File(|vs|, true, 1, false)] &&
        vs' == vs + [Vnode(true, 0, 2, 1, 1, false)]
    ensures EndsFine(c, fs', vs', ends + [End(|fs|, |vs|)])
  {
    var ends' := ends + [End(|fs|, |vs|)];
    forall j: nat ensures EndFine(fs', vs', ends', j) {
      assert EndFine(fs, vs, ends, j);
      if j == |ends| {
        assert forall f {:trigger fs'[f]} :: 0 <= f < |fs| ==> fs'[f] == fs[f];
      }
    }
    forall i: nat, j: nat ensures Later(ends', i, j) {
      assert Later(ends, i, j) && EndFine(fs, vs, ends, i);
    }
  }

  // ------------------------------------------------------------ steps that keep all this

  /** Only process `p`, which shares its table with nobody, has changed what it names. */
  ghost predicate OnlyHere(x: World, x': World, p: nat) {
    && p < |x.ps| == |x'.ps| && x'.group == x.group && |x.group| == |x.ps|
    && Private(x'.ps, p)
    && forall q: nat {:trigger x'.Names(q)} :: q < |x.ps| && q != p ==> x'.ps[q] == x.ps[q] && x'.Names(q) == x.Names(q)
  }

  lemma PrivateKept(x: World, x': World, p: nat, q: nat)
    requires OnlyHere(x, x', p) && Private(x.ps, q) && q != p
    ensures Private(x'.ps, q)
  {
    assert x'.Names(q) == x.Names(q);
    forall r | 0 <= r < |x'.ps| && r != q && x'.ps[q].table != EMPTY ensures x'.ps[r].table != x'.ps[q].table {
      if r != p { assert x'.Names(r) == x.Names(r); }
    }
  }

  /** The stages and processes other than `p` after such a step. */
  lemma RestKept(c: Setting, ends: seq<End>, s: Shell, x: World, x': World, p: nat)
    requires Good(c, ends, s, x) && OnlyHere(x, x', p)
    ensures forall q: nat {:trigger ProcFine(c, ends, s, x', q)} :: q != p ==> ProcFine(c, ends, s, x', q)
    ensures forall j: nat {:trigger KidFine(c, ends, s, x', j)} :: j < |s.kids| && s.kids[j].proc != p ==>
        KidFine(c, ends, s, x', j)
    ensures p != c.shell ==> Private(x'.ps, c.shell) && x'.Names(c.shell) == x.Names(c.shell)
  {
    forall q: nat | q != p ensures ProcFine(c, ends, s, x', q) {
      assert ProcFine(c, ends, s, x, q);
      if q < |x.ps| { assert x'.Names(q) == x.Names(q); }
    }
    forall j: nat | j < |s.kids| && s.kids[j].proc != p ensures KidFine(c, ends, s, x', j) {
      assert KidFine(c, ends, s, x, j);
      var k := s.kids[j];
      assert x'.Names(k.proc) == x.Names(k.proc);
      if k.pc < RUNNING { PrivateKept(x, x', p, k.proc); }
    }
    if p != c.shell {
      PrivateKept(x, x', p, c.shell);
      assert x'.Names(c.shell) == x.Names(c.shell);
    }
  }

  /** The shell takes a step that leaves the stages and the pipes as they are. */
  lemma ShellMoved(c: Setting, ends: seq<End>, s: Shell, s': Shell, x: World, x': World)
    requires Good(c, ends, s, x) && OnlyHere(x, x', c.shell) && s'.kids == s.kids &&
        ShellOk(c, ends, s', x'.Names(c.shell)) && Fared(c, s')
    ensures Good(c, ends, s', x')
  {
    RestKept(c, ends, s, x, x', c.shell);
    forall q: nat ensures ProcFine(c, ends, s', x', q) {
      if q != c.shell { assert ProcFine(c, ends, s, x', q); }
    }
    forall j: nat ensures KidFine(c, ends, s', x', j) {
      assert KidFine(c, ends, s, x, j);
      if j < |s.kids| { assert KidFine(c, ends, s, x', j); }
    }
  }

  /** Nothing named is as new as this. */
  predicate Below(fds: seq<int>, n: nat) {
    forall i :: 0 <= i < |fds| ==> fds[i] < n
  }

  lemma HoldingSame(c: Setting, ends: seq<End>, e: End, j: nat, k: Child)
    requires c.Valid() && Wired(c, j, k) && Piped(c, ends, j)
    ensures Piped(c, ends + [e], j) && Holding(c, ends + [e], j, k) == Holding(c, ends, j, k)
  {
    var more := ends + [e];
    assert j > 0 ==> R(more, j - 1) == R(ends, j - 1);
    assert !c.Last(j) ==> R(more, j) == R(ends, j) && W(more, j) == W(ends, j);
  }

  lemma CleanMore(fds: seq<int>, ends: seq<End>, e: End, w: int, r: int)
    requires Clean(fds, ends, w, r) && Below(fds, e.r)
    ensures Clean(fds, ends + [e], w, r)
  {
    forall i: nat ensures CleanAt(fds, ends + [e], w, r, i) {
      assert CleanAt(fds, ends, w, r, i);
    }
  }

  /** The shell has made a pipe. */
  lemma ShellPiped(c: Setting, ends: seq<End>, s: Shell, s': Shell, x: World, x': World, e: End)
    requires Good(c, ends, s, x) && OnlyHere(x, x', c.shell) && s'.kids == s.kids
    requires forall q: nat {:trigger x.Names(q)} :: q < |x.ps| ==> Below(x.Names(q), e.r)
    requires ShellOk(c, ends + [e], s', x'.Names(c.shell)) && Fared(c, s')
    ensures Good(c, ends + [e], s', x')
  {
    RestKept(c, ends, s, x, x', c.shell);
    forall q: nat ensures ProcFine(c, ends + [e], s', x', q) {
      if q != c.shell && q < |x.ps| {
        assert ProcFine(c, ends, s, x, q) && ProcFine(c, ends, s, x', q) && x'.Names(q) == x.Names(q);
        var g := x.group[q];
        if g == OUTSIDE { CleanMore(x.Names(q), ends, e, -1, -1); }
        else if 0 <= g < |s.kids| && s.kids[g].pc == RUNNING { CleanMore(x.Names(q), ends, e, g, g - 1); }
        else if 0 <= g { assert KidFine(c, ends, s, x, g); }
      }
    }
    forall j: nat ensures KidFine(c, ends + [e], s', x', j) {
      assert KidFine(c, ends, s, x, j);
      if j < |s.kids| {
        assert KidFine(c, ends, s, x', j);
        HoldingSame(c, ends, e, j, s.kids[j]);
      }
    }
  }

  /** The shell has forked a stage. */
  lemma ShellForked(c: Setting, ends: seq<End>, s: Shell, x: World, x': World, s': Shell)
    requires Good(c, ends, s, x) && s.pc == Forking && s' == s.(pc := ClosingIn, kids := s.kids + [Draft(c, s, |x.ps|)])
    requires |x'.ps| == |x.ps| + 1 && x'.ps[..|x.ps|] == x.ps && x'.group == x.group + [s.i] && |x.ts| <= |x'.ts| &&
        x'.ts[..|x.ts|] == x.ts
    requires Tabled(x.ts, x.ps) && x'.Names(|x.ps|) == x.Names(c.shell) &&
        (x'.ps[|x.ps|].table == EMPTY || x'.ps[|x.ps|].table >= |x.ts|)
    ensures Good(c, ends, s', x')
  {
    var n := |x.ps|;
    forall q: nat | q < n ensures x'.ps[q] == x.ps[q] && x'.Names(q) == x.Names(q) {
      assert x'.ps[..n][q] == x.ps[q];
    }
    forall q: nat | q < n && Private(x.ps, q) ensures Private(x'.ps, q) {
      forall r | 0 <= r < |x'.ps| && r != q && x'.ps[q].table != EMPTY ensures x'.ps[r].table != x'.ps[q].table {
        if r < n { assert x'.ps[r] == x.ps[r]; }
      }
    }
    assert Private(x'.ps, n) by {
      forall r | 0 <= r < |x'.ps| && r != n && x'.ps[n].table != EMPTY ensures x'.ps[r].table != x'.ps[n].table {
        assert x'.ps[r] == x.ps[r];
      }
    }
    StageForked(c, ends, s, x.Names(c.shell), n);
    forall j: nat ensures KidFine(c, ends, s', x', j) {
      assert KidFine(c, ends, s, x, j);
    }
    forall q: nat ensures ProcFine(c, ends, s', x', q) {
      assert ProcFine(c, ends, s, x, q);
    }
  }

  lemma EndsClean(c: Setting, ends: seq<End>, j: nat, r: int, fs: seq<File>, vs: seq<Vnode>)
    requires c.Valid() && EndsFine(c, fs, vs, ends) && Piped(c, ends, j) && r == j - 1
    ensures Clean(Ends(c, ends, j, true, true), ends, j, r)
  {
    var a := Ends(c, ends, j, true, true);
    forall i: nat ensures CleanAt(a, ends, j, r, i) {
      if i < |ends| {
        Distinct(c, fs, vs, ends, i, j);
        Distinct(c, fs, vs, ends, i, if j > 0 then j - 1 else 0);
      }
    }
  }

  lemma Distinct(c: Setting, fs: seq<File>, vs: seq<Vnode>, ends: seq<End>, i: nat, j: nat)
    requires EndsFine(c, fs, vs, ends) && i < |ends|
    ensures W(ends, i) != R(ends, j) && (W(ends, i) == W(ends, j) ==> i == j) && (R(ends, i) == R(ends, j) ==> i == j)
    ensures R(ends, i) >= c.first && W(ends, i) >= c.first && R(ends, i) != W(ends, j)
  {
    assert Later(ends, i, j) && Later(ends, j, i);
  }

  /** A stage takes a step of its plumbing, or is done with it and goes on to run. */
  lemma StageMoved(c: Setting, ends: seq<End>, s: Shell, s': Shell, x: World, x': World, j: nat, fs: seq<File>,
      vs: seq<Vnode>)
    requires Good(c, ends, s, x) && EndsFine(c, fs, vs, ends) && j < |s.kids| && s.kids[j].pc < RUNNING
    requires OnlyHere(x, x', s.kids[j].proc)
    requires s' == s.(kids := s.kids[j := s.kids[j].(pc := s.kids[j].pc + 1)])
    requires if s.kids[j].pc < PLUMBED then Plumbs(s.kids[j], x.Names(s.kids[j].proc), x'.Names(s.kids[j].proc))
        else x'.Names(s.kids[j].proc) == x.Names(s.kids[j].proc)
    ensures Good(c, ends, s', x')
  {
    var k := s.kids[j];
    assert KidFine(c, ends, s, x, j);
    if k.pc < PLUMBED {
      StageKeeps(c, ends, j, k, x.Names(k.proc), x'.Names(k.proc));
    } else {
      EndsClean(c, ends, j, j - 1, fs, vs);
    }
    StageReplaced(c, ends, s, s', x, x', j, k.pc + 1);
  }

  /** Stage `j` alone has moved, to where it names what it should. */
  lemma StageReplaced(c: Setting, ends: seq<End>, s: Shell, s': Shell, x: World, x': World, j: nat, pc: nat)
    requires Good(c, ends, s, x) && j < |s.kids| && s.kids[j].pc < RUNNING && OnlyHere(x, x', s.kids[j].proc)
    requires pc <= RUNNING && s' == s.(kids := s.kids[j := s.kids[j].(pc := pc)])
    requires var k := s'.kids[j];
        if k.pc < RUNNING then Wired(c, j, k) && x'.Names(k.proc) == Holding(c, ends, j, k)
        else Clean(x'.Names(k.proc), ends, j, j - 1)
    ensures Good(c, ends, s', x')
  {
    var k := s.kids[j];
    assert KidFine(c, ends, s, x, j) && ProcFine(c, ends, s, x, k.proc);
    RestKept(c, ends, s, x, x', k.proc);
    forall i: nat ensures KidFine(c, ends, s', x', i) {
      assert KidFine(c, ends, s, x, i);
      if i < |s.kids| && i != j { assert KidFine(c, ends, s, x', i); }
    }
    forall q: nat ensures ProcFine(c, ends, s', x', q) {
      if q != k.proc { assert ProcFine(c, ends, s, x', q); OtherProc(c, ends, s, s', x', q, j, pc); }
    }
  }

  lemma OtherProc(c: Setting, ends: seq<End>, s: Shell, s': Shell, x: World, q: nat, j: nat, pc: nat)
    requires ProcFine(c, ends, s, x, q) && j < |s.kids| && q != s.kids[j].proc && s.kids[j].pc < RUNNING
    requires s' == s.(kids := s.kids[j := s.kids[j].(pc := pc)])
    ensures ProcFine(c, ends, s', x, q)
  {
  }

  /** The process may make requests of its own: it is outside, or of a stage that runs. */
  predicate Free(s: Shell, group: seq<int>, p: nat) {
    p < |group| && (group[p] == OUTSIDE || (0 <= group[p] < |s.kids| && s.kids[group[p]].pc == RUNNING))
  }

  /** New processes belong where the process that made them belongs. */
  function Grown(group: seq<int>, n: nat, p: nat): (r: seq<int>)
    requires p < |group| <= n
    ensures |r| == n && r[..|group|] == group && forall q {:trigger r[q]} :: |group| <= q < n ==> r[q] == group[p]
  {
    group + seq(n - |group|, _ => group[p])
  }

  lemma CleanInherits(fds: seq<int>, was: seq<int>, n: nat, ends: seq<End>, w: int, r: int)
    requires Clean(was, ends, w, r) && Inherits(fds, was, n) && forall j :: 0 <= j < |ends| ==> ends[j].r + 1 < n
    ensures Clean(fds, ends, w, r)
  {
    forall i: nat ensures CleanAt(fds, ends, w, r, i) {
      assert CleanAt(was, ends, w, r, i);
    }
  }

  /** What is not the process's own to change stays. */
  lemma PrivateUntouched(n: nat, x: World, x': World, p: nat, q: nat)
    requires Passed(n, x.ts, x.ps, x'.ts, x'.ps, p) && Tabled(x.ts, x.ps) && Private(x.ps, q) && q != p
    ensures Private(x'.ps, q) && x'.ps[q] == x.ps[q] && x'.Names(q) == x.Names(q)
  {
    assert PassedTo(n, x.ts, x.ps, x'.ts, x'.ps, p, q);
    assert x.ps[q].table != EMPTY ==> x.ps[p].table != x.ps[q].table;
    forall r | 0 <= r < |x'.ps| && r != q && x'.ps[q].table != EMPTY ensures x'.ps[r].table != x'.ps[q].table {
      assert PassedTo(n, x.ts, x.ps, x'.ts, x'.ps, p, r);
      var f := From(x.ps, p, r);
      assert f != q && x.ps[f].table != x.ps[q].table;
    }
  }

  /** Whatever a process that is free to asks for. */
  lemma FreeMoved(c: Setting, ends: seq<End>, s: Shell, n: nat, x: World, x': World, p: nat)
    requires Good(c, ends, s, x) && Free(s, x.group, p) && Tabled(x.ts, x.ps) && Passed(n, x.ts, x.ps, x'.ts, x'.ps, p)
    requires x'.group == Grown(x.group, |x'.ps|, p) && forall j :: 0 <= j < |ends| ==> ends[j].r + 1 < n
    ensures Good(c, ends, s, x')
  {
    assert ProcFine(c, ends, s, x, p);
    assert p != c.shell;
    forall q | 0 <= q < |x.group| ensures x'.group[q] == x.group[q] {
      assert x'.group[..|x.group|][q] == x.group[q];
    }
    PrivateUntouched(n, x, x', p, c.shell);
    forall q: nat ensures ProcFine(c, ends, s, x', q) {
      if q < |x'.ps| { FreeProc(c, ends, s, n, x, x', p, q); }
    }
    forall j: nat ensures KidFine(c, ends, s, x', j) {
      assert KidFine(c, ends, s, x, j);
      if j < |s.kids| && s.kids[j].pc < RUNNING { PrivateUntouched(n, x, x', p, s.kids[j].proc); }
    }
  }

  lemma FreeProc(c: Setting, ends: seq<End>, s: Shell, n: nat, x: World, x': World, p: nat, q: nat)
    requires Good(c, ends, s, x) && Free(s, x.group, p) && Passed(n, x.ts, x.ps, x'.ts, x'.ps, p) &&
        q < |x'.ps| == |x'.group|
    requires x'.group[q] == x.group[From(x.ps, p, q)] && forall j :: 0 <= j < |ends| ==> ends[j].r + 1 < n
    ensures ProcFine(c, ends, s, x', q)
  {
    var f := From(x.ps, p, q);
    assert ProcFine(c, ends, s, x, f) && PassedTo(n, x.ts, x.ps, x'.ts, x'.ps, p, q);
    var g := x.group[f];
    if g == OUTSIDE {
      CleanInherits(x'.Names(q), x.Names(f), n, ends, -1, -1);
    } else if 0 <= g && s.kids[g].pc >= RUNNING {
      CleanInherits(x'.Names(q), x.Names(f), n, ends, g, g - 1);
    }
  }

  // ------------------------------------------------------------ what the pipes go through

  /** What has happened to a pipe so far. */
  datatype History = History(tr: seq<PipeProtocol.State>, ev: seq<PipeProtocol.Event>) {
    ghost predicate Fine(n: nat) { PipeProtocol.Run(tr, ev, n) }

    function Now(): PipeProtocol.State
      requires |tr| == |ev| + 1
    {
      tr[|ev|]
    }
  }

  function Begun(n: nat): History {
    History([PipeProtocol.Start(n)], [])
  }

  function Continued(h: History, e: PipeProtocol.Event): History
    requires |h.tr| == |h.ev| + 1 && PipeProtocol.Enabled(h.Now(), e)
  {
    History(h.tr + [PipeProtocol.Apply(h.Now(), e)], h.ev + [e])
  }

  lemma ContinuedFine(h: History, e: PipeProtocol.Event, n: nat)
    requires h.Fine(n) && PipeProtocol.Enabled(h.Now(), e)
    ensures Continued(h, e).Fine(n) && h.tr <= Continued(h, e).tr && h.ev <= Continued(h, e).ev
    ensures Continued(h, e).Now() == PipeProtocol.Apply(h.Now(), e)
  {
    var g := Continued(h, e);
    forall i: nat ensures PipeProtocol.StepAt(g.tr, g.ev, i) {
      assert PipeProtocol.StepAt(h.tr, h.ev, i);
    }
  }

  /** pipe_detach of the ends that have gone. */
  function CaughtUp(h: History, readers: int, writers: int): History
    requires |h.tr| == |h.ev| + 1
  {
    var g := if h.Now().readers > readers && h.Now().readers > 0 then Continued(h, PipeProtocol.CloseReader) else h;
    if g.Now().writers > writers && g.Now().writers > 0 then Continued(g, PipeProtocol.CloseWriter) else g
  }

  lemma CaughtUpFine(h: History, readers: int, writers: int, n: nat)
    requires h.Fine(n) && 0 <= readers <= h.Now().readers <= readers + 1 &&
        0 <= writers <= h.Now().writers <= writers + 1
    ensures var g := CaughtUp(h, readers, writers);
        g.Fine(n) && g.Now().readers == readers && g.Now().writers == writers && h.tr <= g.tr && h.ev <= g.ev
  {
    var g := if h.Now().readers > readers then Continued(h, PipeProtocol.CloseReader) else h;
    if h.Now().readers > readers { ContinuedFine(h, PipeProtocol.CloseReader, n); }
    if g.Now().writers > writers { ContinuedFine(g, PipeProtocol.CloseWriter, n); }
  }

  /** The history of pipe `j` is a run of the protocol that has come to as many readers and writers as the kernel
      counts. */
  ghost predicate Told(runs: seq<History>, ends: seq<End>, vs: seq<Vnode>, n: nat, j: nat) {
    j < |runs| && j < |ends| && ends[j].v < |vs| ==>
      runs[j].Fine(n) && runs[j].Now().readers == vs[ends[j].v].readers &&
          runs[j].Now().writers == vs[ends[j].v].writers
  }

  ghost predicate AllTold(runs: seq<History>, ends: seq<End>, vs: seq<Vnode>, n: nat) {
    |runs| == |ends| && forall j: nat {:trigger Told(runs, ends, vs, n, j)} :: Told(runs, ends, vs, n, j)
  }

  /** Histories only go on. */
  ghost predicate Grows(was: seq<History>, runs: seq<History>) {
    |was| <= |runs| && forall j {:trigger runs[j]} :: 0 <= j < |was| ==>
        was[j].tr <= runs[j].tr && was[j].ev <= runs[j].ev
  }

  function Synced(runs: seq<History>, ends: seq<End>, vs: seq<Vnode>): (r: seq<History>)
    requires |runs| == |ends|
    ensures |r| == |runs|
  {
    seq(|runs|, j requires 0 <= j < |runs| == |ends| =>
      if |runs[j].tr| == |runs[j].ev| + 1 && ends[j].v < |vs| then CaughtUp(runs[j], vs[ends[j].v].readers,
          vs[ends[j].v].writers) else runs[j])
  }

  /** What the kernel holds. */
  datatype Heap = Heap(fs: seq<File>, ts: seq<Table>, rcs: seq<int>, vs: seq<Vnode>, ps: seq<Proc>) {
    ghost predicate Fine() { Inv(fs, ts, rcs, vs, ps, EMPTY, EMPTY) }
  }

  /** An end that was closed stays closed. */
  lemma EndsOnlyGo(a: Heap, b: Heap, ends: seq<End>, j: nat)
    requires a.Fine() && b.Fine() && EndFine(a.fs, a.vs, ends, j) && EndFine(b.fs, b.vs, ends, j) &&
        Kept(a.fs, a.vs, b.fs, b.vs) && j < |ends|
    ensures var v := ends[j].v;
        0 <= b.vs[v].readers <= a.vs[v].readers <= 1 && 0 <= b.vs[v].writers <= a.vs[v].writers <= 1
  {
    var v, r, w := ends[j].v, ends[j].r, ends[j].r + 1;
    EndsCounted(a.fs, a.ts, a.rcs, a.vs, a.ps, v, r, w);
    EndsCounted(b.fs, b.ts, b.rcs, b.vs, b.ps, v, r, w);
    assert SameEnd(a.fs[r], b.fs[r]) && SameEnd(a.fs[w], b.fs[w]);
  }

  lemma SyncedTold(c: Setting, a: Heap, b: Heap, ends: seq<End>, runs: seq<History>, n: nat)
    requires a.Fine() && b.Fine() && EndsFine(c, a.fs, a.vs, ends) && EndsFine(c, b.fs, b.vs, ends) &&
        Kept(a.fs, a.vs, b.fs, b.vs)
    requires AllTold(runs, ends, a.vs, n)
    ensures AllTold(Synced(runs, ends, b.vs), ends, b.vs, n) && Grows(runs, Synced(runs, ends, b.vs))
  {
    var r := Synced(runs, ends, b.vs);
    forall j: nat ensures Told(r, ends, b.vs, n, j) && (j < |runs| ==> runs[j].tr <= r[j].tr && runs[j].ev <= r[j].ev) {
      assert Told(runs, ends, a.vs, n, j) && EndFine(a.fs, a.vs, ends, j) && EndFine(b.fs, b.vs, ends, j);
      if j < |runs| {
        EndsOnlyGo(a, b, ends, j);
        CaughtUpFine(runs[j], b.vs[ends[j].v].readers, b.vs[ends[j].v].writers, n);
      }
    }
  }

  lemma BegunTold(runs: seq<History>, ends: seq<End>, vs: seq<Vnode>, vs': seq<Vnode>, e: End, n: nat)
    requires AllTold(runs, ends, vs,
        n) && vs' == vs + [Vnode(true, 0, 2, 1, 1, false)] && e.v == |vs| && forall j :: 0 <= j < |ends| ==>
        ends[j].v < |vs|
    ensures AllTold(runs + [Begun(n)], ends + [e], vs', n) && Grows(runs, runs + [Begun(n)])
  {
    forall j: nat ensures Told(runs + [Begun(n)], ends + [e], vs', n, j) {
      assert Told(runs, ends, vs, n, j);
      if j == |runs| {
        forall i: nat ensures PipeProtocol.StepAt(Begun(n).tr, [], i) {
        }
      }
    }
  }

  lemma ContinuedTold(runs: seq<History>, ends: seq<End>, vs: seq<Vnode>, n: nat, j: nat, e: PipeProtocol.Event)
    requires AllTold(runs, ends, vs, n) && j < |runs| && ends[j].v < |vs| && PipeProtocol.Run(runs[j].tr, runs[j].ev, n)
    requires PipeProtocol.Enabled(runs[j].Now(), e) && !e.CloseReader? && !e.CloseWriter?
    ensures AllTold(runs[j := Continued(runs[j], e)], ends, vs, n) && Grows(runs, runs[j := Continued(runs[j], e)])
  {
    ContinuedFine(runs[j], e, n);
    var runs' := runs[j := Continued(runs[j], e)];
    forall i: nat ensures Told(runs', ends, vs, n, i) {
      assert Told(runs, ends, vs, n, i);
    }
  }

  // ------------------------------------------------------------ the machine

  /** A step of somebody: the shell, a stage not running yet, a signal that kills such a stage, a request of any
      other process, or something that happens in a pipe. */
  datatype Event =
    | ShellGo
    | StageGo(j: nat)
    | Kill(j: nat)
    | Request(op: Op)
    | InPipe(j: nat, e: PipeProtocol.Event)

  lemma NamesBelow(h: Heap, q: nat)
    requires h.Fine()
    ensures Below(Fds(h.ts, h.ps, q), |h.fs|)
  {
    assert ProcOk(h.ts, h.rcs, h.ps, q);
    if q < |h.ps| && h.ps[q].table != EMPTY { assert TableOk(h.fs, h.ts, h.ps, EMPTY, h.ps[q].table); }
  }

  /** How the shell goes on: what run_pipeline does next, given the descriptors it has and how many processes there
      are. */
  predicate ShellNext(c: Setting, s: Shell, s': Shell, fds: seq<int>, procs: nat) {
    match s.pc
    case Piping =>
      if c.Last(s.i) then s' == s.(pc := Forking, rfd := EMPTY, wfd := EMPTY)
      else if NotTwo(fds) then s' == s.(pc := Failed)
      else FirstTwo(fds, s'.rfd, s'.wfd) && s' == s.(pc := Forking, rfd := s'.rfd, wfd := s'.wfd)
    case Forking => s' == s.(pc := ClosingIn, kids := s.kids + [Draft(c, s, procs)])
    case ClosingIn => s' == s.(pc := ClosingOut)
    case ClosingOut => s' == Onwards(c, s)
    case _ => s' == s
  }

  class Machine {
    const kernel: Kernel
    var s: Shell
    const c: Setting
    const n: nat                     // threads that may use a pipe
    var ends: seq<End>               // the pipes made
    var group: seq<int>              // to whom each process belongs
    var runs: seq<History>           // what each pipe has gone through

    ghost function Mem(): Heap
      reads kernel
    {
      Heap(kernel.files, kernel.tables, kernel.rcs, kernel.vnodes, kernel.procs)
    }

    ghost function Now(): World
      reads this, kernel
    {
      World(kernel.tables, kernel.procs, group)
    }

    ghost predicate Valid()
      reads this, kernel
    {
      && kernel.Valid() && Good(c, ends, s, Now())
      && EndsFine(c, kernel.files, kernel.vnodes, ends) && AllTold(runs, ends, kernel.vnodes, n)
    }

    /** run_pipeline is called by process `shell`, whose table nobody shares. */
    constructor (k: Kernel, shell: nat, ns: nat, threads: nat)
      requires k.Valid() && shell < |k.procs| && Private(k.procs, shell) && ns > 0
      ensures Valid() && kernel == k && c == Setting(ns, shell, Fds(k.tables, k.procs, shell), |k.files|) &&
          n == threads
      ensures s == Shell(Piping, 0, 0, EMPTY, EMPTY, []) && runs == []
    {
      kernel, n := k, threads;
      c := Setting(ns, shell, Fds(k.tables, k.procs, shell), |k.files|);
      s := Shell(Piping, 0, 0, EMPTY, EMPTY, []);
      ends, runs := [], [];
      group := seq(|k.procs|, q => if q == shell then SHELL else OUTSIDE);
      new;
      StartGood(Mem(), c, s, Now());
    }

    /** The kernel has done something to one process: the pipes learn which of their ends have gone. */
    method Sync(ghost was: Heap)
      requires was.Fine() && Mem().Fine() && EndsFine(c, was.fs, was.vs, ends) &&
          Kept(was.fs, was.vs, kernel.files, kernel.vnodes)
      requires AllTold(runs, ends, was.vs, n)
      modifies `runs
      ensures EndsFine(c, kernel.files, kernel.vnodes, ends) && AllTold(runs, ends, kernel.vnodes, n) &&
          Grows(old(runs), runs)
    {
      EndsKept(c, was.fs, was.vs, kernel.files, kernel.vnodes, ends);
      SyncedTold(c, was, Mem(), ends, runs, n);
      runs := Synced(runs, ends, kernel.vnodes);
    }

    /** close by process `p`, which shares its table with nobody. */
    method ShutFd(p: nat, fd: int)
      requires Valid() && p < |kernel.procs| && Private(kernel.procs, p)
      modifies kernel, `runs
      ensures kernel.Valid() && OnlyHere(old(Now()), Now(), p) && Shut(old(Now()).Names(p), Now().Names(p), fd)
      ensures EndsFine(c, kernel.files, kernel.vnodes, ends) && AllTold(runs, ends, kernel.vnodes, n) &&
          Grows(old(runs), runs)
    {
      ghost var was, x := Mem(), Now();
      var r := kernel.Close(p, fd);
      OwnCall(was, x, Now(), p);
      Sync(was);
    }

    /** dup2 by such a process. */
    method CopyFd(p: nat, from: int, to: int)
      requires Valid() && p < |kernel.procs| && Private(kernel.procs, p)
      modifies kernel, `runs
      ensures kernel.Valid() && OnlyHere(old(Now()), Now(), p) && Dupped(old(Now()).Names(p), Now().Names(p), from, to)
      ensures EndsFine(c, kernel.files, kernel.vnodes, ends) && AllTold(runs, ends, kernel.vnodes, n) &&
          Grows(old(runs), runs)
    {
      ghost var was, x := Mem(), Now();
      var r := kernel.Dup2(p, from, to);
      OwnCall(was, x, Now(), p);
      Sync(was);
    }

    /** The last stage needs no pipe. */
    method ShellSkip()
      requires Valid() && s.pc == Piping && c.Last(s.i)
      modifies `s
      ensures Valid()
      ensures ShellNext(c, old(s), s, old(Now()).Names(c.shell), old(|kernel.procs|))
    {
      ghost var x := Now();
      PipeSkipped(c, ends, s, x.Names(c.shell));
      Standing(x, c.shell);
      ShellMoved(c, ends, s, s.(pc := Forking, rfd := EMPTY, wfd := EMPTY), x, x);
      s := s.(pc := Forking, rfd := EMPTY, wfd := EMPTY);
    }

    /** The shell makes a pipe. */
    method ShellPipe()
      requires Valid() && s.pc == Piping && !c.Last(s.i)
      modifies this, kernel
      ensures Valid() && Grows(old(runs), runs)
      ensures ShellNext(c, old(s), s, old(Now()).Names(c.shell), old(|kernel.procs|))
    {
      ghost var was, x := Mem(), Now();
      PipeFails(c, ends, s, x.Names(c.shell));
      var files, vnodes := |kernel.files|, |kernel.vnodes|;
      var r, rfd, wfd := kernel.MakePipe(c.shell);
      OwnCall(was, x, Now(), c.shell);
      if r != 0 {
        ShellMoved(c, ends, s, s.(pc := Failed), x, Now());
        s := s.(pc := Failed);
      } else {
        PipeTaken(was, Mem(), c, ends, s, x, Now(), runs, n, rfd, wfd);
        ends, runs := ends + [End(files, vnodes)], runs + [Begun(n)];
        s := s.(pc := Forking, rfd := rfd, wfd := wfd);
      }
    }

    /** The shell forks the stage. */
    method ShellFork()
      requires Valid() && s.pc == Forking
      modifies this, kernel
      ensures Valid() && Grows(old(runs), runs)
      ensures ShellNext(c, old(s), s, old(Now()).Names(c.shell), old(|kernel.procs|))
    {
      ghost var was, x := Mem(), Now();
      HasTables(was.fs, was.ts, was.rcs, was.vs, was.ps);
      var p := kernel.Fork(c.shell);
      Sync(was);
      group := group + [s.i];
      ShellForked(c, ends, s, x, Now(), s.(pc := ClosingIn, kids := s.kids + [Draft(c, s, p)]));
      s := s.(pc := ClosingIn, kids := s.kids + [Draft(c, s, p)]);
    }

    /** The shell closes its copy of the stage's input. */
    method ShellCloseIn()
      requires Valid() && s.pc == ClosingIn
      modifies this, kernel
      ensures Valid() && Grows(old(runs), runs)
      ensures ShellNext(c, old(s), s, old(Now()).Names(c.shell), old(|kernel.procs|))
    {
      ghost var x := Now();
      Standing(x, c.shell);
      if s.inFd != 0 { ShutFd(c.shell, s.inFd); }
      InClosed(c, ends, s, x.Names(c.shell), Now().Names(c.shell));
      ShellMoved(c, ends, s, s.(pc := ClosingOut), x, Now());
      s := s.(pc := ClosingOut);
    }

    /** And of its output, and turns to the next stage. */
    method ShellCloseOut()
      requires Valid() && s.pc == ClosingOut
      modifies this, kernel
      ensures Valid() && Grows(old(runs), runs)
      ensures ShellNext(c, old(s), s, old(Now()).Names(c.shell), old(|kernel.procs|))
    {
      ghost var x := Now();
      Standing(x, c.shell);
      if !c.Last(s.i) { ShutFd(c.shell, s.wfd); }
      OutClosed(c, ends, s, x.Names(c.shell), Now().Names(c.shell));
      ShellMoved(c, ends, s, Onwards(c, s), x, Now());
      s := Onwards(c, s);
    }

    /** A stage's next call, or its going on to run. */
    method StageStep(j: nat)
      requires Valid() && j < |s.kids| && s.kids[j].pc < RUNNING
      modifies this, kernel
      ensures Valid() && Grows(old(runs), runs)
      ensures s == old(s).(kids := old(s).kids[j := old(s).kids[j].(pc := old(s).kids[j].pc + 1)])
    {
      ghost var x := Now();
      var k := s.kids[j];
      assert KidFine(c, ends, s, x, j);
      PlumbOne(k);
      ghost var s' := s.(kids := s.kids[j := k.(pc := k.pc + 1)]);
      StageMoved(c, ends, s, s', x, Now(), j, kernel.files, kernel.vnodes);
      s := s.(kids := s.kids[j := k.(pc := k.pc + 1)]);
    }

    /** The calls of a stage before its program. */
    method PlumbOne(k: Child)
      requires Valid() && k.proc < |kernel.procs| && Private(kernel.procs, k.proc)
      modifies kernel, `runs
      ensures kernel.Valid() && OnlyHere(old(Now()), Now(), k.proc) && s == old(s) && ends == old(ends)
      ensures if k.pc < PLUMBED then Plumbs(k, old(Now()).Names(k.proc), Now().Names(k.proc))
          else Now().Names(k.proc) == old(Now()).Names(k.proc)
      ensures EndsFine(c, kernel.files, kernel.vnodes, ends) && AllTold(runs, ends, kernel.vnodes, n) &&
          Grows(old(runs), runs)
    {
      Standing(Now(), k.proc);
      if k.pc == 0 && k.inFd != 0 { CopyFd(k.proc, k.inFd, 0); }
      else if k.pc == 1 && k.inFd != 0 { ShutFd(k.proc, k.inFd); }
      else if k.pc == 2 && k.outFd != 1 { CopyFd(k.proc, k.outFd, 1); }
      else if k.pc == 3 && k.outFd != 1 { ShutFd(k.proc, k.outFd); }
      else if k.pc == 4 && k.rfd != EMPTY { ShutFd(k.proc, k.rfd); }
    }

    /** A stage that is not running yet is killed. */
    method KillStage(j: nat)
      requires Valid() && j < |s.kids| && s.kids[j].pc < RUNNING
      modifies this, kernel
      ensures Valid() && Grows(old(runs), runs)
      ensures s == old(s).(kids := old(s).kids[j := old(s).kids[j].(pc := RUNNING)]) &&
          Now().Names(s.kids[j].proc) == NoFds()
    {
      ghost var was, x := Mem(), Now();
      var k := s.kids[j];
      assert KidFine(c, ends, s, x, j);
      HasTables(was.fs, was.ts, was.rcs, was.vs, was.ps);
      kernel.Exit(k.proc);
      Sync(was);
      Killed(c, ends, s, s.(kids := s.kids[j := k.(pc := RUNNING)]), x, Now(), j);
      s := s.(kids := s.kids[j := k.(pc := RUNNING)]);
    }

    /** A request of a process that is free to make any. */
    method Ask(op: Op)
      requires Valid() && Free(s, group, op.p)
      modifies this, kernel
      ensures Valid() && Grows(old(runs), runs) && s == old(s)
    {
      ghost var was, x := Mem(), Now();
      HasTables(was.fs, was.ts, was.rcs, was.vs, was.ps);
      kernel.Step(op);
      Sync(was);
      group := Grown(group, |kernel.procs|, op.p);
      forall i | 0 <= i < |ends| ensures ends[i].r + 1 < |was.fs| {
        assert EndFine(was.fs, was.vs, ends, i);
      }
      FreeMoved(c, ends, s, |was.fs|, x, Now(), op.p);
    }

    /** Something happens in pipe `j` other than an end being closed. */
    method Flow(j: nat, e: PipeProtocol.Event)
      requires Valid() && j < |runs| && |runs[j].tr| == |runs[j].ev| + 1 && PipeProtocol.Enabled(runs[j].Now(), e) &&
          !e.CloseReader? && !e.CloseWriter?
      modifies `runs
      ensures Valid() && Grows(old(runs), runs)
    {
      assert EndFine(kernel.files, kernel.vnodes, ends, j) && Told(runs, ends, kernel.vnodes, n, j);
      ContinuedTold(runs, ends, kernel.vnodes, n, j, e);
      runs := runs[j := Continued(runs[j], e)];
    }

    method InPipe(j: nat, e: PipeProtocol.Event)
      requires Valid()
      modifies `runs
      ensures Valid() && Grows(old(runs), runs)
    {
      if j < |runs| && !e.CloseReader? && !e.CloseWriter? {
        assert EndFine(kernel.files, kernel.vnodes, ends, j) && Told(runs, ends, kernel.vnodes, n, j);
        if PipeProtocol.Enabled(runs[j].Now(), e) { Flow(j, e); }
      }
    }

    /** The shell's next step, if it has one. */
    method ShellStep()
      requires Valid()
      modifies this, kernel
      ensures Valid() && Grows(old(runs), runs)
      ensures ShellNext(c, old(s), s, old(Now()).Names(c.shell), old(|kernel.procs|))
    {
      match s.pc {
        case Piping => if c.Last(s.i) { ShellSkip(); } else { ShellPipe(); }
        case Forking => ShellFork();
        case ClosingIn => ShellCloseIn();
        case ClosingOut => ShellCloseOut();
        case Waiting =>
        case Failed =>
      }
    }

    /** One step of whoever it is, if it can be taken. */
    method Step(e: Event)
      requires Valid()
      modifies this, kernel
      ensures Valid() && Grows(old(runs), runs)
    {
      match e {
        case ShellGo => ShellStep();
        case StageGo(j) => if j < |s.kids| && s.kids[j].pc < RUNNING { StageStep(j); }
        case Kill(j) => if j < |s.kids| && s.kids[j].pc < RUNNING { KillStage(j); }
        case Request(op) => if Free(s, group, op.p) { Ask(op); }
        case InPipe(j, e) => InPipe(j, e);
      }
    }

    /** Whatever happens in whatever order. */
    method Run(es: seq<Event>)
      requires Valid()
      modifies this, kernel
      ensures Valid() && Grows(old(runs), runs)
    {
      for i := 0 to |es|
        invariant Valid() && Grows(old(runs), runs)
      {
        Step(es[i]);
      }
    }

    /** Once the shell has passed stage `j` and no process of that stage names the write end any more, those who read
        from the pipe get what is left in it, in order, and then nothing, whatever else happens. */
    method RunOn(es: seq<Event>, j: nat)
      requires Valid() && j < |ends| && j < s.i && Unheld(Now(), j, W(ends, j))
      modifies this, kernel
      ensures Valid() && j < |runs| && Grows(old(runs), runs) && DrainsFrom(runs[j], |old(runs)[j].ev|)
    {
      LastWriter(c, Mem(), ends, s, Now(), runs, n, j);
      Run(es);
      ghost var h, g := old(runs)[j], runs[j];
      assert EndFine(kernel.files, kernel.vnodes, ends, j) && Told(runs, ends, kernel.vnodes, n, j);
      AllDrained(g, n, |h.ev|);
    }
  }

  // ------------------------------------------------------------ what follows

  /** No process of stage `g` names the description. */
  ghost predicate Unheld(x: World, g: int, f: int) {
    forall q: nat {:trigger x.Names(q)} :: q < |x.ps| && q < |x.group| && x.group[q] == g ==> f !in x.Names(q)
  }

  /** Reads from step `i` on, and what they return. */
  ghost predicate DrainsAt(h: History, i: nat, m: nat) {
    |h.tr| == |h.ev| + 1 && i <= m <= |h.ev| ==>
      && PipeProtocol.Received(h.tr, h.ev, i, m) + h.tr[m].ring == h.tr[i].ring
      && (m < |h.ev| && h.ev[m].Go? && PipeProtocol.Reads(h.tr[m], h.ev[m].t) ==>
           && PipeProtocol.Answered(h.tr[m], h.ev[m].t, h.tr[m + 1])
           && (h.tr[m + 1].threads[h.ev[m].t] == PipeProtocol.Idle(PipeProtocol.Got([])) <==>
               PipeProtocol.Received(h.tr, h.ev, i, m) == h.tr[i].ring))
  }

  ghost predicate DrainsFrom(h: History, i: nat) {
    |h.tr| == |h.ev| + 1 && forall m: nat {:trigger DrainsAt(h, i, m)} :: DrainsAt(h, i, m)
  }

  lemma AllDrained(h: History, n: nat, i: nat)
    requires h.Fine(n) && i <= |h.ev| && h.tr[i].writers == 0
    ensures DrainsFrom(h, i)
  {
    forall m: nat ensures DrainsAt(h, i, m) {
      if i <= m <= |h.ev| { PipeProtocol.Drained(h.tr, h.ev, n, i, m, if m < |h.ev| && h.ev[m].Go? then h.ev[m].t
          else 0); }
    }
  }

  /** Which ends the shell names. */
  lemma HeldEnds(c: Setting, fs: seq<File>, vs: seq<Vnode>, ends: seq<End>, s: Shell, j: nat)
    requires c.Valid() && EndsFine(c, fs, vs, ends) && ShellOk(c, ends, s, Held(c, ends, s)) && j < |ends|
    ensures W(ends, j) in Held(c, ends, s) ==> s.i == j && Busy(s.pc)
    ensures R(ends, j) in Held(c, ends, s) ==>
        (s.i == j && Busy(s.pc)) || (s.i == j + 1 && s.pc != ClosingOut && s.pc != Waiting)
  {
    Distinct(c, fs, vs, ends, j, s.i);
    if s.i > 0 { Distinct(c, fs, vs, ends, j, s.i - 1); }
  }

  /** Which ends a stage names before it runs. */
  lemma HoldingEnds(c: Setting, fs: seq<File>, vs: seq<Vnode>, ends: seq<End>, g: nat, k: Child, j: nat)
    requires c.Valid() && EndsFine(c, fs, vs, ends) && Wired(c, g, k) && Piped(c, ends, g) && j < |ends|
    ensures W(ends, j) in Holding(c, ends, g, k) ==> g == j
    ensures R(ends, j) in Holding(c, ends, g, k) ==> g == j + 1 || (g == j && k.pc < PLUMBED)
  {
    Distinct(c, fs, vs, ends, j, g);
    if g > 0 { Distinct(c, fs, vs, ends, j, g - 1); }
  }

  /** At every moment of every run: the write end of pipe `j` is named by stage `j`'s processes only, and by the shell
      while it works on that stage; and the read end by those of the next stage only, by stage `j` until it has
      closed it, and by the shell until it has forked the next stage and closed it. */
  lemma Holders(c: Setting, fs: seq<File>, vs: seq<Vnode>, ends: seq<End>, s: Shell, x: World, j: nat, q: nat)
    requires Good(c, ends, s, x) && EndsFine(c, fs, vs, ends) && j < |ends| && q < |x.ps|
    ensures W(ends, j) in x.Names(q) ==> x.group[q] == j || (q == c.shell && s.i == j && Busy(s.pc))
    ensures R(ends, j) in x.Names(q) ==>
      || x.group[q] == j + 1
      || (x.group[q] == j && j < |s.kids| && s.kids[j].pc < PLUMBED)
      || (q == c.shell && ((s.i == j && Busy(s.pc)) || (s.i == j + 1 && s.pc != ClosingOut && s.pc != Waiting)))
  {
    assert ProcFine(c, ends, s, x, q);
    var g := x.group[q];
    if q == c.shell {
      HeldEnds(c, fs, vs, ends, s, j);
    } else if g == OUTSIDE {
      assert CleanAt(x.Names(q), ends, -1, -1, j);
    } else {
      assert KidFine(c, ends, s, x, g);
      if s.kids[g].pc < RUNNING {
        HoldingEnds(c, fs, vs, ends, g, s.kids[g], j);
      } else {
        var r := g - 1;
        assert CleanAt(x.Names(q), ends, g, r, j);
      }
    }
  }

  /** Once the shell has passed stage `j`, its pipe has no writers exactly when no process of the stage names the
      write end: as soon as all have exited, whatever they did before. */
  lemma LastWriter(c: Setting, h: Heap, ends: seq<End>, s: Shell, x: World, runs: seq<History>, n: nat, j: nat)
    requires h.Fine() && x.ts == h.ts && x.ps == h.ps && Good(c, ends, s, x) && EndsFine(c, h.fs, h.vs, ends) &&
        AllTold(runs, ends, h.vs, n)
    requires j < |ends| && j < s.i
    ensures ends[j].v < |h.vs| && (h.vs[ends[j].v].writers == 0 <==> Unheld(x, j, W(ends, j)))
    ensures runs[j].Fine(n) && runs[j].Now().writers == h.vs[ends[j].v].writers
  {
    var v, r, w := ends[j].v, ends[j].r, ends[j].r + 1;
    assert EndFine(h.fs, h.vs, ends, j) && Told(runs, ends, h.vs, n, j);
    EndsCounted(h.fs, h.ts, h.rcs, h.vs, h.ps, v, r, w);
    forall q: nat | q < |x.ps| && w in x.Names(q) ensures x.group[q] == j {
      Holders(c, h.fs, h.vs, ends, s, x, j, q);
    }
    FreedIffUnheld(h, x, j, w);
  }

  lemma FreedIffUnheld(h: Heap, x: World, g: int, f: nat)
    requires h.Fine() && x.ts == h.ts && x.ps == h.ps && f < |h.fs| && |x.group| == |x.ps|
    requires forall q: nat {:trigger x.Names(q)} :: q < |x.ps| && f in x.Names(q) ==> x.group[q] == g
    ensures h.fs[f].freed <==> Unheld(x, g, f)
  {
    FreedIffUnnamed(h.fs, h.ts, h.rcs, h.vs, h.ps, f);
    if h.fs[f].freed {
      forall q: nat | q < |x.ps| ensures f !in x.Names(q) {
        assert f !in Fds(h.ts, h.ps, q);
      }
    } else {
      var q: nat :| q < |h.ps| && f in Fds(h.ts, h.ps, q);
      assert f in x.Names(q);
    }
  }

  /** When the shell waits and stage `j` is through with its plumbing, the pipe has no readers exactly when no process
      of the next stage names the read end: then writes to it fail. */
  lemma LastReader(c: Setting, h: Heap, ends: seq<End>, s: Shell, x: World, runs: seq<History>, n: nat, j: nat)
    requires h.Fine() && x.ts == h.ts && x.ps == h.ps && Good(c, ends, s, x) && EndsFine(c, h.fs, h.vs, ends) &&
        AllTold(runs, ends, h.vs, n)
    requires j < |ends| && s.pc == Waiting && j < |s.kids| && s.kids[j].pc >= PLUMBED
    ensures ends[j].v < |h.vs| && (h.vs[ends[j].v].readers == 0 <==> Unheld(x, j + 1, R(ends, j)))
    ensures runs[j].Fine(n) && runs[j].Now().readers == h.vs[ends[j].v].readers
  {
    var v, r, w := ends[j].v, ends[j].r, ends[j].r + 1;
    assert EndFine(h.fs, h.vs, ends, j) && Told(runs, ends, h.vs, n, j);
    EndsCounted(h.fs, h.ts, h.rcs, h.vs, h.ps, v, r, w);
    var g := j + 1;
    forall q: nat | q < |x.ps| && r in x.Names(q) ensures x.group[q] == g {
      Holders(c, h.fs, h.vs, ends, s, x, j, q);
    }
    FreedIffUnheld(h, x, g, r);
  }

  /** When the shell waits it holds what it held before, and a stage that is through with its plumbing holds that
      too, except that its input is the pipe before and its output the pipe after. The shell gets there only with
      descriptors enough, and fails only with too few. */
  lemma Wiring(c: Setting, ends: seq<End>, s: Shell, x: World, j: nat)
    requires Good(c, ends, s, x)
    ensures s.pc == Waiting ==>
        x.Names(c.shell) == c.base && |s.kids| == c.ns && |ends| == c.ns - 1 && FreeSlots(c.base, MAX_FDS) >= Need(c.ns)
    ensures s.pc == Failed ==> FreeSlots(c.base, MAX_FDS) < Need(c.ns)
    ensures j < |s.kids| && s.kids[j].pc == PLUMBED ==> x.Names(s.kids[j].proc) == Ends(c, ends, j, true, true)
  {
    assert KidFine(c, ends, s, x, j);
  }

  /** A pipeline that fails for want of a third slot leaves the shell with the first pipe's read end, so that pipe
      never runs out of readers and what its stage writes is never refused. */
  lemma FailedHoldsOn(c: Setting, h: Heap, ends: seq<End>, s: Shell, x: World)
    requires h.Fine() && x.ts == h.ts && x.ps == h.ps && Good(c, ends, s, x) && EndsFine(c, h.fs, h.vs, ends) &&
        s.pc == Failed
    ensures x.Names(c.shell) == c.base <==> FreeSlots(c.base, MAX_FDS) < 2
    ensures x.Names(c.shell) != c.base ==>
        |ends| == 1 && R(ends, 0) in x.Names(c.shell) && ends[0].v < |h.vs| && h.vs[ends[0].v].readers == 1
  {
    var fds := x.Names(c.shell);
    FailedLeaves(c, ends, s, fds);
    if fds != c.base {
      assert fds[s.inFd] == R(ends, 0);
      assert EndFine(h.fs, h.vs, ends, 0);
      EndsCounted(h.fs, h.ts, h.rcs, h.vs, h.ps, ends[0].v, ends[0].r, ends[0].r + 1);
      FreedIffUnnamed(h.fs, h.ts, h.rcs, h.vs, h.ps, ends[0].r);
    }
  }

  lemma Standing(x: World, p: nat)
    requires Private(x.ps, p) && |x.group| == |x.ps|
    ensures OnlyHere(x, x, p)
  {
  }

  /** A call that changes only the caller's table, nobody sharing it. */
  lemma OwnCall(was: Heap, x: World, x': World, p: nat)
    requires was.Fine() && x.ts == was.ts && x.ps == was.ps && |x.group| == |x.ps| && x'.group == x.group
    requires Elsewhere(x.ts, x.ps, x'.ts, x'.ps, p) && Private(x.ps, p)
    ensures OnlyHere(x, x', p)
  {
    HasTables(was.fs, was.ts, was.rcs, was.vs, was.ps);
    forall q: nat | q < |x.ps| && q != p ensures x'.ps[q] == x.ps[q] && x'.Names(q) == x.Names(q) {
      assert x.ps[q].table == EMPTY || x.ps[p].table == EMPTY || x.ps[q].table != x.ps[p].table;
    }
  }

  lemma PipeTaken(was: Heap, h: Heap, c: Setting, ends: seq<End>, s: Shell, x: World, x': World, runs: seq<History>,
      n: nat, r: int, w: int)
    requires was.Fine() && Good(c, ends, s, x) && EndsFine(c, was.fs, was.vs, ends) && AllTold(runs, ends, was.vs, n) &&
        s.pc == Piping && !c.Last(s.i)
    requires x.ts == was.ts && x.ps == was.ps && OnlyHere(x, x', c.shell) && FirstTwo(x.Names(c.shell), r, w)
    requires x'.Names(c.shell) == x.Names(c.shell)[r := |was.fs|][w := |was.fs| + 1]
    requires h.fs == was.fs + [File(|was.vs|, false, 1, false)] + [File(|was.vs|, true, 1, false)] &&
        h.vs == was.vs + [Vnode(true, 0, 2, 1, 1, false)]
    ensures var e := End(|was.fs|, |was.vs|);
      && Good(c, ends + [e], s.(pc := Forking, rfd := r, wfd := w), x') && EndsFine(c, h.fs, h.vs, ends + [e])
      && AllTold(runs + [Begun(n)], ends + [e], h.vs, n) && Grows(runs, runs + [Begun(n)])
  {
    var e, s' := End(|was.fs|, |was.vs|), s.(pc := Forking, rfd := r, wfd := w);
    PipeFails(c, ends, s, x.Names(c.shell));
    PipeMade(c, ends, s, x.Names(c.shell), x'.Names(c.shell), e, r, w);
    forall q: nat | q < |x.ps| ensures Below(x.Names(q), e.r) {
      NamesBelow(was, q);
    }
    ShellPiped(c, ends, s, s', x, x', e);
    forall f | 0 <= f < |was.fs| ensures was.fs[f].vnode < |was.vs| {
      assert FileOk(was.fs, was.ts, was.vs, EMPTY, f);
    }
    EndsMore(c, was.fs, was.vs, h.fs, h.vs, ends);
    forall j | 0 <= j < |ends| ensures ends[j].v < |was.vs| {
      assert EndFine(was.fs, was.vs, ends, j);
    }
    BegunTold(runs, ends, was.vs, h.vs, e, n);
  }

  lemma ExitedAlone(x: World, x': World, p: nat)
    requires Tabled(x.ts, x.ps) && Private(x.ps, p) && |x.group| == |x.ps| && x'.group == x.group
    requires |x'.ps| == |x.ps| && x'.ps == x.ps[p := x'.ps[p]] && x'.ps[p].table == EMPTY && |x'.ts| == |x.ts|
    requires forall k :: 0 <= k < |x.ts| && k != x.ps[p].table ==> x'.ts[k] == x.ts[k]
    ensures OnlyHere(x, x', p)
  {
    forall q: nat | q < |x.ps| && q != p ensures x'.ps[q] == x.ps[q] && x'.Names(q) == x.Names(q) {
      assert x.ps[q].table == EMPTY || x.ps[p].table == EMPTY || x.ps[q].table != x.ps[p].table;
    }
  }

  lemma Killed(c: Setting, ends: seq<End>, s: Shell, s': Shell, x: World, x': World, j: nat)
    requires Good(c, ends, s, x) && j < |s.kids| && s.kids[j].pc < RUNNING &&
        s' == s.(kids := s.kids[j := s.kids[j].(pc := RUNNING)])
    requires Tabled(x.ts, x.ps) && x'.group == x.group && s.kids[j].proc < |x'.ps| == |x.ps| && |x'.ts| == |x.ts|
    requires var p := s.kids[j].proc;
        x'.ps == x.ps[p := x'.ps[p]] && x'.ps[p].table == EMPTY && forall k :: 0 <= k < |x.ts| && k != x.ps[p].table ==>
        x'.ts[k] == x.ts[k]
    ensures Good(c, ends, s', x')
  {
    assert KidFine(c, ends, s, x, j);
    ExitedAlone(x, x', s.kids[j].proc);
    EmptyClean(x'.Names(s.kids[j].proc), ends, j, j - 1);
    StageReplaced(c, ends, s, s', x, x', j, RUNNING);
  }

  lemma EmptyClean(fds: seq<int>, ends: seq<End>, w: int, r: int)
    requires fds == NoFds()
    ensures Clean(fds, ends, w, r)
  {
    forall i: nat ensures CleanAt(fds, ends, w, r, i) {
    }
  }

  lemma StartGood(h: Heap, c: Setting, s: Shell, x: World)
    requires h.Fine() && x.ts == h.ts && x.ps == h.ps && c.shell < |h.ps| == |x.group| && Private(h.ps, c.shell) &&
        c.ns > 0
    requires c.base == x.Names(c.shell) && c.first == |h.fs| && s == Shell(Piping, 0, 0, EMPTY, EMPTY, [])
    requires forall q {:trigger x.group[q]} :: 0 <= q < |x.group| ==>
        x.group[q] == if q == c.shell then SHELL else OUTSIDE
    ensures Good(c, [], s, x) && EndsFine(c, h.fs, h.vs, [])
  {
    assert ProcOk(h.ts, h.rcs, h.ps, c.shell);
    if h.ps[c.shell].table != EMPTY { assert TableOk(h.fs, h.ts, h.ps, EMPTY, h.ps[c.shell].table); }
    forall q: nat ensures ProcFine(c, [], s, x, q) {
      assert Clean(x.Names(q), [], -1, -1) by {
        forall i: nat ensures CleanAt(x.Names(q), [], -1, -1, i) {
        }
      }
    }
  }
}
