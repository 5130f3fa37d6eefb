/** The descriptor plumbing of the shell's run_pipeline (user/sh.c): the shell makes a pipe, forks a stage and
    closes its copies, stage after stage, while the stages already forked rearrange their own descriptors and
    the programs they become run. What shell and stages hold along the way, as values. */
module Pipeline {
  import opened Descriptors

  /** A stage: its process, the shell variables it was forked with, and how far its plumbing has got. */
  datatype Child = Child(proc: nat, inFd: int, outFd: int, rfd: int, pc: nat)

  datatype Pc = Piping | Forking | ClosingIn | ClosingOut | Waiting | Failed

  /** The shell's variables and the stages it has forked. */
  datatype Shell = Shell(pc: Pc, i: nat, inFd: int, rfd: int, wfd: int, kids: seq<Child>)

  /** A pipe the shell has made: its vnode and its read end, the write end being the next description. */
  datatype End = End(r: nat, v: nat)

  /** What is fixed: the number of stages, the shell's process and descriptors before, and how many descriptions
      there were then. */
  datatype Setting = Setting(ns: nat, shell: nat, base: seq<int>, first: nat) {
    ghost predicate Valid() {
      ns > 0 && |base| == MAX_FDS && forall q :: 0 <= q < MAX_FDS ==> base[q] == EMPTY || 0 <= base[q] < first
    }

    predicate Last(j: nat) { j + 1 == ns }
  }

  const PLUMBED := 5

  /** The read and the write end of pipe `j`. */
  function R(ends: seq<End>, j: int): int {
    if 0 <= j < |ends| then ends[j].r else EMPTY
  }

  function W(ends: seq<End>, j: int): int {
    if 0 <= j < |ends| then ends[j].r + 1 else EMPTY
  }

  // ------------------------------------------------------------ what a stage holds

  /** An own slot from 3 on that the shell did not use before. */
  predicate Spare(c: Setting, q: int) {
    3 <= q < |c.base| && c.base[q] == EMPTY
  }

  /** Slots 0 and 1 as far as they have been set. */
  function Ends(c: Setting, ends: seq<End>, j: nat, zero: bool, one: bool): (r: seq<int>)
    requires c.Valid()
    ensures |r| == MAX_FDS
  {
    var a := if zero && j > 0 then c.base[0 := R(ends, j - 1)] else c.base;
    if one && !c.Last(j) then a[1 := W(ends, j)] else a
  }

  /** What stage `j` holds after `k.pc` steps. */
  function Holding(c: Setting, ends: seq<End>, j: nat, k: Child): seq<int>
    requires c.Valid() && Wired(c, j, k)
  {
    var a := Ends(c, ends, j, k.pc >= 1, k.pc >= 3);
    var b := if j > 0 && k.pc < 2 then a[k.inFd := R(ends, j - 1)] else a;
    var d := if !c.Last(j) && k.pc < 4 then b[k.outFd := W(ends, j)] else b;
    if !c.Last(j) && k.pc < 5 then d[k.rfd := R(ends, j)] else d
  }

  /** The variables stage `j` was forked with. */
  predicate Wired(c: Setting, j: nat, k: Child) {
    && (if j > 0 then Spare(c, k.inFd) else k.inFd == 0)
    && (if c.Last(j) then k.outFd == 1 && k.rfd == EMPTY
        else Spare(c, k.outFd) && Spare(c, k.rfd) && k.outFd != k.rfd && k.inFd != k.outFd && k.inFd != k.rfd)
  }

  /** What dup2 and close, as the kernel does them, leave of a process's descriptors. */
  predicate Dupped(was: seq<int>, now: seq<int>, from: int, to: int) {
    if 0 <= from < MAX_FDS && 0 <= to < MAX_FDS && |was| == MAX_FDS && was[from] != EMPTY
    then now == was[to := was[from]] else now == was
  }

  predicate Shut(was: seq<int>, now: seq<int>, fd: int) {
    if 0 <= fd < MAX_FDS && |was| == MAX_FDS && was[fd] != EMPTY then now == was[fd := EMPTY] else now == was
  }

  /** The next call of the stage. */
  predicate Plumbs(k: Child, was: seq<int>, now: seq<int>) {
    if k.pc == 0 then (if k.inFd != 0 then Dupped(was, now, k.inFd, 0) else now == was)
    else if k.pc == 1 then (if k.inFd != 0 then Shut(was, now, k.inFd) else now == was)
    else if k.pc == 2 then (if k.outFd != 1 then Dupped(was, now, k.outFd, 1) else now == was)
    else if k.pc == 3 then (if k.outFd != 1 then Shut(was, now, k.outFd) else now == was)
    else if k.rfd != EMPTY then Shut(was, now, k.rfd) else now == was
  }

  /** The pipes on both sides of stage `j` have been made. */
  predicate Piped(c: Setting, ends: seq<End>, j: nat) {
    j <= |ends| && (c.Last(j) || j < |ends|)
  }

  lemma StageKeeps(c: Setting, ends: seq<End>, j: nat, k: Child, was: seq<int>, now: seq<int>)
    requires c.Valid() && Wired(c, j, k) && k.pc < PLUMBED && was == Holding(c, ends, j, k) && Piped(c, ends, j) &&
        Plumbs(k, was, now)
    ensures var k' := k.(pc := k.pc + 1); Wired(c, j, k') && now == Holding(c, ends, j, k')
  {
    var k' := k.(pc := k.pc + 1);
    assert now == Holding(c, ends, j, k');
  }

  // ------------------------------------------------------------ what the shell holds

  predicate Busy(pc: Pc) {
    pc == Forking || pc == ClosingIn || pc == ClosingOut
  }

  /** What the shell holds: what it began with, the read end of the pipe before until it has closed that, and both
      ends of the pipe it is working on. */
  function Held(c: Setting, ends: seq<End>, s: Shell): seq<int>
    requires c.Valid()
  {
    var a := if s.i > 0 && s.pc != ClosingOut && s.pc != Waiting && 0 <= s.inFd < MAX_FDS then c.base[s.inFd := R(ends,
        s.i - 1)] else c.base;
    if Busy(s.pc) && 0 <= s.rfd < MAX_FDS && 0 <= s.wfd < MAX_FDS then a[s.rfd := R(ends, s.i)][s.wfd := W(ends, s.i)]
        else a
  }

  /** The stage the shell is about to fork, or has just forked. */
  function Draft(c: Setting, s: Shell, proc: nat): Child {
    Child(proc, s.inFd, if c.Last(s.i) then 1 else s.wfd, s.rfd, 0)
  }

  /** How many pipes and stages there are when the shell is where it is. */
  function Made(c: Setting, s: Shell): int {
    if s.pc == Waiting then c.ns - 1 else if Busy(s.pc) && !c.Last(s.i) then s.i + 1 else s.i
  }

  function Forked(s: Shell): nat {
    if s.pc == ClosingIn || s.pc == ClosingOut then s.i + 1 else s.i
  }

  ghost predicate ShellOk(c: Setting, ends: seq<End>, s: Shell, fds: seq<int>)
    requires c.Valid()
  {
    && fds == Held(c, ends, s) && |ends| == Made(c, s) && |s.kids| == Forked(s)
    && (s.pc == Waiting ==> s.i == c.ns)
    && (s.pc != Waiting ==>
         && s.i < c.ns && (if s.i > 0 then Spare(c, s.inFd) else s.inFd == 0)
         && (Busy(s.pc) ==> Wired(c, s.i, Draft(c, s, 0)))
         && (c.Last(s.i) && s.pc != Piping ==> s.wfd == EMPTY && s.pc != Failed))
  }

  // ------------------------------------------------------------ the shell's steps

  lemma PipeSkipped(c: Setting, ends: seq<End>, s: Shell, fds: seq<int>)
    requires c.Valid() && ShellOk(c, ends, s, fds) && s.pc == Piping && c.Last(s.i)
    ensures ShellOk(c, ends, s.(pc := Forking, rfd := EMPTY, wfd := EMPTY), fds)
  {
  }

  lemma PipeMade(c: Setting, ends: seq<End>, s: Shell, was: seq<int>, now: seq<int>, e: End, r: int, w: int)
    requires c.Valid() && ShellOk(c, ends, s, was) && s.pc == Piping && !c.Last(s.i) && FirstTwo(was, r, w) &&
        now == was[r := e.r][w := e.r + 1]
    ensures ShellOk(c, ends + [e], s.(pc := Forking, rfd := r, wfd := w), now)
  {
    assert Spare(c, r) && Spare(c, w);
    assert now == Held(c, ends + [e], s.(pc := Forking, rfd := r, wfd := w));
  }

  lemma StageForked(c: Setting, ends: seq<End>, s: Shell, fds: seq<int>, proc: nat)
    requires c.Valid() && ShellOk(c, ends, s, fds) && s.pc == Forking
    ensures ShellOk(c, ends, s.(pc := ClosingIn, kids := s.kids + [Draft(c, s, proc)]), fds)
    ensures Wired(c, s.i, Draft(c, s, proc)) && fds == Holding(c, ends, s.i, Draft(c, s, proc)) && Piped(c, ends, s.i)
  {
    assert fds == Holding(c, ends, s.i, Draft(c, s, proc));
  }

  lemma InClosed(c: Setting, ends: seq<End>, s: Shell, was: seq<int>, now: seq<int>)
    requires c.Valid() && ShellOk(c, ends, s, was) && s.pc == ClosingIn &&
        (if s.inFd != 0 then Shut(was, now, s.inFd) else now == was)
    ensures ShellOk(c, ends, s.(pc := ClosingOut), now)
  {
    assert now == Held(c, ends, s.(pc := ClosingOut));
  }

  /** The shell after its last call for a stage. */
  function Onwards(c: Setting, s: Shell): Shell {
    if c.Last(s.i) then s.(pc := Waiting, i := s.i + 1) else s.(pc := Piping, i := s.i + 1, inFd := s.rfd)
  }

  lemma OutClosed(c: Setting, ends: seq<End>, s: Shell, was: seq<int>, now: seq<int>)
    requires c.Valid() && ShellOk(c, ends, s, was) && s.pc == ClosingOut &&
        (if c.Last(s.i) then now == was else Shut(was, now, s.wfd))
    ensures ShellOk(c, ends, Onwards(c, s), now)
  {
    assert now == Held(c, ends, Onwards(c, s));
  }

  // ------------------------------------------------------------ when a pipe cannot be had

  /** Empty slots from 3 up to `n`. */
  function FreeSlots(fds: seq<int>, n: nat): nat
    requires n <= |fds|
  {
    if n <= 3 then 0 else FreeSlots(fds, n - 1) + if fds[n - 1] == EMPTY then 1 else 0
  }

  lemma {:induction false} FreeUpdate(fds: seq<int>, n: nat, q: nat, x: int)
    requires n <= |fds| && 3 <= q < |fds|
    ensures FreeSlots(fds[q := x], n) == FreeSlots(fds, n) + if q >= n then 0
        else (if x == EMPTY then 1 else 0) - (if fds[q] == EMPTY then 1 else 0)
  {
    if n > 3 { FreeUpdate(fds, n - 1, q, x); }
  }

  lemma {:induction false} FreeOne(fds: seq<int>, n: nat)
    requires n <= |fds|
    ensures FreeSlots(fds, n) > 0 <==> exists q :: 3 <= q < n && fds[q] == EMPTY
  {
    if n > 3 { FreeOne(fds, n - 1); }
  }

  lemma NotTwoIff(fds: seq<int>)
    requires |fds| == MAX_FDS
    ensures NotTwo(fds) <==> FreeSlots(fds, MAX_FDS) < 2
  {
    FreeOne(fds, MAX_FDS);
    if FreeSlots(fds, MAX_FDS) > 0 {
      var q :| 3 <= q < MAX_FDS && fds[q] == EMPTY;
      FreeUpdate(fds, MAX_FDS, q, 0);
      FreeOne(fds[q := 0], MAX_FDS);
      if FreeSlots(fds, MAX_FDS) >= 2 {
        var r :| 3 <= r < MAX_FDS && fds[q := 0][r] == EMPTY;
        assert fds[if q < r then q else r] == EMPTY && fds[if q < r then r else q] == EMPTY;
      } else {
        forall i, j | 3 <= i < j < MAX_FDS ensures fds[i] != EMPTY || fds[j] != EMPTY {
          assert fds[q := 0][i] != EMPTY && fds[q := 0][j] != EMPTY;
        }
      }
    }
  }

  /** How many empty slots the shell needs: two for a pipe, and one for the read end of the pipe before. */
  function Need(ns: nat): nat {
    if ns <= 1 then 0 else if ns == 2 then 2 else 3
  }

  /** Making pipe `i` fails exactly when slots are short. */
  lemma PipeFails(c: Setting, ends: seq<End>, s: Shell, fds: seq<int>)
    requires c.Valid() && ShellOk(c, ends, s, fds) && s.pc == Piping && !c.Last(s.i)
    ensures NotTwo(fds) <==> FreeSlots(c.base, MAX_FDS) < (if s.i > 0 then 3 else 2)
  {
    NotTwoIff(fds);
    if s.i > 0 { FreeUpdate(c.base, MAX_FDS, s.inFd, R(ends, s.i - 1)); }
  }

  /** Having got this far says how many empty slots there were, and so does having failed. */
  ghost predicate Fared(c: Setting, s: Shell)
    requires c.Valid()
  {
    && (s.pc == Failed ==> s.i + 1 < c.ns && FreeSlots(c.base, MAX_FDS) < (if s.i > 0 then 3 else 2))
    && (s.i > 0 || Busy(s.pc) ==> c.ns <= 1 || FreeSlots(c.base, MAX_FDS) >= 2)
    && (s.pc == Waiting || s.i > 1 || (s.i == 1 && c.ns >= 3 && Busy(s.pc)) ==>
        FreeSlots(c.base, MAX_FDS) >= Need(c.ns))
  }

  /** What a run of the pipeline that fails leaves in the shell: nothing when it is the first pipe that cannot be
      had, and otherwise the read end of the pipe before, which nobody will close. Two slots are free then, and
      there are three stages or more. */
  lemma FailedLeaves(c: Setting, ends: seq<End>, s: Shell, fds: seq<int>)
    requires c.Valid() && ShellOk(c, ends, s, fds) && Fared(c, s) && s.pc == Failed
    ensures fds == c.base <==> FreeSlots(c.base, MAX_FDS) < 2
    ensures fds != c.base ==>
        s.i == 1 && c.ns >= 3 && FreeSlots(c.base, MAX_FDS) == 2 && Spare(c, s.inFd) &&
        fds == c.base[s.inFd := R(ends, 0)]
  {
    if s.i > 0 { assert fds[s.inFd] == R(ends, s.i - 1) != c.base[s.inFd]; }
  }
}
