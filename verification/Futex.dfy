/** The futex lock of user/threadtest.c over kernel/futex.c: any number of threads each bump a shared
    counter some number of times under a lock word on which contended threads sleep. A section run with
    interrupts off is one step. */
module Futex {

  const NBUCKETS := 64

  /** bucket_of: words share a wait queue when these agree. */
  function BucketOf(phys: nat): nat {
    phys / 4 % NBUCKETS
  }

  /** The hashed wait queues of kernel/futex.c. */
  class Buckets {
    var bucket: seq<seq<Who>>

    ghost predicate Valid()
      reads this
    {
      |bucket| == NBUCKETS
    }

    /** futex_wait up to the sleep: a word that has changed is not waited on. The check and the sleep are one
        step against every futex_wake. */
    method FutexWait(phys: nat, cur: int, val: int, who: Who) returns (asleep: bool)
      requires Valid()
      modifies this
      ensures Valid() && asleep == (cur == val)
      ensures bucket == if asleep then old(bucket)[BucketOf(phys) := old(bucket)[BucketOf(phys)] + [who]]
          else old(bucket)
    {
      if cur != val { return false; }
      var b := BucketOf(phys);
      bucket := bucket[b := bucket[b] + [who]];
      asleep := true;
    }

    /** futex_wake: up to `n` sleepers, in the order they came, whatever word of the bucket they wait on. */
    method FutexWake(phys: nat, n: int) returns (woken: nat, roused: seq<Who>)
      requires Valid()
      modifies this
      ensures Valid()
      ensures var q := old(bucket)[BucketOf(phys)];
        && woken == (if n < 0 then 0 else if n < |q| then n else |q|) && roused == q[..woken]
        && bucket == old(bucket)[BucketOf(phys) := q[woken..]]
    {
      var b := BucketOf(phys);
      woken, roused := 0, [];
      while woken < n && bucket[b] != []
        invariant Valid() && woken <= |old(bucket)[b]| && (woken == 0 || woken <= n)
        invariant bucket == old(bucket)[b := old(bucket)[b][woken..]] && roused == old(bucket)[b][..woken]
        decreases |bucket[b]|
      {
        roused := roused + [bucket[b][0]];
        bucket := bucket[b := bucket[b][1..]];
        woken := woken + 1;
      }
    }

    /** A signal takes the sleeper at place `i` of a bucket out of it. */
    method Leave(b: nat, i: nat)
      requires Valid() && b < NBUCKETS && i < |bucket[b]|
      modifies this
      ensures Valid() && bucket == old(bucket)[b := old(bucket)[b][..i] + old(bucket)[b][i + 1..]]
    {
      bucket := bucket[b := bucket[b][..i] + bucket[b][i + 1..]];
    }

    constructor ()
      ensures Valid() && forall b :: 0 <= b < NBUCKETS ==> bucket[b] == []
    {
      bucket := seq(NBUCKETS, _ => []);
    }
  }

  /** Where a thread is: at the exchange in flock, at the check in futex_wait, asleep there, at the load and
      at the store of counter++, at the release of the lock, at futex_wake, or through with its loop. */
  datatype Pc = Xchg | Wait | Parked | Load | Store | Release | Wake | Done

  /** A sleeper in the lock's bucket: one of the threads, or one that waits on another word. */
  datatype Who = Own(t: nat) | Foreign

  /** `left[t]` counts the increments thread `t` has still to store. */
  datatype State = State(lock: bool, counter: int, pc: seq<Pc>, reg: seq<int>, left: seq<nat>, queue: seq<Who>) {
    predicate Shaped() {
      |pc| == |reg| == |left|
    }
  }

  function Start(n: nat, k: nat): (s: State)
    ensures s.Shaped()
  {
    State(false, 0, seq(n, _ => if k == 0 then Done else Xchg), seq(n, _ => 0), seq(n, _ => k), [])
  }

  // ------------------------------------------------------------ steps

  /** wq_wake_one on the bucket: the sleeper at the head, whichever word it waits on, goes on. */
  function WakeOne(s: State): (r: State)
  {
    if s.queue == [] then s
    else match s.queue[0]
      case Own(h) => if h < |s.pc| then s.(queue := s.queue[1..], pc := s.pc[h := Xchg]) else s.(queue := s.queue[1..])
      case Foreign => s.(queue := s.queue[1..])
  }

  /** What thread `t` does next. */
  function Act(s: State, t: nat): State
    requires s.Shaped() && t < |s.pc| && s.pc[t] != Parked && s.pc[t] != Done
  {
    match s.pc[t]
    case Xchg => if s.lock then s.(pc := s.pc[t := Wait]) else s.(lock := true, pc := s.pc[t := Load])
    case Wait => if s.lock then s.(pc := s.pc[t := Parked], queue := s.queue + [Own(t)]) else s.(pc := s.pc[t := Xchg])
    case Load => s.(reg := s.reg[t := s.counter], pc := s.pc[t := Store])
    case Store => s.(counter := s.reg[t] + 1, left := s.left[t := if s.left[t] > 0 then s.left[t] - 1 else 0],
        pc := s.pc[t := Release])
    case Release => s.(lock := false, pc := s.pc[t := Wake])
    case Wake => var r := WakeOne(s); r.(pc := r.pc[t := if s.left[t] == 0 then Done else Xchg])
    case Parked => s
    case Done => s
  }

  ghost predicate Acts(s: State, s': State, t: nat) {
    s.Shaped() && t < |s.pc| && s.pc[t] != Parked && s.pc[t] != Done && s' == Act(s, t)
  }

  /** A signal takes a sleeper out of the queue before anyone wakes it. */
  ghost predicate Interrupted(s: State, s': State, t: nat) {
    && s.Shaped() && t < |s.pc| && s.pc[t] == Parked
    && s'.pc == s.pc[t := Xchg] && multiset(s.queue) == multiset(s'.queue) + multiset{Own(t)}
    && s' == s.(pc := s'.pc, queue := s'.queue)
  }

  /** Sleepers on other words of the bucket come, are taken out by signals, and are woken, and a wake meant
      for them may reach one of the threads instead. */
  ghost predicate Disturbed(s: State, s': State) {
    || s' == s.(queue := s.queue + [Foreign])
    || (multiset(s.queue) == multiset(s'.queue) + multiset{Foreign} && s' == s.(queue := s'.queue))
    || s' == WakeOne(s)
  }

  /** One step of the system; `shared` says whether another word that is waited on has the same bucket. */
  ghost predicate Next(s: State, s': State, shared: bool) {
    (exists t :: Acts(s, s', t)) || (exists t :: Interrupted(s, s', t)) || (shared && Disturbed(s, s'))
  }

  // ------------------------------------------------------------ sums over threads

  ghost function Sum(pc: seq<Pc>, f: Pc -> nat): nat {
    if pc == [] then 0 else f(pc[0]) + Sum(pc[1..], f)
  }

  lemma {:induction false} SumUpdate(pc: seq<Pc>, f: Pc -> nat, t: nat, p: Pc)
    requires t < |pc|
    ensures Sum(pc[t := p], f) == Sum(pc, f) - f(pc[t]) + f(p)
  {
    if t == 0 {
      assert pc[0 := p][1..] == pc[1..];
    } else {
      assert pc[t := p][1..] == pc[1..][t - 1 := p];
      SumUpdate(pc[1..], f, t - 1, p);
    }
  }

  function Total(left: seq<nat>): nat {
    if left == [] then 0 else left[0] + Total(left[1..])
  }

  lemma {:induction false} TotalUpdate(left: seq<nat>, t: nat, n: nat)
    requires t < |left|
    ensures Total(left[t := n]) == Total(left) - left[t] + n
  {
    if t == 0 {
      assert left[0 := n][1..] == left[1..];
    } else {
      assert left[t := n][1..] == left[1..][t - 1 := n];
      TotalUpdate(left[1..], t - 1, n);
    }
  }

  // ------------------------------------------------------------ what every step keeps

  /** Between the exchange that took the lock and the release. */
  predicate Inside(p: Pc) { p == Load || p == Store || p == Release }

  function Holds(p: Pc): nat { if Inside(p) then 1 else 0 }

  /** What holds of thread `t`: it loaded the counter as it is, sleeps exactly if it is queued, and has an
      increment left unless it has stored the last. */
  ghost predicate ThreadOk(s: State, t: nat)
    requires s.Shaped()
  {
    t < |s.pc| ==>
      && (s.pc[t] == Store ==> s.reg[t] == s.counter)
      && multiset(s.queue)[Own(t)] == (if s.pc[t] == Parked then 1 else 0)
      && (s.pc[t] == Done ==> s.left[t] == 0)
      && (s.left[t] == 0 ==> s.pc[t] == Release || s.pc[t] == Wake || s.pc[t] == Done)
  }

  /** Mutual exclusion and an exact count: `total` increments are stored or still to come. */
  ghost predicate Safe(s: State, total: nat) {
    && s.Shaped()
    && Sum(s.pc, Holds) == (if s.lock then 1 else 0)
    && s.counter + Total(s.left) == total
    && (forall t: nat {:trigger ThreadOk(s, t)} :: ThreadOk(s, t))
    && (forall t: nat {:trigger Own(t)} :: Own(t) in s.queue ==> t < |s.pc|)
  }

  lemma {:induction false} SumPositive(pc: seq<Pc>, f: Pc -> nat, t: nat)
    requires t < |pc|
    ensures Sum(pc, f) >= f(pc[t])
  {
    if t > 0 { SumPositive(pc[1..], f, t - 1); }
  }

  /** At most one thread is inside. */
  lemma OneInside(s: State, total: nat, t: nat, u: nat)
    requires Safe(s, total) && t < |s.pc| && u < |s.pc| && Inside(s.pc[t]) && Inside(s.pc[u])
    ensures t == u && s.lock
  {
    if t != u {
      SumUpdate(s.pc, Holds, t, Done);
      SumPositive(s.pc[t := Done], Holds, u);
    }
    SumPositive(s.pc, Holds, t);
  }

  lemma {:induction false} TotalOfConst(n: nat, k: nat)
    ensures Total(seq(n, _ => k)) == n * k
  {
    var l := seq(n, _ => k);
    if n > 0 {
      assert l[1..] == seq(n - 1, _ => k);
      TotalOfConst(n - 1, k);
      assert n * k == k + (n - 1) * k;
    }
  }

  lemma {:induction false} NobodyInside(pc: seq<Pc>)
    requires forall t :: 0 <= t < |pc| ==> !Inside(pc[t])
    ensures Sum(pc, Holds) == 0
  {
    if pc != [] { NobodyInside(pc[1..]); }
  }

  lemma StartSafe(n: nat, k: nat)
    ensures Safe(Start(n, k), n * k)
  {
    TotalOfConst(n, k);
    NobodyInside(Start(n, k).pc);
  }

  /** A move of thread `t` alone, by which it neither enters nor leaves the section, the queue or its loop. */
  lemma SafeMove(s: State, total: nat, t: nat, p: Pc)
    requires Safe(s, total) && t < |s.pc| && s.pc[t] != Parked && p != Parked && p != Store && p != Done
    requires Inside(p) == Inside(s.pc[t]) && (s.left[t] == 0 ==> p == Release || p == Wake)
    ensures Safe(s.(pc := s.pc[t := p]), total)
  {
    SumUpdate(s.pc, Holds, t, p);
    var s' := s.(pc := s.pc[t := p]);
    forall u: nat ensures ThreadOk(s', u) {
      assert ThreadOk(s, u);
    }
  }

  /** The lock is taken or given back. */
  lemma SafeLock(s: State, total: nat, t: nat, p: Pc)
    requires Safe(s, total) && t < |s.pc| &&
        (if s.lock then s.pc[t] == Release && p == Wake else s.pc[t] == Xchg && p == Load)
    ensures Safe(s.(lock := !s.lock, pc := s.pc[t := p]), total)
  {
    SumUpdate(s.pc, Holds, t, p);
    var s' := s.(lock := !s.lock, pc := s.pc[t := p]);
    forall u: nat ensures ThreadOk(s', u) {
      assert ThreadOk(s, u);
    }
  }

  lemma SafePark(s: State, total: nat, t: nat)
    requires Safe(s, total) && t < |s.pc| && s.pc[t] == Wait
    ensures Safe(s.(pc := s.pc[t := Parked], queue := s.queue + [Own(t)]), total)
  {
    SumUpdate(s.pc, Holds, t, Parked);
    var s' := s.(pc := s.pc[t := Parked], queue := s.queue + [Own(t)]);
    forall u: nat ensures ThreadOk(s', u) {
      assert ThreadOk(s, u);
      assert multiset(s'.queue)[Own(u)] == multiset(s.queue)[Own(u)] + if u == t then 1 else 0;
    }
  }

  lemma SafeLoad(s: State, total: nat, t: nat)
    requires Safe(s, total) && t < |s.pc| && s.pc[t] == Load
    ensures Safe(Act(s, t), total)
  {
    SumUpdate(s.pc, Holds, t, Store);
    var s' := Act(s, t);
    forall u: nat ensures ThreadOk(s', u) {
      assert ThreadOk(s, u);
    }
  }

  /** The store loses no increment: nobody else is between load and store. */
  lemma SafeStore(s: State, total: nat, t: nat)
    requires Safe(s, total) && t < |s.pc| && s.pc[t] == Store
    ensures Safe(Act(s, t), total) && Act(s, t).counter == s.counter + 1
  {
    var s' := Act(s, t);
    assert ThreadOk(s, t);
    SumUpdate(s.pc, Holds, t, Release);
    TotalUpdate(s.left, t, s.left[t] - 1);
    forall u: nat ensures ThreadOk(s', u) {
      assert ThreadOk(s, u);
      if u < |s.pc| && u != t && s.pc[u] == Store { OneInside(s, total, t, u); }
    }
  }

  /** A sleeper leaves the queue, to try again. */
  lemma SafeUnpark(s: State, total: nat, t: nat, queue: seq<Who>)
    requires Safe(s, total) && t < |s.pc| && multiset(s.queue) == multiset(queue) + multiset{Own(t)}
    ensures s.pc[t] == Parked && Safe(s.(pc := s.pc[t := Xchg], queue := queue), total)
  {
    var s' := s.(pc := s.pc[t := Xchg], queue := queue);
    assert ThreadOk(s, t);
    SumUpdate(s.pc, Holds, t, Xchg);
    forall u: nat ensures ThreadOk(s', u) {
      assert ThreadOk(s, u);
    }
    forall u: nat | Own(u) in queue ensures u < |s.pc| {
      assert Own(u) in multiset(s.queue);
    }
  }

  /** A sleeper on another word leaves the queue or joins it. */
  lemma SafeForeign(s: State, total: nat, queue: seq<Who>)
    requires Safe(s, total)
    requires multiset(s.queue) == multiset(queue) + multiset{Foreign} ||
        multiset(queue) == multiset(s.queue) + multiset{Foreign}
    ensures Safe(s.(queue := queue), total)
  {
    var s' := s.(queue := queue);
    forall u: nat ensures ThreadOk(s', u) {
      assert ThreadOk(s, u);
    }
    forall u: nat | Own(u) in queue ensures u < |s.pc| {
      assert Own(u) in multiset(queue);
      assert Own(u) in multiset(s.queue);
    }
  }

  lemma HeadOut(q: seq<Who>)
    requires q != []
    ensures multiset(q) == multiset(q[1..]) + multiset{q[0]}
  {
    assert q == [q[0]] + q[1..];
  }

  lemma SafeWakeOne(s: State, total: nat)
    requires Safe(s, total)
    ensures Safe(WakeOne(s), total)
  {
    if s.queue != [] {
      HeadOut(s.queue);
      match s.queue[0] {
        case Own(h) =>
          assert Own(h) in s.queue;
          SafeUnpark(s, total, h, s.queue[1..]);
        case Foreign => SafeForeign(s, total, s.queue[1..]);
      }
    }
  }

  /** The end of the loop body: back to the exchange, or out of the loop. */
  lemma SafeAround(s: State, total: nat, t: nat)
    requires Safe(s, total) && t < |s.pc| && s.pc[t] == Wake
    ensures Safe(s.(pc := s.pc[t := if s.left[t] == 0 then Done else Xchg]), total)
  {
    var p := if s.left[t] == 0 then Done else Xchg;
    var s' := s.(pc := s.pc[t := p]);
    SumUpdate(s.pc, Holds, t, p);
    forall u: nat ensures ThreadOk(s', u) {
      assert ThreadOk(s, u);
    }
  }

  lemma SafeAct(s: State, total: nat, t: nat)
    requires Safe(s, total) && t < |s.pc| && s.pc[t] != Parked && s.pc[t] != Done
    ensures Safe(Act(s, t), total)
  {
    assert ThreadOk(s, t);
    match s.pc[t] {
      case Xchg => if s.lock { SafeMove(s, total, t, Wait); } else { SafeLock(s, total, t, Load); }
      case Wait => if s.lock { SafePark(s, total, t); } else { SafeMove(s, total, t, Xchg); }
      case Load => SafeLoad(s, total, t);
      case Store => SafeStore(s, total, t);
      case Release =>
        OneInside(s, total, t, t);
        SafeLock(s, total, t, Wake);
      case Wake =>
        SafeWakeOne(s, total);
        assert WakeOne(s).pc[t] == Wake by { WokenOther(s, total, t); }
        SafeAround(WakeOne(s), total, t);
    }
  }

  /** Only a sleeper is woken. */
  lemma WokenOther(s: State, total: nat, t: nat)
    requires Safe(s, total) && t < |s.pc| && s.pc[t] != Parked
    ensures WakeOne(s).pc[t] == s.pc[t] && |WakeOne(s).pc| == |s.pc|
  {
    assert ThreadOk(s, t);
    if s.queue != [] { HeadOut(s.queue); }
  }

  /** Every step, with or without sleepers on other words in the bucket, keeps mutual exclusion and the count. */
  lemma SafeNext(s: State, s': State, total: nat, shared: bool)
    requires Safe(s, total) && Next(s, s', shared)
    ensures Safe(s', total) && |s'.pc| == |s.pc|
  {
    if t :| Acts(s, s', t) {
      SafeAct(s, total, t);
    } else if t :| Interrupted(s, s', t) {
      SafeUnpark(s, total, t, s'.queue);
    } else {
      if s' == s.(queue := s.queue + [Foreign]) {
        SafeForeign(s, total, s'.queue);
      } else if s' == WakeOne(s) {
        SafeWakeOne(s, total);
      } else {
        SafeForeign(s, total, s'.queue);
      }
    }
  }

  // ------------------------------------------------------------ no wakeup is lost

  /** About to try for the lock, to check it before sleeping, or to wake somebody. */
  predicate Stirring(p: Pc) { p == Xchg || p == Wait || p == Wake }

  ghost predicate SomeStirring(s: State) {
    exists t :: 0 <= t < |s.pc| && Stirring(s.pc[t])
  }

  /** Only the threads sleep in the bucket, and while one does the lock is held or somebody is about to wake it
      or to try again. */
  ghost predicate NoLost(s: State) {
    && Foreign !in s.queue
    && (s.queue != [] ==> s.lock || SomeStirring(s))
  }

  lemma Stirs(s: State, t: nat)
    requires t < |s.pc| && Stirring(s.pc[t])
    ensures SomeStirring(s)
  {
  }

  lemma NoLostAct(s: State, total: nat, t: nat)
    requires Safe(s, total) && NoLost(s) && t < |s.pc| && s.pc[t] != Parked && s.pc[t] != Done
    ensures NoLost(Act(s, t))
  {
    SafeAct(s, total, t);
    var s' := Act(s, t);
    match s.pc[t] {
      case Xchg =>
      case Wait => if !s.lock { Stirs(s', t); }
      case Load => OneInside(s, total, t, t);
      case Store => OneInside(s, total, t, t);
      case Release => Stirs(s', t);
      case Wake =>
        if s.queue != [] {
          var h := s.queue[0].t;
          assert s.queue[0] in s.queue && Own(h) in s.queue;
          WokenOther(s, total, t);
          assert h != t by { assert ThreadOk(s, t); HeadOut(s.queue); }
          Stirs(s', h);
        }
    }
  }

  lemma NoLostNext(s: State, s': State, total: nat)
    requires Safe(s, total) && NoLost(s) && Next(s, s', false)
    ensures NoLost(s')
  {
    if t :| Acts(s, s', t) {
      NoLostAct(s, total, t);
    } else if t :| Interrupted(s, s', t) {
      forall w | w in s'.queue ensures w in s.queue {
        assert w in multiset(s'.queue);
        assert w in multiset(s.queue);
      }
      Stirs(s', t);
    }
  }

  /** Somebody still has increments to make, yet no thread can take a step. */
  ghost predicate Stuck(s: State) {
    && (exists t :: 0 <= t < |s.pc| && s.pc[t] != Done)
    && (forall t :: 0 <= t < |s.pc| ==> s.pc[t] == Parked || s.pc[t] == Done)
  }

  lemma NotStuck(s: State, total: nat)
    requires Safe(s, total) && NoLost(s)
    ensures !Stuck(s)
  {
    if Stuck(s) {
      var t: nat :| t < |s.pc| && s.pc[t] != Done;
      assert ThreadOk(s, t);
      assert Own(t) in multiset(s.queue);
      NobodyInside(s.pc);
      assert false;
    }
  }

  lemma {:induction false} NothingLeft(left: seq<nat>)
    requires forall t :: 0 <= t < |left| ==> left[t] == 0
    ensures Total(left) == 0
  {
    if left != [] { NothingLeft(left[1..]); }
  }

  ghost predicate Finished(s: State) {
    forall t :: 0 <= t < |s.pc| ==> s.pc[t] == Done
  }

  lemma FinishedCount(s: State, total: nat)
    requires Safe(s, total) && Finished(s)
    ensures s.counter == total && !s.lock
  {
    forall t | 0 <= t < |s.left| ensures s.left[t] == 0 {
      assert ThreadOk(s, t);
    }
    NothingLeft(s.left);
    NobodyInside(s.pc);
  }

  // ------------------------------------------------------------ whole runs

  ghost predicate StepAt(tr: seq<State>, i: nat, shared: bool) {
    i + 1 < |tr| ==> Next(tr[i], tr[i + 1], shared)
  }

  ghost predicate Run(tr: seq<State>, n: nat, k: nat, shared: bool) {
    && tr != [] && tr[0] == Start(n, k)
    && forall i: nat {:trigger StepAt(tr, i, shared)} :: StepAt(tr, i, shared)
  }

  ghost predicate Reachable(s: State, n: nat, k: nat, shared: bool) {
    exists tr :: Run(tr, n, k, shared) && s == tr[|tr| - 1]
  }

  lemma {:induction false} RunKeeps(tr: seq<State>, n: nat, k: nat, shared: bool, total: nat, i: nat)
    requires Run(tr, n, k, shared) && Safe(Start(n, k), total) && i < |tr|
    ensures Safe(tr[i], total) && |tr[i].pc| == n && (shared || NoLost(tr[i]))
  {
    if i > 0 {
      var j: nat := i - 1;
      RunKeeps(tr, n, k, shared, total, j);
      assert StepAt(tr, j, shared);
      SafeNext(tr[j], tr[i], total, shared);
      if !shared { NoLostNext(tr[j], tr[i], total); }
    }
  }

  /** In every reachable state at most one thread is inside the section; when all are through, no increment
      has been lost; and while the bucket is not shared, no state is stuck. */
  lemma Reached(s: State, n: nat, k: nat, shared: bool)
    requires Reachable(s, n, k, shared)
    ensures s.Shaped() && |s.pc| == n
    ensures forall t, u :: 0 <= t < n && 0 <= u < n && Inside(s.pc[t]) && Inside(s.pc[u]) ==> t == u
    ensures Finished(s) ==> s.counter == n * k
    ensures !shared ==> !Stuck(s)
    ensures !shared && s.queue != [] ==> s.lock || SomeStirring(s)
  {
    StartSafe(n, k);
    ReachedSafe(s, n, k, shared, n * k);
  }

  lemma ReachedSafe(s: State, n: nat, k: nat, shared: bool, total: nat)
    requires Reachable(s, n, k, shared) && Safe(Start(n, k), total)
    ensures s.Shaped() && |s.pc| == n
    ensures forall t, u :: 0 <= t < n && 0 <= u < n && Inside(s.pc[t]) && Inside(s.pc[u]) ==> t == u
    ensures Finished(s) ==> s.counter == total
    ensures !shared ==> !Stuck(s) && NoLost(s)
  {
    var tr :| Run(tr, n, k, shared) && s == tr[|tr| - 1];
    RunKeeps(tr, n, k, shared, total, |tr| - 1);
    forall t, u | 0 <= t < n && 0 <= u < n && Inside(s.pc[t]) && Inside(s.pc[u]) ensures t == u {
      OneInside(s, total, t, u);
    }
    if Finished(s) { FinishedCount(s, total); }
    if !shared { NotStuck(s, total); }
  }

  // ------------------------------------------------------------ every run ends

  /** How far a thread is from its next entry to the section, while the lock is free and while it is held. */
  function Free(p: Pc): nat {
    match p
    case Xchg => 3 case Wait => 4 case Parked => 0 case Load => 2 case Store => 1 case Release => 0 case Wake => 7
    case Done => 0
  }

  function Held(p: Pc): nat {
    match p
    case Xchg => 2 case Wait => 1 case Parked => 0 case Load => 2 case Store => 1 case Release => 0 case Wake => 7
    case Done => 0
  }

  function AtRelease(p: Pc): nat { if p == Release then 1 else 0 }

  ghost function Distance(s: State): nat {
    if s.lock then Sum(s.pc, Held) else Sum(s.pc, Free)
  }

  /** Sections not yet left. */
  ghost function Sections(s: State): nat {
    Total(s.left) + Sum(s.pc, AtRelease)
  }

  ghost function Price(n: nat): nat { 3 * n + 10 }

  ghost function Measure(s: State): nat {
    Price(|s.pc|) * Sections(s) + Distance(s)
  }

  lemma {:induction false} HeldFree(pc: seq<Pc>)
    ensures Sum(pc, Held) <= Sum(pc, Free) <= Sum(pc, Held) + 3 * |pc|
  {
    if pc != [] { HeldFree(pc[1..]); }
  }

  /** A step lowers the distance, unless it is the release, which leaves a section and raises it by less than
      the price of that section. */
  ghost predicate Closer(s: State, s': State) {
    && |s'.pc| == |s.pc|
    && if Sections(s') == Sections(s) then Distance(s') < Distance(s)
       else Sections(s') == Sections(s) - 1 && Distance(s') <= Distance(s) + 3 * |s.pc| + 7
  }

  lemma CloserMove(s: State, t: nat, p: Pc, queue: seq<Who>)
    requires s.Shaped() && t < |s.pc| && s.pc[t] != Release && p != Release
    requires if s.lock then Held(p) < Held(s.pc[t]) else Free(p) < Free(s.pc[t])
    ensures Closer(s, s.(pc := s.pc[t := p], queue := queue))
  {
    SumUpdate(s.pc, Held, t, p);
    SumUpdate(s.pc, Free, t, p);
    SumUpdate(s.pc, AtRelease, t, p);
  }

  lemma CloserWake(s: State, total: nat, t: nat)
    requires Safe(s, total) && t < |s.pc| && s.pc[t] == Wake
    ensures Closer(s, Act(s, t))
  {
    var r, p := WakeOne(s), if s.left[t] == 0 then Done else Xchg;
    WokenOther(s, total, t);
    SumUpdate(r.pc, Held, t, p);
    SumUpdate(r.pc, Free, t, p);
    SumUpdate(r.pc, AtRelease, t, p);
    if s.queue != [] && s.queue[0].Own? {
      var h := s.queue[0].t;
      assert Own(h) in s.queue && ThreadOk(s, h);
      HeadOut(s.queue);
      SumUpdate(s.pc, Held, h, Xchg);
      SumUpdate(s.pc, Free, h, Xchg);
      SumUpdate(s.pc, AtRelease, h, Xchg);
    }
  }

  lemma CloserAct(s: State, total: nat, t: nat)
    requires Safe(s, total) && t < |s.pc| && s.pc[t] != Parked && s.pc[t] != Done
    ensures Closer(s, Act(s, t))
  {
    var s' := Act(s, t);
    assert ThreadOk(s, t);
    match s.pc[t] {
      case Xchg =>
        if s.lock {
          CloserMove(s, t, Wait, s.queue);
        } else {
          SumUpdate(s.pc, Free, t, Load);
          SumUpdate(s.pc, AtRelease, t, Load);
          HeldFree(s'.pc);
        }
      case Wait => CloserMove(s, t, s'.pc[t], s'.queue);
      case Load => CloserMove(s, t, Store, s.queue);
      case Store =>
        TotalUpdate(s.left, t, s.left[t] - 1);
        SumUpdate(s.pc, Held, t, Release);
        SumUpdate(s.pc, Free, t, Release);
        SumUpdate(s.pc, AtRelease, t, Release);
      case Release =>
        OneInside(s, total, t, t);
        SumUpdate(s.pc, Held, t, Wake);
        SumUpdate(s.pc, AtRelease, t, Wake);
        HeldFree(s'.pc);
      case Wake => CloserWake(s, total, t);
    }
  }

  lemma CloserMeasure(s: State, s': State)
    requires Closer(s, s')
    ensures Measure(s') < Measure(s)
  {
    var a := Price(|s.pc|);
    assert Sections(s') == Sections(s) - 1 ==> a * Sections(s') == a * Sections(s) - a;
  }

  /** What happens in a run while the bucket is not shared: a thread takes a step, or a signal interrupts one
      that sleeps. */
  datatype Event = Moved(t: nat) | Signalled(t: nat)

  ghost predicate Happens(tr: seq<State>, ev: seq<Event>, i: nat) {
    i < |ev| && i + 1 < |tr| ==>
        if ev[i].Moved? then Acts(tr[i], tr[i + 1], ev[i].t) else Interrupted(tr[i], tr[i + 1], ev[i].t)
  }

  ghost predicate History(tr: seq<State>, ev: seq<Event>, n: nat, k: nat) {
    && |tr| == |ev| + 1 && tr[0] == Start(n, k)
    && forall i: nat {:trigger Happens(tr, ev, i)} :: Happens(tr, ev, i)
  }

  function Signals(ev: seq<Event>, i: nat): nat
    requires i <= |ev|
  {
    if i == 0 then 0 else Signals(ev, i - 1) + if ev[i - 1].Signalled? then 1 else 0
  }

  lemma HistoryIsRun(tr: seq<State>, ev: seq<Event>, n: nat, k: nat)
    requires History(tr, ev, n, k)
    ensures Run(tr, n, k, false)
  {
    forall i: nat ensures StepAt(tr, i, false) {
      assert Happens(tr, ev, i);
    }
  }

  lemma InterruptMeasure(s: State, s': State, t: nat)
    requires Interrupted(s, s', t)
    ensures Measure(s') <= Measure(s) + 3
  {
    SumUpdate(s.pc, Held, t, Xchg);
    SumUpdate(s.pc, Free, t, Xchg);
    SumUpdate(s.pc, AtRelease, t, Xchg);
  }

  lemma {:induction false} Bounded(tr: seq<State>, ev: seq<Event>, n: nat, k: nat, total: nat, i: nat)
    requires History(tr, ev, n, k) && Safe(Start(n, k), total) && i <= |ev|
    ensures Measure(tr[i]) + i <= Measure(tr[0]) + 4 * Signals(ev, i)
  {
    if i > 0 {
      var j: nat := i - 1;
      Bounded(tr, ev, n, k, total, j);
      assert Happens(tr, ev, j);
      HistoryIsRun(tr, ev, n, k);
      RunKeeps(tr, n, k, false, total, j);
      if ev[j].Moved? {
        CloserAct(tr[j], total, ev[j].t);
        CloserMeasure(tr[j], tr[i]);
      } else {
        InterruptMeasure(tr[j], tr[i], ev[j].t);
      }
    }
  }

  /** No run goes on for ever unless signals keep coming: its length is bounded by what there is to do and the
      number of signals. A run that cannot go on has ended with every thread through and every increment made. */
  lemma EveryRunEnds(tr: seq<State>, ev: seq<Event>, n: nat, k: nat)
    requires History(tr, ev, n, k)
    ensures |ev| <= Measure(Start(n, k)) + 4 * Signals(ev, |ev|)
    ensures var s := tr[|ev|];
        (forall t :: 0 <= t < |s.pc| ==> s.pc[t] == Parked || s.pc[t] == Done) ==> Finished(s) && s.counter == n * k
  {
    StartSafe(n, k);
    Bounded(tr, ev, n, k, n * k, |ev|);
    HistoryIsRun(tr, ev, n, k);
    Reached(tr[|ev|], n, k, false);
  }

  // ------------------------------------------------------------ a shared bucket

  lemma Reaches(s: State, s': State, n: nat, k: nat, shared: bool)
    requires Reachable(s, n, k, shared) && Next(s, s', shared)
    ensures Reachable(s', n, k, shared)
  {
    var tr :| Run(tr, n, k, shared) && s == tr[|tr| - 1];
    var tr' := tr + [s'];
    forall i: nat ensures StepAt(tr', i, shared) {
      assert StepAt(tr, i, shared);
    }
    assert Run(tr', n, k, shared);
  }

  lemma ReachesAct(s: State, t: nat, n: nat, k: nat, shared: bool)
    requires Reachable(s, n, k, shared) && s.Shaped() && t < |s.pc| && s.pc[t] != Parked && s.pc[t] != Done
    ensures Reachable(Act(s, t), n, k, shared)
  {
    assert Acts(s, Act(s, t), t);
    Reaches(s, Act(s, t), n, k, shared);
  }

  /** At least `j` sleepers on other words are ahead of everybody else. */
  ghost predicate Ahead(s: State, j: nat) {
    j <= |s.queue| && forall q :: 0 <= q < j ==> s.queue[q] == Foreign
  }

  /** Thread 0 is about to load with `j` increments to go, threads 1 to m - 1 sleep, the others have not begun. */
  ghost predicate Poised(s: State, n: nat, m: nat, j: nat) {
    && s.Shaped() && |s.pc| == n && 1 <= m <= n && s.lock && s.pc[0] == Load && s.left[0] == j && Ahead(s, j)
    && (forall t :: 1 <= t < m ==> s.pc[t] == Parked) && (forall t :: m <= t < n ==> s.pc[t] == Xchg)
  }

  /** Thread 0 goes round its loop, each time waking a sleeper on another word, and leaves the rest asleep. */
  lemma {:induction false} Spin(s: State, n: nat, k: nat, j: nat)
    requires n >= 2 && j > 0 && Reachable(s, n, k, true) && Poised(s, n, n, j)
    ensures exists s' :: Reachable(s', n, k, true) && Stuck(s')
    decreases j
  {
    var a := Act(s, 0);
    ReachesAct(s, 0, n, k, true);
    var b := Act(a, 0);
    ReachesAct(a, 0, n, k, true);
    var c := Act(b, 0);
    ReachesAct(b, 0, n, k, true);
    var d := Act(c, 0);
    ReachesAct(c, 0, n, k, true);
    assert d.queue == s.queue[1..] && d.left[0] == j - 1;
    if j == 1 {
      assert d.pc[1] == Parked;
      assert Stuck(d);
    } else {
      var e := Act(d, 0);
      ReachesAct(d, 0, n, k, true);
      Spin(e, n, k, j - 1);
    }
  }

  lemma {:induction false} ParkAll(s: State, n: nat, k: nat, m: nat)
    requires n >= 2 && k > 0 && Reachable(s, n, k, true) && Poised(s, n, m, k)
    ensures exists s' :: Reachable(s', n, k, true) && Stuck(s')
    decreases n - m
  {
    if m == n {
      Spin(s, n, k, k);
    } else {
      var a := Act(s, m);
      ReachesAct(s, m, n, k, true);
      var b := Act(a, m);
      ReachesAct(a, m, n, k, true);
      ParkAll(b, n, k, m + 1);
    }
  }

  lemma {:induction false} Arrive(n: nat, k: nat, j: nat) returns (s: State)
    ensures s == Start(n, k).(queue := seq(j, _ => Foreign)) && Reachable(s, n, k, true)
  {
    s := Start(n, k).(queue := seq(j, _ => Foreign));
    if j == 0 {
      assert s == Start(n, k);
      assert Run([s], n, k, true);
    } else {
      var r := Arrive(n, k, j - 1);
      assert s.queue == r.queue + [Foreign];
      assert Disturbed(r, s);
      Reaches(r, s, n, k, true);
    }
  }

  /** Another word that is waited on has the bucket of the lock word. */
  predicate Shares(lockWord: nat, others: set<nat>) {
    exists w :: w in others && BucketOf(w) == BucketOf(lockWord)
  }

  /** Two threads or more can all be left asleep with increments still to make, the lock free and no wake of theirs to
      come, if and only if another word that is waited on falls into the lock word's bucket. What could still rouse
      them then is a wake meant for that other word. */
  lemma StuckIffShared(n: nat, k: nat, lockWord: nat, others: set<nat>)
    requires n >= 2 && k > 0
    ensures var shared := Shares(lockWord, others); (exists s :: Reachable(s, n, k, shared) && Stuck(s)) <==> shared
  {
    var shared := Shares(lockWord, others);
    if shared {
      var s := Arrive(n, k, k);
      ReachesAct(s, 0, n, k, true);
      ParkAll(Act(s, 0), n, k, 1);
    } else {
      forall s | Reachable(s, n, k, false) ensures !Stuck(s) {
        Reached(s, n, k, false);
      }
    }
  }
}
