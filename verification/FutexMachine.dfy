/** The threads of user/threadtest.c on the kernel's wait queues: every step of the lock protocol made by calls of
    futex_wait and futex_wake, with other processes waiting on and waking other words, and signals, in any order. */
module FutexMachine {
  import opened Futex

  /** A step of thread `t`; a signal for it while it sleeps; another process waiting on a word, taken out by a signal,
      or waking some who do. */
  datatype Happening =
    | Go(t: nat)
    | Signal(t: nat)
    | OtherWaits(w: nat, cur: int, val: int)
    | OtherLeaves(w: nat, i: nat)
    | OtherWakes(w: nat, n: int)

  /** The threads that are woken go back to the exchange. */
  function Roused(pc: seq<Pc>, who: seq<Who>): (r: seq<Pc>)
    ensures |r| == |pc|
    decreases |who|
  {
    if who == [] then pc
    else Roused(match who[0] case Own(h) => if h < |pc| then pc[h := Xchg] else pc case Foreign => pc, who[1..])
  }

  /** futex_wake of one is wq_wake_one. */
  lemma RousedOne(s: State, m: nat)
    requires m == if s.queue == [] then 0 else 1
    ensures WakeOne(s) == s.(queue := s.queue[m..], pc := Roused(s.pc, s.queue[..m]))
  {
    if m == 1 {
      assert s.queue[..1][1..] == [] && s.queue[..1][0] == s.queue[0];
    }
  }

  lemma {:induction false} RousedForeign(pc: seq<Pc>, who: seq<Who>)
    requires forall i :: 0 <= i < |who| ==> who[i] == Foreign
    ensures Roused(pc, who) == pc
  {
    if who != [] { RousedForeign(pc, who[1..]); }
  }

  /** Waking several is waking one after the other. */
  lemma {:induction false} WakesRun(tr: seq<State>, n: nat, k: nat, m: nat) returns (tr': seq<State>)
    requires Run(tr, n, k, true) && m <= |tr[|tr| - 1].queue|
    ensures Run(tr', n, k, true) && var s := tr[|tr| - 1];
      tr'[|tr'| - 1] == s.(queue := s.queue[m..], pc := Roused(s.pc, s.queue[..m]))
    decreases m
  {
    var s := tr[|tr| - 1];
    if m == 0 {
      tr' := tr;
    } else {
      var r := WakeOne(s);
      var more := RunMore(tr, n, k, true, r);
      tr' := WakesRun(more, n, k, m - 1);
      assert r.queue[..m - 1] == s.queue[..m][1..] && r.queue[m - 1..] == s.queue[m..];
    }
  }

  lemma RunMore(tr: seq<State>, n: nat, k: nat, shared: bool, s: State) returns (tr': seq<State>)
    requires Run(tr, n, k, shared) && Next(tr[|tr| - 1], s, shared)
    ensures tr' == tr + [s] && Run(tr', n, k, shared)
  {
    tr' := tr + [s];
    forall i: nat ensures StepAt(tr', i, shared) {
      assert StepAt(tr, i, shared);
    }
  }

  class Machine {
    const buckets: Buckets
    const lockWord: nat
    const others: set<nat>
    const n: nat
    const k: nat
    var lock: int
    var counter: int
    var pc: seq<Pc>
    var reg: seq<int>
    var left: seq<nat>
    ghost var tr: seq<State>

    /** The state of the protocol the machine is in: its queue is the lock word's bucket. */
    ghost function Now(): State
      requires buckets.Valid()
      reads this, buckets
    {
      State(lock == 1, counter, pc, reg, left, buckets.bucket[BucketOf(lockWord)])
    }

    /** The machine is where a run of the protocol has led; no thread sleeps outside the lock word's bucket, and nobody
        else in it unless it is shared. */
    ghost predicate Valid()
      reads this, buckets
    {
      && buckets.Valid() && (lock == 0 || lock == 1) && Run(tr, n, k, Shares(lockWord, others)) && Now() == tr[|tr| - 1]
      && (forall b: nat, i :: b < NBUCKETS && b != BucketOf(lockWord) && 0 <= i < |buckets.bucket[b]| ==>
          buckets.bucket[b][i] == Foreign)
    }

    constructor (lockWord: nat, others: set<nat>, n: nat, k: nat)
      ensures Valid() && fresh(buckets) && this.lockWord == lockWord && this.others == others && this.n == n &&
          this.k == k
      ensures Now() == Start(n, k)
    {
      this.lockWord, this.others, this.n, this.k := lockWord, others, n, k;
      buckets := new Buckets();
      lock, counter := 0, 0;
      pc, reg, left := seq(n, _ => if k == 0 then Done else Xchg), seq(n, _ => 0), seq(n, _ => k);
      tr := [Start(n, k)];
    }

    /** The next step of thread `t`, with the kernel's calls where it makes them: what the protocol says it is. */
    method Proceed(t: nat)
      requires Valid() && t < |pc| && pc[t] != Parked && pc[t] != Done && Now().Shaped()
      modifies this, buckets
      ensures buckets.Valid() && (lock == 0 || lock == 1) && Now() == Act(old(Now()), t) && tr == old(tr)
      ensures forall b: nat :: b < NBUCKETS && b != BucketOf(lockWord) ==> buckets.bucket[b] == old(buckets.bucket[b])
    {
      match pc[t] {
        case Xchg =>
          var was := lock;
          lock := 1;
          pc := pc[t := if was != 0 then Wait else Load];
        case Wait =>
          var asleep := buckets.FutexWait(lockWord, lock, 1, Own(t));
          pc := pc[t := if asleep then Parked else Xchg];
        case Load => reg, pc := reg[t := counter], pc[t := Store];
        case Store =>
          counter, left := reg[t] + 1, left[t := if left[t] > 0 then left[t] - 1 else 0];
          pc := pc[t := Release];
        case Release => lock, pc := 0, pc[t := Wake];
        case Wake =>
          var woken, roused := buckets.FutexWake(lockWord, 1);
          RousedOne(old(Now()), woken);
          pc := Roused(pc, roused);
          pc := pc[t := if left[t] == 0 then Done else Xchg];
      }
    }

    /** What the protocol keeps in every state. */
    lemma Kept()
      requires Valid()
      ensures Now().Shaped() && |pc| == n && Safe(Now(), n * k)
    {
      StartSafe(n, k);
      RunKeeps(tr, n, k, Shares(lockWord, others), n * k, |tr| - 1);
    }

    lemma Formed()
      requires Valid()
      ensures Now().Shaped()
    {
      Kept();
    }

    /** A thread that can take a step takes it. */
    method Move(t: nat)
      requires Valid()
      modifies this, buckets
      ensures Valid() && |pc| == old(|pc|)
      ensures if t < |pc| && old(pc)[t] != Parked && old(pc)[t] != Done then Acts(old(Now()), Now(), t)
          else Now() == old(Now())
    {
      Formed();
      if t < |pc| && pc[t] != Parked && pc[t] != Done {
        ghost var s := Now();
        Proceed(t);
        assert Acts(s, Now(), t);
        tr := RunMore(tr, n, k, Shares(lockWord, others), Now());
      }
    }

    /** A sleeping thread is interrupted: it leaves the queue and tries again. */
    method Interrupt(t: nat)
      requires Valid()
      modifies this, buckets
      ensures Valid() && |pc| == old(|pc|)
      ensures if t < |pc| && old(pc)[t] == Parked then Interrupted(old(Now()), Now(), t) else Now() == old(Now())
    {
      if t < |pc| && pc[t] == Parked {
        ghost var s := Now();
        Queued(t);
        var b := BucketOf(lockWord);
        var i := PlaceOf(buckets.bucket[b], Own(t));
        buckets.Leave(b, i);
        pc := pc[t := Xchg];
        TakenOut(s, Now(), t, i, Shares(lockWord, others));
        tr := RunMore(tr, n, k, Shares(lockWord, others), Now());
      }
    }

    /** A thread that sleeps is in the lock word's bucket. */
    lemma Queued(t: nat)
      requires Valid() && t < |pc| && pc[t] == Parked
      ensures Now().Shaped() && Own(t) in buckets.bucket[BucketOf(lockWord)]
    {
      Kept();
      assert ThreadOk(Now(), t) && Own(t) in multiset(Now().queue);
    }

    /** Another process waits on its word. */
    method OtherWait(w: nat, cur: int, val: int)
      requires Valid() && w in others
      modifies this, buckets
      ensures Valid()
      ensures Now() == if cur == val && BucketOf(w) == BucketOf(lockWord) then old(Now()).(queue := old(Now()).queue +
          [Foreign]) else old(Now())
    {
      ghost var s := Now();
      var asleep := buckets.FutexWait(w, cur, val, Foreign);
      if asleep && BucketOf(w) == BucketOf(lockWord) {
        assert Disturbed(s, Now());
        tr := RunMore(tr, n, k, true, Now());
      }
    }

    /** A signal takes it out again. */
    method OtherLeave(w: nat, i: nat)
      requires Valid() && w in others
      modifies this, buckets
      ensures Valid() && (Now() == old(Now()) || Disturbed(old(Now()), Now()))
    {
      ghost var s := Now();
      var b := BucketOf(w);
      if i < |buckets.bucket[b]| && buckets.bucket[b][i] == Foreign {
        buckets.Leave(b, i);
        if b == BucketOf(lockWord) {
          OneOut(s.queue, i, Now().queue);
          assert Disturbed(s, Now());
          tr := RunMore(tr, n, k, true, Now());
        }
      }
    }

    /** Or somebody wakes up to `m` who wait on that word, as it thinks. */
    method OtherWake(w: nat, m: int)
      requires Valid() && w in others
      modifies this, buckets
      ensures Valid()
      ensures var s := old(Now()); var j := if m < 0 then 0 else if m < |s.queue| then m else |s.queue|;
        Now() == if BucketOf(w) == BucketOf(lockWord) then s.(queue := s.queue[j..], pc := Roused(s.pc, s.queue[..j]))
            else s
    {
      ghost var s := Now();
      var woken, roused := buckets.FutexWake(w, m);
      pc := Roused(pc, roused);
      if BucketOf(w) == BucketOf(lockWord) {
        tr := WakesRun(tr, n, k, woken);
      } else {
        RousedForeign(s.pc, roused);
      }
    }

    method Step(h: Happening)
      requires Valid()
      modifies this, buckets
      ensures Valid()
    {
      match h {
        case Go(t) => Move(t);
        case Signal(t) => Interrupt(t);
        case OtherWaits(w, cur, val) => if w in others { OtherWait(w, cur, val); }
        case OtherLeaves(w, i) => if w in others { OtherLeave(w, i); }
        case OtherWakes(w, m) => if w in others { OtherWake(w, m); }
      }
    }

    /** Whatever happens in whatever order: at most one thread is inside, no increment is lost, and the threads are
        never all left asleep with increments to make, unless another word that is waited on has the lock word's
        bucket. */
    method Play(hs: seq<Happening>)
      requires Valid()
      modifies this, buckets
      ensures Valid() && |pc| == n
      ensures forall t, u :: 0 <= t < n && 0 <= u < n && Inside(pc[t]) && Inside(pc[u]) ==> t == u
      ensures (forall t :: 0 <= t < n ==> pc[t] == Done) ==> counter == n * k
      ensures !Shares(lockWord, others) ==> !Stuck(Now())
    {
      for i := 0 to |hs|
        invariant Valid()
      {
        Step(hs[i]);
      }
      assert Reachable(Now(), n, k, Shares(lockWord, others));
      Reached(Now(), n, k, Shares(lockWord, others));
    }
  }

  lemma TakenOut(s: State, s': State, t: nat, i: nat, shared: bool)
    requires s.Shaped() && t < |s.pc| && s.pc[t] == Parked && i < |s.queue| && s.queue[i] == Own(t)
    requires s' == s.(pc := s.pc[t := Xchg], queue := s.queue[..i] + s.queue[i + 1..])
    ensures Interrupted(s, s', t) && Next(s, s', shared)
  {
    OneOut(s.queue, i, s'.queue);
    assert Interrupted(s, s', t);
  }

  /** Where somebody is in a queue. */
  method PlaceOf(q: seq<Who>, who: Who) returns (i: nat)
    requires who in q
    ensures i < |q| && q[i] == who
  {
    i := 0;
    while q[i] != who
      invariant i < |q| && who in q[i..]
      decreases |q| - i
    {
      i := i + 1;
    }
  }

  lemma OneOut(q: seq<Who>, i: nat, r: seq<Who>)
    requires i < |q| && r == q[..i] + q[i + 1..]
    ensures multiset(q) == multiset(r) + multiset{q[i]}
  {
    assert q == q[..i] + [q[i]] + q[i + 1..];
  }
}
