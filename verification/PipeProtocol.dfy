/** The blocking protocol of one pipe (kernel/fs/vfs.c, pipe_read, pipe_write, pipe_detach): any number of
    threads call read and write, signals interrupt those that sleep, and ends are closed, in any order. A
    section with interrupts off is one step; the three parts of pipe_detach are steps of their own. */
module PipeProtocol {
  import opened Bytes
  import opened Pipe

  /** A call under way: `n` bytes asked for, or `data` of which the first `put` bytes are in the pipe. */
  datatype Call = Reading(n: nat) | Writing(data: seq<byte>, put: nat)

  datatype Result = Nothing | Got(out: seq<byte>) | Wrote(n: nat) | Interrupted | BrokenPipe

  datatype Thread = Running(call: Call) | Asleep(call: Call) | Idle(result: Result)

  /** A pipe_detach that has lowered a count: next it wakes the readers, then the writers. */
  datatype Detach = WakeReaders | WakeWriters

  /** `accepted` and `delivered` record every byte that ever went into and came out of the pipe. */
  datatype State = State(ring: seq<byte>, readers: nat, writers: nat, threads: seq<Thread>, closing: seq<Detach>,
                         accepted: seq<byte>, delivered: seq<byte>)

  function Start(n: nat): State {
    State([], 1, 1, seq(n, _ => Idle(Nothing)), [], [], [])
  }

  // ------------------------------------------------------------ steps

  function RoutedReader(th: Thread): Thread {
    if th.Asleep? && th.call.Reading? then Running(th.call) else th
  }

  function RoutedWriter(th: Thread): Thread {
    if th.Asleep? && th.call.Writing? then Running(th.call) else th
  }

  /** wq_wake_all on rwait and on wwait. */
  function RouseReaders(ts: seq<Thread>): (r: seq<Thread>)
    ensures |r| == |ts| && forall t {:trigger r[t]} :: 0 <= t < |ts| ==> r[t] == RoutedReader(ts[t])
  {
    seq(|ts|, t requires 0 <= t < |ts| => RoutedReader(ts[t]))
  }

  function RouseWriters(ts: seq<Thread>): (r: seq<Thread>)
    ensures |r| == |ts| && forall t {:trigger r[t]} :: 0 <= t < |ts| ==> r[t] == RoutedWriter(ts[t])
  {
    seq(|ts|, t requires 0 <= t < |ts| => RoutedWriter(ts[t]))
  }

  function Min(a: nat, b: nat): nat { if a < b then a else b }

  /** pipe_read from the top of its loop until it returns or sleeps. */
  function Read(s: State, t: nat): State
    requires t < |s.threads| && s.threads[t].Running? && s.threads[t].call.Reading?
  {
    var n := s.threads[t].call.n;
    if n == 0 then s.(threads := s.threads[t := Idle(Got([]))])
    else if s.ring == [] then
      s.(threads := s.threads[t := if s.writers == 0 then Idle(Got([])) else Asleep(Reading(n))])
    else
      var chunk := Min(n, |s.ring|);
      s.(ring := s.ring[chunk..], delivered := s.delivered + s.ring[..chunk],
         threads := RouseWriters(s.threads)[t := Idle(Got(s.ring[..chunk]))])
  }

  /** One turn of pipe_write's loop. */
  function Write(s: State, t: nat): State
    requires t < |s.threads| && s.threads[t].Running? && s.threads[t].call.Writing? &&
        s.threads[t].call.put <= |s.threads[t].call.data|
  {
    var data, put := s.threads[t].call.data, s.threads[t].call.put;
    if put == |data| then s.(threads := s.threads[t := Idle(Wrote(put))])
    else if s.readers == 0 then s.(threads := s.threads[t := Idle(if put > 0 then Wrote(put) else BrokenPipe)])
    else if |s.ring| >= CAP then s.(threads := s.threads[t := Asleep(Writing(data, put))])
    else
      var chunk := Min(|data| - put, CAP - |s.ring|);
      s.(ring := s.ring + data[put..put + chunk], accepted := s.accepted + data[put..put + chunk],
         threads := RouseReaders(s.threads)[t := Running(Writing(data, put + chunk))])
  }

  /** What a sleeper interrupted by a signal returns. */
  function Broken(call: Call): Result {
    if call.Writing? && call.put > 0 then Wrote(call.put) else Interrupted
  }

  datatype Event =
    | Begin(t: nat, call: Call)
    | Go(t: nat)
    | Signal(t: nat)
    | CloseReader
    | CloseWriter
    | Detaching(i: nat)

  /** A call begins with nothing written, and whoever writes has a write end open. */
  predicate Enabled(s: State, e: Event) {
    match e
    case Begin(t, call) => t < |s.threads| && s.threads[t].Idle? && (call.Writing? ==>
        call.put == 0 && s.writers > 0) && (call.Reading? ==> s.readers > 0)
    case Go(t) => t < |s.threads| && s.threads[t].Running? && (s.threads[t].call.Writing? ==>
        s.threads[t].call.put <= |s.threads[t].call.data| && s.writers > 0)
    case Signal(t) => t < |s.threads| && s.threads[t].Asleep?
    case CloseReader => s.readers > 0
    case CloseWriter => s.writers > 0
    case Detaching(i) => i < |s.closing|
  }

  function Apply(s: State, e: Event): State
    requires Enabled(s, e)
  {
    match e
    case Begin(t, call) => s.(threads := s.threads[t := Running(call)])
    case Go(t) => if s.threads[t].call.Reading? then Read(s, t) else Write(s, t)
    case Signal(t) => s.(threads := s.threads[t := Idle(Broken(s.threads[t].call))])
    case CloseReader => s.(readers := s.readers - 1, closing := s.closing + [WakeReaders])
    case CloseWriter => s.(writers := s.writers - 1, closing := s.closing + [WakeReaders])
    case Detaching(i) =>
      if s.closing[i] == WakeReaders then s.(closing := s.closing[i := WakeWriters], threads := RouseReaders(s.threads))
      else s.(closing := s.closing[..i] + s.closing[i + 1..], threads := RouseWriters(s.threads))
  }

  // ------------------------------------------------------------ what every step keeps

  /** A thread that sleeps has reason to, or somebody who is closing an end is about to wake it. */
  ghost predicate ThreadOk(s: State, t: nat) {
    t < |s.threads| && !s.threads[t].Idle? ==>
      var th := s.threads[t];
      && (th.call.Writing? ==> th.call.put <= |th.call.data| && (th.Asleep? ==> th.call.put < |th.call.data|))
      && (th.Asleep? && th.call.Reading? ==> (s.ring == [] && s.writers > 0) || WakeReaders in s.closing)
      && (th.Asleep? && th.call.Writing? ==> (|s.ring| == CAP && s.readers > 0) || s.closing != [])
  }

  /** Bytes come out as they went in, none lost and none twice; and nobody sleeps without reason. */
  ghost predicate Inv(s: State) {
    && s.accepted == s.delivered + s.ring && |s.ring| <= CAP
    && forall t: nat {:trigger ThreadOk(s, t)} :: ThreadOk(s, t)
  }

  lemma StartInv(n: nat)
    ensures Inv(Start(n))
  {
  }

  lemma InvRead(s: State, t: nat)
    requires Inv(s) && t < |s.threads| && s.threads[t].Running? && s.threads[t].call.Reading?
    ensures Inv(Read(s, t))
  {
    var s' := Read(s, t);
    forall u: nat ensures ThreadOk(s', u) {
      assert ThreadOk(s, u);
    }
  }

  lemma InvWrite(s: State, t: nat)
    requires Inv(s) && t < |s.threads| && s.threads[t].Running? && s.threads[t].call.Writing? &&
        s.threads[t].call.put <= |s.threads[t].call.data|
    ensures Inv(Write(s, t))
  {
    var s' := Write(s, t);
    forall u: nat ensures ThreadOk(s', u) {
      assert ThreadOk(s, u);
    }
  }

  lemma InvDetaching(s: State, i: nat)
    requires Inv(s) && i < |s.closing|
    ensures Inv(Apply(s, Detaching(i)))
  {
    var s' := Apply(s, Detaching(i));
    if s.closing[i] == WakeReaders {
      assert s'.closing[i] == WakeWriters;
    } else if WakeReaders in s.closing {
      var k :| 0 <= k < |s.closing| && s.closing[k] == WakeReaders;
      assert s'.closing[if k < i then k else k - 1] == WakeReaders;
    }
    forall u: nat ensures ThreadOk(s', u) {
      assert ThreadOk(s, u);
    }
  }

  lemma InvStep(s: State, e: Event)
    requires Inv(s) && Enabled(s, e)
    ensures Inv(Apply(s, e))
  {
    var s' := Apply(s, e);
    match e {
      case Go(t) => if s.threads[t].call.Reading? { InvRead(s, t); } else { InvWrite(s, t); }
      case Detaching(i) => InvDetaching(s, i);
      case Begin(t, call) => forall u: nat ensures ThreadOk(s', u) { assert ThreadOk(s, u); }
      case Signal(t) => forall u: nat ensures ThreadOk(s', u) { assert ThreadOk(s, u); }
      case CloseReader => Closing(s, s');
      case CloseWriter => Closing(s, s');
    }
  }

  lemma Closing(s: State, s': State)
    requires Inv(s) && s'.closing == s.closing + [WakeReaders]
    requires s'.ring == s.ring && s'.threads == s.threads && s'.accepted == s.accepted && s'.delivered == s.delivered
    ensures Inv(s')
  {
    assert s'.closing[|s.closing|] == WakeReaders;
    forall u: nat ensures ThreadOk(s', u) {
      assert ThreadOk(s, u);
    }
  }

  // ------------------------------------------------------------ whole runs

  ghost predicate StepAt(tr: seq<State>, ev: seq<Event>, i: nat) {
    i < |ev| && i + 1 < |tr| ==> Enabled(tr[i], ev[i]) && tr[i + 1] == Apply(tr[i], ev[i])
  }

  /** The states a pipe with `n` threads goes through as the events happen. */
  ghost predicate Run(tr: seq<State>, ev: seq<Event>, n: nat) {
    && |tr| == |ev| + 1 && tr[0] == Start(n)
    && forall i: nat {:trigger StepAt(tr, ev, i)} :: StepAt(tr, ev, i)
  }

  lemma {:induction false} RunInv(tr: seq<State>, ev: seq<Event>, n: nat, i: nat)
    requires Run(tr, ev, n) && i <= |ev|
    ensures Inv(tr[i]) && |tr[i].threads| == n
  {
    if i == 0 {
      StartInv(n);
    } else {
      var j: nat := i - 1;
      RunInv(tr, ev, n, j);
      assert StepAt(tr, ev, j);
      InvStep(tr[j], ev[j]);
    }
  }

  /** If thread `t` sleeps, it cannot go on: a reader finds the pipe empty with a writer left, a writer finds it
      full with a reader left. */
  predicate Justified(s: State, t: nat) {
    t < |s.threads| && s.threads[t].Asleep? ==>
      if s.threads[t].call.Reading? then s.ring == [] && s.writers > 0 else |s.ring| == CAP && s.readers > 0
  }

  /** Bytes come out in the order they went in, and no wakeup is lost: unless somebody is closing an end,
      whoever sleeps cannot go on, and so never do a reader and a writer sleep at once. */
  lemma NoLostWakeup(tr: seq<State>, ev: seq<Event>, n: nat, i: nat, t: nat, u: nat)
    requires Run(tr, ev, n) && i <= |ev|
    ensures tr[i].accepted == tr[i].delivered + tr[i].ring && |tr[i].ring| <= CAP
    ensures tr[i].closing == [] ==> Justified(tr[i], t)
    ensures tr[i].closing == [] && t < n && u < n && |tr[i].threads| == n ==>
        tr[i].threads[t].Asleep? && tr[i].threads[u].Asleep? ==>
        tr[i].threads[t].call.Reading? == tr[i].threads[u].call.Reading?
  {
    RunInv(tr, ev, n, i);
    assert ThreadOk(tr[i], t) && ThreadOk(tr[i], u);
  }

  /** Without writers nothing more goes in, and no reader is put to sleep. */
  lemma NoWriters(s: State, e: Event)
    requires Enabled(s, e) && s.writers == 0
    ensures var s' := Apply(s, e); s'.writers == 0 && s'.accepted == s.accepted
    ensures e.Go? ==> !Apply(s, e).threads[e.t].Asleep?
  {
  }

  lemma {:induction false} NothingMore(tr: seq<State>, ev: seq<Event>, n: nat, i: nat, j: nat)
    requires Run(tr, ev, n) && i <= j <= |ev| && tr[i].writers == 0
    ensures tr[j].writers == 0 && tr[j].accepted == tr[i].accepted
    decreases j
  {
    if i < j {
      var h: nat := j - 1;
      NothingMore(tr, ev, n, i, h);
      assert StepAt(tr, ev, h);
      NoWriters(tr[h], ev[h]);
    }
  }

  /** End of file: a read of something that returns nothing means that every byte ever accepted has been
      delivered and that none will be accepted any more. */
  lemma EndOfFile(tr: seq<State>, ev: seq<Event>, n: nat, i: nat, j: nat, t: nat)
    requires Run(tr, ev, n) && i < j <= |ev| && ev[i] == Go(t) && t < |tr[i].threads| == |tr[i + 1].threads| &&
        tr[i].threads[t].Running?
    requires tr[i].threads[t].call.Reading? && tr[i].threads[t].call.n > 0 && tr[i + 1].threads[t] == Idle(Got([]))
    ensures tr[i].delivered == tr[i].accepted && tr[j].accepted == tr[i].accepted
    ensures tr[j].delivered + tr[j].ring == tr[i].accepted
  {
    RunInv(tr, ev, n, i);
    RunInv(tr, ev, n, j);
    assert StepAt(tr, ev, i);
    NothingMore(tr, ev, n, i, j);
  }

  /** What readers got, one after the other, in steps [i, j). */
  ghost function Received(tr: seq<State>, ev: seq<Event>, i: nat, j: nat): seq<byte>
    requires |tr| == |ev| + 1 && i <= j <= |ev|
    decreases j
  {
    if i == j then [] else Received(tr, ev, i, j - 1) + Answer(tr[j - 1], ev[j - 1], tr[j])
  }

  /** What the reader whose step it was got. */
  ghost function Answer(s: State, e: Event, s': State): seq<byte> {
    if e.Go? && e.t < |s.threads| && e.t < |s'.threads|
      && s.threads[e.t].Running? && s.threads[e.t].call.Reading? && s'.threads[e.t].Idle? && s'.threads[e.t].result.Got?
    then s'.threads[e.t].result.out else []
  }

  lemma AnswerDelivers(s: State, e: Event)
    requires Enabled(s, e)
    ensures Apply(s, e).delivered == s.delivered + Answer(s, e, Apply(s, e))
  {
  }

  /** Readers get what is delivered. */
  lemma {:induction false} ReceivedDelivered(tr: seq<State>, ev: seq<Event>, n: nat, i: nat, j: nat)
    requires Run(tr, ev, n) && i <= j <= |ev|
    ensures tr[j].delivered == tr[i].delivered + Received(tr, ev, i, j)
    decreases j
  {
    if i < j {
      var h: nat := j - 1;
      ReceivedDelivered(tr, ev, n, i, h);
      assert StepAt(tr, ev, h);
      AnswerDelivers(tr[h], ev[h]);
    }
  }

  /** Thread `t` is about to read something. */
  predicate Reads(s: State, t: nat) {
    t < |s.threads| && s.threads[t].Running? && s.threads[t].call.Reading? && s.threads[t].call.n > 0
  }

  /** How a read of something goes: it gets the oldest bytes, at least one, and nothing exactly when there is none. */
  predicate Answered(s: State, t: nat, s': State) {
    && Reads(s, t) && t < |s'.threads|
    && s'.threads[t] == Idle(Got(s.ring[..Min(s.threads[t].call.n, |s.ring|)]))
  }

  /** Once there are no writers, readers drain what is in the pipe, in order, and then get nothing: what they have
      got and what is still there is what was there; and a read of something returns at once, with nothing only
      when all of it has been read. */
  lemma Drained(tr: seq<State>, ev: seq<Event>, n: nat, i: nat, j: nat, t: nat)
    requires Run(tr, ev, n) && i <= j <= |ev| && tr[i].writers == 0
    ensures Received(tr, ev, i, j) + tr[j].ring == tr[i].ring
    ensures j < |ev| && ev[j] == Go(t) && Reads(tr[j], t) ==>
      Answered(tr[j], t, tr[j + 1]) && (tr[j + 1].threads[t] == Idle(Got([])) <==> Received(tr, ev, i, j) == tr[i].ring)
  {
    RunInv(tr, ev, n, i);
    RunInv(tr, ev, n, j);
    NothingMore(tr, ev, n, i, j);
    ReceivedDelivered(tr, ev, n, i, j);
    var got := Received(tr, ev, i, j);
    assert tr[i].delivered + (got + tr[j].ring) == tr[i].delivered + tr[i].ring;
    Cancel(tr[i].delivered, got + tr[j].ring, tr[i].ring);
    assert StepAt(tr, ev, j);
    if got == tr[i].ring { assert |tr[j].ring| == 0; } else { assert tr[j].ring != []; }
  }

  lemma Cancel(a: seq<byte>, b: seq<byte>, c: seq<byte>)
    requires a + b == a + c
    ensures b == c
  {
    assert b == (a + b)[|a|..] && c == (a + c)[|a|..];
  }

  /** What thread `t` put into the pipe in steps [i, j). */
  ghost function Sent(tr: seq<State>, ev: seq<Event>, t: nat, i: nat, j: nat): seq<byte>
    requires |tr| == |ev| + 1 && i <= j <= |ev|
    decreases j
  {
    if i == j then [] else Sent(tr, ev, t, i, j - 1) + (if ev[j - 1] == Go(t) then Gain(tr[j - 1], tr[j]) else [])
  }

  /** What went into the pipe from one state to the next. */
  ghost function Gain(s: State, s': State): seq<byte> {
    if |s.accepted| <= |s'.accepted| then s'.accepted[|s.accepted|..] else []
  }

  /** How a write of `data` stands after `sent` went in: still under way, or over with its result. */
  predicate Written(th: Thread, data: seq<byte>, sent: seq<byte>) {
    match th
    case Idle(Wrote(m)) => m <= |data| && sent == data[..m]
    case Idle(Interrupted) => sent == []
    case Idle(BrokenPipe) => sent == []
    case Idle(_) => false
    case Running(c) => c.Writing? && c.data == data && c.put <= |data| && sent == data[..c.put]
    case Asleep(c) => c.Writing? && c.data == data && c.put <= |data| && sent == data[..c.put]
  }

  lemma WriteSends(s: State, t: nat, data: seq<byte>, sent: seq<byte>)
    requires t < |s.threads| && s.threads[t].Running? && Written(s.threads[t], data, sent)
    ensures Written(Write(s, t).threads[t], data, sent + Gain(s, Write(s, t)))
  {
    var s' := Write(s, t);
    var put := s.threads[t].call.put;
    if s'.threads[t].Running? {
      var m := s'.threads[t].call.put;
      assert Gain(s, s') == data[put..m];
      assert data[..put] + data[put..m] == data[..m];
    } else {
      assert Gain(s, s') == [];
      assert sent + [] == sent;
    }
  }

  /** Other threads and closing ends do not change how a write stands. */
  lemma OthersWait(s: State, e: Event, t: nat, data: seq<byte>, sent: seq<byte>)
    requires Enabled(s, e) && t < |s.threads| && Written(s.threads[t], data, sent) && e != Go(t) &&
        !(e.Begin? && e.t == t)
    ensures Written(Apply(s, e).threads[t], data, sent)
  {
  }

  /** A write returns how many bytes of its data went in, and those are the first ones, in order. */
  lemma {:induction false} WriteCounts(tr: seq<State>, ev: seq<Event>, n: nat, t: nat, data: seq<byte>, i: nat, j: nat)
    requires Run(tr, ev, n) && i < j <= |ev| && ev[i] == Begin(t, Writing(data, 0))
    requires forall k :: i < k < j && ev[k].Begin? ==> ev[k].t != t
    ensures t < |tr[j].threads| && Written(tr[j].threads[t], data, Sent(tr, ev, t, i, j))
    decreases j
  {
    var h: nat := j - 1;
    assert StepAt(tr, ev, h);
    RunInv(tr, ev, n, h);
    if i == h {
      assert Sent(tr, ev, t, i, h) == [];
    } else {
      WriteCounts(tr, ev, n, t, data, i, h);
      var sent := Sent(tr, ev, t, i, h);
      if ev[h] == Go(t) {
        WriteSends(tr[h], t, data, sent);
      } else {
        OthersWait(tr[h], ev[h], t, data, sent);
        assert sent + [] == sent;
      }
    }
  }

  /** How a write of `data` of which `sent` has gone in may end, in state `s` by event `e`. A signal interrupts it while
      it sleeps; otherwise it is over when all its data is in, or when no reader is left. What went in is its result,
      and an error only if nothing did. */
  predicate Ends(s: State, e: Event, t: nat, data: seq<byte>, sent: seq<byte>, result: Result) {
    if e == Signal(t) then sent < data && result == (if sent == [] then Interrupted else Wrote(|sent|))
    else
      && e == Go(t)
      && if sent == data then result == Wrote(|data|)
         else s.readers == 0 && sent < data && result == if sent == [] then BrokenPipe else Wrote(|sent|)
  }

  lemma StepEnds(s: State, e: Event, t: nat, data: seq<byte>, sent: seq<byte>)
    requires Enabled(s, e) && t < |s.threads| && Written(s.threads[t], data, sent) && ThreadOk(s, t)
    requires !s.threads[t].Idle? && Apply(s, e).threads[t].Idle?
    ensures var s' := Apply(s, e);
      Ends(s, e, t, data, sent + (if e == Go(t) then Gain(s, s') else []), s'.threads[t].result)
  {
    var s' := Apply(s, e);
    assert Gain(s, s') == [] by { if e == Go(t) { assert s'.accepted == s.accepted; } }
    assert sent + [] == sent;
  }

  /** Over every run a write ends only so: with fewer bytes than it was given only if a signal interrupts it or no
      reader is left, and with a broken pipe exactly if then nothing has gone in. */
  lemma WriteEnds(tr: seq<State>, ev: seq<Event>, n: nat, t: nat, data: seq<byte>, i: nat, k: nat)
    requires Run(tr, ev, n) && i < k < |ev| && ev[i] == Begin(t, Writing(data, 0))
    requires forall h :: i < h <= k && ev[h].Begin? ==> ev[h].t != t
    requires t < |tr[k].threads| == |tr[k + 1].threads| && !tr[k].threads[t].Idle? && tr[k + 1].threads[t].Idle?
    ensures Ends(tr[k], ev[k], t, data, Sent(tr, ev, t, i, k + 1), tr[k + 1].threads[t].result)
  {
    WriteCounts(tr, ev, n, t, data, i, k);
    assert StepAt(tr, ev, k);
    RunInv(tr, ev, n, k);
    assert ThreadOk(tr[k], t);
    StepEnds(tr[k], ev[k], t, data, Sent(tr, ev, t, i, k));
  }

  function Room(s: State): nat {
    if |s.ring| < CAP then CAP - |s.ring| else 0
  }

  lemma TurnPuts(s: State, t: nat, data: seq<byte>, sent: seq<byte>)
    requires t < |s.threads| && s.threads[t].Running? && Written(s.threads[t], data, sent) && s.readers > 0
    requires |sent| < |data|
    ensures var s' := Write(s, t);
      (s'.threads[t].Asleep? <==> Room(s) == 0) && sent + Gain(s, s') == data[..Min(|data|, |sent| + Room(s))]
  {
    var s', put := Write(s, t), |sent|;
    var end := Min(|data|, put + Room(s));
    assert Gain(s, s') == data[put..end];
    assert data[..put] + data[put..end] == data[..end];
  }

  /** Until then every turn puts in as much as there is room for, and it sleeps only when there is none. */
  lemma WriteGoesOn(tr: seq<State>, ev: seq<Event>, n: nat, t: nat, data: seq<byte>, i: nat, k: nat)
    requires Run(tr, ev, n) && i < k < |ev| && ev[i] == Begin(t, Writing(data, 0)) && ev[k] == Go(t)
    requires forall h :: i < h <= k && ev[h].Begin? ==> ev[h].t != t
    requires tr[k].readers > 0 && |Sent(tr, ev, t, i, k)| < |data|
    ensures t < |tr[k + 1].threads| && (tr[k + 1].threads[t].Asleep? <==> Room(tr[k]) == 0)
    ensures Sent(tr, ev, t, i, k + 1) == data[..Min(|data|, |Sent(tr, ev, t, i, k)| + Room(tr[k]))]
  {
    WriteCounts(tr, ev, n, t, data, i, k);
    assert StepAt(tr, ev, k);
    TurnPuts(tr[k], t, data, Sent(tr, ev, t, i, k));
  }

  // ------------------------------------------------------------ how a read ends

  predicate Asks(th: Thread, want: nat) {
    th.Idle? || th.call == Reading(want)
  }

  lemma {:induction false} StillAsks(tr: seq<State>, ev: seq<Event>, n: nat, t: nat, want: nat, i: nat, j: nat)
    requires Run(tr, ev, n) && i < j <= |ev| && ev[i] == Begin(t, Reading(want))
    requires forall h :: i < h < j && ev[h].Begin? ==> ev[h].t != t
    ensures t < |tr[j].threads| && Asks(tr[j].threads[t], want)
    decreases j
  {
    var h: nat := j - 1;
    assert StepAt(tr, ev, h);
    RunInv(tr, ev, n, h);
    RunInv(tr, ev, n, j);
    if i < h { StillAsks(tr, ev, n, t, want, i, h); }
  }

  /** Over every run a read ends in one of two ways. A signal interrupts it while it sleeps, and it has taken nothing;
      or it takes as much as it asks for and the pipe holds, from the front, and nothing only if it asks for nothing or
      no writer is left. */
  lemma ReadEnds(tr: seq<State>, ev: seq<Event>, n: nat, t: nat, want: nat, i: nat, k: nat)
    requires Run(tr, ev, n) && i < k < |ev| && ev[i] == Begin(t, Reading(want))
    requires forall h :: i < h <= k && ev[h].Begin? ==> ev[h].t != t
    requires t < |tr[k].threads| == |tr[k + 1].threads| && !tr[k].threads[t].Idle? && tr[k + 1].threads[t].Idle?
    ensures var s, s', r := tr[k], tr[k + 1], tr[k + 1].threads[t].result;
      if ev[k] == Signal(t) then r == Interrupted && s'.ring == s.ring && s'.delivered == s.delivered
      else
        && ev[k] == Go(t) && r.Got? && |r.out| == Min(want, |s.ring|)
        && s.ring == r.out + s'.ring && s'.delivered == s.delivered + r.out
        && (r.out == [] ==> want == 0 || s.writers == 0)
  {
    StillAsks(tr, ev, n, t, want, i, k);
    assert StepAt(tr, ev, k);
    var s, m := tr[k], Min(want, |tr[k].ring|);
    assert s.ring == s.ring[..m] + s.ring[m..];
    assert [] + s.ring == s.ring && s.delivered + [] == s.delivered;
  }

  // ------------------------------------------------------------ the pipe itself

  /** A pipe with its ring buffer, run step by step. */
  class Channel {
    const ring: Ring
    var readers: nat
    var writers: nat
    var threads: seq<Thread>
    var closing: seq<Detach>
    ghost var accepted: seq<byte>
    ghost var delivered: seq<byte>

    ghost predicate Valid()
      reads this, ring, ring.buf
    {
      ring.Valid()
    }

    /** What the pipe is as a state of the protocol. */
    ghost function Abs(): State
      requires Valid()
      reads this, ring, ring.buf
    {
      State(ring.Contents(), readers, writers, threads, closing, accepted, delivered)
    }

    constructor (n: nat)
      ensures Valid() && Abs() == Start(n) && fresh(ring) && fresh(ring.buf)
    {
      ring := new Ring();
      readers, writers, threads, closing := 1, 1, seq(n, _ => Idle(Nothing)), [];
      accepted, delivered := [], [];
    }

    /** pipe_read, from the top of its loop until it returns or sleeps. */
    method ReadOn(t: nat)
      requires Valid() && t < |threads| && threads[t].Running? && threads[t].call.Reading?
      modifies this, ring, ring.buf
      ensures Valid() && Abs() == Read(old(Abs()), t)
    {
      var n := threads[t].call.n;
      if n == 0 {
        threads := threads[t := Idle(Got([]))];
      } else if ring.count == 0 {
        threads := threads[t := if writers == 0 then Idle(Got([])) else Asleep(Reading(n))];
      } else {
        var out := ring.Take(n);
        delivered := delivered + out;
        threads := RouseWriters(threads)[t := Idle(Got(out))];
      }
    }

    /** One turn of pipe_write's loop. */
    method WriteOn(t: nat)
      requires Valid() && t < |threads| && threads[t].Running? && threads[t].call.Writing? &&
          threads[t].call.put <= |threads[t].call.data|
      modifies this, ring, ring.buf
      ensures Valid() && Abs() == Write(old(Abs()), t)
    {
      var data, put := threads[t].call.data, threads[t].call.put;
      if put == |data| {
        threads := threads[t := Idle(Wrote(put))];
      } else if readers == 0 {
        threads := threads[t := Idle(if put > 0 then Wrote(put) else BrokenPipe)];
      } else if ring.count == CAP {
        threads := threads[t := Asleep(Writing(data, put))];
      } else {
        var chunk := ring.Put(data, put);
        accepted := accepted + data[put..put + chunk];
        threads := RouseReaders(threads)[t := Running(Writing(data, put + chunk))];
      }
    }

    /** One step of whoever it is. */
    method Step(e: Event)
      requires Valid() && Enabled(Abs(), e)
      modifies this, ring, ring.buf
      ensures Valid() && Abs() == Apply(old(Abs()), e)
    {
      match e {
        case Begin(t, call) => threads := threads[t := Running(call)];
        case Go(t) => if threads[t].call.Reading? { ReadOn(t); } else { WriteOn(t); }
        case Signal(t) => threads := threads[t := Idle(Broken(threads[t].call))];
        case CloseReader => readers, closing := readers - 1, closing + [WakeReaders];
        case CloseWriter => writers, closing := writers - 1, closing + [WakeReaders];
        case Detaching(i) =>
          if closing[i] == WakeReaders {
            closing, threads := closing[i := WakeWriters], RouseReaders(threads);
          } else {
            closing, threads := closing[..i] + closing[i + 1..], RouseWriters(threads);
          }
      }
    }

    /** Over every run the buffer goes through the states of the protocol, with the head as many slots ahead of the
        tail, round the ring, as there are bytes. */
    method Replay(ghost tr: seq<State>, ev: seq<Event>, ghost n: nat)
      requires Valid() && Run(tr, ev, n) && Abs() == Start(n)
      modifies this, ring, ring.buf
      ensures Valid() && Abs() == tr[|ev|] && Inv(Abs())
      ensures ring.head == (ring.tail + ring.count) % CAP && ring.count == |tr[|ev|].ring|
    {
      for i := 0 to |ev|
        invariant Valid() && Abs() == tr[i]
      {
        assert StepAt(tr, ev, i);
        Step(ev[i]);
      }
      RunInv(tr, ev, n, |ev|);
      SlotIsMod(ring.tail, ring.count);
    }
  }
}
