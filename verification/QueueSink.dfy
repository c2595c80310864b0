/**
 The bounded ingest queue: any number of Consume calls, one worker, any number of Close calls.

 The goroutines are interleaved one atomic step at a time. A `select` is a step per ready branch, so
 which ready branch runs is unspecified; a `default` branch is enabled only when no other branch is.
 A context may be done at any moment. A request is named by the Consume call that carries it.
 */
module QueueSink {
  import opened Seqs

  /** What does not change during a run: live[i] says that call i has both a request and an inner sink. */
  datatype Setup = Setup(size: int, live: seq<bool>, sinkCloses: bool)

  datatype Call =
    | Idle        // not begun
    | Passed      // found the queue open; now between the two selects or blocked in the second
    | Accepted    // returned nil after its request entered the channel
    | Refused     // returned ErrQueueClosed
    | Cancelled   // returned the context's error
    | Skipped     // returned nil at once: nothing to deliver

  datatype Worker =
    | Selecting
    | Draining
    | Handling(call: nat, draining: bool)  // inside the inner sink's Consume
    | Exited

  datatype Closer = Unstarted | Waiting(first: bool) | ClosingInner | Returned

  /** accepted, consumed and innerCloses are the history: sends, inner calls that returned, inner Close calls. */
  datatype State = State(
    calls: seq<Call>,
    closers: seq<Closer>,
    buffer: seq<nat>,
    closed: bool,
    worker: Worker,
    accepted: seq<nat>,
    consumed: seq<nat>,
    innerCloses: nat)

  datatype Step =
    | Skip(i: nat) | FirstSelect(i: nat) | Send(i: nat) | SeeClosed(i: nat) | SeeDone(i: nat)
    | Take | SeeSignal | DrainTake | DrainEnd | InnerReturns
    | Signal(c: nat) | WaitEnds(c: nat) | InnerCloseReturns(c: nat)

  /** The capacity NewQueueSink gives the channel. */
  function Capacity(q: Setup): (n: nat)
    ensures n > 0
  {
    if q.size <= 0 then 1 else q.size
  }

  function Unbegun(n: nat): seq<Closer> {
    if n == 0 then [] else [Unstarted] + Unbegun(n - 1)
  }

  function Start(q: Setup, closers: nat): State {
    State(seq(|q.live|, _ => Idle), Unbegun(closers), [], false, Selecting, [], [], 0)
  }

  predicate Enabled(q: Setup, s: State, step: Step) {
    match step
    case Skip(i) => i < |s.calls| && i < |q.live| && s.calls[i].Idle? && !q.live[i]
    case FirstSelect(i) => i < |s.calls| && i < |q.live| && s.calls[i].Idle? && q.live[i]
    case Send(i) => i < |s.calls| && s.calls[i].Passed? && |s.buffer| < Capacity(q)
    case SeeClosed(i) => i < |s.calls| && s.calls[i].Passed? && s.closed
    case SeeDone(i) => i < |s.calls| && s.calls[i].Passed?
    case Take => s.worker.Selecting? && s.buffer != []
    case SeeSignal => s.worker.Selecting? && s.closed
    case DrainTake => s.worker.Draining? && s.buffer != []
    case DrainEnd => s.worker.Draining? && s.buffer == []
    case InnerReturns => s.worker.Handling?
    case Signal(c) => c < |s.closers| && s.closers[c].Unstarted?
    case WaitEnds(c) => c < |s.closers| && s.closers[c].Waiting? && s.worker.Exited?
    case InnerCloseReturns(c) => c < |s.closers| && s.closers[c].ClosingInner?
  }

  function Apply(q: Setup, s: State, step: Step): State
    requires Enabled(q, s, step)
  {
    match step
    case Skip(i) => s.(calls := s.calls[i := Skipped])
    case FirstSelect(i) => s.(calls := s.calls[i := if s.closed then Refused else Passed])
    case Send(i) => s.(calls := s.calls[i := Accepted], buffer := s.buffer + [i], accepted := s.accepted + [i])
    case SeeClosed(i) => s.(calls := s.calls[i := Refused])
    case SeeDone(i) => s.(calls := s.calls[i := Cancelled])
    case Take => s.(worker := Handling(s.buffer[0], false), buffer := s.buffer[1..])
    case SeeSignal => s.(worker := Draining)
    case DrainTake => s.(worker := Handling(s.buffer[0], true), buffer := s.buffer[1..])
    case DrainEnd => s.(worker := Exited)
    case InnerReturns =>
      s.(consumed := s.consumed + [s.worker.call], worker := if s.worker.draining then Draining else Selecting)
    case Signal(c) => s.(closed := true, closers := s.closers[c := Waiting(!s.closed)])
    case WaitEnds(c) =>
      if s.closers[c].first && q.sinkCloses
      then s.(closers := s.closers[c := ClosingInner], innerCloses := s.innerCloses + 1)
      else s.(closers := s.closers[c := Returned])
    case InnerCloseReturns(c) => s.(closers := s.closers[c := Returned])
  }

  ghost predicate Legal(q: Setup, s: State, run: seq<Step>)
    decreases run
  {
    run == [] || (Enabled(q, s, run[0]) && Legal(q, Apply(q, s, run[0]), run[1..]))
  }

  ghost function After(q: Setup, s: State, run: seq<Step>): State
    requires Legal(q, s, run)
    decreases run
  {
    if run == [] then s else After(q, Apply(q, s, run[0]), run[1..])
  }

  // ---------------------------------------------------------------- invariant

  function InFlight(w: Worker): seq<nat> {
    if w.Handling? then [w.call] else []
  }

  /** Requests handed to the inner sink so far, whether or not its call has returned. */
  function Handed(s: State): seq<nat> {
    s.consumed + InFlight(s.worker)
  }

  function FirstWaiting(c: Closer): nat {
    if c.Waiting? && c.first then 1 else 0
  }

  ghost predicate FlowAgrees(q: Setup, s: State) {
    && s.accepted == Handed(s) + s.buffer
    && |s.buffer| <= Capacity(q)
    && (s.worker.Draining? || s.worker.Exited? || (s.worker.Handling? && s.worker.draining) ==> s.closed)
  }

  ghost predicate CallsAgree(q: Setup, s: State) {
    && |s.calls| == |q.live|
    && NoDup(s.accepted)
    && (forall i | i in s.accepted :: i < |s.calls|)
    && (forall i | 0 <= i < |s.calls| :: s.calls[i].Accepted? <==> i in s.accepted)
    && (forall i | 0 <= i < |s.calls| && (s.calls[i].Passed? || s.calls[i].Accepted?) :: q.live[i])
  }

  ghost predicate ClosersAgree(q: Setup, s: State) {
    && (forall c | 0 <= c < |s.closers| && !s.closers[c].Unstarted? :: s.closed)
    && (forall c | 0 <= c < |s.closers| && (s.closers[c].ClosingInner? || s.closers[c].Returned?) :: s.worker.Exited?)
    && Total(FirstWaiting, s.closers) + s.innerCloses <= (if s.closed then 1 else 0)
    && (q.sinkCloses && s.closed ==> Total(FirstWaiting, s.closers) + s.innerCloses == 1)
    && (!q.sinkCloses ==> s.innerCloses == 0)
    && (s.innerCloses > 0 ==> s.worker.Exited?)
  }

  ghost predicate Inv(q: Setup, s: State) {
    FlowAgrees(q, s) && CallsAgree(q, s) && ClosersAgree(q, s)
  }

  lemma {:induction false} NobodyWaits(n: nat)
    ensures Total(FirstWaiting, Unbegun(n)) == 0
    ensures |Unbegun(n)| == n && forall c | 0 <= c < n :: Unbegun(n)[c].Unstarted?
  {
    if n > 0 {
      NobodyWaits(n - 1);
    }
  }

  lemma InvStart(q: Setup, closers: nat)
    ensures Inv(q, Start(q, closers))
  {
    NobodyWaits(closers);
  }

  lemma FlowStep(q: Setup, s: State, step: Step)
    requires FlowAgrees(q, s) && Enabled(q, s, step)
    ensures FlowAgrees(q, Apply(q, s, step))
  {
    if step.Take? || step.DrainTake? {
      assert s.buffer == [s.buffer[0]] + s.buffer[1..];
    }
  }

  lemma CallsStep(q: Setup, s: State, step: Step)
    requires CallsAgree(q, s) && Enabled(q, s, step)
    ensures CallsAgree(q, Apply(q, s, step))
  {
    if step.Send? {
      assert step.i !in s.accepted;
    }
  }

  lemma ClosersStep(q: Setup, s: State, step: Step)
    requires FlowAgrees(q, s) && ClosersAgree(q, s) && Enabled(q, s, step)
    ensures ClosersAgree(q, Apply(q, s, step))
  {
    if step.Signal? || step.WaitEnds? || step.InnerCloseReturns? {
      TotalUpdate(FirstWaiting, s.closers, step.c, Apply(q, s, step).closers[step.c]);
    }
  }

  lemma InvStep(q: Setup, s: State, step: Step)
    requires Inv(q, s) && Enabled(q, s, step)
    ensures Inv(q, Apply(q, s, step))
  {
    FlowStep(q, s, step);
    CallsStep(q, s, step);
    ClosersStep(q, s, step);
  }

  lemma {:induction false} InvRun(q: Setup, s: State, run: seq<Step>)
    requires Inv(q, s) && Legal(q, s, run)
    ensures Inv(q, After(q, s, run))
    decreases run
  {
    if run != [] {
      InvStep(q, s, run[0]);
      InvRun(q, Apply(q, s, run[0]), run[1..]);
    }
  }

  // ---------------------------------------------------------------- safety

  /** In every reachable state: first in first out, nothing lost or twice, bounded backlog, errors never enqueue. */
  lemma FifoConservation(q: Setup, closers: nat, run: seq<Step>)
    requires Legal(q, Start(q, closers), run)
    ensures
      var s := After(q, Start(q, closers), run);
      && s.accepted == s.consumed + InFlight(s.worker) + s.buffer
      && NoDup(s.accepted)
      && |s.accepted| <= |s.consumed| + 1 + (if q.size > 0 then q.size else 1)
      && |s.calls| == |q.live|
      && (forall i | 0 <= i < |s.calls| :: i in s.accepted <==> s.calls[i].Accepted?)
      && (forall i | i in s.accepted :: i < |s.calls| && q.live[i])
  {
    InvStart(q, closers);
    InvRun(q, Start(q, closers), run);
  }

  /** History only grows, and once the worker has exited the consumed part is final. */
  lemma {:induction false} HistoryGrows(q: Setup, s: State, run: seq<Step>)
    requires Legal(q, s, run)
    ensures
      var t := After(q, s, run);
      && s.accepted <= t.accepted
      && s.consumed <= t.consumed
      && (s.closed ==> t.closed)
      && (s.worker.Exited? ==> t.worker.Exited? && t.consumed == s.consumed)
    decreases run
  {
    if run != [] {
      HistoryGrows(q, Apply(q, s, run[0]), run[1..]);
    }
  }

  /** Whatever was accepted before the worker exited has been consumed once it has. */
  lemma {:induction false} ExitDrains(q: Setup, s: State, run: seq<Step>)
    requires Inv(q, s) && Legal(q, s, run)
    requires !s.worker.Exited? && After(q, s, run).worker.Exited?
    ensures s.accepted <= After(q, s, run).consumed
    decreases run
  {
    if run != [] {
      var t := Apply(q, s, run[0]);
      InvStep(q, s, run[0]);
      if t.worker.Exited? {
        HistoryGrows(q, t, run[1..]);
      } else {
        ExitDrains(q, t, run[1..]);
      }
    }
  }

  /**
   When any Close has returned the worker has exited, and every request accepted at any moment before that exit,
   in particular before the close signal, went through the inner sink.
   */
  lemma CloseGuarantee(q: Setup, s: State, run: seq<Step>, c: nat)
    requires Inv(q, s) && Legal(q, s, run)
    requires !s.closed || !s.worker.Exited?
    requires c < |After(q, s, run).closers| && After(q, s, run).closers[c].Returned?
    ensures After(q, s, run).worker.Exited?
    ensures s.accepted <= After(q, s, run).consumed
  {
    InvRun(q, s, run);
    ExitDrains(q, s, run);
  }

  function IsPassed(c: Call): nat {
    if c.Passed? then 1 else 0
  }

  /** After the worker's exit no call becomes Passed, and each send uses one up. */
  lemma PassedStep(q: Setup, s: State, step: Step)
    requires s.closed && s.worker.Exited? && Enabled(q, s, step)
    ensures
      var t := Apply(q, s, step);
      && |t.calls| == |s.calls|
      && Total(IsPassed, t.calls) + |t.buffer| <= Total(IsPassed, s.calls) + |s.buffer|
      && (t.buffer == s.buffer || (step.Send? && t.buffer == s.buffer + [step.i] && s.calls[step.i].Passed?))
      && (forall i | 0 <= i < |t.calls| && t.calls[i].Passed? :: s.calls[i].Passed?)
  {
    if step.FirstSelect? || step.Skip? || step.Send? || step.SeeClosed? || step.SeeDone? {
      TotalUpdate(IsPassed, s.calls, step.i, Apply(q, s, step).calls[step.i]);
    }
  }

  lemma {:induction false} PassedOnlyShrinks(q: Setup, s: State, run: seq<Step>)
    requires s.closed && s.worker.Exited? && Legal(q, s, run)
    ensures
      var t := After(q, s, run);
      && s.buffer <= t.buffer
      && Total(IsPassed, t.calls) + |t.buffer| <= Total(IsPassed, s.calls) + |s.buffer|
      && (forall i | i in t.buffer[|s.buffer|..] :: i < |s.calls| && s.calls[i].Passed?)
    decreases run
  {
    if run != [] {
      var t := Apply(q, s, run[0]);
      PassedStep(q, s, run[0]);
      PassedOnlyShrinks(q, t, run[1..]);
      var u := After(q, t, run[1..]);
      if t.buffer != s.buffer {
        assert u.buffer[|s.buffer|..] == [run[0].i] + u.buffer[|t.buffer|..];
      }
    }
  }

  /**
   Accepted is not always consumed. From the step in which the worker exits on: what was accepted earlier is
   exactly what is ever consumed; the rest lies in the channel, at most min(capacity, calls between the two
   selects at the exit) of it, all of it sent by those calls.
   */
  lemma StrandedBound(q: Setup, s: State, run: seq<Step>)
    requires Inv(q, s) && Enabled(q, s, DrainEnd) && Legal(q, Apply(q, s, DrainEnd), run)
    ensures
      var t := After(q, Apply(q, s, DrainEnd), run);
      && t.consumed == s.accepted
      && t.accepted == s.accepted + t.buffer
      && |t.buffer| <= Capacity(q)
      && |t.buffer| <= Total(IsPassed, s.calls)
      && (forall i | i in t.buffer :: i < |s.calls| && s.calls[i].Passed?)
  {
    var e := Apply(q, s, DrainEnd);
    InvStep(q, s, DrainEnd);
    InvRun(q, e, run);
    HistoryGrows(q, e, run);
    PassedOnlyShrinks(q, e, run);
    assert After(q, e, run).buffer[0..] == After(q, e, run).buffer;
  }

  /** The bound is exact: from every state with an exited worker and k more possible, some run strands k more. */
  lemma {:induction false} StrandedAttained(q: Setup, s: State, k: nat) returns (run: seq<Step>)
    requires s.worker.Exited?
    requires k <= Total(IsPassed, s.calls) && |s.buffer| + k <= Capacity(q)
    ensures Legal(q, s, run)
    ensures After(q, s, run).consumed == s.consumed
    ensures |After(q, s, run).buffer| == |s.buffer| + k && After(q, s, run).closers == s.closers
    decreases k
  {
    run := [];
    if k > 0 {
      var i := TotalPositive(IsPassed, s.calls);
      var t := Apply(q, s, Send(i));
      TotalUpdate(IsPassed, s.calls, i, Accepted);
      var rest := StrandedAttained(q, t, k - 1);
      run := [Send(i)] + rest;
      assert run[1..] == rest;
    }
  }

  ghost predicate ConsumesAll(q: Setup, s: State, run: seq<Step>)
    requires Legal(q, s, run)
  {
    After(q, s, run).consumed == After(q, s, run).accepted
  }

  /**
   When exactly "every accepted request is consumed" is safe: at the moment the worker exits, it holds of everything
   that can still happen if and only if no call is between the two selects.
   */
  lemma AllConsumedIffNonePassed(q: Setup, s: State)
    requires Inv(q, s) && Enabled(q, s, DrainEnd)
    ensures (forall run | Legal(q, Apply(q, s, DrainEnd), run) :: ConsumesAll(q, Apply(q, s, DrainEnd), run)) <==>
      Total(IsPassed, s.calls) == 0
  {
    var e := Apply(q, s, DrainEnd);
    forall run | Legal(q, e, run)
      ensures ConsumesAll(q, e, run) <==> After(q, e, run).buffer == []
      ensures Total(IsPassed, s.calls) == 0 ==> After(q, e, run).buffer == []
    {
      StrandedBound(q, s, run);
    }
    if Total(IsPassed, s.calls) > 0 {
      var run := StrandedAttained(q, e, 1);
      assert Legal(q, e, run) && !ConsumesAll(q, e, run);
    }
  }

  lemma ClosedStep(q: Setup, s: State, step: Step)
    requires s.closed && Enabled(q, s, step) && Total(IsPassed, s.calls) == 0
    ensures Apply(q, s, step).accepted == s.accepted && Total(IsPassed, Apply(q, s, step).calls) == 0
  {
    if step.FirstSelect? || step.Skip? || step.Send? || step.SeeClosed? || step.SeeDone? {
      TotalUpdate(IsPassed, s.calls, step.i, Apply(q, s, step).calls[step.i]);
    }
  }

  /** After the signal, and with no call between the two selects, nothing more is accepted. */
  lemma {:induction false} ClosedForGood(q: Setup, s: State, run: seq<Step>)
    requires s.closed && Legal(q, s, run) && Total(IsPassed, s.calls) == 0
    ensures After(q, s, run).accepted == s.accepted
    decreases run
  {
    if run != [] {
      ClosedStep(q, s, run[0]);
      ClosedForGood(q, Apply(q, s, run[0]), run[1..]);
    }
  }

  lemma {:induction false} RunAppend(q: Setup, s: State, a: seq<Step>, b: seq<Step>)
    requires Legal(q, s, a) && Legal(q, After(q, s, a), b)
    ensures Legal(q, s, a + b) && After(q, s, a + b) == After(q, After(q, s, a), b)
    decreases a
  {
    if a == [] {
      assert a + b == b;
    } else {
      assert (a + b)[1..] == a[1..] + b;
      RunAppend(q, Apply(q, s, a[0]), a[1..], b);
    }
  }

  lemma Prepend(q: Setup, s: State, step: Step, rest: seq<Step>) returns (run: seq<Step>)
    requires Enabled(q, s, step) && Legal(q, Apply(q, s, step), rest)
    ensures Legal(q, s, run) && After(q, s, run) == After(q, Apply(q, s, step), rest)
  {
    run := [step] + rest;
    assert run[1..] == rest;
  }

  function WorkerWork(w: Worker): nat {
    match w
    case Selecting => 2
    case Draining => 1
    case Handling(_, draining) => if draining then 2 else 3
    case Exited => 0
  }

  /** After the signal the worker can drain the channel and leave while no call moves. */
  lemma {:induction false} DrainsOut(q: Setup, s: State) returns (run: seq<Step>)
    requires s.closed && !s.worker.Exited?
    ensures Legal(q, s, run)
    ensures
      var t := After(q, s, run);
      t.worker.Exited? && t.buffer == [] && t.calls == s.calls && t.closers == s.closers
    decreases 2 * |s.buffer| + WorkerWork(s.worker)
  {
    var step :=
      match s.worker
      case Selecting => SeeSignal
      case Handling(_, _) => InnerReturns
      case _ => if s.buffer == [] then DrainEnd else DrainTake;
    var t := Apply(q, s, step);
    var rest: seq<Step> := [];
    if !t.worker.Exited? {
      rest := DrainsOut(q, t);
    }
    run := Prepend(q, s, step, rest);
  }

  /** Once the worker has left, a waiting Close can return. */
  lemma CloseReturns(q: Setup, s: State, c: nat) returns (run: seq<Step>)
    requires s.worker.Exited? && c < |s.closers| && s.closers[c].Waiting?
    ensures Legal(q, s, run)
    ensures
      var t := After(q, s, run);
      && t.worker.Exited? && t.calls == s.calls && t.buffer == s.buffer
      && c < |t.closers| && t.closers[c].Returned?
  {
    var t := Apply(q, s, WaitEnds(c));
    run := [];
    if t.closers[c].ClosingInner? {
      run := Prepend(q, t, InnerCloseReturns(c), []);
    }
    run := Prepend(q, s, WaitEnds(c), run);
  }

  /** When this Close has returned, every request accepted by then was consumed. */
  ghost predicate ClosedClean(q: Setup, s: State, c: nat, run: seq<Step>)
    requires Legal(q, s, run)
  {
    var t := After(q, s, run);
    c < |t.closers| && t.closers[c].Returned? ==> t.consumed == t.accepted
  }

  lemma CleanIfNonePassed(q: Setup, s: State, c: nat, run: seq<Step>)
    requires Inv(q, s) && !s.worker.Exited? && s.closed && Legal(q, s, run) && Total(IsPassed, s.calls) == 0
    ensures ClosedClean(q, s, c, run)
  {
    var t := After(q, s, run);
    InvRun(q, s, run);
    if c < |t.closers| && t.closers[c].Returned? {
      ExitDrains(q, s, run);
      ClosedForGood(q, s, run);
    }
  }

  lemma UncleanIfSomePassed(q: Setup, s: State, c: nat) returns (run: seq<Step>)
    requires Inv(q, s) && !s.worker.Exited? && s.closed && Total(IsPassed, s.calls) > 0
    requires c < |s.closers| && s.closers[c].Waiting?
    ensures Legal(q, s, run) && !ClosedClean(q, s, c, run)
  {
    var drain := DrainsOut(q, s);
    var t := After(q, s, drain);
    var close := CloseReturns(q, t, c);
    var u := After(q, t, close);
    var send := StrandedAttained(q, u, 1);
    RunAppend(q, s, drain, close);
    RunAppend(q, s, drain + close, send);
    run := drain + close + send;
    InvRun(q, s, run);
  }

  /** A Close that begins when the worker has left: what lies in the channel then, or can still be sent, is lost. */
  lemma UncleanAfterExit(q: Setup, s: State, c: nat) returns (run: seq<Step>)
    requires Inv(q, s) && s.worker.Exited? && (s.buffer != [] || Total(IsPassed, s.calls) > 0)
    requires c < |s.closers| && s.closers[c].Waiting?
    ensures Legal(q, s, run) && !ClosedClean(q, s, c, run)
  {
    run := CloseReturns(q, s, c);
    if s.buffer == [] {
      var send := StrandedAttained(q, After(q, s, run), 1);
      RunAppend(q, s, run, send);
      run := run + send;
    }
    InvRun(q, s, run);
  }

  lemma CleanAfterExit(q: Setup, s: State, c: nat, run: seq<Step>)
    requires Inv(q, s) && s.worker.Exited? && s.closed && Legal(q, s, run)
    requires s.buffer == [] && Total(IsPassed, s.calls) == 0
    ensures ClosedClean(q, s, c, run)
  {
    InvRun(q, s, run);
    HistoryGrows(q, s, run);
    ClosedForGood(q, s, run);
  }

  /**
   What a caller of Close can rely on: that every request accepted by the time it returns was consumed, however things
   go on, if and only if no call is between the two selects when it begins and, should the worker have left by then,
   the channel is empty.
   */
  lemma CleanIffNonePassedAtClose(q: Setup, s: State, c: nat)
    requires Inv(q, s) && Enabled(q, s, Signal(c))
    ensures (forall run | Legal(q, Apply(q, s, Signal(c)), run) :: ClosedClean(q, Apply(q, s, Signal(c)), c, run)) <==>
      Total(IsPassed, s.calls) == 0 && (s.worker.Exited? ==> s.buffer == [])
  {
    var e := Apply(q, s, Signal(c));
    InvStep(q, s, Signal(c));
    if Total(IsPassed, s.calls) == 0 && (s.worker.Exited? ==> s.buffer == []) {
      forall run | Legal(q, e, run) ensures ClosedClean(q, e, c, run) {
        if s.worker.Exited? {
          CleanAfterExit(q, e, c, run);
        } else {
          CleanIfNonePassed(q, e, c, run);
        }
      }
    } else if s.worker.Exited? {
      var run := UncleanAfterExit(q, e, c);
    } else {
      var run := UncleanIfSomePassed(q, e, c);
    }
  }

  /** A run exists in which an accepted request is never consumed although Close has returned. */
  lemma AcceptedButNeverConsumed() returns (q: Setup, run: seq<Step>)
    ensures Legal(q, Start(q, 1), run)
    ensures
      var s := After(q, Start(q, 1), run);
      s.closers == [Returned] && s.calls == [Accepted] && s.accepted == [0] && s.consumed == []
  {
    q := Setup(1, [true], false);
    var s0 := Start(q, 1);
    assert s0.calls == [Idle] && s0.closers == [Unstarted];
    var s1 := Apply(q, s0, FirstSelect(0));
    var s2 := Apply(q, s1, Signal(0));
    var s3 := Apply(q, s2, SeeSignal);
    var s4 := Apply(q, s3, DrainEnd);
    var s5 := Apply(q, s4, WaitEnds(0));
    run := Prepend(q, s5, Send(0), []);
    run := Prepend(q, s4, WaitEnds(0), run);
    run := Prepend(q, s3, DrainEnd, run);
    run := Prepend(q, s2, SeeSignal, run);
    run := Prepend(q, s1, Signal(0), run);
    run := Prepend(q, s0, FirstSelect(0), run);
  }

  // ---------------------------------------------------------------- what a call returns

  /** What the calls that have returned have to do with what they carried and with the close signal. */
  ghost predicate OutcomesAgree(q: Setup, s: State) {
    && |s.calls| == |q.live|
    && forall i | 0 <= i < |s.calls| ::
      && (q.live[i] ==> s.calls[i] != Skipped)
      && (!q.live[i] ==> s.calls[i] == Idle || s.calls[i] == Skipped)
      && (s.calls[i] == Refused ==> s.closed)
  }

  lemma OutcomesStep(q: Setup, s: State, step: Step)
    requires OutcomesAgree(q, s) && Enabled(q, s, step)
    ensures OutcomesAgree(q, Apply(q, s, step))
  {
  }

  lemma CancelledStep(q: Setup, s: State, step: Step, i: nat)
    requires Enabled(q, s, step) && i < |s.calls|
    ensures |Apply(q, s, step).calls| == |s.calls|
    ensures Apply(q, s, step).calls[i] == Cancelled <==> s.calls[i] == Cancelled || step == SeeDone(i)
  {
  }

  lemma {:induction false} OutcomesRun(q: Setup, s: State, run: seq<Step>, i: nat)
    requires OutcomesAgree(q, s) && Legal(q, s, run) && i < |s.calls|
    ensures OutcomesAgree(q, After(q, s, run))
    ensures |After(q, s, run).calls| == |s.calls|
    ensures After(q, s, run).closed <==> s.closed || exists c: nat :: Signal(c) in run
    ensures After(q, s, run).calls[i] == Cancelled <==> s.calls[i] == Cancelled || SeeDone(i) in run
    decreases run
  {
    if run != [] {
      OutcomesStep(q, s, run[0]);
      CancelledStep(q, s, run[0], i);
      OutcomesRun(q, Apply(q, s, run[0]), run[1..], i);
    }
  }

  /**
   What a call's result tells its caller, over every run: nil for a request and a sink means that the request was
   enqueued, and for nothing to deliver that it was not; ErrQueueClosed is returned only after the close signal; the
   context's error exactly if the call saw its context end; and a call with nothing to deliver returns no error.
   */
  lemma CallReturns(q: Setup, closers: nat, run: seq<Step>, i: nat)
    requires Legal(q, Start(q, closers), run) && i < |q.live|
    ensures
      var t := After(q, Start(q, closers), run);
      && |t.calls| == |q.live|
      && (q.live[i] && (t.calls[i] == Accepted || t.calls[i] == Skipped) ==> i in t.accepted)
      && (t.calls[i] == Skipped ==> !q.live[i] && i !in t.accepted)
      && (t.calls[i] == Refused ==> q.live[i] && i !in t.accepted && exists c: nat :: Signal(c) in run)
      && (t.calls[i] == Cancelled ==> q.live[i] && i !in t.accepted)
      && (t.calls[i] == Cancelled <==> SeeDone(i) in run)
  {
    InvStart(q, closers);
    InvRun(q, Start(q, closers), run);
    OutcomesRun(q, Start(q, closers), run, i);
  }

  /** How many requests the channel takes: size of them, or one if the size is not positive. */
  lemma SendsUpTo(q: Setup, s: State, i: nat)
    requires i < |s.calls| && s.calls[i] == Passed
    ensures Enabled(q, s, Send(i)) <==> |s.buffer| < q.size || (q.size <= 0 && s.buffer == [])
  {
  }

  /** A call that begins after the signal is never accepted. */
  lemma {:induction false} NoLateAcceptance(q: Setup, s: State, run: seq<Step>, i: nat)
    requires Inv(q, s) && s.closed && Legal(q, s, run)
    requires i < |s.calls| && !s.calls[i].Passed? && !s.calls[i].Accepted?
    ensures
      var t := After(q, s, run);
      i < |t.calls| && !t.calls[i].Passed? && !t.calls[i].Accepted? && i !in t.accepted
    decreases run
  {
    if run != [] {
      InvStep(q, s, run[0]);
      NoLateAcceptance(q, Apply(q, s, run[0]), run[1..], i);
    }
  }

  lemma {:induction false} InnerClosesGrow(q: Setup, s: State, run: seq<Step>)
    requires Legal(q, s, run)
    ensures s.innerCloses <= After(q, s, run).innerCloses
    decreases run
  {
    if run != [] {
      InnerClosesGrow(q, Apply(q, s, run[0]), run[1..]);
    }
  }

  /** The inner sink is closed at most once, only after the worker has exited, and receives nothing afterwards. */
  lemma InnerCloseIsLast(q: Setup, s: State, run: seq<Step>)
    requires Inv(q, s) && s.innerCloses > 0 && Legal(q, s, run)
    ensures s.worker.Exited?
    ensures After(q, s, run).innerCloses == 1
    ensures Handed(After(q, s, run)) == Handed(s)
  {
    InvRun(q, s, run);
    HistoryGrows(q, s, run);
    InnerClosesGrow(q, s, run);
  }

  // ---------------------------------------------------------------- progress

  function CallWork(c: Call): nat {
    match c
    case Idle => 4
    case Passed => 3
    case _ => 0
  }

  function CloserWork(c: Closer): nat {
    match c
    case Unstarted => 3
    case Waiting(_) => 2
    case ClosingInner => 1
    case Returned => 0
  }

  /** Work left: every step of every goroutine lowers it. */
  function Measure(s: State): nat {
    Total(CallWork, s.calls) + 2 * |s.buffer| + WorkerWork(s.worker) + Total(CloserWork, s.closers)
  }

  lemma StepLowersMeasure(q: Setup, s: State, step: Step)
    requires Enabled(q, s, step)
    ensures Measure(Apply(q, s, step)) < Measure(s)
  {
    var t := Apply(q, s, step);
    if step.FirstSelect? || step.Skip? || step.Send? || step.SeeClosed? || step.SeeDone? {
      TotalUpdate(CallWork, s.calls, step.i, t.calls[step.i]);
    } else if step.Signal? || step.WaitEnds? || step.InnerCloseReturns? {
      TotalUpdate(CloserWork, s.closers, step.c, t.closers[step.c]);
    }
  }

  lemma {:induction false} RunsAreBounded(q: Setup, s: State, run: seq<Step>)
    requires Legal(q, s, run)
    ensures Measure(After(q, s, run)) + |run| <= Measure(s)
    decreases run
  {
    if run != [] {
      StepLowersMeasure(q, s, run[0]);
      RunsAreBounded(q, Apply(q, s, run[0]), run[1..]);
    }
  }

  predicate Quiet(c: Call) {
    !c.Idle? && !c.Passed?
  }

  predicate AllReturned(s: State) {
    && (forall i | 0 <= i < |s.calls| :: Quiet(s.calls[i]))
    && (forall c | 0 <= c < |s.closers| :: s.closers[c].Returned?)
    && s.worker.Exited?
  }

  /** After the signal some goroutine can always move until everything has returned. */
  lemma ShutdownNeverStuck(q: Setup, s: State) returns (step: Step)
    requires Inv(q, s) && s.closed && !AllReturned(s)
    ensures Enabled(q, s, step)
  {
    if i :| 0 <= i < |s.calls| && !Quiet(s.calls[i]) {
      step := if s.calls[i].Passed? then SeeClosed(i) else if q.live[i] then FirstSelect(i) else Skip(i);
    } else if !s.worker.Exited? {
      match s.worker
      case Selecting => step := SeeSignal;
      case Draining => step := if s.buffer == [] then DrainEnd else DrainTake;
      case Handling(_, _) => step := InnerReturns;
    } else {
      var c :| 0 <= c < |s.closers| && !s.closers[c].Returned?;
      match s.closers[c]
      case Unstarted => step := Signal(c);
      case Waiting(_) => step := WaitEnds(c);
      case ClosingInner => step := InnerCloseReturns(c);
    }
  }

  /**
   So every run from a signalled state has at most Measure steps, and it can either go on by some step or has finished
   the shutdown, the inner sink closed exactly once if it can be closed.
   */
  lemma ShutdownCompletes(q: Setup, s: State, run: seq<Step>) returns (next: Option<Step>)
    requires Inv(q, s) && s.closed && Legal(q, s, run)
    ensures |run| <= Measure(s)
    ensures next.Some? ==> Enabled(q, After(q, s, run), next.value)
    ensures next.None? ==>
      AllReturned(After(q, s, run)) && After(q, s, run).innerCloses == if q.sinkCloses then 1 else 0
  {
    var t := After(q, s, run);
    InvRun(q, s, run);
    HistoryGrows(q, s, run);
    RunsAreBounded(q, s, run);
    if !AllReturned(t) {
      var step := ShutdownNeverStuck(q, t);
      return Some(step);
    }
    next := None;
    if Total(FirstWaiting, t.closers) > 0 {
      var c := TotalPositive(FirstWaiting, t.closers);
      assert false;
    }
  }

  /**
   Without a Close call and without any context ending, something can always happen, unless every call has returned and
   every accepted request is consumed.
   */
  lemma RestWithoutClose(q: Setup, s: State) returns (next: Option<Step>)
    requires Inv(q, s) && !s.closed
    ensures next.Some? ==> Enabled(q, s, next.value) && !next.value.Signal? && !next.value.SeeDone?
    ensures next.None? ==> s.worker.Selecting? && s.consumed == s.accepted
    ensures next.None? ==> forall i | 0 <= i < |s.calls| :: Quiet(s.calls[i])
  {
    if s.worker.Handling? {
      return Some(InnerReturns);
    }
    if s.buffer != [] {
      return Some(Take);
    }
    next := None;
    if i :| 0 <= i < |s.calls| && !Quiet(s.calls[i]) {
      next := Some(if s.calls[i].Passed? then Send(i) else if q.live[i] then FirstSelect(i) else Skip(i));
    }
  }
}
