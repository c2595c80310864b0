/**
 The busy-retry loop: what it does on a given clock, with what its bounds give. Times are nanoseconds since the loop
 began. A timer never fires early; everything else about time is left open.
 */
module Retry {
  import opened Seqs

  const RETRY_TIMEOUT := 5_000_000_000
  const MIN_BACKOFF := 25_000_000
  const MAX_BACKOFF := 250_000_000

  datatype Error = SqlBusy | SqlOther | BadValue | ContextDone | NoTraceId

  /**
   The clock and the context, by the number of the try: how long it takes, the nanoseconds the jitter is taken from, how
   late the timer fires, whether the context ends during the sleep; the deadline, which may have passed before the loop
   begins; and what ctx.Err() is when the deadline is checked before the try.
   */
  datatype Clock = Clock(
    took: nat -> nat,
    nanos: nat -> nat,
    overslept: nat -> nat,
    doneWhileSleeping: nat -> bool,
    deadline: Option<int>,
    ctxErr: nat -> Option<Error>)

  /** One call of the retried function, and the sleep after it if it was busy. */
  datatype Try = Try(begin: nat, end: nat, outcome: Option<Error>, backoff: nat, sleep: nat)

  datatype End = Succeeded | Failed | TimedOut | DoneWhileSleeping | DeadlinePassed

  function NextBackoff(b: nat): nat {
    if 2 * b > MAX_BACKOFF then MAX_BACKOFF else 2 * b
  }

  function Backoff(i: nat): nat {
    if i == 0 then MIN_BACKOFF else NextBackoff(Backoff(i - 1))
  }

  function Sleep(backoff: nat, nanos: nat): nat {
    if backoff / 2 > 0 then backoff + nanos % (backoff / 2) else backoff
  }

  /** When try i begins, if all before it were busy. */
  function Now(c: Clock, i: nat): nat
    decreases i, 0
  {
    if i == 0 then 0 else TryEnd(c, i - 1) + Sleep(Backoff(i - 1), c.nanos(i - 1)) + c.overslept(i - 1)
  }

  function TryEnd(c: Clock, i: nat): nat
    decreases i, 1
  {
    Now(c, i) + c.took(i)
  }

  function TryAt(c: Clock, i: nat, outcome: Option<Error>): Try {
    Try(Now(c, i), TryEnd(c, i), outcome, Backoff(i), Sleep(Backoff(i), c.nanos(i)))
  }

  /** The deadline has passed when it is checked before try i. */
  predicate Late(c: Clock, i: nat) {
    c.deadline.Some? && Now(c, i) > c.deadline.value
  }

  /** After a busy try i the loop goes round again. */
  predicate GoesOn(c: Clock, i: nat) {
    TryEnd(c, i) < RETRY_TIMEOUT && !c.doneWhileSleeping(i)
  }

  /** The tries made so far: their times are the clock's, and none was begun late. */
  ghost predicate OnClock(c: Clock, log: seq<Try>) {
    forall i | 0 <= i < |log| :: log[i] == TryAt(c, i, log[i].outcome) && !Late(c, i)
  }

  /** The first n tries were busy, and the loop went on after each. */
  ghost predicate BusySoFar(c: Clock, log: seq<Try>, n: nat)
    requires n <= |log|
  {
    forall i | 0 <= i < n :: log[i].outcome == Some(SqlBusy) && GoesOn(c, i)
  }

  /** All tries but the last were busy; the last returned this. */
  ghost predicate LastReturned(c: Clock, log: seq<Try>, outcome: Option<Error>) {
    log != [] && BusySoFar(c, log, |log| - 1) && log[|log| - 1].outcome == outcome
  }

  /** The tries, the end and the result of one execution of the loop; what the tries return is up to the function. */
  ghost predicate Run(c: Clock, log: seq<Try>, end: End, err: Option<Error>) {
    && OnClock(c, log)
    && match end
       case Succeeded => LastReturned(c, log, None) && err.None?
       case Failed => LastReturned(c, log, err) && err.Some? && err != Some(SqlBusy)
       case TimedOut =>
         LastReturned(c, log, err) && err == Some(SqlBusy) && TryEnd(c, |log| - 1) >= RETRY_TIMEOUT
       case DoneWhileSleeping =>
         && LastReturned(c, log, Some(SqlBusy)) && err == Some(ContextDone)
         && TryEnd(c, |log| - 1) < RETRY_TIMEOUT && c.doneWhileSleeping(|log| - 1)
       case DeadlinePassed => BusySoFar(c, log, |log|) && Late(c, |log|) && err == c.ctxErr(|log|)
  }

  // ---------------------------------------------------------------- bounds

  /** The number of the last try there can be. */
  const LAST_TRY := 23

  lemma {:induction false} BackoffRange(i: nat)
    ensures MIN_BACKOFF <= Backoff(i) <= MAX_BACKOFF
    ensures i >= 4 ==> Backoff(i) == MAX_BACKOFF
  {
    if i > 0 {
      BackoffRange(i - 1);
    }
    if i == 4 {
      assert Backoff(1) == 50_000_000 && Backoff(2) == 100_000_000 && Backoff(3) == 200_000_000;
    }
  }

  lemma SleepRange(backoff: nat, nanos: nat)
    requires MIN_BACKOFF <= backoff <= MAX_BACKOFF
    ensures backoff <= Sleep(backoff, nanos) < backoff + backoff / 2
  {
  }

  /** The least time that can have passed when try i begins, in closed form. */
  function Earliest(i: nat): nat {
    if i == 0 then 0
    else if i == 1 then 25_000_000
    else if i == 2 then 75_000_000
    else if i == 3 then 175_000_000
    else 375_000_000 + MAX_BACKOFF * (i - 4)
  }

  lemma EarliestNext(i: nat)
    ensures Earliest(i + 1) == Earliest(i) + Backoff(i)
  {
    BackoffRange(i);
    if i < 4 {
      assert Backoff(1) == 50_000_000 && Backoff(2) == 100_000_000 && Backoff(3) == 200_000_000;
    }
  }

  lemma {:induction false} NotEarlier(c: Clock, i: nat)
    ensures Now(c, i) >= Earliest(i)
  {
    if i > 0 {
      NotEarlier(c, i - 1);
      BackoffRange(i - 1);
      SleepRange(Backoff(i - 1), c.nanos(i - 1));
      EarliestNext(i - 1);
    }
  }

  /** After the last try there can be, the timeout has passed. */
  lemma LastDoesNotGoOn(c: Clock)
    ensures !GoesOn(c, LAST_TRY)
  {
    NotEarlier(c, LAST_TRY);
  }

  lemma AtMost24(c: Clock, log: seq<Try>, end: End, err: Option<Error>, last: nat)
    requires Run(c, log, end, err) && !GoesOn(c, last)
    ensures |log| <= last + 1
  {
  }

  /**
   In every run: backoffs start at 25 ms and double up to 250 ms, a sleep adds the clock's nanoseconds modulo half the
   backoff, the next try begins after it; all tries but the last failed busy within 5 s, and there are at most 24.
   */
  lemma RetryBounds(c: Clock, log: seq<Try>, end: End, err: Option<Error>, i: nat)
    requires Run(c, log, end, err) && i < |log|
    ensures i == 0 ==> log[i].begin == 0 && log[i].backoff == 25_000_000
    ensures i > 0 && log[i - 1].backoff <= 125_000_000 ==> log[i].backoff == 2 * log[i - 1].backoff
    ensures i > 0 && log[i - 1].backoff > 125_000_000 ==> log[i].backoff == 250_000_000
    ensures i > 0 ==> log[i].begin == log[i - 1].end + log[i - 1].sleep + c.overslept(i - 1)
    ensures log[i].end == log[i].begin + c.took(i)
    ensures 25_000_000 <= log[i].backoff <= log[i].sleep < log[i].backoff + log[i].backoff / 2 <= 375_000_000
    ensures log[i].sleep - log[i].backoff == c.nanos(i) % (log[i].backoff / 2)
    ensures i < |log| - 1 ==> log[i].outcome == Some(SqlBusy) && log[i].end < 5_000_000_000
    ensures i == |log| - 1 && end == TimedOut ==> log[i].outcome == Some(SqlBusy) && log[i].end >= 5_000_000_000
    ensures |log| <= 24
  {
    BackoffRange(i);
    SleepRange(Backoff(i), c.nanos(i));
    LastDoesNotGoOn(c);
    AtMost24(c, log, end, err, LAST_TRY);
  }

  /** Tries that take no time, no jitter, no deadline. */
  const QUICK := Clock(_ => 0, _ => 0, _ => 0, _ => false, None, _ => None)

  lemma {:induction false} QuickNow(i: nat)
    ensures Now(QUICK, i) == Earliest(i)
  {
    if i > 0 {
      QuickNow(i - 1);
      EarliestNext(i - 1);
    }
  }

  /** The tries of a run in which the function is always busy. */
  function BusyLog(c: Clock, n: nat): seq<Try> {
    seq(n, i requires 0 <= i < n => TryAt(c, i, Some(SqlBusy)))
  }

  lemma QuickGoesOn(i: nat)
    requires i <= LAST_TRY
    ensures GoesOn(QUICK, i) <==> i < LAST_TRY
    ensures i == LAST_TRY ==> TryEnd(QUICK, i) >= RETRY_TIMEOUT
  {
    QuickNow(i);
  }

  lemma BusyOnClock(c: Clock, n: nat)
    requires forall i | 0 <= i < n :: !Late(c, i)
    ensures |BusyLog(c, n)| == n && OnClock(c, BusyLog(c, n))
  {
  }

  lemma BusyUntil(c: Clock, last: nat)
    requires TryEnd(c, last) >= RETRY_TIMEOUT
    requires forall i | 0 <= i <= last :: !Late(c, i) && (i < last ==> GoesOn(c, i))
    ensures Run(c, BusyLog(c, last + 1), TimedOut, Some(SqlBusy))
  {
    var log := BusyLog(c, last + 1);
    BusyOnClock(c, last + 1);
    assert BusySoFar(c, log, |log| - 1);
  }

  /** The bound is exact: quick tries make 24 of them. */
  lemma AllTries()
    ensures |BusyLog(QUICK, LAST_TRY + 1)| == LAST_TRY + 1
    ensures Run(QUICK, BusyLog(QUICK, LAST_TRY + 1), TimedOut, Some(SqlBusy))
  {
    forall i | 0 <= i <= LAST_TRY ensures GoesOn(QUICK, i) <==> i < LAST_TRY {
      QuickGoesOn(i);
    }
    QuickGoesOn(LAST_TRY);
    BusyUntil(QUICK, LAST_TRY);
  }

  // ---------------------------------------------------------------- what nil means

  /** If the function stays busy, the check before try i finds that the deadline has passed, for the first time. */
  ghost predicate Fires(c: Clock, i: nat) {
    Late(c, i) && forall j | 0 <= j < i :: !Late(c, j) && GoesOn(c, j)
  }

  /** Whenever the deadline check can fire, the context has its error by then. */
  ghost predicate ErrorInTime(c: Clock) {
    forall i: nat | Fires(c, i) :: c.ctxErr(i).Some?
  }

  /** In every run, nil means that the last try succeeded. */
  ghost predicate NilIsSuccess(c: Clock) {
    forall log, end, err | Run(c, log, end, err) && err.None? :: end == Succeeded
  }

  lemma BusyRun(c: Clock, i: nat)
    requires Fires(c, i)
    ensures Run(c, BusyLog(c, i), DeadlinePassed, c.ctxErr(i))
  {
  }

  /** A deadline that has passed can be returned as nil; exactly when the context's error is set in time, it is not. */
  lemma NilMeansSuccess(c: Clock)
    ensures NilIsSuccess(c) <==> ErrorInTime(c)
    ensures c.deadline.None? ==> ErrorInTime(c)
  {
    if ErrorInTime(c) {
      forall log, end, err | Run(c, log, end, err) && err.None? ensures end == Succeeded {
        assert end == DeadlinePassed ==> Fires(c, |log|);
      }
    }
    if NilIsSuccess(c) {
      forall i: nat | Fires(c, i) ensures c.ctxErr(i).Some? {
        BusyRun(c, i);
      }
    }
  }

  lemma BeforeItFires(c: Clock, i: nat, j: nat)
    requires Fires(c, i)
    ensures j < i ==> !Late(c, j) && GoesOn(c, j)
  {
  }

  lemma NotBegunLate(c: Clock, log: seq<Try>, i: nat)
    requires OnClock(c, log)
    ensures i < |log| ==> !Late(c, i)
  {
  }

  /** If the function is always busy, the run is the one in which the check fires. */
  lemma AlwaysBusy(c: Clock, log: seq<Try>, end: End, err: Option<Error>, i: nat)
    requires Run(c, log, end, err) && Fires(c, i)
    requires forall j | 0 <= j < |log| :: log[j].outcome == Some(SqlBusy)
    ensures |log| == i && end == DeadlinePassed && err == c.ctxErr(i)
  {
    NotBegunLate(c, log, i);
    BeforeItFires(c, i, |log|);
    if log != [] {
      BeforeItFires(c, i, |log| - 1);
    }
  }

  // ---------------------------------------------------------------- one round

  /** What the loop does after a try: whether it ends, how, and with which result. */
  method AfterTry(c: Clock, i: nat, now: nat, outcome: Option<Error>, ghost log: seq<Try>)
      returns (end: Option<End>, err: Option<Error>)
    requires OnClock(c, log) && |log| == i + 1 && BusySoFar(c, log, i) && log[i].outcome == outcome
    requires now == TryEnd(c, i)
    ensures end.Some? ==> Run(c, log, end.value, err) && (end.value == Succeeded <==> outcome.None?)
    ensures end.Some? ==> end.value != DeadlinePassed
    ensures end.None? ==> BusySoFar(c, log, i + 1) && outcome.Some? && now < RETRY_TIMEOUT
  {
    if outcome.None? {
      return Some(Succeeded), None;
    }
    if outcome != Some(SqlBusy) {
      return Some(Failed), outcome;
    }
    if now >= RETRY_TIMEOUT {
      return Some(TimedOut), outcome;
    }
    if c.doneWhileSleeping(i) {
      return Some(DoneWhileSleeping), Some(ContextDone);
    }
    end, err := None, outcome;
  }

  /** The check fires: what it returns. */
  lemma Expired(c: Clock, log: seq<Try>)
    requires OnClock(c, log) && BusySoFar(c, log, |log|) && Late(c, |log|)
    ensures Run(c, log, DeadlinePassed, c.ctxErr(|log|))
    ensures ErrorInTime(c) ==> c.ctxErr(|log|).Some?
  {
    assert Fires(c, |log|);
  }

  lemma BusyStill(c: Clock, log: seq<Try>, longer: seq<Try>, i: nat)
    requires |log| == i && |longer| == i + 1 && longer[..i] == log && BusySoFar(c, log, i)
    ensures BusySoFar(c, longer, i)
  {
    assert forall j | 0 <= j < i :: longer[j] == log[j];
  }
}
