/**
 The retry loop around a query. The retried function reads into a variable that it empties first; a failing attempt may
 leave rows in it.
 */
module QueryRetry {
  import opened Seqs
  import opened Retry

  /** The clock, what each attempt returns, and what a failing one leaves behind. */
  datatype Reads<T> = Reads(clock: Clock, outcome: nat -> Option<Error>, left: nat -> seq<T>)

  /** The variable after n attempts that failed. */
  function LeftBehind<T>(r: Reads<T>, n: nat): seq<T> {
    if n == 0 then [] else r.left(n - 1)
  }

  ghost predicate ReadLog<T>(r: Reads<T>, log: seq<Try>) {
    OnClock(r.clock, log) && forall i | 0 <= i < |log| :: log[i].outcome == r.outcome(i)
  }

  /** Between two rounds. */
  ghost predicate Rereading<T>(r: Reads<T>, i: nat, now: nat, backoff: nat, log: seq<Try>) {
    && ReadLog(r, log) && |log| == i && BusySoFar(r.clock, log, i)
    && now == Now(r.clock, i) && backoff == Backoff(i)
  }

  lemma ReadLogMore<T>(r: Reads<T>, log: seq<Try>, i: nat)
    requires ReadLog(r, log) && |log| == i && BusySoFar(r.clock, log, i) && !Late(r.clock, i)
    ensures
      var longer := log + [TryAt(r.clock, i, r.outcome(i))];
      ReadLog(r, longer) && BusySoFar(r.clock, longer, i)
  {
  }

  /** withRetry around a query: how it ended, with which result, after how many attempts. */
  method RetryReads<T>(r: Reads<T>) returns (end: End, err: Option<Error>, tries: nat, ghost log: seq<Try>)
    ensures Run(r.clock, log, end, err) && ReadLog(r, log) && |log| == tries
  {
    var backoff: nat, now: nat := MIN_BACKOFF, 0;
    tries, log := 0, [];
    while true
      invariant Rereading(r, tries, now, backoff, log)
      decreases RETRY_TIMEOUT - now
    {
      if r.clock.deadline.Some? && now > r.clock.deadline.value {
        Expired(r.clock, log);
        return DeadlinePassed, r.clock.ctxErr(tries), tries, log;
      }
      ReadLogMore(r, log, tries);
      log := log + [TryAt(r.clock, tries, r.outcome(tries))];
      now := now + r.clock.took(tries);
      var ended;
      ended, err := AfterTry(r.clock, tries, now, r.outcome(tries), log);
      if ended.Some? {
        return ended.value, err, tries + 1, log;
      }
      BackoffRange(tries);
      now := now + Sleep(backoff, r.clock.nanos(tries)) + r.clock.overslept(tries);
      backoff := NextBackoff(backoff);
      tries := tries + 1;
    }
  }

  /** What the caller of a query gets: the log is a run of the loop, an error comes without rows. */
  ghost predicate Asked<T>(r: Reads<T>, log: seq<Try>, end: End, err: Option<Error>, rows: seq<T>) {
    && Run(r.clock, log, end, err) && ReadLog(r, log)
    && (err.Some? ==> rows == [])
    && (err.None? && end != Succeeded ==> rows == LeftBehind(r, |log|))
  }

  /** Nil means that the last attempt succeeded, if the context's error is set whenever the deadline check fires. */
  lemma NilIsRead<T>(r: Reads<T>, log: seq<Try>, end: End, err: Option<Error>)
    requires Run(r.clock, log, end, err) && err.None? && ErrorInTime(r.clock)
    ensures end == Succeeded
  {
    NilMeansSuccess(r.clock);
  }
}
