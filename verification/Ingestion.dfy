/**
 What it means to consume a request with retries: what may go wrong in each attempt, and what is promised of the log,
 the result and the records whatever does.
 */
module Ingestion {
  import opened Seqs
  import opened Otlp
  import opened SpanStore
  import opened Retry
  import opened SqliteTx

  /** A commit that is lost has taken effect, but is reported as failed. */
  datatype Commit = Commits | CommitFails(fault: Fault) | CommitLost(fault: Fault)

  /** What the database does to one attempt. */
  datatype Attempt = Attempt(open: Fault, begin: Fault, statements: nat -> Fault, commit: Commit)

  /** Nothing goes wrong. */
  ghost predicate AttemptFine(a: Attempt) {
    a.open.Fine? && a.begin.Fine? && (forall i: nat :: a.statements(i).Fine?) && a.commit.Commits?
  }

  function CommitError(c: Commit): Option<Error> {
    match c
    case Commits => None
    case CommitFails(f) => Some(if f.BusyFault? then SqlBusy else SqlOther)
    case CommitLost(f) => Some(if f.BusyFault? then SqlBusy else SqlOther)
  }

  /** What the clock, the context and the database do while Consume is retried. */
  datatype World = World(clock: Clock, attempt: nat -> Attempt)

  /** What one attempt returns; if a statement fails, it may be any error. */
  ghost predicate TryReturns(a: Attempt, req: Request, outcome: Option<Error>) {
    if !a.open.Fine? then outcome == ErrorOf(a.open)
    else if !a.begin.Fine? then outcome == ErrorOf(a.begin)
    else
      && ((forall i: nat :: a.statements(i).Fine?) && RequestFormattable(req) ==> outcome == CommitError(a.commit))
      && (outcome.None? ==> a.commit.Commits?)
  }

  /** What an attempt returns where it is certain: the first fault on the way decides, busy or not. */
  lemma FirstFaultDecides(a: Attempt, req: Request, outcome: Option<Error>)
    requires TryReturns(a, req, outcome)
    ensures a.open == BusyFault ==> outcome == Some(SqlBusy)
    ensures a.open == OtherFault ==> outcome == Some(SqlOther)
    ensures a.open == Fine && a.begin == BusyFault ==> outcome == Some(SqlBusy)
    ensures a.open == Fine && a.begin == OtherFault ==> outcome == Some(SqlOther)
    ensures
      a.open == Fine && a.begin == Fine && RequestFormattable(req) && (forall i: nat :: a.statements(i) == Fine) ==>
      && (a.commit == Commits ==> outcome == None)
      && (a.commit == CommitFails(BusyFault) || a.commit == CommitLost(BusyFault) ==> outcome == Some(SqlBusy))
      && (a.commit == CommitFails(OtherFault) || a.commit == CommitLost(OtherFault) ==> outcome == Some(SqlOther))
  {
  }

  /** Offering the same records twice in a row is offering them once. */
  lemma TwiceIsOnce(v: seq<Stored>, records: seq<Stored>)
    ensures FirstWins(FirstWins(v, records), records) == FirstWins(v, records)
  {
    ReplayChangesNothing(v, records, []);
  }

  /** The records are the old ones, or hold the request once. */
  ghost predicate OldOrOnce(c: Codec, before: seq<Stored>, after: seq<Stored>, req: Request) {
    after == before || after == FirstWins(before, Records(c, req))
  }

  /** The tries are on the clock, and each returned what its attempt says. */
  ghost predicate Logged(req: Request, world: World, log: seq<Try>) {
    OnClock(world.clock, log) && forall i | 0 <= i < |log| :: TryReturns(world.attempt(i), req, log[i].outcome)
  }

  lemma LogMore(req: Request, world: World, log: seq<Try>, t: Try)
    requires Logged(req, world, log) && !Late(world.clock, |log|)
    requires t == TryAt(world.clock, |log|, t.outcome) && TryReturns(world.attempt(|log|), req, t.outcome)
    ensures Logged(req, world, log + [t])
  {
  }

  /** No commit was lost among the first n attempts. */
  ghost predicate NoneLost(world: World, n: nat) {
    forall i | 0 <= i < n :: !world.attempt(i).commit.CommitLost?
  }

  /** Between two rounds: all tries so far were busy, and without a lost commit nothing has changed. */
  ghost predicate Retrying(
    c: Codec, before: seq<Stored>, after: seq<Stored>, req: Request, world: World, i: nat, now: nat, backoff: nat,
    log: seq<Try>)
  {
    && OldOrOnce(c, before, after, req)
    && Logged(req, world, log) && |log| == i && BusySoFar(world.clock, log, i)
    && now == Now(world.clock, i) && backoff == Backoff(i)
    && (NoneLost(world, i) ==> after == before)
  }

  lemma NothingTried(c: Codec, v: seq<Stored>, req: Request, world: World)
    ensures Retrying(c, v, v, req, world, 0, 0, MIN_BACKOFF, [])
  {
  }

  /**
   What Consume promises, whatever fails and however often it is tried. The log is a run of the loop on the world's
   clock; the records are the old ones or hold the request once. A nil result means the latter if the context's error
   is set whenever a passed deadline is noticed; otherwise it need not (SqliteSink.NilWithoutEffect).
   */
  ghost predicate Finished(
    c: Codec, before: seq<Stored>, after: seq<Stored>, req: Request, world: World, log: seq<Try>, end: End,
    err: Option<Error>)
  {
    && OldOrOnce(c, before, after, req)
    && Run(world.clock, log, end, err) && Logged(req, world, log)
    && (end == Succeeded ==> after == FirstWins(before, Records(c, req)))
    && (err.None? && ErrorInTime(world.clock) ==> end == Succeeded)
    && (end != Succeeded && NoneLost(world, |log|) ==> after == before)
  }

  /** What the round's try did: after is the time when it ended. */
  ghost predicate RoundDone(
    c: Codec, before: seq<Stored>, mid: seq<Stored>, after: seq<Stored>, req: Request, world: World, i: nat,
    longer: seq<Try>, outcome: Option<Error>)
  {
    && OldOrOnce(c, before, after, req)
    && Logged(req, world, longer) && |longer| == i + 1 && longer[i].outcome == outcome
    && (outcome.None? ==> after == FirstWins(before, Records(c, req)))
    && (outcome.Some? && !world.attempt(i).commit.CommitLost? ==> after == mid)
  }

  lemma RoundEnds(
      c: Codec, before: seq<Stored>, mid: seq<Stored>, after: seq<Stored>, req: Request, world: World, i: nat,
      longer: seq<Try>, outcome: Option<Error>, end: End, err: Option<Error>)
    requires RoundDone(c, before, mid, after, req, world, i, longer, outcome) && (NoneLost(world, i) ==> mid == before)
    requires Run(world.clock, longer, end, err) && end != DeadlinePassed && (end == Succeeded <==> outcome.None?)
    ensures Finished(c, before, after, req, world, longer, end, err)
  {
  }

  lemma RoundGoesOn(
      c: Codec, before: seq<Stored>, mid: seq<Stored>, after: seq<Stored>, req: Request, world: World, i: nat,
      now: nat, backoff: nat, longer: seq<Try>, outcome: Option<Error>)
    requires RoundDone(c, before, mid, after, req, world, i, longer, outcome) && (NoneLost(world, i) ==> mid == before)
    requires outcome.Some? && BusySoFar(world.clock, longer, i + 1)
    requires now == Now(world.clock, i + 1) && backoff == Backoff(i + 1)
    ensures Retrying(c, before, after, req, world, i + 1, now, backoff, longer)
  {
  }

  /** A first attempt in which nothing goes wrong is the only one, and succeeds. */
  lemma FineSucceeds(req: Request, world: World, log: seq<Try>, end: End, err: Option<Error>)
    requires Run(world.clock, log, end, err) && Logged(req, world, log) && !Late(world.clock, 0)
    requires AttemptFine(world.attempt(0)) && RequestFormattable(req)
    ensures end == Succeeded && |log| == 1
  {
    assert log != [] ==> log[0].outcome.None?;
  }
}
