/**
 The sink: Consume with its transaction, rollback, commit and retries, and the three queries with theirs. Connections,
 statements and commits of Consume may fail, and so may the attempts of a query; the world says which do.
 */
module SqliteSink {
  import opened Seqs
  import opened Otlp
  import opened SpanStore
  import opened Tables
  import opened StoreRefinement
  import opened Retry
  import opened Ingestion
  import opened SqliteTx
  import opened Texts
  import opened BatchLoad
  import opened TraceQueries
  import opened SpanQueries
  import opened TraceRows
  import opened QueryRetry

  lemma GrowsMore(db: Db, next: nat)
    requires next >= db.next
    ensures Grows(db, db.(next := next))
  {
  }

  lemma BoundedMore(db: Db, next: nat)
    requires Bounded(db) && next >= db.next
    ensures Bounded(db.(next := next))
  {
    HeadBelowMore(db.resources, db.next, next);
    HeadBelowMore(db.scopes, db.next, next);
    BelowMore(db, db.next, next);
    ChildBelowMore(db.events, db.next, next);
    ChildBelowMore(db.links, db.next, next);
  }

  lemma ViewMore(db: Db, next: nat)
    requires Bounded(db) && next >= db.next
    ensures View(db.(next := next)) == View(db)
  {
    GrowsMore(db, next);
    RecordsGrown(db, db.(next := next), db.spans);
  }

  lemma ReferentialMore(db: Db, next: nat)
    requires Referential(db)
    ensures Referential(db.(next := next))
  {
  }

  lemma ValidMore(db: Db, next: nat)
    requires Valid(db) && next >= db.next
    ensures Valid(db.(next := next)) && View(db.(next := next)) == View(db)
  {
    BoundedMore(db, next);
    ReferentialMore(db, next);
    ViewMore(db, next);
  }

  class Sink {
    const codec: Codec
    var db: ValidDb

    constructor (codec: Codec)
      ensures this.codec == codec && View(db) == []
    {
      NewDbIsEmpty();
      this.codec := codec;
      db := NEW_DB;
    }

    /** The function Consume retries: one connection, one transaction. */
    method TryOnce(req: Request, world: Attempt) returns (err: Option<Error>)
      modifies this
      ensures db.next >= old(db).next
      ensures err.None? ==> View(db) == FirstWins(old(View(db)), Records(codec, req))
      ensures err.Some? && !world.commit.CommitLost? ==> db == old(db).(next := db.next) && View(db) == old(View(db))
      ensures View(db) == old(View(db)) || View(db) == FirstWins(old(View(db)), Records(codec, req))
      ensures TryReturns(world, req, err)
    {
      err := ErrorOf(world.open);
      if err.Some? {
        return;
      }
      err := ErrorOf(world.begin);
      if err.Some? {
        return;
      }
      var tx := new Tx(codec, world.statements, db);
      err := tx.ConsumeTx(req);
      if err.Some? {
        // roll back: the tables are untouched, only ids have been used up
        ValidMore(db, tx.db.next);
        db := db.(next := tx.db.next);
        return;
      }
      IngestRefines(codec, db, req);
      err := CommitError(world.commit);
      if world.commit.CommitFails? {
        ValidMore(db, tx.db.next);
        db := db.(next := tx.db.next);
      } else {
        db := tx.db;
      }
    }

    /** One round of the retry loop, up to its sleep. */
    method Round(
        req: Request, world: World, i: nat, now: nat, backoff: nat, ghost log: seq<Try>, ghost before: seq<Stored>)
        returns (err: Option<Error>, after: nat, sleep: nat, ghost longer: seq<Try>)
      requires OldOrOnce(codec, before, View(db), req)
      requires Logged(req, world, log) && |log| == i && !Late(world.clock, i)
      requires now == Now(world.clock, i) && backoff == Backoff(i)
      modifies this
      ensures after == TryEnd(world.clock, i) && sleep == Sleep(backoff, world.clock.nanos(i)) > 0
      ensures |longer| == i + 1 && longer[..i] == log
      ensures RoundDone(codec, before, old(View(db)), View(db), req, world, i, longer, err)
    {
      TwiceIsOnce(before, Records(codec, req));
      err := TryOnce(req, world.attempt(i));
      after := now + world.clock.took(i);
      sleep := Sleep(backoff, world.clock.nanos(i));
      BackoffRange(i);
      LogMore(req, world, log, TryAt(world.clock, i, err));
      longer := log + [TryAt(world.clock, i, err)];
    }

    /** One round: the deadline check, a try, and what follows from it. */
    method Turn(
        req: Request, world: World, i: nat, now: nat, backoff: nat, ghost log: seq<Try>, ghost before: seq<Stored>)
        returns (ended: Option<End>, err: Option<Error>, now': nat, backoff': nat, ghost log': seq<Try>)
      requires Retrying(codec, before, View(db), req, world, i, now, backoff, log)
      modifies this
      ensures ended.Some? ==> Finished(codec, before, View(db), req, world, log', ended.value, err)
      ensures ended.None? ==>
        Retrying(codec, before, View(db), req, world, i + 1, now', backoff', log') && now < now' && now < RETRY_TIMEOUT
    {
      now', backoff', log' := now, backoff, log;
      if world.clock.deadline.Some? && now > world.clock.deadline.value {
        Expired(world.clock, log);
        return Some(DeadlinePassed), world.clock.ctxErr(i), now, backoff, log;
      }
      var outcome, sleep;
      outcome, now', sleep, log' := Round(req, world, i, now, backoff, log, before);
      BusyStill(world.clock, log, log', i);
      ended, err := AfterTry(world.clock, i, now', outcome, log');
      if ended.Some? {
        RoundEnds(codec, before, old(View(db)), View(db), req, world, i, log', outcome, ended.value, err);
        return;
      }
      now' := now' + sleep + world.clock.overslept(i);
      backoff' := NextBackoff(backoff);
      RoundGoesOn(codec, before, old(View(db)), View(db), req, world, i, now', backoff', log', outcome);
    }

    /** Consume: what it promises is Finished. */
    method Consume(req: Request, world: World) returns (err: Option<Error>, ghost log: seq<Try>, ghost end: End)
      modifies this
      ensures Finished(codec, old(View(db)), View(db), req, world, log, end, err)
    {
      var backoff: nat, now: nat, i: nat := MIN_BACKOFF, 0, 0;
      NothingTried(codec, View(db), req, world);
      ghost var before := View(db);
      log := [];
      while true
        invariant Retrying(codec, before, View(db), req, world, i, now, backoff, log)
        decreases RETRY_TIMEOUT - now
      {
        var ended;
        ended, err, now, backoff, log := Turn(req, world, i, now, backoff, log, before);
        if ended.Some? {
          end := ended.value;
          return;
        }
        i := i + 1;
      }
    }

    const DEFAULT_LIMIT := 100

    function EffectiveLimit(limit: int): nat {
      if limit <= 0 then DEFAULT_LIMIT else limit
    }

    method QuerySpans(q: SpanQuery, r: Reads<LoadedSpan>)
        returns (err: Option<Error>, spans: seq<LoadedSpan>, ghost sel: seq<Stored>, ghost log: seq<Try>, end: End)
      ensures Asked(r, log, end, err, spans)
      ensures end == Succeeded || (err.None? && ErrorInTime(r.clock)) ==>
        IsSpanAnswer(codec, View(db), q, if q.limit <= 0 then 100 else q.limit, sel, spans)
    {
      var tries;
      end, err, tries, log := RetryReads(r);
      spans, sel := LeftBehind(r, tries), [];
      if end == Succeeded {
        spans, sel := Spans(codec, db, q, EffectiveLimit(q.limit));
      } else if err.Some? {
        spans := [];
      } else if ErrorInTime(r.clock) {
        NilIsRead(r, log, end, err);
      }
    }

    method QueryTraces(q: TraceQuery, r: Reads<TraceSummary>)
        returns (err: Option<Error>, summaries: seq<TraceSummary>, ghost log: seq<Try>, end: End)
      ensures Asked(r, log, end, err, summaries)
      ensures end == Succeeded || (err.None? && ErrorInTime(r.clock)) ==>
        var limit := if q.limit <= 0 then 100 else q.limit;
        IsAnswer(View(db), q, limit, summaries) && AnswerOrdered(View(db), q, limit, summaries)
    {
      var params := if q.order == "" then q.(order := "start_desc") else q;
      var tries;
      end, err, tries, log := RetryReads(r);
      summaries := LeftBehind(r, tries);
      if end == Succeeded {
        summaries := SelectSummaries(db, params, EffectiveLimit(params.limit));
        if q.order == "" {
          DefaultOrder(View(db), q, EffectiveLimit(q.limit), summaries);
        }
        AnswerIsOrdered(View(db), q, EffectiveLimit(q.limit), summaries);
      } else if err.Some? {
        summaries := [];
      } else if ErrorInTime(r.clock) {
        NilIsRead(r, log, end, err);
      }
    }

    /** A blank trace id is an error, and nothing is tried. */
    method QueryTraceSpans(traceId: string, service: string, status: Option<int>, r: Reads<LoadedSpan>)
        returns (err: Option<Error>, spans: seq<LoadedSpan>, ghost sel: seq<Stored>, ghost log: seq<Try>, end: End)
      ensures Trim(traceId) == "" ==> err == Some(NoTraceId) && spans == [] && log == []
      ensures Trim(traceId) != "" ==> Asked(r, log, end, err, spans)
      ensures Trim(traceId) != "" && (end == Succeeded || (err.None? && ErrorInTime(r.clock))) ==>
        IsTraceAnswer(codec, View(db), Trim(traceId), service, status, sel, spans)
    {
      var trimmed := Trim(traceId);
      if trimmed == "" {
        return Some(NoTraceId), [], [], [], Failed;
      }
      var tries;
      end, err, tries, log := RetryReads(r);
      spans, sel := LeftBehind(r, tries), [];
      if end == Succeeded {
        spans, sel := TraceSpans(codec, db, trimmed, service, status);
      } else if err.Some? {
        spans := [];
      } else if ErrorInTime(r.clock) {
        NilIsRead(r, log, end, err);
      }
    }
  }

  // ---------------------------------------------------------------- nil without effect

  const BUSY_AT_OPEN := Attempt(BusyFault, Fine, _ => Fine, Commits)

  /**
   If on some clock the deadline check can fire with the context's error not set, then Consume does return nil without
   effect, namely when the database stays busy.
   */
  method NilWithoutEffect(sink: Sink, req: Request, clock: Clock, i: nat)
      returns (err: Option<Error>, ghost log: seq<Try>)
    requires Fires(clock, i) && clock.ctxErr(i).None?
    modifies sink
    ensures err.None? && View(sink.db) == old(View(sink.db))
    ensures |log| == i && forall j | 0 <= j < i :: log[j].outcome == Some(SqlBusy)
  {
    var world := World(clock, _ => BUSY_AT_OPEN);
    ghost var end;
    err, log, end := sink.Consume(req, world);
    AlwaysBusy(clock, log, end, err, i);
  }

  /** A context already past its deadline: nil, with no attempt made. */
  method ExpiredAtEntry(sink: Sink, req: Request) returns (err: Option<Error>, ghost log: seq<Try>)
    modifies sink
    ensures err.None? && View(sink.db) == old(View(sink.db)) && log == []
  {
    err, log := NilWithoutEffect(sink, req, QUICK.(deadline := Some(-1)), 0);
  }

  /** A deadline that passes during the first sleep: nil, after one busy attempt. */
  method ExpiredWhileSleeping(sink: Sink, req: Request) returns (err: Option<Error>, ghost log: seq<Try>)
    modifies sink
    ensures err.None? && View(sink.db) == old(View(sink.db))
    ensures |log| == 1 && log[0].outcome == Some(SqlBusy)
  {
    var clock := QUICK.(deadline := Some(0));
    assert Fires(clock, 1) by {
      assert Now(clock, 1) == MIN_BACKOFF;
    }
    err, log := NilWithoutEffect(sink, req, clock, 1);
  }

  /** A query on such a clock: no error, and whatever rows the last attempt happened to leave, none without one. */
  method NilWithoutAnswer(sink: Sink, q: TraceQuery, clock: Clock, i: nat, left: nat -> seq<TraceSummary>)
      returns (err: Option<Error>, summaries: seq<TraceSummary>, ghost log: seq<Try>)
    requires Fires(clock, i) && clock.ctxErr(i).None?
    ensures err.None? && |log| == i && summaries == if i == 0 then [] else left(i - 1)
  {
    var end;
    err, summaries, log, end := sink.QueryTraces(q, Reads(clock, _ => Some(SqlBusy), left));
    AlwaysBusy(clock, log, end, err, i);
  }

  /** A context already past its deadline: no traces and no error, although there are traces that qualify. */
  method NoTracesAtEntry(sink: Sink, q: TraceQuery, ghost id: string)
      returns (err: Option<Error>, summaries: seq<TraceSummary>)
    requires Qualifies(View(sink.db), q, id)
    ensures err.None? && summaries == []
    ensures !IsAnswer(View(sink.db), q, if q.limit <= 0 then 100 else q.limit, summaries)
  {
    ghost var log;
    err, summaries, log := NilWithoutAnswer(sink, q, QUICK.(deadline := Some(-1)), 0, _ => []);
    assert !InAnswer([], id);
  }
}
