/** The operations of the sink one after the other: what was written comes back, and the queries agree. */
module WriteThenRead {
  import opened Seqs
  import opened Texts
  import opened Otlp
  import opened SpanStore
  import opened Tables
  import opened Retry
  import opened SqliteTx
  import opened Ingestion
  import opened BatchLoad
  import opened RequestSpans
  import opened RoundTrip
  import opened Search
  import opened TraceQueries
  import opened SummaryAgreement
  import opened QueryRetry
  import opened SqliteSink

  /** Whatever becomes of further requests, they only offer records. */
  method ConsumeAll(sink: Sink, reqs: seq<(Request, World)>) returns (ghost added: seq<Stored>)
    modifies sink
    ensures View(sink.db) == FirstWins(old(View(sink.db)), added)
  {
    ghost var before := View(sink.db);
    added := [];
    for i := 0 to |reqs|
      invariant View(sink.db) == FirstWins(before, added)
    {
      ghost var mid, more := View(sink.db), Records(sink.codec, reqs[i].0);
      var _, _, _ := sink.Consume(reqs[i].0, reqs[i].1);
      if View(sink.db) == FirstWins(mid, more) {
        FirstWinsAppend(before, added, more);
        added := added + more;
      }
    }
  }

  /**
   From any store: after a request was consumed and nil returned, by whatever retries, and any further requests were
   consumed or failed, asking for the trace of one of its spans whose key was new gives an error, or that span back
   with all its parts.
   */
  method ConsumeThenQuery(
      sink: Sink, req: Request, world: World, later: seq<(Request, World)>, r: Reads<LoadedSpan>,
      i: nat, j: nat, k: nat)
      returns (err: Option<Error>, queryErr: Option<Error>, spans: seq<LoadedSpan>, ghost n: nat)
    requires i < |req| && j < |req[i].scopeSpans| && k < |req[i].scopeSpans[j].spans|
    requires Lawful(sink.codec) && ErrorInTime(world.clock) && ErrorInTime(r.clock)
    requires KeyIsNew(View(sink.db), req, i, j, k) && req[i].scopeSpans[j].spans[k].traceId != []
    requires SpanFormattable(req[i].scopeSpans[j].spans[k])
    requires AttrsFormattable(req[i].resource) && AttrsFormattable(req[i].scopeSpans[j].scope.attributes)
    modifies sink
    ensures err.None? && queryErr.None? ==>
      && n < |spans|
      && ShowsOriginal(sink.codec, req[i], req[i].scopeSpans[j], req[i].scopeSpans[j].spans[k], spans[n])
  {
    ghost var before := View(sink.db);
    ghost var log, end;
    err, log, end := sink.Consume(req, world);
    n, spans, queryErr := 0, [], None;
    if err.Some? {
      return;
    }
    ghost var added := ConsumeAll(sink, later);
    var traceId := req[i].scopeSpans[j].spans[k].traceId;
    TraceIdIsTrimmed(traceId);
    ghost var sel;
    queryErr, spans, sel, log, end := sink.QueryTraceSpans(FormatTraceID(traceId), "", None, r);
    if queryErr.None? {
      n := RoundTrips(sink.codec, before, req, added, i, j, k, sel, spans);
    }
  }

  /**
   From any store: after a request was consumed, and any further requests were consumed or failed, searching with a
   query that one of its spans meets gives an error, or the span's trace, or a full answer, all of it before that trace.
   */
  method ConsumeThenSearch(
      sink: Sink, req: Request, world: World, later: seq<(Request, World)>, q: TraceQuery, r: Reads<TraceSummary>,
      ghost traceId: string, ghost i: nat, ghost j: nat, ghost k: nat)
      returns (err: Option<Error>, queryErr: Option<Error>, summaries: seq<TraceSummary>)
    requires ErrorInTime(world.clock) && ErrorInTime(r.clock)
    requires FoundAt(sink.codec, View(sink.db), req, q, traceId, i, j, k)
    modifies sink
    ensures err.None? && queryErr.None? && !InAnswer(summaries, traceId) ==>
      && |summaries| == (if q.limit <= 0 then 100 else q.limit)
      && (forall s, n | IsSummary(View(sink.db), q.service, s) && s.traceId == traceId && 0 <= n < |summaries| ::
           InOrder(q.order, summaries[n], s))
  {
    ghost var before := View(sink.db);
    ghost var log, end;
    err, log, end := sink.Consume(req, world);
    queryErr, summaries := None, [];
    if err.Some? {
      return;
    }
    ghost var added := ConsumeAll(sink, later);
    queryErr, summaries, log, end := sink.QueryTraces(q, r);
    FoundQualifies(sink.codec, before, req, added, q, traceId, i, j, k);
    if queryErr.None? && !InAnswer(summaries, traceId) {
      LeftOutIsLater(View(sink.db), q, if q.limit <= 0 then 100 else q.limit, summaries, traceId);
    }
  }

  /** Asking for traces and then for the spans of one of them: the summary fits the spans. */
  method TracesThenSpans(sink: Sink, q: TraceQuery, n: nat, rt: Reads<TraceSummary>, rs: Reads<LoadedSpan>)
      returns (err: Option<Error>, queryErr: Option<Error>, summaries: seq<TraceSummary>, spans: seq<LoadedSpan>)
    requires ErrorInTime(rt.clock) && ErrorInTime(rs.clock)
    ensures err.None? && queryErr.None? && n < |summaries| && Trim(summaries[n].traceId) == summaries[n].traceId ==>
      Fits(summaries[n], spans) && summaries[n].serviceName == q.service
  {
    ghost var log, end, sel;
    err, summaries, log, end := sink.QueryTraces(q, rt);
    queryErr, spans := None, [];
    if err.Some? || n >= |summaries| {
      return;
    }
    queryErr, spans, sel, log, end := sink.QueryTraceSpans(summaries[n].traceId, "", None, rs);
    if queryErr.None? && Trim(summaries[n].traceId) == summaries[n].traceId {
      SummaryAgrees(sink.codec, View(sink.db), q.service, summaries[n], sel, spans);
    }
  }
}
