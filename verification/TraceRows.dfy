/** The trace summary statement on the rows of the tables, against what is asked of the list of records. */
module TraceRows {
  import opened Seqs
  import opened SpanStore
  import opened Tables
  import opened TraceQueries
  import opened SpanQueries

  function RowMatches(db: Db, q: TraceQuery): SpanRow -> bool {
    (r: SpanRow) =>
      && r.fields.serviceName == q.service && q.start <= r.fields.startTime <= q.end
      && (forall i | 0 <= i < |q.filters| :: RowHasAttr(db, r, q.filters[i]))
      && OfStatus(q.status, r.fields)
      && (q.hasError ==> IsError(r.fields))
  }

  function RowInTrace(traceId: string): SpanRow -> bool {
    (r: SpanRow) => r.fields.traceId == traceId
  }

  function RowFields(rows: seq<SpanRow>): seq<SpanFields> {
    if rows == [] then [] else [rows[0].fields] + RowFields(rows[1..])
  }

  lemma {:induction false} RowFieldsAre(db: Db, rows: seq<SpanRow>)
    ensures Fields(RecordsFor(db, rows)) == RowFields(rows)
  {
    if rows != [] {
      RowFieldsAre(db, rows[1..]);
    }
  }

  lemma RowMatchesIs(db: Db, q: TraceQuery, r: SpanRow)
    ensures RowMatches(db, q)(r) <==> Matches(q, RecordFor(db, r))
  {
    forall i | 0 <= i < |q.filters| {
      RowHasAttrIs(db, r, q.filters[i]);
    }
  }

  /** The rows that match are those of the records that match. */
  lemma MatchingRows(db: Db, q: TraceQuery)
    ensures TraceIds(RowFields(Filter(RowMatches(db, q), db.spans))) == Candidates(View(db), q)
  {
    forall r | r in db.spans ensures RowMatches(db, q)(r) <==> Matching(q)(RecordFor(db, r)) {
      RowMatchesIs(db, q, r);
    }
    RecordsFilter(db, RowMatches(db, q), Matching(q), db.spans);
    RowFieldsAre(db, Filter(RowMatches(db, q), db.spans));
  }

  lemma TraceRowsAre(db: Db, traceId: string)
    ensures RowFields(Filter(RowInTrace(traceId), db.spans)) == Trace(View(db), traceId)
  {
    RecordsFilter(db, RowInTrace(traceId), InTrace(traceId), db.spans);
    RowFieldsAre(db, Filter(RowInTrace(traceId), db.spans));
  }

  lemma GroupIs(db: Db, q: TraceQuery, traceId: string)
    requires Qualifies(View(db), q, traceId)
    ensures
      var group := RowFields(Filter(RowInTrace(traceId), db.spans));
      && group != [] && SummaryOf(group, q.service, traceId).traceId == traceId
      && IsSummary(View(db), q.service, SummaryOf(group, q.service, traceId))
  {
    QualifiesHasTrace(View(db), q, traceId);
    TraceRowsAre(db, traceId);
    SummaryOfIs(View(db), q.service, traceId);
  }

  /** buildTraceSummaryQuery: candidates, groups, order, limit. */
  method SelectSummaries(db: Db, q: TraceQuery, limit: nat) returns (r: seq<TraceSummary>)
    ensures IsAnswer(View(db), q, limit, r)
  {
    var ids := TraceIds(RowFields(Filter(RowMatches(db, q), db.spans)));
    MatchingRows(db, q);
    CandidatesQualify(View(db), q);
    var all: seq<TraceSummary> := [];
    for k := 0 to |ids|
      invariant |all| == k
      invariant forall i | 0 <= i < k :: all[i].traceId == ids[i] && IsSummary(View(db), q.service, all[i])
    {
      assert ids[k] in ids;
      GroupIs(db, q, ids[k]);
      all := all + [SummaryOf(RowFields(Filter(RowInTrace(ids[k]), db.spans)), q.service, ids[k])];
    }
    r := OrderedCut(OrderOf(q.order), all, limit);
    OrderedCutIsAnswer(View(db), q, limit, ids, all);
  }
}
