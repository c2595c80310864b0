/**
 Reading spans: what the span statements select, how the rows become spans, and what an answer means for the store
 seen as a list of records.
 */
module SpanQueries {
  import opened Seqs
  import opened Sorting
  import opened Texts
  import opened Otlp
  import opened SpanStore
  import opened Tables
  import opened StoreRefinement
  import opened BatchLoad
  import opened ChildLoad
  import opened TraceQueries

  const MAX_BATCH_SIZE := 200

  // ---------------------------------------------------------------- rows into spans

  /** Each span shows the record of its row. */
  ghost predicate ShowsAll(c: Codec, xs: seq<Stored>, spans: seq<LoadedSpan>) {
    |xs| == |spans| && forall i | 0 <= i < |xs| :: ShowsSpan(c, xs[i], spans[i])
  }

  function AttrsAt(m: map<nat, map<string, Value>>, id: nat): map<string, Value> {
    if id in m then m[id] else map[]
  }

  function HeadAt<F>(m: map<nat, Loaded<F>>, id: nat, zero: F): Loaded<F> {
    if id in m then m[id] else Loaded(zero, map[])
  }

  lemma HeadAtShows<F>(c: Codec, t: HeadTable<F>, zero: F, ids: seq<nat>, m: map<nat, Loaded<F>>, id: nat)
    requires LoadsHeads(c, t, zero, ids, m) && id in ids
    ensures Shows(c, HeadFor(t, id, zero), HeadAt(m, id, zero))
  {
  }

  lemma AttrsAtShows(c: Codec, rows: seq<AttrRow>, ids: seq<nat>, m: map<nat, map<string, Value>>, id: nat)
    requires LoadsAttributes(c, rows, ids, m) && id in ids
    ensures Decodes(c, AttrsFor(rows, id), AttrsAt(m, id))
  {
  }

  ghost predicate IdsOf(rows: seq<SpanRow>, spanIds: seq<nat>, resourceIds: seq<nat>, scopeIds: seq<nat>) {
    && |spanIds| == |resourceIds| == |scopeIds| == |rows|
    && forall i | 0 <= i < |rows| ::
      spanIds[i] == rows[i].id && resourceIds[i] == rows[i].resourceId && scopeIds[i] == rows[i].scopeId
  }

  /** The ids the scan loop collects beside the spans. */
  method ScanIds(rows: seq<SpanRow>) returns (spanIds: seq<nat>, resourceIds: seq<nat>, scopeIds: seq<nat>)
    ensures IdsOf(rows, spanIds, resourceIds, scopeIds)
  {
    spanIds, resourceIds, scopeIds := [], [], [];
    for i := 0 to |rows|
      invariant |spanIds| == |resourceIds| == |scopeIds| == i
      invariant forall j | 0 <= j < i ::
        spanIds[j] == rows[j].id && resourceIds[j] == rows[j].resourceId && scopeIds[j] == rows[j].scopeId
    {
      spanIds := spanIds + [rows[i].id];
      resourceIds := resourceIds + [rows[i].resourceId];
      scopeIds := scopeIds + [rows[i].scopeId];
    }
  }

  /** The results of the five loads. */
  datatype Details = Details(
    attributes: map<nat, map<string, Value>>,
    resources: map<nat, Loaded<ResourceFields>>,
    scopes: map<nat, Loaded<ScopeFields>>,
    events: map<nat, seq<Loaded<EventFields>>>,
    links: map<nat, seq<Loaded<LinkFields>>>)

  ghost predicate HasDetails(
    c: Codec, db: Db, spanIds: seq<nat>, resourceIds: seq<nat>, scopeIds: seq<nat>, d: Details)
  {
    && LoadsAttributes(c, db.spanAttrs, spanIds, d.attributes)
    && LoadsHeads(c, db.resources, ZERO_RESOURCE, resourceIds, d.resources)
    && LoadsHeads(c, db.scopes, ZERO_SCOPE, scopeIds, d.scopes)
    && LoadsChildren(c, EventLe, db.events, spanIds, d.events)
    && LoadsChildren(c, LinkLe, db.links, spanIds, d.links)
  }

  function WithDetails(row: SpanRow, d: Details): LoadedSpan {
    LoadedSpan(
      row.fields, HeadAt(d.resources, row.resourceId, ZERO_RESOURCE), HeadAt(d.scopes, row.scopeId, ZERO_SCOPE),
      AttrsAt(d.attributes, row.id), ListAt(d.events, row.id), ListAt(d.links, row.id))
  }

  lemma WithDetailsShows(
      c: Codec, db: Db, spanIds: seq<nat>, resourceIds: seq<nat>, scopeIds: seq<nat>, d: Details, row: SpanRow)
    requires HasDetails(c, db, spanIds, resourceIds, scopeIds, d)
    requires row.id in spanIds && row.resourceId in resourceIds && row.scopeId in scopeIds
    ensures ShowsSpan(c, RecordFor(db, row), WithDetails(row, d))
  {
    AttrsAtShows(c, db.spanAttrs, spanIds, d.attributes, row.id);
    HeadAtShows(c, db.resources, ZERO_RESOURCE, resourceIds, d.resources, row.resourceId);
    HeadAtShows(c, db.scopes, ZERO_SCOPE, scopeIds, d.scopes, row.scopeId);
  }

  lemma {:induction false} RecordsForAt(db: Db, rows: seq<SpanRow>)
    ensures |RecordsFor(db, rows)| == |rows|
    ensures forall i | 0 <= i < |rows| :: RecordsFor(db, rows)[i] == RecordFor(db, rows[i])
  {
    if rows != [] {
      RecordsForAt(db, rows[1..]);
    }
  }

  lemma AllShown(
      c: Codec, db: Db, spanIds: seq<nat>, resourceIds: seq<nat>, scopeIds: seq<nat>, d: Details,
      rows: seq<SpanRow>, spans: seq<LoadedSpan>)
    requires HasDetails(c, db, spanIds, resourceIds, scopeIds, d)
    requires IdsOf(rows, spanIds, resourceIds, scopeIds)
    requires |spans| == |rows| && forall i | 0 <= i < |rows| :: spans[i] == WithDetails(rows[i], d)
    ensures ShowsAll(c, RecordsFor(db, rows), spans)
  {
    RecordsForAt(db, rows);
    forall i | 0 <= i < |rows| ensures ShowsSpan(c, RecordsFor(db, rows)[i], spans[i]) {
      assert spanIds[i] == rows[i].id && resourceIds[i] == rows[i].resourceId && scopeIds[i] == rows[i].scopeId;
      WithDetailsShows(c, db, spanIds, resourceIds, scopeIds, d, rows[i]);
    }
  }

  /** The five loads. */
  method LoadAll(c: Codec, db: Db, spanIds: seq<nat>, resourceIds: seq<nat>, scopeIds: seq<nat>) returns (d: Details)
    requires Referential(db)
    ensures HasDetails(c, db, spanIds, resourceIds, scopeIds, d)
  {
    var attributes, _ := LoadAttributesBatch(c, db.spanAttrs, spanIds, MAX_BATCH_SIZE);
    var resources := LoadHeadsBatch(c, db.resources, resourceIds, MAX_BATCH_SIZE, ZERO_RESOURCE);
    var scopes := LoadHeadsBatch(c, db.scopes, scopeIds, MAX_BATCH_SIZE, ZERO_SCOPE);
    var events := LoadEventsBatch(c, db.events, spanIds, MAX_BATCH_SIZE);
    var links := LoadLinksBatch(c, db.links, spanIds, MAX_BATCH_SIZE);
    d := Details(attributes, resources, scopes, events, links);
  }

  /** The loop that completes the spans. */
  method Assemble(rows: seq<SpanRow>, d: Details) returns (spans: seq<LoadedSpan>)
    ensures |spans| == |rows| && forall i | 0 <= i < |rows| :: spans[i] == WithDetails(rows[i], d)
  {
    spans := [];
    for i := 0 to |rows|
      invariant |spans| == i
      invariant forall j | 0 <= j < i :: spans[j] == WithDetails(rows[j], d)
    {
      spans := spans + [WithDetails(rows[i], d)];
    }
  }

  /** The part QuerySpans and QueryTraceSpans share: each row becomes a span that shows its record. */
  method LoadDetails(c: Codec, db: Db, rows: seq<SpanRow>) returns (spans: seq<LoadedSpan>)
    requires Referential(db)
    ensures ShowsAll(c, RecordsFor(db, rows), spans)
  {
    if |rows| == 0 {
      return [];
    }
    var spanIds, resourceIds, scopeIds := ScanIds(rows);
    var details := LoadAll(c, db, spanIds, resourceIds, scopeIds);
    spans := Assemble(rows, details);
    AllShown(c, db, spanIds, resourceIds, scopeIds, details, rows, spans);
  }

  // ---------------------------------------------------------------- rows and records

  lemma {:induction false} RecordsFilter(db: Db, keepRow: SpanRow -> bool, keep: Stored -> bool, rows: seq<SpanRow>)
    requires forall r | r in rows :: keepRow(r) <==> keep(RecordFor(db, r))
    ensures RecordsFor(db, Filter(keepRow, rows)) == Filter(keep, RecordsFor(db, rows))
  {
    if rows != [] {
      RecordsFilter(db, keepRow, keep, rows[1..]);
    }
  }

  lemma {:induction false} RecordsPermute(db: Db, a: seq<SpanRow>, b: seq<SpanRow>)
    requires multiset(a) == multiset(b)
    ensures multiset(RecordsFor(db, a)) == multiset(RecordsFor(db, b))
    decreases |a|
  {
    if a == [] {
      assert |multiset(b)| == 0;
    } else {
      var j := TakeOut(a, b);
      RecordsPermute(db, a[1..], b[..j] + b[j + 1..]);
      RecordsAppend(db, b[..j], b[j + 1..]);
      RecordsAppend(db, b[..j] + [a[0]], b[j + 1..]);
      RecordsAppend(db, b[..j], [a[0]]);
      RecordsAppend(db, [a[0]], a[1..]);
      assert [a[0]] + a[1..] == a;
    }
  }

  /** Selecting rows is selecting records. */
  lemma SelectedRecords(db: Db, keepRow: SpanRow -> bool, keep: Stored -> bool, rows: seq<SpanRow>)
    requires forall r | r in db.spans :: keepRow(r) <==> keep(RecordFor(db, r))
    requires multiset(rows) == multiset(Filter(keepRow, db.spans))
    ensures multiset(RecordsFor(db, rows)) == multiset(Filter(keep, View(db)))
  {
    RecordsFilter(db, keepRow, keep, db.spans);
    RecordsPermute(db, rows, Filter(keepRow, db.spans));
  }

  // ---------------------------------------------------------------- the spans of a trace

  predicate OfService(service: string, fields: SpanFields) {
    Trim(service) != "" ==> fields.serviceName == service
  }

  predicate OfStatus(status: Option<int>, fields: SpanFields) {
    status.Some? ==> fields.statusCode == status.value
  }

  function RowOfTrace(traceId: string, service: string, status: Option<int>): SpanRow -> bool {
    (r: SpanRow) => r.fields.traceId == traceId && OfService(service, r.fields) && OfStatus(status, r.fields)
  }

  function OfTrace(traceId: string, service: string, status: Option<int>): Stored -> bool {
    (x: Stored) => x.fields.traceId == traceId && OfService(service, x.fields) && OfStatus(status, x.fields)
  }

  /** buildTraceSpansQuery: rows that start together come in any order. */
  method SelectTraceSpans(db: Db, traceId: string, service: string, status: Option<int>) returns (rows: seq<SpanRow>)
    ensures multiset(rows) == multiset(Filter(RowOfTrace(traceId, service, status), db.spans))
    ensures forall i, j | 0 <= i < j < |rows| :: rows[i].fields.startTime <= rows[j].fields.startTime
  {
    var wanted := Filter(RowOfTrace(traceId, service, status), db.spans);
    var byStart := (a: SpanRow, b: SpanRow) => a.fields.startTime <= b.fields.startTime;
    rows := Sort(byStart, wanted);
    SortPermutes(byStart, wanted);
    SortSorts(byStart, wanted);
    assert forall i, j | 0 <= i < j < |rows| :: byStart(rows[i], rows[j]);
  }

  /** sel is the records of the trace that pass the filters, earliest first, and the spans show them. */
  ghost predicate IsTraceAnswer(
    c: Codec, v: seq<Stored>, traceId: string, service: string, status: Option<int>, sel: seq<Stored>,
    spans: seq<LoadedSpan>)
  {
    && multiset(sel) == multiset(Filter(OfTrace(traceId, service, status), v))
    && (forall i, j | 0 <= i < j < |sel| :: sel[i].fields.startTime <= sel[j].fields.startTime)
    && ShowsAll(c, sel, spans)
  }

  /** Which records an answer shows: those of the trace, of the service unless it is blank, of the status if given. */
  lemma TraceAnswerIs(
      c: Codec, v: seq<Stored>, traceId: string, service: string, status: Option<int>, sel: seq<Stored>,
      spans: seq<LoadedSpan>, x: Stored)
    requires IsTraceAnswer(c, v, traceId, service, status, sel, spans)
    ensures x in sel <==>
      && x in v && x.fields.traceId == traceId
      && ((forall b | b in service :: b in SPACES) || x.fields.serviceName == service)
      && (status == None || status == Some(x.fields.statusCode))
  {
    BlankIs(service);
    FilterMember(OfTrace(traceId, service, status), v, x);
    assert x in sel <==> x in multiset(sel);
  }

  method TraceSpans(c: Codec, db: Db, traceId: string, service: string, status: Option<int>)
      returns (spans: seq<LoadedSpan>, ghost sel: seq<Stored>)
    requires Referential(db)
    ensures IsTraceAnswer(c, View(db), traceId, service, status, sel, spans)
  {
    var rows := SelectTraceSpans(db, traceId, service, status);
    spans := LoadDetails(c, db, rows);
    sel := RecordsFor(db, rows);
    RecordsForAt(db, rows);
    SelectedRecords(db, RowOfTrace(traceId, service, status), OfTrace(traceId, service, status), rows);
  }

  // ---------------------------------------------------------------- spans in a window

  predicate RowHasAttr(db: Db, r: SpanRow, f: AttrFilter) {
    exists i :: 0 <= i < |db.spanAttrs| && db.spanAttrs[i].owner == r.id
      && db.spanAttrs[i].attr.key == f.key && db.spanAttrs[i].attr.text == f.value
  }

  datatype SpanQuery = SpanQuery(
    service: string, start: int, end: int, limit: int, filters: seq<AttrFilter>, status: Option<int>)

  function RowInQuery(db: Db, q: SpanQuery): SpanRow -> bool {
    (r: SpanRow) =>
      && r.fields.serviceName == q.service && q.start <= r.fields.startTime <= q.end
      && (forall i | 0 <= i < |q.filters| :: RowHasAttr(db, r, q.filters[i]))
      && OfStatus(q.status, r.fields)
  }

  function InQuery(q: SpanQuery): Stored -> bool {
    (x: Stored) => InWindow(q.service, q.start, q.end, q.filters, x) && OfStatus(q.status, x.fields)
  }

  lemma RowHasAttrIs(db: Db, r: SpanRow, f: AttrFilter)
    ensures RowHasAttr(db, r, f) <==> HasAttr(AttrsFor(db.spanAttrs, r.id), f)
  {
    var attrs := AttrsFor(db.spanAttrs, r.id);
    if RowHasAttr(db, r, f) {
      var i :| 0 <= i < |db.spanAttrs| && db.spanAttrs[i].owner == r.id
        && db.spanAttrs[i].attr.key == f.key && db.spanAttrs[i].attr.text == f.value;
      AttrsForMember(db.spanAttrs, r.id, db.spanAttrs[i].attr);
    }
    if HasAttr(attrs, f) {
      var i :| 0 <= i < |attrs| && attrs[i].key == f.key && attrs[i].text == f.value;
      AttrsForMember(db.spanAttrs, r.id, attrs[i]);
    }
  }

  lemma RowInQueryIs(db: Db, q: SpanQuery, r: SpanRow)
    ensures RowInQuery(db, q)(r) <==> InQuery(q)(RecordFor(db, r))
  {
    forall i | 0 <= i < |q.filters| {
      RowHasAttrIs(db, r, q.filters[i]);
    }
  }

  lemma QueriedRecords(db: Db, q: SpanQuery, rows: seq<SpanRow>)
    requires multiset(rows) == multiset(Filter(RowInQuery(db, q), db.spans))
    ensures multiset(RecordsFor(db, rows)) == multiset(Filter(InQuery(q), View(db)))
  {
    forall r | r in db.spans ensures RowInQuery(db, q)(r) <==> InQuery(q)(RecordFor(db, r)) {
      RowInQueryIs(db, q, r);
    }
    SelectedRecords(db, RowInQuery(db, q), InQuery(q), rows);
  }

  ghost predicate LatestFirst(v: seq<Stored>, q: SpanQuery, all: seq<Stored>) {
    && multiset(all) == multiset(Filter(InQuery(q), v))
    && forall i, j | 0 <= i < j < |all| :: all[i].fields.startTime >= all[j].fields.startTime
  }

  /** sel is the latest of the records that meet the query, at most limit of them; ties are cut anywhere. */
  ghost predicate IsSpanAnswer(
    c: Codec, v: seq<Stored>, q: SpanQuery, limit: nat, sel: seq<Stored>, spans: seq<LoadedSpan>)
  {
    && ShowsAll(c, sel, spans)
    && exists all :: LatestFirst(v, q, all) && sel == if |all| <= limit then all else all[..limit]
  }

  /** Which records an answer shows: those that meet the query, unless a full answer is nowhere earlier. */
  lemma SpanAnswerIs(
      c: Codec, v: seq<Stored>, q: SpanQuery, limit: nat, sel: seq<Stored>, spans: seq<LoadedSpan>, x: Stored)
    requires IsSpanAnswer(c, v, q, limit, sel, spans)
    ensures x in sel ==> x in v && Meets(x, q.service, q.start, q.end, q.filters, q.status)
    ensures x in v && Meets(x, q.service, q.start, q.end, q.filters, q.status) && x !in sel ==>
      |sel| == limit && forall y | y in sel :: y.fields.startTime >= x.fields.startTime
    ensures |sel| <= limit && forall i, j | 0 <= i < j < |sel| :: sel[i].fields.startTime >= sel[j].fields.startTime
  {
    var all :| LatestFirst(v, q, all) && sel == if |all| <= limit then all else all[..limit];
    InWindowMeets(x, q.service, q.start, q.end, q.filters);
    FilterMember(InQuery(q), v, x);
    assert x in all <==> x in multiset(all);
    if x in sel {
      assert x in all;
    } else if x in all {
      var k :| 0 <= k < |all| && all[k] == x;
      assert k >= limit;
    }
  }

  /** buildSpanQuery. */
  method SelectSpans(db: Db, q: SpanQuery, limit: nat) returns (rows: seq<SpanRow>, ghost all: seq<SpanRow>)
    ensures multiset(all) == multiset(Filter(RowInQuery(db, q), db.spans))
    ensures forall i, j | 0 <= i < j < |all| :: all[i].fields.startTime >= all[j].fields.startTime
    ensures rows == if |all| <= limit then all else all[..limit]
  {
    var wanted := Filter(RowInQuery(db, q), db.spans);
    var byStart := (a: SpanRow, b: SpanRow) => a.fields.startTime >= b.fields.startTime;
    rows := Sort(byStart, wanted);
    SortPermutes(byStart, wanted);
    SortSorts(byStart, wanted);
    assert forall i, j | 0 <= i < j < |rows| :: byStart(rows[i], rows[j]);
    all := rows;
    if |rows| > limit {
      rows := rows[..limit];
    }
  }

  /** Rows that are cut show the records that are cut. */
  lemma CutRecords(db: Db, all: seq<SpanRow>, limit: nat)
    ensures |RecordsFor(db, all)| == |all|
    ensures
      var cut := if |all| <= limit then all else all[..limit];
      RecordsFor(db, cut) == if |all| <= limit then RecordsFor(db, all) else RecordsFor(db, all)[..limit]
  {
    RecordsForAt(db, all);
    if |all| > limit {
      RecordsForAt(db, all[..limit]);
    }
  }

  lemma LatestRecords(db: Db, q: SpanQuery, all: seq<SpanRow>)
    requires multiset(all) == multiset(Filter(RowInQuery(db, q), db.spans))
    requires forall i, j | 0 <= i < j < |all| :: all[i].fields.startTime >= all[j].fields.startTime
    ensures LatestFirst(View(db), q, RecordsFor(db, all))
  {
    RecordsForAt(db, all);
    QueriedRecords(db, q, all);
  }

  method Spans(c: Codec, db: Db, q: SpanQuery, limit: nat) returns (spans: seq<LoadedSpan>, ghost sel: seq<Stored>)
    requires Referential(db)
    ensures IsSpanAnswer(c, View(db), q, limit, sel, spans)
  {
    var rows;
    ghost var all;
    rows, all := SelectSpans(db, q, limit);
    spans := LoadDetails(c, db, rows);
    sel := RecordsFor(db, rows);
    CutRecords(db, all, limit);
    LatestRecords(db, q, all);
  }
}
