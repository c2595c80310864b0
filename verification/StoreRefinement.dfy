/**
 Ingesting refines the first-wins list: from any well-formed tables, a committed request changes the records read back
 exactly as offering its records one by one does, every child row has its parent row, and a replay is invisible.
 */
module StoreRefinement {
  import opened Otlp
  import opened SpanStore
  import opened Tables

  // ---------------------------------------------------------------- integrity of the tables

  ghost function HeadIds<F>(rows: seq<HeadRow<F>>): set<nat> {
    set i | 0 <= i < |rows| :: rows[i].id
  }

  ghost function ChildIds<F>(rows: seq<ChildRow<F>>): set<nat> {
    set i | 0 <= i < |rows| :: rows[i].id
  }

  ghost function SpanIds(rows: seq<SpanRow>): set<nat> {
    set i | 0 <= i < |rows| :: rows[i].id
  }

  ghost predicate OwnersIn(attrs: seq<AttrRow>, ids: set<nat>) {
    forall i | 0 <= i < |attrs| :: attrs[i].owner in ids
  }

  /** Attributes belong to rows of the table; no two rows share an id. */
  ghost predicate HeadOk<F>(t: HeadTable<F>) {
    OwnersIn(t.attrs, HeadIds(t.rows)) && forall i, j | 0 <= i < j < |t.rows| :: t.rows[i].id < t.rows[j].id
  }

  ghost predicate ChildOk<F>(t: ChildTable<F>, spanIds: set<nat>) {
    && OwnersIn(t.attrs, ChildIds(t.rows))
    && (forall i | 0 <= i < |t.rows| :: t.rows[i].spanId in spanIds)
    && (forall i, j | 0 <= i < j < |t.rows| :: t.rows[i].id < t.rows[j].id)
  }

  ghost predicate SpansOk(db: Db) {
    && (forall i | 0 <= i < |db.spans| ::
         db.spans[i].resourceId in HeadIds(db.resources.rows) && db.spans[i].scopeId in HeadIds(db.scopes.rows))
    && (forall i, j | 0 <= i < j < |db.spans| :: db.spans[i].id < db.spans[j].id)
    && OwnersIn(db.spanAttrs, SpanIds(db.spans))
  }

  /** Every foreign key leads to a row, and row ids are unique in each table. */
  ghost predicate Referential(db: Db) {
    && HeadOk(db.resources) && HeadOk(db.scopes) && SpansOk(db)
    && ChildOk(db.events, SpanIds(db.spans)) && ChildOk(db.links, SpanIds(db.spans))
  }

  ghost predicate Valid(db: Db) {
    Bounded(db) && Referential(db) && DistinctKeys(View(db))
  }

  /** The tables of a store that only this code has written. */
  type ValidDb = db: Db | Valid(db) witness EMPTY

  const NEW_DB: ValidDb := EMPTY

  lemma EmptyIsValid()
    ensures Valid(EMPTY) && View(EMPTY) == []
  {
  }

  lemma NewDbIsEmpty()
    ensures View(NEW_DB) == []
  {
  }

  lemma AddHeadOk<F>(t: HeadTable<F>, id: nat, data: WithAttrs<F>)
    requires HeadOk(t) && HeadBelow(t, id)
    ensures HeadOk(AddHead(t, id, data))
    ensures HeadIds(AddHead(t, id, data).rows) == HeadIds(t.rows) + {id}
  {
    var u := AddHead(t, id, data);
    AttrsForRows(id, data.attrs);
    assert u.rows[|t.rows|].id == id;
    forall x | x in HeadIds(t.rows) ensures x in HeadIds(u.rows) {
      var i :| 0 <= i < |t.rows| && t.rows[i].id == x;
      assert u.rows[i].id == x;
    }
  }

  lemma AddChildOk<F>(t: ChildTable<F>, id: nat, span: nat, data: WithAttrs<F>, spanIds: set<nat>)
    requires ChildOk(t, spanIds) && ChildBelow(t, id) && span in spanIds
    ensures ChildOk(AddChild(t, id, span, data), spanIds)
  {
    var u := AddChild(t, id, span, data);
    AttrsForRows(id, data.attrs);
    assert u.rows[|t.rows|].id == id;
    forall x | x in ChildIds(t.rows) ensures x in ChildIds(u.rows) {
      var i :| 0 <= i < |t.rows| && t.rows[i].id == x;
      assert u.rows[i].id == x;
    }
  }

  lemma {:induction false} AddChildrenOk<F>(
      t: ChildTable<F>, id: nat, span: nat, data: seq<WithAttrs<F>>, spanIds: set<nat>)
    requires ChildOk(t, spanIds) && ChildBelow(t, id) && span in spanIds && span < id
    ensures ChildOk(AddChildren(t, id, span, data), spanIds)
    decreases |data|
  {
    if data != [] {
      AddChildOk(t, id, span, data[0], spanIds);
      AddChildEffect(t, id, span, data[0]);
      AddChildrenOk(AddChild(t, id, span, data[0]), id + 1, span, data[1..], spanIds);
    }
  }

  // ---------------------------------------------------------------- one step at a time

  lemma BelowMore(db: Db, m: nat, n: nat)
    requires m <= n && OwnersBelow(db.spanAttrs, m) && SpansBelow(db.spans, m)
    ensures OwnersBelow(db.spanAttrs, n) && SpansBelow(db.spans, n)
  {
  }

  lemma HeadBelowMore<F>(t: HeadTable<F>, m: nat, n: nat)
    requires m <= n && HeadBelow(t, m)
    ensures HeadBelow(t, n)
  {
  }

  lemma ChildBelowMore<F>(t: ChildTable<F>, m: nat, n: nat)
    requires m <= n && ChildBelow(t, m)
    ensures ChildBelow(t, n)
  {
  }

  lemma HeadGrowsRefl<F>(t: HeadTable<F>, n: nat)
    ensures HeadGrows(t, t, n)
  {
  }

  lemma GrowsRefl(db: Db)
    ensures Grows(db, db)
  {
  }

  lemma AddResourceBounded(db: Db, data: WithAttrs<ResourceFields>)
    requires Bounded(db)
    ensures Bounded(AddResource(db, data)) && Grows(db, AddResource(db, data))
  {
    AddHeadEffect(db.resources, db.next, data, ZERO_RESOURCE);
    HeadBelowMore(db.scopes, db.next, db.next + 1);
    BelowMore(db, db.next, db.next + 1);
    ChildBelowMore(db.events, db.next, db.next + 1);
    ChildBelowMore(db.links, db.next, db.next + 1);
    GrowsRefl(db);
  }

  lemma AddScopeBounded(db: Db, data: WithAttrs<ScopeFields>)
    requires Bounded(db)
    ensures Bounded(AddScope(db, data)) && Grows(db, AddScope(db, data))
  {
    AddHeadEffect(db.scopes, db.next, data, ZERO_SCOPE);
    HeadBelowMore(db.resources, db.next, db.next + 1);
    BelowMore(db, db.next, db.next + 1);
    ChildBelowMore(db.events, db.next, db.next + 1);
    ChildBelowMore(db.links, db.next, db.next + 1);
    GrowsRefl(db);
  }

  lemma AddResourceReferential(db: Db, data: WithAttrs<ResourceFields>)
    requires HeadBelow(db.resources, db.next) && Referential(db)
    ensures Referential(AddResource(db, data)) && db.next in HeadIds(AddResource(db, data).resources.rows)
  {
    AddHeadOk(db.resources, db.next, data);
  }

  lemma AddScopeReferential(db: Db, data: WithAttrs<ScopeFields>)
    requires HeadBelow(db.scopes, db.next) && Referential(db)
    ensures Referential(AddScope(db, data)) && db.next in HeadIds(AddScope(db, data).scopes.rows)
  {
    AddHeadOk(db.scopes, db.next, data);
  }

  lemma AddResourceKeeps(db: Db, data: WithAttrs<ResourceFields>)
    requires Valid(db)
    ensures
      var d := AddResource(db, data);
      && Valid(d) && Grows(db, d) && View(d) == View(db)
      && db.next in HeadIds(d.resources.rows)
      && HeadFor(d.resources, db.next, ZERO_RESOURCE) == data
  {
    AddResourceBounded(db, data);
    AddResourceReferential(db, data);
    RecordsGrown(db, AddResource(db, data), db.spans);
    AddHeadEffect(db.resources, db.next, data, ZERO_RESOURCE);
  }

  lemma AddScopeKeeps(db: Db, data: WithAttrs<ScopeFields>)
    requires Valid(db)
    ensures
      var d := AddScope(db, data);
      && Valid(d) && Grows(db, d) && View(d) == View(db)
      && db.next in HeadIds(d.scopes.rows)
      && HeadFor(d.scopes, db.next, ZERO_SCOPE) == data
  {
    AddScopeBounded(db, data);
    AddScopeReferential(db, data);
    RecordsGrown(db, AddScope(db, data), db.spans);
    AddHeadEffect(db.scopes, db.next, data, ZERO_SCOPE);
  }

  lemma {:induction false} FindSpanIsHasKey(db: Db, rows: seq<SpanRow>, x: Stored)
    ensures FindSpan(rows, x.fields.traceId, x.fields.spanId).Some? <==> HasKeyOf(RecordsFor(db, rows), x)
  {
    if rows != [] {
      FindSpanIsHasKey(db, rows[1..], x);
      HasKeyAppend([RecordFor(db, rows[0])], RecordsFor(db, rows[1..]), x);
      HasKeySnoc([], RecordFor(db, rows[0]), x);
      assert [] + [RecordFor(db, rows[0])] == [RecordFor(db, rows[0])];
    }
  }

  lemma NewChildren<F>(t: ChildTable<F>, n: nat, id: nat, data: seq<WithAttrs<F>>, m: nat)
    requires ChildBelow(t, n) && n < id && id + |data| <= m
    ensures
      var u := AddChildren(t, id, n, data);
      ChildrenFor(u, n) == data && ChildBelow(u, m) && ChildGrows(t, u, n)
  {
    ChildBelowMore(t, n, id);
    AddChildrenEffect(t, id, n, data);
    ChildBelowMore(AddChildren(t, id, n, data), id + |data|, m);
    RowsForNobody(t.rows, t.attrs, n);
  }

  lemma NewSpanBounded(db: Db, x: Stored, resourceId: nat, scopeId: nat)
    requires Bounded(db) && resourceId < db.next && scopeId < db.next
    requires FindSpan(db.spans, x.fields.traceId, x.fields.spanId).None?
    ensures
      var d := AddRecord(db, x, resourceId, scopeId);
      Bounded(d) && Grows(db, d)
  {
    var d := AddRecord(db, x, resourceId, scopeId);
    AttrsForNew(db.spanAttrs, db.next, x.attrs);
    NewChildren(db.events, db.next, db.next + 1, x.events, d.next);
    NewChildren(db.links, db.next, db.next + 1 + |x.events|, x.links, d.next);
    HeadBelowMore(db.resources, db.next, d.next);
    HeadBelowMore(db.scopes, db.next, d.next);
    HeadGrowsRefl(db.resources, db.next);
    HeadGrowsRefl(db.scopes, db.next);
    BelowMore(db.(spans := d.spans, spanAttrs := d.spanAttrs), db.next + 1, d.next);
  }

  lemma NewSpanRecord(db: Db, x: Stored, resourceId: nat, scopeId: nat)
    requires OwnersBelow(db.spanAttrs, db.next) && ChildBelow(db.events, db.next) && ChildBelow(db.links, db.next)
    requires FindSpan(db.spans, x.fields.traceId, x.fields.spanId).None?
    requires x.resource == HeadFor(db.resources, resourceId, ZERO_RESOURCE)
    requires x.scope == HeadFor(db.scopes, scopeId, ZERO_SCOPE)
    ensures RecordFor(AddRecord(db, x, resourceId, scopeId), SpanRow(db.next, x.fields, resourceId, scopeId)) == x
  {
    var d := AddRecord(db, x, resourceId, scopeId);
    AttrsForNew(db.spanAttrs, db.next, x.attrs);
    NewChildren(db.events, db.next, db.next + 1, x.events, d.next);
    NewChildren(db.links, db.next, db.next + 1 + |x.events|, x.links, d.next);
  }

  lemma ChildOkMore<F>(t: ChildTable<F>, ids: set<nat>, more: set<nat>)
    requires ChildOk(t, ids) && ids <= more
    ensures ChildOk(t, more)
  {
  }

  lemma SpanIdsSnoc(rows: seq<SpanRow>, row: SpanRow)
    ensures SpanIds(rows + [row]) == SpanIds(rows) + {row.id}
  {
    assert (rows + [row])[|rows|] == row;
    forall x | x in SpanIds(rows) ensures x in SpanIds(rows + [row]) {
      var i :| 0 <= i < |rows| && rows[i].id == x;
      assert (rows + [row])[i].id == x;
    }
  }

  lemma NewSpanSpansOk(db: Db, row: SpanRow, attrs: seq<Attr>)
    requires SpansOk(db) && SpansBelow(db.spans, db.next) && row.id == db.next
    requires row.resourceId in HeadIds(db.resources.rows) && row.scopeId in HeadIds(db.scopes.rows)
    ensures SpansOk(db.(spans := db.spans + [row], spanAttrs := db.spanAttrs + AttrRows(db.next, attrs)))
  {
    AttrsForRows(db.next, attrs);
    SpanIdsSnoc(db.spans, row);
  }

  /** The parts of a new span join a table whose owners stay among the spans. */
  lemma NewChildrenOk<F>(
      t: ChildTable<F>, id: nat, span: nat, data: seq<WithAttrs<F>>, before: set<nat>, after: set<nat>)
    requires ChildOk(t, before) && before <= after
    requires ChildBelow(t, span) && span in after && span < id
    ensures ChildOk(AddChildren(t, id, span, data), after)
  {
    ChildOkMore(t, before, after);
    ChildBelowMore(t, span, id);
    AddChildrenOk(t, id, span, data, after);
  }

  /** A span row, its attributes and tables of parts that are in order. */
  lemma WithSpanReferential(
      db: Db, row: SpanRow, attrs: seq<Attr>, events: ChildTable<EventFields>, links: ChildTable<LinkFields>, next: nat)
    requires Referential(db) && SpansBelow(db.spans, db.next) && row.id == db.next
    requires row.resourceId in HeadIds(db.resources.rows) && row.scopeId in HeadIds(db.scopes.rows)
    requires ChildOk(events, SpanIds(db.spans) + {row.id}) && ChildOk(links, SpanIds(db.spans) + {row.id})
    ensures Referential(
      db.(spans := db.spans + [row], spanAttrs := db.spanAttrs + AttrRows(db.next, attrs), events := events,
          links := links, next := next))
  {
    SpanIdsSnoc(db.spans, row);
    NewSpanSpansOk(db, row, attrs);
  }

  /** What a new record does to each table. */
  lemma NewSpanTables(db: Db, x: Stored, resourceId: nat, scopeId: nat)
    requires FindSpan(db.spans, x.fields.traceId, x.fields.spanId).None?
    ensures
      var n := db.next;
      AddRecord(db, x, resourceId, scopeId) == db.(
        spans := db.spans + [SpanRow(n, x.fields, resourceId, scopeId)],
        spanAttrs := db.spanAttrs + AttrRows(n, x.attrs),
        events := AddChildren(db.events, n + 1, n, x.events),
        links := AddChildren(db.links, n + 1 + |x.events|, n, x.links),
        next := n + 1 + |x.events| + |x.links|)
  {
  }

  lemma NewPartsOk(db: Db, x: Stored, ids: set<nat>)
    requires ChildBelow(db.events, db.next) && ChildBelow(db.links, db.next)
    requires ChildOk(db.events, SpanIds(db.spans)) && ChildOk(db.links, SpanIds(db.spans))
    requires SpanIds(db.spans) <= ids && db.next in ids
    ensures ChildOk(AddChildren(db.events, db.next + 1, db.next, x.events), ids)
    ensures ChildOk(AddChildren(db.links, db.next + 1 + |x.events|, db.next, x.links), ids)
  {
    NewChildrenOk(db.events, db.next + 1, db.next, x.events, SpanIds(db.spans), ids);
    NewChildrenOk(db.links, db.next + 1 + |x.events|, db.next, x.links, SpanIds(db.spans), ids);
  }

  lemma NewSpanReferential(db: Db, x: Stored, resourceId: nat, scopeId: nat)
    requires SpansBelow(db.spans, db.next) && ChildBelow(db.events, db.next) && ChildBelow(db.links, db.next)
    requires Referential(db)
    requires resourceId in HeadIds(db.resources.rows) && scopeId in HeadIds(db.scopes.rows)
    requires FindSpan(db.spans, x.fields.traceId, x.fields.spanId).None?
    ensures Referential(AddRecord(db, x, resourceId, scopeId))
  {
    var n := db.next;
    var row := SpanRow(n, x.fields, resourceId, scopeId);
    NewPartsOk(db, x, SpanIds(db.spans) + {n});
    NewSpanTables(db, x, resourceId, scopeId);
    WithSpanReferential(
      db, row, x.attrs, AddChildren(db.events, n + 1, n, x.events),
      AddChildren(db.links, n + 1 + |x.events|, n, x.links), n + 1 + |x.events| + |x.links|);
  }

  lemma HeadIdBelow<F>(t: HeadTable<F>, id: nat, n: nat)
    requires HeadBelow(t, n) && id in HeadIds(t.rows)
    ensures id < n
  {
  }

  lemma NewSpanView(db: Db, x: Stored, resourceId: nat, scopeId: nat)
    requires Bounded(db) && resourceId < db.next && scopeId < db.next
    requires FindSpan(db.spans, x.fields.traceId, x.fields.spanId).None?
    requires x.resource == HeadFor(db.resources, resourceId, ZERO_RESOURCE)
    requires x.scope == HeadFor(db.scopes, scopeId, ZERO_SCOPE)
    ensures View(AddRecord(db, x, resourceId, scopeId)) == View(db) + [x]
  {
    var d := AddRecord(db, x, resourceId, scopeId);
    NewSpanBounded(db, x, resourceId, scopeId);
    NewSpanRecord(db, x, resourceId, scopeId);
    RecordsGrown(db, d, db.spans);
    RecordsAppend(d, db.spans, [SpanRow(db.next, x.fields, resourceId, scopeId)]);
  }

  /** insertSpan: a record whose key is taken changes nothing, any other is appended to the list. */
  lemma AddRecordKeeps(db: Db, x: Stored, resourceId: nat, scopeId: nat)
    requires Valid(db)
    requires resourceId in HeadIds(db.resources.rows) && scopeId in HeadIds(db.scopes.rows)
    requires x.resource == HeadFor(db.resources, resourceId, ZERO_RESOURCE)
    requires x.scope == HeadFor(db.scopes, scopeId, ZERO_SCOPE)
    ensures
      var d := AddRecord(db, x, resourceId, scopeId);
      Valid(d) && Grows(db, d) && View(d) == KeepFirst(View(db), x)
  {
    FindSpanIsHasKey(db, db.spans, x);
    GrowsRefl(db);
    if !HasKeyOf(View(db), x) {
      HeadIdBelow(db.resources, resourceId, db.next);
      HeadIdBelow(db.scopes, scopeId, db.next);
      NewSpanBounded(db, x, resourceId, scopeId);
      NewSpanReferential(db, x, resourceId, scopeId);
      NewSpanView(db, x, resourceId, scopeId);
      FirstWinsKeeps(View(db), [x]);
    }
  }

  lemma HeadIdsGrow<F>(a: HeadTable<F>, b: HeadTable<F>, id: nat, n: nat)
    requires HeadGrows(a, b, n) && id in HeadIds(a.rows)
    ensures id in HeadIds(b.rows)
  {
  }

  /** The records all belong to one resource and one scope. */
  ghost predicate AllIn(records: seq<Stored>, resource: WithAttrs<ResourceFields>, scope: WithAttrs<ScopeFields>) {
    forall i | 0 <= i < |records| :: records[i].resource == resource && records[i].scope == scope
  }

  lemma {:induction false} AddRecordsKeeps(db: Db, records: seq<Stored>, resourceId: nat, scopeId: nat)
    requires Valid(db)
    requires resourceId in HeadIds(db.resources.rows) && scopeId in HeadIds(db.scopes.rows)
    requires AllIn(
      records, HeadFor(db.resources, resourceId, ZERO_RESOURCE), HeadFor(db.scopes, scopeId, ZERO_SCOPE))
    ensures
      var d := AddRecords(db, records, resourceId, scopeId);
      Valid(d) && Grows(db, d) && View(d) == FirstWins(View(db), records)
    decreases |records|
  {
    GrowsRefl(db);
    if records != [] {
      var d := AddRecord(db, records[0], resourceId, scopeId);
      AddRecordKeeps(db, records[0], resourceId, scopeId);
      HeadIdsGrow(db.resources, d.resources, resourceId, db.next);
      HeadIdsGrow(db.scopes, d.scopes, scopeId, db.next);
      HeadForGrown(db.resources, d.resources, db.next, resourceId, ZERO_RESOURCE);
      HeadForGrown(db.scopes, d.scopes, db.next, scopeId, ZERO_SCOPE);
      AddRecordsKeeps(d, records[1..], resourceId, scopeId);
      GrowsTrans(db, d, AddRecords(db, records, resourceId, scopeId));
    }
  }

  lemma {:induction false} SpanRecordsIn(
      c: Codec, spans: seq<Span>, service: string, resource: WithAttrs<ResourceFields>, scope: WithAttrs<ScopeFields>)
    ensures AllIn(SpanRecords(c, spans, service, resource, scope), resource, scope)
  {
    if spans != [] {
      SpanRecordsIn(c, spans[1..], service, resource, scope);
    }
  }

  lemma {:induction false} AddScopesKeeps(
      c: Codec, db: Db, scopes: seq<ScopeSpans>, service: string, resource: WithAttrs<ResourceFields>, resourceId: nat)
    requires Valid(db) && resourceId in HeadIds(db.resources.rows)
    requires resource == HeadFor(db.resources, resourceId, ZERO_RESOURCE)
    ensures
      var d := AddScopes(c, db, scopes, service, resource, resourceId);
      Valid(d) && Grows(db, d) && View(d) == FirstWins(View(db), ScopeRecords(c, scopes, service, resource))
    decreases |scopes|
  {
    GrowsRefl(db);
    if scopes != [] {
      var scope := ScopeOf(c, scopes[0]);
      var records := SpanRecords(c, scopes[0].spans, service, resource, scope);
      var d := AddScope(db, scope);
      var e := AddRecords(d, records, resourceId, db.next);
      AddScopeKeeps(db, scope);
      SpanRecordsIn(c, scopes[0].spans, service, resource, scope);
      AddRecordsKeeps(d, records, resourceId, db.next);
      GrowsTrans(db, d, e);
      HeadIdBelow(db.resources, resourceId, db.next);
      HeadIdsGrow(db.resources, e.resources, resourceId, db.next);
      HeadForGrown(db.resources, e.resources, db.next, resourceId, ZERO_RESOURCE);
      AddScopesKeeps(c, e, scopes[1..], service, resource, resourceId);
      GrowsTrans(db, e, AddScopes(c, db, scopes, service, resource, resourceId));
      FirstWinsAppend(View(db), records, ScopeRecords(c, scopes[1..], service, resource));
    }
  }

  /** The refinement: on the list of records, a request is the offer of its records, in order, first one wins. */
  lemma {:induction false} IngestRefines(c: Codec, db: Db, req: Request)
    requires Valid(db)
    ensures
      var d := Ingest(c, db, req);
      Valid(d) && Grows(db, d) && View(d) == FirstWins(View(db), Records(c, req))
    decreases |req|
  {
    GrowsRefl(db);
    if req != [] {
      var service, resource := ResourceServiceName(c, req[0].resource), ResourceOf(c, req[0]);
      var d := AddResource(db, resource);
      var e := AddScopes(c, d, req[0].scopeSpans, service, resource, db.next);
      AddResourceKeeps(db, resource);
      AddScopesKeeps(c, d, req[0].scopeSpans, service, resource, db.next);
      IngestRefines(c, e, req[1..]);
      GrowsTrans(db, d, e);
      GrowsTrans(db, e, Ingest(c, db, req));
      FirstWinsAppend(View(db), ScopeRecords(c, req[0].scopeSpans, service, resource), Records(c, req[1..]));
    }
  }

  // ---------------------------------------------------------------- histories

  function IngestAll(c: Codec, db: Db, reqs: seq<Request>): Db
    decreases |reqs|
  {
    if reqs == [] then db else IngestAll(c, Ingest(c, db, reqs[0]), reqs[1..])
  }

  function AllRecords(c: Codec, reqs: seq<Request>): seq<Stored> {
    if reqs == [] then [] else Records(c, reqs[0]) + AllRecords(c, reqs[1..])
  }

  lemma {:induction false} HistoryRefines(c: Codec, db: Db, reqs: seq<Request>)
    requires Valid(db)
    ensures
      var d := IngestAll(c, db, reqs);
      Valid(d) && View(d) == FirstWins(View(db), AllRecords(c, reqs))
    decreases |reqs|
  {
    if reqs != [] {
      IngestRefines(c, db, reqs[0]);
      HistoryRefines(c, Ingest(c, db, reqs[0]), reqs[1..]);
      FirstWinsAppend(View(db), Records(c, reqs[0]), AllRecords(c, reqs[1..]));
    }
  }

  /**
   After any history from the empty store: the records are those that were the first for their key, keys are
   distinct, and every child row refers to an existing row.
   */
  lemma HistoryHoldsFirsts(c: Codec, reqs: seq<Request>, x: Stored)
    ensures
      var d := IngestAll(c, EMPTY, reqs);
      && Referential(d) && DistinctKeys(View(d))
      && (x in View(d) <==> exists i: nat :: FirstNew([], AllRecords(c, reqs), i) && AllRecords(c, reqs)[i] == x)
  {
    EmptyIsValid();
    HistoryRefines(c, EMPTY, reqs);
    FirstWinsMember([], AllRecords(c, reqs), x);
  }

  // ---------------------------------------------------------------- replays

  /** Apart from resources and scopes, nothing differs. */
  ghost predicate SameSpanTables(a: Db, b: Db) {
    a.spans == b.spans && a.spanAttrs == b.spanAttrs && a.events == b.events && a.links == b.links
  }

  lemma HoldsTail(v: seq<Stored>, a: seq<Stored>, b: seq<Stored>)
    requires HoldsAll(v, a + b)
    ensures HoldsAll(v, a) && HoldsAll(v, b)
  {
    forall i | 0 <= i < |a| ensures HasKeyOf(v, a[i]) {
      assert HasKeyOf(v, (a + b)[i]);
    }
    forall i | 0 <= i < |b| ensures HasKeyOf(v, b[i]) {
      assert HasKeyOf(v, (a + b)[|a| + i]);
    }
  }

  lemma {:induction false} ReplayRecords(db: Db, records: seq<Stored>, resourceId: nat, scopeId: nat)
    requires HoldsAll(View(db), records)
    ensures AddRecords(db, records, resourceId, scopeId) == db
    decreases |records|
  {
    if records != [] {
      assert HasKeyOf(View(db), records[0]);
      FindSpanIsHasKey(db, db.spans, records[0]);
      assert records == [records[0]] + records[1..];
      HoldsTail(View(db), [records[0]], records[1..]);
      ReplayRecords(db, records[1..], resourceId, scopeId);
    }
  }

  lemma {:induction false} ReplayScopes(
      c: Codec, db: Db, scopes: seq<ScopeSpans>, service: string, resource: WithAttrs<ResourceFields>, resourceId: nat)
    requires Valid(db) && HoldsAll(View(db), ScopeRecords(c, scopes, service, resource))
    ensures SameSpanTables(db, AddScopes(c, db, scopes, service, resource, resourceId))
    decreases |scopes|
  {
    if scopes != [] {
      var scope := ScopeOf(c, scopes[0]);
      var first := SpanRecords(c, scopes[0].spans, service, resource, scope);
      HoldsTail(View(db), first, ScopeRecords(c, scopes[1..], service, resource));
      AddScopeKeeps(db, scope);
      ReplayRecords(AddScope(db, scope), first, resourceId, db.next);
      ReplayScopes(c, AddScope(db, scope), scopes[1..], service, resource, resourceId);
    }
  }

  lemma {:induction false} ReplayTables(c: Codec, db: Db, req: Request)
    requires Valid(db) && HoldsAll(View(db), Records(c, req))
    ensures SameSpanTables(db, Ingest(c, db, req))
    decreases |req|
  {
    if req != [] {
      var service, resource := ResourceServiceName(c, req[0].resource), ResourceOf(c, req[0]);
      var first := ScopeRecords(c, req[0].scopeSpans, service, resource);
      HoldsTail(View(db), first, Records(c, req[1..]));
      var d := AddResource(db, resource);
      AddResourceKeeps(db, resource);
      AddScopesKeeps(c, d, req[0].scopeSpans, service, resource, db.next);
      ReplayScopes(c, d, req[0].scopeSpans, service, resource, db.next);
      NothingNew(View(d), first);
      ReplayTables(c, AddScopes(c, d, req[0].scopeSpans, service, resource, db.next), req[1..]);
    }
  }

  /**
   Consuming a request again, after any other requests, is invisible: the records are the same, and the only rows
   added are resource and scope rows, which no span refers to.
   */
  lemma ReplayInvisible(c: Codec, db: Db, req: Request, between: seq<Request>)
    requires Valid(db)
    ensures
      var d := IngestAll(c, Ingest(c, db, req), between);
      var e := Ingest(c, d, req);
      && View(e) == View(d)
      && SameSpanTables(d, e)
      && (forall i | 0 <= i < |e.spans| :: e.spans[i].resourceId < d.next && e.spans[i].scopeId < d.next)
      && (forall i | |d.resources.rows| <= i < |e.resources.rows| :: e.resources.rows[i].id >= d.next)
      && (forall i | |d.scopes.rows| <= i < |e.scopes.rows| :: e.scopes.rows[i].id >= d.next)
  {
    IngestRefines(c, db, req);
    HistoryRefines(c, Ingest(c, db, req), between);
    var d := IngestAll(c, Ingest(c, db, req), between);
    ReplayChangesNothing(View(db), Records(c, req), AllRecords(c, between));
    IngestRefines(c, d, req);
    ReplayTables(c, d, req);
  }
}
