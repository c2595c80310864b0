/**
 The tables of the span store and what ingesting a request does to them, as functions; and the proof that looking the
 rows up again gives the list of SpanStore.

 Row ids are numbers handed out by a counter. The code only compares ids for equality, so the counter stands for any
 source of ids that never repeats one.
 */
module Tables {
  import opened Seqs
  import opened Otlp
  import opened SpanStore

  /** A row of an attribute table. */
  datatype AttrRow = AttrRow(owner: nat, attr: Attr)

  /** A row of resources or scopes. */
  datatype HeadRow<F> = HeadRow(id: nat, fields: F)

  /** A row of span_events or span_links; spanId is the row id of the span. */
  datatype ChildRow<F> = ChildRow(id: nat, spanId: nat, fields: F)

  datatype SpanRow = SpanRow(id: nat, fields: SpanFields, resourceId: nat, scopeId: nat)

  /** A table together with its attribute table. */
  datatype HeadTable<F> = HeadTable(rows: seq<HeadRow<F>>, attrs: seq<AttrRow>)

  datatype ChildTable<F> = ChildTable(rows: seq<ChildRow<F>>, attrs: seq<AttrRow>)

  /** The ten tables; next is the first row id not handed out yet. */
  datatype Db = Db(
    resources: HeadTable<ResourceFields>,
    scopes: HeadTable<ScopeFields>,
    spans: seq<SpanRow>,
    spanAttrs: seq<AttrRow>,
    events: ChildTable<EventFields>,
    links: ChildTable<LinkFields>,
    next: nat)

  const EMPTY := Db(HeadTable([], []), HeadTable([], []), [], [], ChildTable([], []), ChildTable([], []), 0)

  // ---------------------------------------------------------------- writing

  function AttrRows(owner: nat, attrs: seq<Attr>): seq<AttrRow> {
    if attrs == [] then [] else [AttrRow(owner, attrs[0])] + AttrRows(owner, attrs[1..])
  }

  function AddHead<F>(t: HeadTable<F>, id: nat, data: WithAttrs<F>): HeadTable<F> {
    HeadTable(t.rows + [HeadRow(id, data.fields)], t.attrs + AttrRows(id, data.attrs))
  }

  function AddChild<F>(t: ChildTable<F>, id: nat, span: nat, data: WithAttrs<F>): ChildTable<F> {
    ChildTable(t.rows + [ChildRow(id, span, data.fields)], t.attrs + AttrRows(id, data.attrs))
  }

  /** Children get consecutive ids. */
  function AddChildren<F>(t: ChildTable<F>, id: nat, span: nat, data: seq<WithAttrs<F>>): ChildTable<F>
    decreases |data|
  {
    if data == [] then t else AddChildren(AddChild(t, id, span, data[0]), id + 1, span, data[1..])
  }

  function FindSpan(spans: seq<SpanRow>, traceId: string, spanId: string): Option<nat> {
    if spans == [] then None
    else if spans[0].fields.traceId == traceId && spans[0].fields.spanId == spanId then Some(spans[0].id)
    else FindSpan(spans[1..], traceId, spanId)
  }

  function AddResource(db: Db, data: WithAttrs<ResourceFields>): Db {
    db.(resources := AddHead(db.resources, db.next, data), next := db.next + 1)
  }

  function AddScope(db: Db, data: WithAttrs<ScopeFields>): Db {
    db.(scopes := AddHead(db.scopes, db.next, data), next := db.next + 1)
  }

  function AddSpanRow(db: Db, x: Stored, resourceId: nat, scopeId: nat): Db {
    db.(
      spans := db.spans + [SpanRow(db.next, x.fields, resourceId, scopeId)],
      spanAttrs := db.spanAttrs + AttrRows(db.next, x.attrs),
      next := db.next + 1)
  }

  function AddEvents(db: Db, span: nat, events: seq<WithAttrs<EventFields>>): Db {
    db.(events := AddChildren(db.events, db.next, span, events), next := db.next + |events|)
  }

  function AddLinks(db: Db, span: nat, links: seq<WithAttrs<LinkFields>>): Db {
    db.(links := AddChildren(db.links, db.next, span, links), next := db.next + |links|)
  }

  /** A record spread over the tables, unless its key is taken. Its resource and scope are there already. */
  function AddRecord(db: Db, x: Stored, resourceId: nat, scopeId: nat): Db {
    if FindSpan(db.spans, x.fields.traceId, x.fields.spanId).Some? then db
    else AddLinks(AddEvents(AddSpanRow(db, x, resourceId, scopeId), db.next, x.events), db.next, x.links)
  }

  function AddRecords(db: Db, records: seq<Stored>, resourceId: nat, scopeId: nat): Db
    decreases |records|
  {
    if records == [] then db
    else AddRecords(AddRecord(db, records[0], resourceId, scopeId), records[1..], resourceId, scopeId)
  }

  function AddScopes(
    c: Codec, db: Db, scopes: seq<ScopeSpans>, service: string, resource: WithAttrs<ResourceFields>, resourceId: nat)
    : Db
    decreases |scopes|
  {
    if scopes == [] then db
    else
      var scope := ScopeOf(c, scopes[0]);
      var d := AddRecords(
        AddScope(db, scope), SpanRecords(c, scopes[0].spans, service, resource, scope), resourceId, db.next);
      AddScopes(c, d, scopes[1..], service, resource, resourceId)
  }

  /** What one committed request does. */
  function Ingest(c: Codec, db: Db, req: Request): Db
    decreases |req|
  {
    if req == [] then db
    else
      var service, resource := ResourceServiceName(c, req[0].resource), ResourceOf(c, req[0]);
      Ingest(c, AddScopes(c, AddResource(db, resource), req[0].scopeSpans, service, resource, db.next), req[1..])
  }

  // ---------------------------------------------------------------- reading

  function AttrsFor(rows: seq<AttrRow>, owner: nat): seq<Attr> {
    if rows == [] then []
    else if rows[0].owner == owner then [rows[0].attr] + AttrsFor(rows[1..], owner)
    else AttrsFor(rows[1..], owner)
  }

  function RowsFor<F>(rows: seq<ChildRow<F>>, attrs: seq<AttrRow>, span: nat): seq<WithAttrs<F>> {
    if rows == [] then []
    else if rows[0].spanId == span
    then [WithAttrs(rows[0].fields, AttrsFor(attrs, rows[0].id))] + RowsFor(rows[1..], attrs, span)
    else RowsFor(rows[1..], attrs, span)
  }

  function ChildrenFor<F>(t: ChildTable<F>, span: nat): seq<WithAttrs<F>> {
    RowsFor(t.rows, t.attrs, span)
  }

  function FindHead<F>(rows: seq<HeadRow<F>>, id: nat): Option<F> {
    if rows == [] then None else if rows[0].id == id then Some(rows[0].fields) else FindHead(rows[1..], id)
  }

  /** The row with the id, or the zero value if there is none. */
  function HeadFor<F>(t: HeadTable<F>, id: nat, zero: F): WithAttrs<F> {
    match FindHead(t.rows, id)
    case Some(fields) => WithAttrs(fields, AttrsFor(t.attrs, id))
    case None => WithAttrs(zero, [])
  }

  const ZERO_RESOURCE := ResourceFields("")
  const ZERO_SCOPE := ScopeFields("", "", "")

  function RecordFor(db: Db, row: SpanRow): Stored {
    Stored(
      row.fields, HeadFor(db.resources, row.resourceId, ZERO_RESOURCE), HeadFor(db.scopes, row.scopeId, ZERO_SCOPE),
      AttrsFor(db.spanAttrs, row.id), ChildrenFor(db.events, row.id), ChildrenFor(db.links, row.id))
  }

  function RecordsFor(db: Db, rows: seq<SpanRow>): seq<Stored> {
    if rows == [] then [] else [RecordFor(db, rows[0])] + RecordsFor(db, rows[1..])
  }

  /** The store as the list of its records, each put together by looking its rows up one by one. */
  function View(db: Db): seq<Stored> {
    RecordsFor(db, db.spans)
  }

  // ---------------------------------------------------------------- well-formed tables

  ghost predicate OwnersBelow(rows: seq<AttrRow>, n: nat) {
    forall i | 0 <= i < |rows| :: rows[i].owner < n
  }

  ghost predicate OwnersFrom(rows: seq<AttrRow>, n: nat) {
    forall i | 0 <= i < |rows| :: rows[i].owner >= n
  }

  ghost predicate HeadBelow<F>(t: HeadTable<F>, n: nat) {
    (forall i | 0 <= i < |t.rows| :: t.rows[i].id < n) && OwnersBelow(t.attrs, n)
  }

  ghost predicate ChildBelow<F>(t: ChildTable<F>, n: nat) {
    (forall i | 0 <= i < |t.rows| :: t.rows[i].id < n && t.rows[i].spanId < n) && OwnersBelow(t.attrs, n)
  }

  ghost predicate SpansBelow(rows: seq<SpanRow>, n: nat) {
    forall i | 0 <= i < |rows| :: rows[i].id < n && rows[i].resourceId < n && rows[i].scopeId < n
  }

  /** Every id in the tables has been handed out. */
  ghost predicate Bounded(db: Db) {
    && HeadBelow(db.resources, db.next) && HeadBelow(db.scopes, db.next)
    && SpansBelow(db.spans, db.next) && OwnersBelow(db.spanAttrs, db.next)
    && ChildBelow(db.events, db.next) && ChildBelow(db.links, db.next)
  }

  /** Rows are only added, and the new ones are owned by ids from n on. */
  ghost predicate AttrsGrow(a: seq<AttrRow>, b: seq<AttrRow>, n: nat) {
    a <= b && OwnersFrom(b[|a|..], n)
  }

  ghost predicate HeadGrows<F>(a: HeadTable<F>, b: HeadTable<F>, n: nat) {
    && a.rows <= b.rows && AttrsGrow(a.attrs, b.attrs, n)
    && forall i | |a.rows| <= i < |b.rows| :: b.rows[i].id >= n
  }

  ghost predicate ChildGrows<F>(a: ChildTable<F>, b: ChildTable<F>, n: nat) {
    && a.rows <= b.rows && AttrsGrow(a.attrs, b.attrs, n)
    && forall i | |a.rows| <= i < |b.rows| :: b.rows[i].id >= n && b.rows[i].spanId >= n
  }

  /** From a to b rows are only added, and the new ones carry ids handed out since. */
  ghost predicate Grows(a: Db, b: Db) {
    && a.next <= b.next && a.spans <= b.spans
    && HeadGrows(a.resources, b.resources, a.next) && HeadGrows(a.scopes, b.scopes, a.next)
    && AttrsGrow(a.spanAttrs, b.spanAttrs, a.next)
    && ChildGrows(a.events, b.events, a.next) && ChildGrows(a.links, b.links, a.next)
  }

  // ---------------------------------------------------------------- reading grown tables

  lemma {:induction false} AttrsForAppend(a: seq<AttrRow>, b: seq<AttrRow>, owner: nat)
    ensures AttrsFor(a + b, owner) == AttrsFor(a, owner) + AttrsFor(b, owner)
  {
    if a == [] {
      assert a + b == b;
    } else {
      assert (a + b)[1..] == a[1..] + b;
      AttrsForAppend(a[1..], b, owner);
    }
  }

  lemma {:induction false} AttrsForNobody(rows: seq<AttrRow>, owner: nat)
    requires forall i | 0 <= i < |rows| :: rows[i].owner != owner
    ensures AttrsFor(rows, owner) == []
  {
    if rows != [] {
      AttrsForNobody(rows[1..], owner);
    }
  }

  lemma {:induction false} AttrsForRows(owner: nat, attrs: seq<Attr>)
    ensures AttrsFor(AttrRows(owner, attrs), owner) == attrs
    ensures forall i | 0 <= i < |AttrRows(owner, attrs)| :: AttrRows(owner, attrs)[i].owner == owner
  {
    if attrs != [] {
      AttrsForRows(owner, attrs[1..]);
    }
  }

  lemma AttrsForGrown(a: seq<AttrRow>, b: seq<AttrRow>, n: nat, owner: nat)
    requires AttrsGrow(a, b, n) && owner < n
    ensures AttrsFor(b, owner) == AttrsFor(a, owner)
  {
    assert b == a + b[|a|..];
    AttrsForAppend(a, b[|a|..], owner);
    AttrsForNobody(b[|a|..], owner);
  }

  /** The attributes just added for a new owner are all it has. */
  lemma AttrsForNew(rows: seq<AttrRow>, n: nat, attrs: seq<Attr>)
    requires OwnersBelow(rows, n)
    ensures AttrsFor(rows + AttrRows(n, attrs), n) == attrs
    ensures AttrsGrow(rows, rows + AttrRows(n, attrs), n)
    ensures OwnersBelow(rows + AttrRows(n, attrs), n + 1)
  {
    AttrsForAppend(rows, AttrRows(n, attrs), n);
    AttrsForNobody(rows, n);
    AttrsForRows(n, attrs);
    assert (rows + AttrRows(n, attrs))[|rows|..] == AttrRows(n, attrs);
  }

  lemma AttrsGrowTrans(a: seq<AttrRow>, b: seq<AttrRow>, c: seq<AttrRow>, m: nat, n: nat)
    requires AttrsGrow(a, b, m) && AttrsGrow(b, c, n) && m <= n
    ensures AttrsGrow(a, c, m)
  {
  }

  lemma {:induction false} RowsForAppend<F>(a: seq<ChildRow<F>>, b: seq<ChildRow<F>>, attrs: seq<AttrRow>, span: nat)
    ensures RowsFor(a + b, attrs, span) == RowsFor(a, attrs, span) + RowsFor(b, attrs, span)
  {
    if a == [] {
      assert a + b == b;
    } else {
      assert (a + b)[1..] == a[1..] + b;
      RowsForAppend(a[1..], b, attrs, span);
    }
  }

  lemma {:induction false} RowsForNobody<F>(rows: seq<ChildRow<F>>, attrs: seq<AttrRow>, span: nat)
    requires forall i | 0 <= i < |rows| :: rows[i].spanId != span
    ensures RowsFor(rows, attrs, span) == []
  {
    if rows != [] {
      RowsForNobody(rows[1..], attrs, span);
    }
  }

  lemma {:induction false} RowsForAttrsGrown<F>(
      rows: seq<ChildRow<F>>, a: seq<AttrRow>, b: seq<AttrRow>, n: nat, span: nat)
    requires AttrsGrow(a, b, n) && forall i | 0 <= i < |rows| :: rows[i].id < n
    ensures RowsFor(rows, b, span) == RowsFor(rows, a, span)
  {
    if rows != [] {
      AttrsForGrown(a, b, n, rows[0].id);
      RowsForAttrsGrown(rows[1..], a, b, n, span);
    }
  }

  lemma ChildrenForGrown<F>(a: ChildTable<F>, b: ChildTable<F>, n: nat, span: nat)
    requires ChildBelow(a, n) && ChildGrows(a, b, n) && span < n
    ensures ChildrenFor(b, span) == ChildrenFor(a, span)
  {
    assert b.rows == a.rows + b.rows[|a.rows|..];
    RowsForAppend(a.rows, b.rows[|a.rows|..], b.attrs, span);
    RowsForNobody(b.rows[|a.rows|..], b.attrs, span);
    RowsForAttrsGrown(a.rows, a.attrs, b.attrs, n, span);
  }

  lemma AddChildEffect<F>(t: ChildTable<F>, id: nat, span: nat, data: WithAttrs<F>)
    requires ChildBelow(t, id) && span < id
    ensures
      var u := AddChild(t, id, span, data);
      && ChildrenFor(u, span) == ChildrenFor(t, span) + [data]
      && ChildBelow(u, id + 1)
      && ChildGrows(t, u, span)
  {
    AttrsForNew(t.attrs, id, data.attrs);
    var attrs := t.attrs + AttrRows(id, data.attrs);
    RowsForAppend(t.rows, [ChildRow(id, span, data.fields)], attrs, span);
    RowsForAttrsGrown(t.rows, t.attrs, attrs, id, span);
    assert RowsFor([ChildRow(id, span, data.fields)], attrs, span) == [data];
  }

  /** The children added for a span come out, in order, after those it had. */
  lemma {:induction false} AddChildrenEffect<F>(t: ChildTable<F>, id: nat, span: nat, data: seq<WithAttrs<F>>)
    requires ChildBelow(t, id) && span < id
    ensures
      var u := AddChildren(t, id, span, data);
      && ChildrenFor(u, span) == ChildrenFor(t, span) + data
      && ChildBelow(u, id + |data|)
      && ChildGrows(t, u, span)
    decreases |data|
  {
    if data != [] {
      var u := AddChild(t, id, span, data[0]);
      AddChildEffect(t, id, span, data[0]);
      AddChildrenEffect(u, id + 1, span, data[1..]);
      AttrsGrowTrans(t.attrs, u.attrs, AddChildren(t, id, span, data).attrs, span, span);
      assert [data[0]] + data[1..] == data;
    }
  }

  lemma {:induction false} FindHeadAppend<F>(a: seq<HeadRow<F>>, b: seq<HeadRow<F>>, id: nat)
    ensures FindHead(a + b, id) == if FindHead(a, id).Some? then FindHead(a, id) else FindHead(b, id)
  {
    if a == [] {
      assert a + b == b;
    } else {
      assert (a + b)[1..] == a[1..] + b;
      FindHeadAppend(a[1..], b, id);
    }
  }

  lemma {:induction false} FindHeadNobody<F>(rows: seq<HeadRow<F>>, id: nat)
    requires forall i | 0 <= i < |rows| :: rows[i].id != id
    ensures FindHead(rows, id).None?
  {
    if rows != [] {
      FindHeadNobody(rows[1..], id);
    }
  }

  lemma HeadForGrown<F>(a: HeadTable<F>, b: HeadTable<F>, n: nat, id: nat, zero: F)
    requires HeadGrows(a, b, n) && id < n
    ensures HeadFor(b, id, zero) == HeadFor(a, id, zero)
  {
    assert b.rows == a.rows + b.rows[|a.rows|..];
    FindHeadAppend(a.rows, b.rows[|a.rows|..], id);
    FindHeadNobody(b.rows[|a.rows|..], id);
    AttrsForGrown(a.attrs, b.attrs, n, id);
  }

  lemma AddHeadEffect<F>(t: HeadTable<F>, id: nat, data: WithAttrs<F>, zero: F)
    requires HeadBelow(t, id)
    ensures
      var u := AddHead(t, id, data);
      HeadFor(u, id, zero) == data && HeadBelow(u, id + 1) && HeadGrows(t, u, id)
  {
    AttrsForNew(t.attrs, id, data.attrs);
    FindHeadAppend(t.rows, [HeadRow(id, data.fields)], id);
    FindHeadNobody(t.rows, id);
    assert FindHead([HeadRow(id, data.fields)], id) == Some(data.fields);
  }

  /** A record does not change when tables grow. */
  lemma RecordGrown(a: Db, b: Db, row: SpanRow)
    requires Bounded(a) && Grows(a, b) && row.id < a.next && row.resourceId < a.next && row.scopeId < a.next
    ensures RecordFor(b, row) == RecordFor(a, row)
  {
    HeadForGrown(a.resources, b.resources, a.next, row.resourceId, ZERO_RESOURCE);
    HeadForGrown(a.scopes, b.scopes, a.next, row.scopeId, ZERO_SCOPE);
    AttrsForGrown(a.spanAttrs, b.spanAttrs, a.next, row.id);
    ChildrenForGrown(a.events, b.events, a.next, row.id);
    ChildrenForGrown(a.links, b.links, a.next, row.id);
  }

  lemma {:induction false} RecordsGrown(a: Db, b: Db, rows: seq<SpanRow>)
    requires Bounded(a) && Grows(a, b) && SpansBelow(rows, a.next)
    ensures RecordsFor(b, rows) == RecordsFor(a, rows)
  {
    if rows != [] {
      RecordGrown(a, b, rows[0]);
      RecordsGrown(a, b, rows[1..]);
    }
  }

  lemma {:induction false} RecordsAppend(db: Db, a: seq<SpanRow>, b: seq<SpanRow>)
    ensures RecordsFor(db, a + b) == RecordsFor(db, a) + RecordsFor(db, b)
  {
    if a == [] {
      assert a + b == b;
    } else {
      assert (a + b)[1..] == a[1..] + b;
      RecordsAppend(db, a[1..], b);
    }
  }

  lemma GrowsTrans(a: Db, b: Db, c: Db)
    requires Grows(a, b) && Grows(b, c)
    ensures Grows(a, c)
  {
  }
}
