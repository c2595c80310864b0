/**
 The insert methods of one transaction. Every statement may fail; the transaction is told which do. Without an error
 the tables are what Tables.Ingest says.
 */
module SqliteTx {
  import opened Seqs
  import opened Otlp
  import opened SpanStore
  import opened Tables
  import opened Retry

  datatype Fault = Fine | BusyFault | OtherFault

  function ErrorOf(f: Fault): Option<Error> {
    match f
    case Fine => None
    case BusyFault => Some(SqlBusy)
    case OtherFault => Some(SqlOther)
  }

  /** The attribute tables, for the statement that takes the table's name. */
  datatype AttrTable = ResourceAttributes | ScopeAttributes | SpanAttributes | SpanEventAttributes | SpanLinkAttributes

  function AddAttrs(db: Db, table: AttrTable, rows: seq<AttrRow>): Db {
    match table
    case ResourceAttributes => db.(resources := db.resources.(attrs := db.resources.attrs + rows))
    case ScopeAttributes => db.(scopes := db.scopes.(attrs := db.scopes.attrs + rows))
    case SpanAttributes => db.(spanAttrs := db.spanAttrs + rows)
    case SpanEventAttributes => db.(events := db.events.(attrs := db.events.attrs + rows))
    case SpanLinkAttributes => db.(links := db.links.(attrs := db.links.attrs + rows))
  }

  lemma AddAttrsTwice(db: Db, table: AttrTable, a: seq<AttrRow>, b: seq<AttrRow>)
    ensures AddAttrs(AddAttrs(db, table, a), table, b) == AddAttrs(db, table, a + b)
  {
  }

  lemma AddAttrsStep(c: Codec, db: Db, table: AttrTable, owner: nat, attrs: seq<KeyValue>, i: nat)
    requires i < |attrs|
    ensures
      var text := Format(c, attrs[i].value);
      AddAttrs(db, table, AttrRows(owner, AttrsOf(c, attrs[i..]))) ==
        AddAttrs(
          AddAttrs(db, table, [AttrRow(owner, Attr(attrs[i].key, text.0, text.1))]), table,
          AttrRows(owner, AttrsOf(c, attrs[i + 1..])))
  {
    var text := Format(c, attrs[i].value);
    var row := AttrRow(owner, Attr(attrs[i].key, text.0, text.1));
    var rest := AttrRows(owner, AttrsOf(c, attrs[i + 1..]));
    assert attrs[i..][1..] == attrs[i + 1..];
    assert AttrRows(owner, AttrsOf(c, attrs[i..])) == [row] + rest;
    AddAttrsTwice(db, table, [row], rest);
  }

  lemma AddNoAttrs(db: Db, table: AttrTable)
    ensures AddAttrs(db, table, []) == db
  {
  }

  lemma EventsStep(c: Codec, db: Db, span: nat, events: seq<Event>, i: nat)
    requires i < |events|
    ensures AddEvents(db, span, EventsOf(c, events[i..])) ==
      AddEvents(
        db.(events := AddChild(db.events, db.next, span, EventOf(c, events[i])), next := db.next + 1),
        span, EventsOf(c, events[i + 1..]))
  {
  }

  lemma LinksStep(c: Codec, db: Db, span: nat, links: seq<Link>, i: nat)
    requires i < |links|
    ensures AddLinks(db, span, LinksOf(c, links[i..])) ==
      AddLinks(
        db.(links := AddChild(db.links, db.next, span, LinkOf(c, links[i])), next := db.next + 1),
        span, LinksOf(c, links[i + 1..]))
  {
  }

  predicate AttrsFormattable(attrs: seq<KeyValue>) {
    forall i | 0 <= i < |attrs| :: Formattable(attrs[i].value)
  }

  predicate EventsFormattable(events: seq<Event>) {
    forall i | 0 <= i < |events| :: AttrsFormattable(events[i].attributes)
  }

  predicate LinksFormattable(links: seq<Link>) {
    forall i | 0 <= i < |links| :: AttrsFormattable(links[i].attributes)
  }

  predicate SpanFormattable(s: Span) {
    AttrsFormattable(s.attributes) && EventsFormattable(s.events) && LinksFormattable(s.links)
  }

  predicate HasKey(r: SpanRow, traceId: string, spanId: string) {
    r.fields.traceId == traceId && r.fields.spanId == spanId
  }

  /** Some row has the key; with FindSpan, the row's id. */
  ghost predicate KeyInRows(spans: seq<SpanRow>, traceId: string, spanId: string) {
    exists i :: 0 <= i < |spans| && HasKey(spans[i], traceId, spanId)
  }

  lemma {:induction false} FindSpanRow(spans: seq<SpanRow>, traceId: string, spanId: string)
    ensures
      match FindSpan(spans, traceId, spanId)
      case Some(id) => exists i :: 0 <= i < |spans| && HasKey(spans[i], traceId, spanId) && spans[i].id == id
      case None => !KeyInRows(spans, traceId, spanId)
  {
    if spans != [] {
      FindSpanRow(spans[1..], traceId, spanId);
      if HasKey(spans[0], traceId, spanId) {
        assert spans[0].id == FindSpan(spans, traceId, spanId).value;
      } else if FindSpan(spans[1..], traceId, spanId).Some? {
        var i :| 0 <= i < |spans[1..]| && HasKey(spans[1..][i], traceId, spanId)
          && spans[1..][i].id == FindSpan(spans[1..], traceId, spanId).value;
        assert spans[i + 1] == spans[1..][i];
      } else {
        forall i | 0 <= i < |spans| ensures !HasKey(spans[i], traceId, spanId) {
          if i > 0 {
            assert spans[i] == spans[1..][i - 1];
          }
        }
      }
    }
  }

  /** The span's key is taken. */
  ghost predicate KeyTaken(spans: seq<SpanRow>, s: Span) {
    KeyInRows(spans, FormatTraceID(s.traceId), FormatSpanID(s.spanId))
  }

  predicate ScopeFormattable(s: ScopeSpans) {
    AttrsFormattable(s.scope.attributes) && forall i | 0 <= i < |s.spans| :: SpanFormattable(s.spans[i])
  }

  /** Every attribute value of the request can be formatted. */
  predicate RequestFormattable(req: Request) {
    forall i | 0 <= i < |req| ::
      && AttrsFormattable(req[i].resource)
      && forall j | 0 <= j < |req[i].scopeSpans| :: ScopeFormattable(req[i].scopeSpans[j])
  }

  /** A transaction: its own view of the tables, and the statements it has run. */
  class Tx {
    const codec: Codec
    const faults: nat -> Fault
    var db: Db
    var statements: nat

    constructor (codec: Codec, faults: nat -> Fault, db: Db)
      ensures this.codec == codec && this.faults == faults && this.db == db && statements == 0
    {
      this.codec := codec;
      this.faults := faults;
      this.db := db;
      statements := 0;
    }

    /** No statement in the range failed. */
    ghost predicate AllFine(from: nat, to: nat) {
      forall i | from <= i < to :: faults(i).Fine?
    }

    /** One statement: it fails or it does not. */
    method Exec() returns (err: Option<Error>)
      modifies this`statements
      ensures statements == old(statements) + 1
      ensures err == ErrorOf(faults(old(statements)))
    {
      err := ErrorOf(faults(statements));
      statements := statements + 1;
    }

    method NewId() returns (err: Option<Error>, id: nat)
      modifies this
      ensures statements == old(statements) + 1
      ensures err == ErrorOf(faults(old(statements)))
      ensures id == old(db).next
      ensures err.None? ==> db == old(db).(next := id + 1)
      ensures err.Some? ==> db == old(db)
      ensures db.next >= old(db).next
    {
      id := db.next;
      err := Exec();
      if err.None? {
        db := db.(next := id + 1);
      }
    }

    method InsertAttributes(table: AttrTable, owner: nat, attrs: seq<KeyValue>) returns (err: Option<Error>)
      modifies this
      ensures statements >= old(statements) && db.next >= old(db).next
      ensures err.None? <==> AllFine(old(statements), statements) && AttrsFormattable(attrs)
      ensures err.None? ==> db == AddAttrs(old(db), table, AttrRows(owner, AttrsOf(codec, attrs)))
    {
      AddNoAttrs(db, table);
      for i := 0 to |attrs|
        invariant statements >= old(statements) && db.next >= old(db).next
        invariant AllFine(old(statements), statements)
        invariant forall j | 0 <= j < i :: Formattable(attrs[j].value)
        invariant AddAttrs(db, table, AttrRows(owner, AttrsOf(codec, attrs[i..]))) ==
          AddAttrs(old(db), table, AttrRows(owner, AttrsOf(codec, attrs)))
      {
        if !Formattable(attrs[i].value) {
          return Some(BadValue);
        }
        var text := Format(codec, attrs[i].value);
        err := Exec();
        if err.Some? {
          return;
        }
        var row := AttrRow(owner, Attr(attrs[i].key, text.0, text.1));
        AddAttrsStep(codec, db, table, owner, attrs, i);
        db := AddAttrs(db, table, [row]);
      }
      AddNoAttrs(db, table);
      err := None;
    }

    method InsertResource(resource: seq<KeyValue>, schemaUrl: string) returns (err: Option<Error>, id: nat)
      modifies this
      ensures statements >= old(statements) && db.next >= old(db).next
      ensures err.None? <==> AllFine(old(statements), statements) && AttrsFormattable(resource)
      ensures id == old(db).next
      ensures err.None? ==> db == AddResource(old(db), WithAttrs(ResourceFields(schemaUrl), AttrsOf(codec, resource)))
    {
      err, id := NewId();
      if err.Some? {
        return;
      }
      err := Exec();
      if err.Some? {
        return;
      }
      db := db.(resources := db.resources.(rows := db.resources.rows + [HeadRow(id, ResourceFields(schemaUrl))]));
      err := InsertAttributes(ResourceAttributes, id, resource);
    }

    method InsertScope(scope: Scope, schemaUrl: string) returns (err: Option<Error>, id: nat)
      modifies this
      ensures statements >= old(statements) && db.next >= old(db).next
      ensures err.None? <==> AllFine(old(statements), statements) && AttrsFormattable(scope.attributes)
      ensures id == old(db).next
      ensures err.None? ==>
        db == AddScope(
          old(db), WithAttrs(ScopeFields(scope.name, scope.version, schemaUrl), AttrsOf(codec, scope.attributes)))
    {
      err, id := NewId();
      if err.Some? {
        return;
      }
      err := Exec();
      if err.Some? {
        return;
      }
      db := db.(scopes := db.scopes.(
        rows := db.scopes.rows + [HeadRow(id, ScopeFields(scope.name, scope.version, schemaUrl))]));
      err := InsertAttributes(ScopeAttributes, id, scope.attributes);
    }

    /** One round of the loop of insertEvents. */
    method InsertEvent(span: nat, e: Event) returns (err: Option<Error>)
      modifies this
      ensures statements >= old(statements) && db.next >= old(db).next
      ensures err.None? <==> AllFine(old(statements), statements) && AttrsFormattable(e.attributes)
      ensures err.None? ==>
        db == old(db).(
          events := AddChild(old(db).events, old(db).next, span, EventOf(codec, e)), next := old(db).next + 1)
    {
      var id;
      err, id := NewId();
      if err.Some? {
        return;
      }
      err := Exec();
      if err.Some? {
        return;
      }
      db := db.(events := db.events.(rows := db.events.rows + [ChildRow(id, span, EventFieldsOf(e))]));
      err := InsertAttributes(SpanEventAttributes, id, e.attributes);
    }

    method InsertEvents(span: nat, events: seq<Event>) returns (err: Option<Error>)
      modifies this
      ensures statements >= old(statements) && db.next >= old(db).next
      ensures err.None? <==> AllFine(old(statements), statements) && EventsFormattable(events)
      ensures err.None? ==> db == AddEvents(old(db), span, EventsOf(codec, events))
    {
      for i := 0 to |events|
        invariant statements >= old(statements) && db.next >= old(db).next
        invariant AllFine(old(statements), statements)
        invariant forall j | 0 <= j < i :: AttrsFormattable(events[j].attributes)
        invariant AddEvents(db, span, EventsOf(codec, events[i..])) == AddEvents(old(db), span, EventsOf(codec, events))
      {
        EventsStep(codec, db, span, events, i);
        err := InsertEvent(span, events[i]);
        if err.Some? {
          return;
        }
      }
      err := None;
    }

    /** One round of the loop of insertLinks. */
    method InsertLink(span: nat, l: Link) returns (err: Option<Error>)
      modifies this
      ensures statements >= old(statements) && db.next >= old(db).next
      ensures err.None? <==> AllFine(old(statements), statements) && AttrsFormattable(l.attributes)
      ensures err.None? ==>
        db == old(db).(links := AddChild(old(db).links, old(db).next, span, LinkOf(codec, l)), next := old(db).next + 1)
    {
      var id;
      err, id := NewId();
      if err.Some? {
        return;
      }
      err := Exec();
      if err.Some? {
        return;
      }
      db := db.(links := db.links.(rows := db.links.rows + [ChildRow(id, span, LinkFieldsOf(l))]));
      err := InsertAttributes(SpanLinkAttributes, id, l.attributes);
    }

    method InsertLinks(span: nat, links: seq<Link>) returns (err: Option<Error>)
      modifies this
      ensures statements >= old(statements) && db.next >= old(db).next
      ensures err.None? <==> AllFine(old(statements), statements) && LinksFormattable(links)
      ensures err.None? ==> db == AddLinks(old(db), span, LinksOf(codec, links))
    {
      for i := 0 to |links|
        invariant statements >= old(statements) && db.next >= old(db).next
        invariant AllFine(old(statements), statements)
        invariant forall j | 0 <= j < i :: AttrsFormattable(links[j].attributes)
        invariant AddLinks(db, span, LinksOf(codec, links[i..])) == AddLinks(old(db), span, LinksOf(codec, links))
      {
        LinksStep(codec, db, span, links, i);
        err := InsertLink(span, links[i]);
        if err.Some? {
          return;
        }
      }
      err := None;
    }

    /** The row id of a span with the key; none if no row has it. */
    method LoadSpanRowID(traceId: string, spanId: string) returns (err: Option<Error>, id: Option<nat>)
      modifies this`statements
      ensures statements == old(statements) + 1
      ensures err == ErrorOf(faults(old(statements)))
      ensures id.Some? ==>
        exists i :: 0 <= i < |db.spans| && HasKey(db.spans[i], traceId, spanId) && db.spans[i].id == id.value
      ensures id.None? ==> !KeyInRows(db.spans, traceId, spanId)
    {
      err := Exec();
      FindSpanRow(db.spans, traceId, spanId);
      id := FindSpan(db.spans, traceId, spanId);
    }

    /** The span's own row and attributes. */
    method InsertSpanRow(s: Span, service: string, resourceId: nat, scopeId: nat, ghost x: Stored)
        returns (err: Option<Error>, id: nat)
      requires x.fields == SpanFieldsOf(s, service) && x.attrs == AttrsOf(codec, s.attributes)
      modifies this
      ensures statements >= old(statements) && db.next >= old(db).next && id == old(db).next
      ensures err.None? <==> AllFine(old(statements), statements) && AttrsFormattable(s.attributes)
      ensures err.None? ==> db == AddSpanRow(old(db), x, resourceId, scopeId)
    {
      err, id := NewId();
      if err.Some? {
        return;
      }
      err := Exec();
      if err.Some? {
        return;
      }
      db := db.(spans := db.spans + [SpanRow(id, SpanFieldsOf(s, service), resourceId, scopeId)]);
      err := InsertAttributes(SpanAttributes, id, s.attributes);
    }

    /** The rest of insertSpan, for a key that is not taken. */
    method InsertNewSpan(s: Span, service: string, resourceId: nat, scopeId: nat, ghost x: Stored)
        returns (err: Option<Error>)
      requires x.fields == SpanFieldsOf(s, service) && x.attrs == AttrsOf(codec, s.attributes)
      requires x.events == EventsOf(codec, s.events) && x.links == LinksOf(codec, s.links)
      modifies this
      ensures statements >= old(statements) && db.next >= old(db).next
      ensures err.None? <==> AllFine(old(statements), statements) && SpanFormattable(s)
      ensures err.None? ==>
        db == AddLinks(
          AddEvents(AddSpanRow(old(db), x, resourceId, scopeId), old(db).next, x.events), old(db).next, x.links)
    {
      var id;
      err, id := InsertSpanRow(s, service, resourceId, scopeId, x);
      if err.Some? {
        return;
      }
      err := InsertEvents(id, s.events);
      if err.Some? {
        return;
      }
      err := InsertLinks(id, s.links);
    }

    /** insertSpan: nothing happens if the key is taken. */
    method InsertSpan(
        s: Span, service: string, resourceId: nat, scopeId: nat,
        ghost resource: WithAttrs<ResourceFields>, ghost scope: WithAttrs<ScopeFields>)
        returns (err: Option<Error>)
      modifies this
      ensures statements >= old(statements) && db.next >= old(db).next
      ensures err.None? <==>
        AllFine(old(statements), statements) && (SpanFormattable(s) || KeyTaken(old(db).spans, s))
      ensures err.None? ==> db == AddRecord(old(db), RecordOf(codec, s, service, resource, scope), resourceId, scopeId)
    {
      var traceId := FormatTraceID(s.traceId);
      var spanId := FormatSpanID(s.spanId);
      var existing;
      FindSpanRow(db.spans, traceId, spanId);
      err, existing := LoadSpanRowID(traceId, spanId);
      if err.Some? || existing.Some? {
        return;
      }
      err := InsertNewSpan(s, service, resourceId, scopeId, RecordOf(codec, s, service, resource, scope));
    }

    /** The spans of one scope. */
    method InsertSpans(
        spans: seq<Span>, service: string, resourceId: nat, scopeId: nat,
        ghost resource: WithAttrs<ResourceFields>, ghost scope: WithAttrs<ScopeFields>)
        returns (err: Option<Error>)
      modifies this
      ensures statements >= old(statements) && db.next >= old(db).next
      ensures err.None? ==> AllFine(old(statements), statements)
      ensures AllFine(old(statements), statements) && (forall i | 0 <= i < |spans| :: SpanFormattable(spans[i])) ==>
        err.None?
      ensures err.None? ==>
        db == AddRecords(old(db), SpanRecords(codec, spans, service, resource, scope), resourceId, scopeId)
    {
      for k := 0 to |spans|
        invariant statements >= old(statements) && db.next >= old(db).next
        invariant AllFine(old(statements), statements)
        invariant AddRecords(db, SpanRecords(codec, spans[k..], service, resource, scope), resourceId, scopeId) ==
          AddRecords(old(db), SpanRecords(codec, spans, service, resource, scope), resourceId, scopeId)
      {
        assert spans[k..][1..] == spans[k + 1..];
        err := InsertSpan(spans[k], service, resourceId, scopeId, resource, scope);
        if err.Some? {
          return;
        }
      }
      err := None;
    }

    /** The scopes of one resource. */
    method InsertScopes(
        scopes: seq<ScopeSpans>, service: string, resourceId: nat, ghost resource: WithAttrs<ResourceFields>)
        returns (err: Option<Error>)
      modifies this
      ensures statements >= old(statements) && db.next >= old(db).next
      ensures err.None? ==> AllFine(old(statements), statements)
      ensures AllFine(old(statements), statements) && (forall i | 0 <= i < |scopes| :: ScopeFormattable(scopes[i])) ==>
        err.None?
      ensures err.None? ==> db == AddScopes(codec, old(db), scopes, service, resource, resourceId)
    {
      for j := 0 to |scopes|
        invariant statements >= old(statements) && db.next >= old(db).next
        invariant AllFine(old(statements), statements)
        invariant AddScopes(codec, db, scopes[j..], service, resource, resourceId) ==
          AddScopes(codec, old(db), scopes, service, resource, resourceId)
      {
        assert scopes[j..][1..] == scopes[j + 1..];
        var scopeId;
        err, scopeId := InsertScope(scopes[j].scope, scopes[j].schemaUrl);
        if err.Some? {
          return;
        }
        err := InsertSpans(scopes[j].spans, service, resourceId, scopeId, resource, ScopeOf(codec, scopes[j]));
        if err.Some? {
          return;
        }
      }
      err := None;
    }

    /** consumeTx: without an error the tables are those of the whole request. */
    method ConsumeTx(req: Request) returns (err: Option<Error>)
      modifies this
      ensures statements >= old(statements) && db.next >= old(db).next
      ensures err.None? ==> AllFine(old(statements), statements)
      ensures AllFine(old(statements), statements) && RequestFormattable(req) ==> err.None?
      ensures err.None? ==> db == Ingest(codec, old(db), req)
    {
      for i := 0 to |req|
        invariant statements >= old(statements) && db.next >= old(db).next
        invariant AllFine(old(statements), statements)
        invariant Ingest(codec, db, req[i..]) == Ingest(codec, old(db), req)
      {
        assert req[i..][1..] == req[i + 1..];
        var service := ResourceServiceName(codec, req[i].resource);
        var resourceId;
        err, resourceId := InsertResource(req[i].resource, req[i].schemaUrl);
        if err.Some? {
          return;
        }
        err := InsertScopes(req[i].scopeSpans, service, resourceId, ResourceOf(codec, req[i]));
        if err.Some? {
          return;
        }
      }
      err := None;
    }
  }
}
