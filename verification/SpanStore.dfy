/**
 The store seen as a list: which span records it holds, in the order they came. A record is known by its key,
 the pair of formatted trace id and span id, and the first record given for a key is the one kept.
 */
module SpanStore {
  import opened Otlp

  /** An attribute as stored: its value is text. */
  datatype Attr = Attr(key: string, typ: AttrType, text: string)

  datatype SpanFields = SpanFields(
    traceId: string, spanId: string, parentSpanId: string, name: string, kind: string,
    startTime: int, endTime: int, statusCode: int, statusMessage: string, serviceName: string, flags: nat)

  datatype ScopeFields = ScopeFields(name: string, version: string, schemaUrl: string)

  datatype EventFields = EventFields(name: string, time: int, dropped: nat)

  datatype LinkFields = LinkFields(traceId: string, spanId: string, traceState: string, dropped: nat, flags: nat)

  datatype ResourceFields = ResourceFields(schemaUrl: string)

  /** A resource, scope, event or link together with its attributes. */
  datatype WithAttrs<F> = WithAttrs(fields: F, attrs: seq<Attr>)

  /** All the store knows about one span. */
  datatype Stored = Stored(
    fields: SpanFields, resource: WithAttrs<ResourceFields>, scope: WithAttrs<ScopeFields>,
    attrs: seq<Attr>, events: seq<WithAttrs<EventFields>>, links: seq<WithAttrs<LinkFields>>)

  // ---------------------------------------------------------------- what a request asks to store

  function AttrsOf(c: Codec, attributes: seq<KeyValue>): seq<Attr> {
    if attributes == [] then []
    else
      var text := Format(c, attributes[0].value);
      [Attr(attributes[0].key, text.0, text.1)] + AttrsOf(c, attributes[1..])
  }

  function EventFieldsOf(e: Event): EventFields {
    EventFields(e.name, ToInt64(e.time), e.dropped)
  }

  function LinkFieldsOf(l: Link): LinkFields {
    LinkFields(FormatTraceID(l.traceId), FormatSpanID(l.spanId), l.traceState, l.dropped, l.flags)
  }

  function SpanFieldsOf(s: Span, service: string): SpanFields {
    SpanFields(
      FormatTraceID(s.traceId), FormatSpanID(s.spanId), FormatSpanID(s.parentSpanId), s.name, SpanKind(s.kind),
      ToInt64(s.startTime), ToInt64(s.endTime), s.statusCode, s.statusMessage, service, s.flags)
  }

  function EventOf(c: Codec, e: Event): WithAttrs<EventFields> {
    WithAttrs(EventFieldsOf(e), AttrsOf(c, e.attributes))
  }

  function EventsOf(c: Codec, events: seq<Event>): seq<WithAttrs<EventFields>> {
    if events == [] then [] else [EventOf(c, events[0])] + EventsOf(c, events[1..])
  }

  function LinkOf(c: Codec, l: Link): WithAttrs<LinkFields> {
    WithAttrs(LinkFieldsOf(l), AttrsOf(c, l.attributes))
  }

  function LinksOf(c: Codec, links: seq<Link>): seq<WithAttrs<LinkFields>> {
    if links == [] then [] else [LinkOf(c, links[0])] + LinksOf(c, links[1..])
  }

  function ResourceOf(c: Codec, r: ResourceSpans): WithAttrs<ResourceFields> {
    WithAttrs(ResourceFields(r.schemaUrl), AttrsOf(c, r.resource))
  }

  function ScopeOf(c: Codec, s: ScopeSpans): WithAttrs<ScopeFields> {
    WithAttrs(ScopeFields(s.scope.name, s.scope.version, s.schemaUrl), AttrsOf(c, s.scope.attributes))
  }

  function RecordOf(
    c: Codec, s: Span, service: string, resource: WithAttrs<ResourceFields>, scope: WithAttrs<ScopeFields>): Stored
  {
    Stored(
      SpanFieldsOf(s, service), resource, scope,
      AttrsOf(c, s.attributes), EventsOf(c, s.events), LinksOf(c, s.links))
  }

  function SpanRecords(
    c: Codec, spans: seq<Span>, service: string, resource: WithAttrs<ResourceFields>, scope: WithAttrs<ScopeFields>)
    : seq<Stored>
  {
    if spans == [] then []
    else [RecordOf(c, spans[0], service, resource, scope)] + SpanRecords(c, spans[1..], service, resource, scope)
  }

  function ScopeRecords(
    c: Codec, scopes: seq<ScopeSpans>, service: string, resource: WithAttrs<ResourceFields>): seq<Stored>
  {
    if scopes == [] then []
    else
      SpanRecords(c, scopes[0].spans, service, resource, ScopeOf(c, scopes[0]))
      + ScopeRecords(c, scopes[1..], service, resource)
  }

  /** The records of a request, in the order in which it lists them. */
  function Records(c: Codec, req: Request): seq<Stored> {
    if req == [] then []
    else
      ScopeRecords(c, req[0].scopeSpans, ResourceServiceName(c, req[0].resource), ResourceOf(c, req[0]))
      + Records(c, req[1..])
  }

  // ---------------------------------------------------------------- first one wins

  predicate SameKey(a: Stored, b: Stored) {
    a.fields.traceId == b.fields.traceId && a.fields.spanId == b.fields.spanId
  }

  ghost predicate HasKeyOf(v: seq<Stored>, x: Stored) {
    exists i :: 0 <= i < |v| && SameKey(v[i], x)
  }

  ghost predicate DistinctKeys(v: seq<Stored>) {
    forall i, j | 0 <= i < j < |v| :: !SameKey(v[i], v[j])
  }

  ghost function KeepFirst(v: seq<Stored>, x: Stored): seq<Stored> {
    if HasKeyOf(v, x) then v else v + [x]
  }

  /** The list after the records are offered one by one. */
  ghost function FirstWins(v: seq<Stored>, records: seq<Stored>): seq<Stored>
    decreases |records|
  {
    if records == [] then v else FirstWins(KeepFirst(v, records[0]), records[1..])
  }

  lemma {:induction false} FirstWinsAppend(v: seq<Stored>, a: seq<Stored>, b: seq<Stored>)
    ensures FirstWins(v, a + b) == FirstWins(FirstWins(v, a), b)
    decreases |a|
  {
    if a == [] {
      assert a + b == b;
    } else {
      assert (a + b)[1..] == a[1..] + b;
      FirstWinsAppend(KeepFirst(v, a[0]), a[1..], b);
    }
  }

  /** What was there stays, in place, and keys stay distinct. */
  lemma {:induction false} FirstWinsKeeps(v: seq<Stored>, records: seq<Stored>)
    ensures v <= FirstWins(v, records)
    ensures DistinctKeys(v) ==> DistinctKeys(FirstWins(v, records))
    decreases |records|
  {
    if records != [] {
      FirstWinsKeeps(KeepFirst(v, records[0]), records[1..]);
    }
  }

  /** records[i] is the first record given for its key, and its key is not in v. */
  ghost predicate FirstNew(v: seq<Stored>, records: seq<Stored>, i: nat) {
    i < |records| && !HasKeyOf(v, records[i]) && !HasKeyOf(records[..i], records[i])
  }

  lemma HasKeyAppend(a: seq<Stored>, b: seq<Stored>, x: Stored)
    ensures HasKeyOf(a + b, x) <==> HasKeyOf(a, x) || HasKeyOf(b, x)
  {
    if HasKeyOf(a, x) {
      var i :| 0 <= i < |a| && SameKey(a[i], x);
      assert SameKey((a + b)[i], x);
    }
    if HasKeyOf(b, x) {
      var i :| 0 <= i < |b| && SameKey(b[i], x);
      assert SameKey((a + b)[|a| + i], x);
    }
  }

  lemma HasKeySnoc(v: seq<Stored>, y: Stored, x: Stored)
    ensures HasKeyOf(v + [y], x) <==> HasKeyOf(v, x) || SameKey(y, x)
  {
    HasKeyAppend(v, [y], x);
    assert HasKeyOf([y], x) <==> SameKey([y][0], x);
  }

  lemma FirstNewShift(v: seq<Stored>, records: seq<Stored>, i: nat)
    requires 0 < i < |records|
    ensures FirstNew(KeepFirst(v, records[0]), records[1..], i - 1) <==> FirstNew(v, records, i)
  {
    var x, head := records[i], records[0];
    assert records[1..][i - 1] == x;
    HasKeySnoc(v, head, x);
    assert records[..i] == [head] + records[1..][..i - 1];
    HasKeyAppend([head], records[1..][..i - 1], x);
    HasKeySnoc([], head, x);
    assert [] + [head] == [head];
    if SameKey(head, x) && HasKeyOf(v, head) {
      var j :| 0 <= j < |v| && SameKey(v[j], head);
      assert SameKey(v[j], x);
    }
  }

  /**
   What the list holds afterwards: what it held, and the first record given for each key it did not hold.
   */
  lemma {:induction false} FirstWinsMember(v: seq<Stored>, records: seq<Stored>, x: Stored)
    ensures x in FirstWins(v, records) <==> x in v || exists i: nat :: FirstNew(v, records, i) && records[i] == x
    decreases |records|
  {
    if records != [] {
      var head, rest, w := records[0], records[1..], KeepFirst(v, records[0]);
      FirstWinsMember(w, rest, x);
      assert FirstNew(v, records, 0) <==> !HasKeyOf(v, head);
      forall i: nat | 0 < i < |records| ensures FirstNew(w, rest, i - 1) <==> FirstNew(v, records, i) {
        FirstNewShift(v, records, i);
      }
      if i: nat :| FirstNew(v, records, i) && records[i] == x {
        if i > 0 {
          assert FirstNew(w, rest, i - 1) && rest[i - 1] == x;
        }
      }
      if i: nat :| FirstNew(w, rest, i) && rest[i] == x {
        assert FirstNew(v, records, i + 1) && records[i + 1] == x;
      }
    }
  }

  /** Every key offered is held afterwards. */
  lemma {:induction false} FirstWinsHoldsAll(v: seq<Stored>, records: seq<Stored>, i: nat)
    requires i < |records|
    ensures HasKeyOf(FirstWins(v, records), records[i])
    decreases |records|
  {
    var w := KeepFirst(v, records[0]);
    if i == 0 {
      HasKeySnoc(v, records[0], records[0]);
      FirstWinsKeeps(w, records[1..]);
      var j :| 0 <= j < |w| && SameKey(w[j], records[0]);
      assert SameKey(FirstWins(v, records)[j], records[0]);
    } else {
      FirstWinsHoldsAll(w, records[1..], i - 1);
    }
  }

  ghost predicate HoldsAll(v: seq<Stored>, records: seq<Stored>) {
    forall i | 0 <= i < |records| :: HasKeyOf(v, records[i])
  }

  lemma {:induction false} NothingNew(v: seq<Stored>, records: seq<Stored>)
    requires HoldsAll(v, records)
    ensures FirstWins(v, records) == v
  {
    if records != [] {
      assert HasKeyOf(v, records[0]);
      forall i | 0 <= i < |records[1..]| ensures HasKeyOf(v, records[1..][i]) {
        assert records[1..][i] == records[i + 1];
      }
      NothingNew(v, records[1..]);
    }
  }

  /** Offering the same records again, at any later time, changes nothing. */
  lemma ReplayChangesNothing(v: seq<Stored>, records: seq<Stored>, later: seq<Stored>)
    ensures
      var w := FirstWins(FirstWins(v, records), later);
      HoldsAll(w, records) && FirstWins(w, records) == w
  {
    var u := FirstWins(v, records);
    var w := FirstWins(u, later);
    FirstWinsKeeps(u, later);
    forall i | 0 <= i < |records| ensures HasKeyOf(w, records[i]) {
      FirstWinsHoldsAll(v, records, i);
      var j :| 0 <= j < |u| && SameKey(u[j], records[i]);
      assert SameKey(w[j], records[i]);
    }
    NothingNew(w, records);
  }
}
