/**
 Reading back what was written: the spans of a trace, queried at any time after a request was ingested, show the
 request's own spans.
 */
module RoundTrip {
  import opened Seqs
  import opened Texts
  import opened Otlp
  import opened SpanStore
  import opened RequestSpans
  import opened BatchLoad
  import opened SpanQueries
  import opened SqliteTx

  // ---------------------------------------------------------------- what a span of a request should look like

  /**
   The map has exactly the keys of the attributes, each with what is read of an attribute with that key; so of the one
   there is, unless the key is repeated.
   */
  ghost predicate ShowsValues(c: Codec, attributes: seq<KeyValue>, m: map<string, Value>) {
    && (forall i | 0 <= i < |attributes| :: attributes[i].key in m)
    && (forall k | k in m ::
         exists i :: 0 <= i < |attributes| && attributes[i].key == k && ReadAs(c, attributes[i].value, m[k]))
  }

  lemma {:induction false} AttrsOfAt(c: Codec, attributes: seq<KeyValue>)
    ensures |AttrsOf(c, attributes)| == |attributes|
    ensures forall i | 0 <= i < |attributes| ::
      var text := Format(c, attributes[i].value); AttrsOf(c, attributes)[i] == Attr(attributes[i].key, text.0, text.1)
  {
    if attributes != [] {
      AttrsOfAt(c, attributes[1..]);
    }
  }

  lemma AttributeBack(c: Codec, attributes: seq<KeyValue>, m: map<string, Value>, k: string)
    requires Lawful(c) && AttrsFormattable(attributes) && Decodes(c, AttrsOf(c, attributes), m) && k in m
    ensures exists i :: 0 <= i < |attributes| && attributes[i].key == k && ReadAs(c, attributes[i].value, m[k])
  {
    var attrs := AttrsOf(c, attributes);
    AttrsOfAt(c, attributes);
    var a :| a in attrs && a.key == k && Parse(c, a.typ, a.text) == m[k];
    var i :| 0 <= i < |attrs| && attrs[i] == a;
    AttributeRoundTrip(c, attributes[i].value);
  }

  lemma AttributesBack(c: Codec, attributes: seq<KeyValue>, m: map<string, Value>)
    requires Lawful(c) && AttrsFormattable(attributes) && Decodes(c, AttrsOf(c, attributes), m)
    ensures ShowsValues(c, attributes, m)
  {
    AttrsOfAt(c, attributes);
    forall i | 0 <= i < |attributes| ensures attributes[i].key in m {
      assert AttrsOf(c, attributes)[i] in AttrsOf(c, attributes);
    }
    forall k | k in m
      ensures exists i :: 0 <= i < |attributes| && attributes[i].key == k && ReadAs(c, attributes[i].value, m[k])
    {
      AttributeBack(c, attributes, m, k);
    }
  }

  /** The same 64 bits, read as a signed number. */
  predicate SameBits(i: int, u: Uint64) {
    i == if u < 0x8000_0000_0000_0000 then u else u - 0x1_0000_0000_0000_0000
  }

  const KINDS := [
    "UNSPECIFIED", "SPAN_KIND_INTERNAL", "SPAN_KIND_SERVER", "SPAN_KIND_CLIENT", "SPAN_KIND_PRODUCER",
    "SPAN_KIND_CONSUMER"]

  /** A span kind's text: its name, or its number if it has none. */
  predicate IsKindText(text: string, kind: int) {
    text == if 0 <= kind < 6 then KINDS[kind] else PrintInt(kind)
  }

  ghost predicate ShowsEvent(c: Codec, e: Event, o: Loaded<EventFields>) {
    && o.fields.name == e.name && SameBits(o.fields.time, e.time) && o.fields.dropped == e.dropped
    && ShowsValues(c, e.attributes, o.attributes)
  }

  ghost predicate ShowsLink(c: Codec, l: Link, o: Loaded<LinkFields>) {
    && IsHexOf(o.fields.traceId, l.traceId) && IsSpanIdText(o.fields.spanId, l.spanId)
    && o.fields.traceState == l.traceState && o.fields.dropped == l.dropped && o.fields.flags == l.flags
    && ShowsValues(c, l.attributes, o.attributes)
  }

  /** perm lists each position of a sequence of length n once. */
  ghost predicate Permutation(perm: seq<nat>, n: nat) {
    |perm| == n && NoDup(perm) && forall i | 0 <= i < n :: perm[i] < n
  }

  ghost predicate EventsInOrder(c: Codec, events: seq<Event>, perm: seq<nat>, os: seq<Loaded<EventFields>>)
    requires Permutation(perm, |events|)
  {
    |os| == |events| && forall i | 0 <= i < |os| :: ShowsEvent(c, events[perm[i]], os[i])
  }

  /** The events, in some order that is sorted by time and then name. */
  ghost predicate ShowsEvents(c: Codec, events: seq<Event>, os: seq<Loaded<EventFields>>) {
    && (forall i, j | 0 <= i < j < |os| :: EventInOrder(os[i].fields, os[j].fields))
    && exists perm :: Permutation(perm, |events|) && EventsInOrder(c, events, perm, os)
  }

  ghost predicate LinksInOrder(c: Codec, links: seq<Link>, perm: seq<nat>, os: seq<Loaded<LinkFields>>)
    requires Permutation(perm, |links|)
  {
    |os| == |links| && forall i | 0 <= i < |os| :: ShowsLink(c, links[perm[i]], os[i])
  }

  /** The links, in some order that is sorted by trace id and then span id. */
  ghost predicate ShowsLinks(c: Codec, links: seq<Link>, os: seq<Loaded<LinkFields>>) {
    && (forall i, j | 0 <= i < j < |os| :: LinkInOrder(os[i].fields, os[j].fields))
    && exists perm :: Permutation(perm, |links|) && LinksInOrder(c, links, perm, os)
  }

  ghost predicate ShowsFields(c: Codec, rs: ResourceSpans, s: Span, o: SpanFields) {
    && IsHexOf(o.traceId, s.traceId) && IsSpanIdText(o.spanId, s.spanId)
    && IsSpanIdText(o.parentSpanId, s.parentSpanId)
    && o.name == s.name && IsKindText(o.kind, s.kind)
    && SameBits(o.startTime, s.startTime) && SameBits(o.endTime, s.endTime)
    && o.statusCode == s.statusCode && o.statusMessage == s.statusMessage
    && IsServiceName(c, rs.resource, o.serviceName) && o.flags == s.flags
  }

  /** Every part of the answer is the span's own. */
  ghost predicate ShowsOriginal(c: Codec, rs: ResourceSpans, ss: ScopeSpans, s: Span, o: LoadedSpan) {
    && ShowsFields(c, rs, s, o.fields)
    && o.resource.fields.schemaUrl == rs.schemaUrl && ShowsValues(c, rs.resource, o.resource.attributes)
    && o.scope.fields.name == ss.scope.name && o.scope.fields.version == ss.scope.version
    && o.scope.fields.schemaUrl == ss.schemaUrl
    && ShowsValues(c, ss.scope.attributes, o.scope.attributes)
    && ShowsValues(c, s.attributes, o.attributes)
    && ShowsEvents(c, s.events, o.events)
    && ShowsLinks(c, s.links, o.links)
  }

  lemma FieldsBack(c: Codec, rs: ResourceSpans, s: Span)
    ensures ShowsFields(c, rs, s, SpanFieldsOf(s, ResourceServiceName(c, rs.resource)))
  {
    HexReads(s.traceId);
    SpanIdText(s.spanId);
    SpanIdText(s.parentSpanId);
    ServiceNameIs(c, rs.resource, ResourceServiceName(c, rs.resource));
  }

  // ---------------------------------------------------------------- permutations by position

  /** A rearrangement of a list can be told by positions. */
  lemma {:induction false} Positions<T>(a: seq<T>, b: seq<T>) returns (perm: seq<nat>)
    requires multiset(a) == multiset(b)
    ensures Permutation(perm, |b|) && |a| == |b| && forall i | 0 <= i < |a| :: a[i] == b[perm[i]]
    decreases |a|
  {
    assert |a| == |multiset(a)| == |multiset(b)| == |b|;
    if a == [] {
      perm := [];
    } else {
      var j := TakeOut(a, b);
      var rest := Positions(a[1..], b[..j] + b[j + 1..]);
      perm := [j] + seq(|rest|, i requires 0 <= i < |rest| => if rest[i] < j then rest[i] else rest[i] + 1);
    }
  }

  lemma {:induction false} EventsOfAt(c: Codec, events: seq<Event>)
    ensures |EventsOf(c, events)| == |events|
    ensures forall i | 0 <= i < |events| :: EventsOf(c, events)[i] == EventOf(c, events[i])
  {
    if events != [] {
      EventsOfAt(c, events[1..]);
    }
  }

  lemma {:induction false} LinksOfAt(c: Codec, links: seq<Link>)
    ensures |LinksOf(c, links)| == |links|
    ensures forall i | 0 <= i < |links| :: LinksOf(c, links)[i] == LinkOf(c, links[i])
  {
    if links != [] {
      LinksOfAt(c, links[1..]);
    }
  }

  lemma EventBack(c: Codec, e: Event, o: Loaded<EventFields>)
    requires Lawful(c) && AttrsFormattable(e.attributes) && Shows(c, EventOf(c, e), o)
    ensures ShowsEvent(c, e, o)
  {
    AttributesBack(c, e.attributes, o.attributes);
  }

  lemma LinkBack(c: Codec, l: Link, o: Loaded<LinkFields>)
    requires Lawful(c) && AttrsFormattable(l.attributes) && Shows(c, LinkOf(c, l), o)
    ensures ShowsLink(c, l, o)
  {
    HexReads(l.traceId);
    SpanIdText(l.spanId);
    AttributesBack(c, l.attributes, o.attributes);
  }

  lemma EventsPermuted(c: Codec, events: seq<Event>, perm: seq<nat>, os: seq<Loaded<EventFields>>)
    requires Lawful(c) && Permutation(perm, |events|) && |os| == |events|
    requires EventsFormattable(events)
    requires forall i | 0 <= i < |os| :: Shows(c, EventOf(c, events[perm[i]]), os[i])
    ensures EventsInOrder(c, events, perm, os)
  {
    forall i | 0 <= i < |os| ensures ShowsEvent(c, events[perm[i]], os[i]) {
      EventBack(c, events[perm[i]], os[i]);
    }
  }

  lemma EventsBack(c: Codec, events: seq<Event>, os: seq<Loaded<EventFields>>)
    requires Lawful(c) && ShowsSorted(c, EventLe, EventsOf(c, events), os)
    requires EventsFormattable(events)
    ensures ShowsEvents(c, events, os)
  {
    EventsOfAt(c, events);
    var src :| multiset(src) == multiset(EventsOf(c, events)) && Aligned(c, src, os);
    var perm := Positions(src, EventsOf(c, events));
    forall i | 0 <= i < |os| ensures Shows(c, EventOf(c, events[perm[i]]), os[i]) {
      assert Shows(c, src[i], os[i]);
    }
    EventsPermuted(c, events, perm, os);
    forall i, j | 0 <= i < j < |os| ensures EventInOrder(os[i].fields, os[j].fields) {
      EventLeIs(os[i].fields, os[j].fields);
    }
  }

  lemma LinksPermuted(c: Codec, links: seq<Link>, perm: seq<nat>, os: seq<Loaded<LinkFields>>)
    requires Lawful(c) && Permutation(perm, |links|) && |os| == |links|
    requires LinksFormattable(links)
    requires forall i | 0 <= i < |os| :: Shows(c, LinkOf(c, links[perm[i]]), os[i])
    ensures LinksInOrder(c, links, perm, os)
  {
    forall i | 0 <= i < |os| ensures ShowsLink(c, links[perm[i]], os[i]) {
      LinkBack(c, links[perm[i]], os[i]);
    }
  }

  lemma LinksBack(c: Codec, links: seq<Link>, os: seq<Loaded<LinkFields>>)
    requires Lawful(c) && ShowsSorted(c, LinkLe, LinksOf(c, links), os)
    requires LinksFormattable(links)
    ensures ShowsLinks(c, links, os)
  {
    LinksOfAt(c, links);
    var src :| multiset(src) == multiset(LinksOf(c, links)) && Aligned(c, src, os);
    var perm := Positions(src, LinksOf(c, links));
    forall i | 0 <= i < |os| ensures Shows(c, LinkOf(c, links[perm[i]]), os[i]) {
      assert Shows(c, src[i], os[i]);
    }
    LinksPermuted(c, links, perm, os);
    forall i, j | 0 <= i < j < |os| ensures LinkInOrder(os[i].fields, os[j].fields) {
      LinkLeIs(os[i].fields, os[j].fields);
    }
  }

  lemma RecordBack(c: Codec, rs: ResourceSpans, ss: ScopeSpans, s: Span, o: LoadedSpan)
    requires Lawful(c) && SpanFormattable(s) && AttrsFormattable(rs.resource) && AttrsFormattable(ss.scope.attributes)
    requires ShowsSpan(
      c, RecordOf(c, s, ResourceServiceName(c, rs.resource), ResourceOf(c, rs), ScopeOf(c, ss)), o)
    ensures ShowsOriginal(c, rs, ss, s, o)
  {
    FieldsBack(c, rs, s);
    AttributesBack(c, rs.resource, o.resource.attributes);
    AttributesBack(c, ss.scope.attributes, o.scope.attributes);
    AttributesBack(c, s.attributes, o.attributes);
    EventsBack(c, s.events, o.events);
    LinksBack(c, s.links, o.links);
  }

  // ---------------------------------------------------------------- the round trip

  /** A trace's answer holds each record of the trace once. */
  lemma AnswerHolds(c: Codec, v: seq<Stored>, sel: seq<Stored>, spans: seq<LoadedSpan>, x: Stored) returns (n: nat)
    requires IsTraceAnswer(c, v, x.fields.traceId, "", None, sel, spans) && x in v
    ensures n < |spans| && ShowsSpan(c, x, spans[n])
  {
    FilterMember(OfTrace(x.fields.traceId, "", None), v, x);
    assert x in multiset(sel);
    n :| 0 <= n < |sel| && sel[n] == x;
  }

  /** A new record is kept, whatever is offered later. */
  lemma NewRecordStays(v: seq<Stored>, records: seq<Stored>, later: seq<Stored>, m: nat)
    requires FirstNew(v, records, m)
    ensures records[m] in FirstWins(FirstWins(v, records), later)
  {
    FirstWinsMember(v, records, records[m]);
    FirstWinsKeeps(FirstWins(v, records), later);
  }

  /**
   The round trip: ask for a trace after the request was ingested, and any other records later, and each of the
   request's spans of that trace whose key was new is in the answer, with exactly its own fields, attributes, resource,
   scope, events and links.
   */
  lemma RoundTrips(
      c: Codec, v: seq<Stored>, req: Request, later: seq<Stored>, i: nat, j: nat, k: nat, sel: seq<Stored>,
      spans: seq<LoadedSpan>)
      returns (n: nat)
    requires i < |req| && j < |req[i].scopeSpans| && k < |req[i].scopeSpans[j].spans|
    requires Lawful(c) && KeyIsNew(v, req, i, j, k)
    requires SpanFormattable(req[i].scopeSpans[j].spans[k])
    requires AttrsFormattable(req[i].resource) && AttrsFormattable(req[i].scopeSpans[j].scope.attributes)
    requires IsTraceAnswer(
      c, FirstWins(FirstWins(v, Records(c, req)), later), FormatTraceID(req[i].scopeSpans[j].spans[k].traceId),
      "", None, sel, spans)
    ensures n < |spans|
    ensures ShowsOriginal(c, req[i], req[i].scopeSpans[j], req[i].scopeSpans[j].spans[k], spans[n])
  {
    RecordAt(c, req, i, j, k);
    NewIsFirst(c, v, req, i, j, k);
    var x := Records(c, req)[SpanIndex(req, i, j, k)];
    NewRecordStays(v, Records(c, req), later, SpanIndex(req, i, j, k));
    n := AnswerHolds(c, FirstWins(FirstWins(v, Records(c, req)), later), sel, spans, x);
    RecordBack(c, req[i], req[i].scopeSpans[j], req[i].scopeSpans[j].spans[k], spans[n]);
  }

  /** Nothing in an answer has a key twice. */
  lemma AnswerKeysDiffer(
      c: Codec, v: seq<Stored>, traceId: string, service: string, status: Option<int>, sel: seq<Stored>,
      spans: seq<LoadedSpan>, m: nat, n: nat)
    requires IsTraceAnswer(c, v, traceId, service, status, sel, spans) && DistinctKeys(v) && m < n < |spans|
    ensures spans[m].fields.spanId != spans[n].fields.spanId
  {
    var keep := OfTrace(traceId, service, status);
    assert NoDup(v) by {
      forall i, j | 0 <= i < j < |v| ensures v[i] != v[j] {
        assert !SameKey(v[i], v[j]);
      }
    }
    FilterNoDup(keep, v);
    NoDupCounts(Filter(keep, v));
    NoDupCounts(sel);
    assert sel[m] in multiset(Filter(keep, v)) && sel[n] in multiset(Filter(keep, v));
    FilterMember(keep, v, sel[m]);
    FilterMember(keep, v, sel[n]);
    var i :| 0 <= i < |v| && v[i] == sel[m];
    var j :| 0 <= j < |v| && v[j] == sel[n];
    assert sel[m] != sel[n];
    assert i < j ==> !SameKey(v[i], v[j]);
    assert j < i ==> !SameKey(v[j], v[i]);
    assert ShowsSpan(c, sel[m], spans[m]) && ShowsSpan(c, sel[n], spans[n]);
  }

  /** The ids the queries hand out can be asked for again: trimming does not change them. */
  lemma TraceIdIsTrimmed(id: seq<Byte>)
    ensures Trim(FormatTraceID(id)) == FormatTraceID(id)
    ensures FormatTraceID(id) == "" <==> id == []
  {
    TrimTrims(FormatTraceID(id));
    forall i | 0 <= i < |Hex(id)| ensures !IsSpace(Hex(id)[i]) {
      assert Hex(id)[i] in HEX_DIGITS;
    }
  }
}
