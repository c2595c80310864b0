/**
 What a search finds, told from the request alone: a trace is found through a span of it that meets the query, by its
 service, its start, the texts of its attributes and its status.
 */
module Search {
  import opened Seqs
  import opened Texts
  import opened Otlp
  import opened SpanStore
  import opened RequestSpans
  import opened RoundTrip
  import opened TraceQueries

  /** One of the attributes has the key, and the text as its own. */
  ghost predicate HasText(c: Codec, attributes: seq<KeyValue>, f: AttrFilter) {
    exists a :: a in attributes && a.key == f.key && IsAttrText(c, a.value, f.value)
  }

  /** The span meets the query. */
  ghost predicate Answers(c: Codec, rs: ResourceSpans, s: Span, q: TraceQuery) {
    && IsServiceName(c, rs.resource, q.service)
    && (exists start :: SameBits(start, s.startTime) && q.start <= start <= q.end)
    && (forall f | f in q.filters :: HasText(c, s.attributes, f))
    && (q.status == None || q.status == Some(s.statusCode)) && (q.hasError ==> s.statusCode == 2)
  }

  lemma HasTextIs(c: Codec, attributes: seq<KeyValue>, f: AttrFilter)
    ensures HasText(c, attributes, f) <==> HasAttr(AttrsOf(c, attributes), f)
  {
    AttrsOfAt(c, attributes);
    forall a | a in attributes ensures IsAttrText(c, a.value, f.value) <==> f.value == Format(c, a.value).1 {
      AttrTextIs(c, a.value, f.value);
    }
    if a :| a in attributes && a.key == f.key && IsAttrText(c, a.value, f.value) {
      var i :| 0 <= i < |attributes| && attributes[i] == a;
      assert AttrsOf(c, attributes)[i].text == f.value;
    }
    var attrs := AttrsOf(c, attributes);
    if i :| 0 <= i < |attrs| && attrs[i].key == f.key && attrs[i].text == f.value {
      assert attributes[i] in attributes;
    }
  }

  /** A record meets the query if and only if its span does. */
  lemma MatchesIs(c: Codec, rs: ResourceSpans, j: nat, k: nat, q: TraceQuery)
    requires j < |rs.scopeSpans| && k < |rs.scopeSpans[j].spans|
    ensures Matches(q, RecordIn(c, rs, j, k)) <==> Answers(c, rs, rs.scopeSpans[j].spans[k], q)
  {
    var s := rs.scopeSpans[j].spans[k];
    ServiceNameIs(c, rs.resource, q.service);
    assert SameBits(ToInt64(s.startTime), s.startTime);
    forall f ensures HasText(c, s.attributes, f) <==> HasAttr(AttrsOf(c, s.attributes), f) {
      HasTextIs(c, s.attributes, f);
    }
  }

  /** The span is one of the trace, its key was new, and it meets the query. */
  ghost predicate FoundAt(
    c: Codec, v: seq<Stored>, req: Request, q: TraceQuery, traceId: string, i: nat, j: nat, k: nat)
  {
    && InRequest(req, i, j, k) && KeyIsNew(v, req, i, j, k)
    && IsHexOf(traceId, req[i].scopeSpans[j].spans[k].traceId)
    && Answers(c, req[i], req[i].scopeSpans[j].spans[k], q)
  }

  lemma TraceIdIs(traceId: string, id: seq<Byte>)
    ensures IsHexOf(traceId, id) <==> traceId == FormatTraceID(id)
  {
    HexReads(id);
    if IsHexOf(traceId, id) {
      HexOfOne(traceId, Hex(id), id);
    }
  }

  /** A span that is found makes its trace qualify, whatever is offered later. */
  lemma FoundQualifies(
      c: Codec, v: seq<Stored>, req: Request, later: seq<Stored>, q: TraceQuery, traceId: string,
      i: nat, j: nat, k: nat)
    requires FoundAt(c, v, req, q, traceId, i, j, k)
    ensures Qualifies(FirstWins(FirstWins(v, Records(c, req)), later), q, traceId)
  {
    RecordAt(c, req, i, j, k);
    NewIsFirst(c, v, req, i, j, k);
    NewRecordStays(v, Records(c, req), later, SpanIndex(req, i, j, k));
    MatchesIs(c, req[i], j, k, q);
    TraceIdIs(traceId, req[i].scopeSpans[j].spans[k].traceId);
  }

  /** A record that the request added is found. */
  lemma AddedIsFound(c: Codec, v: seq<Stored>, req: Request, q: TraceQuery, m: nat)
      returns (i: nat, j: nat, k: nat)
    requires FirstNew(v, Records(c, req), m) && Matches(q, Records(c, req)[m])
    ensures FoundAt(c, v, req, q, Records(c, req)[m].fields.traceId, i, j, k)
  {
    RecordsCount(c, req);
    i, j, k := PlaceOf(req, m);
    RecordAt(c, req, i, j, k);
    NewIsFirst(c, v, req, i, j, k);
    MatchesIs(c, req[i], j, k, q);
    TraceIdIs(Records(c, req)[m].fields.traceId, req[i].scopeSpans[j].spans[k].traceId);
  }

  /** After a request a search finds what it found before, and the traces of the new spans that meet the query. */
  lemma SearchIsExact(c: Codec, v: seq<Stored>, req: Request, q: TraceQuery, traceId: string)
    ensures Qualifies(FirstWins(v, Records(c, req)), q, traceId) <==>
      Qualifies(v, q, traceId) || exists i: nat, j: nat, k: nat :: FoundAt(c, v, req, q, traceId, i, j, k)
  {
    var records := Records(c, req);
    if x :| x in FirstWins(v, records) && x.fields.traceId == traceId && Matches(q, x) {
      FirstWinsMember(v, records, x);
      if x !in v {
        var m: nat :| FirstNew(v, records, m) && records[m] == x;
        var i, j, k := AddedIsFound(c, v, req, q, m);
      }
    }
    if x :| x in v && x.fields.traceId == traceId && Matches(q, x) {
      FirstWinsMember(v, records, x);
    }
    if i: nat, j: nat, k: nat :| FoundAt(c, v, req, q, traceId, i, j, k) {
      FoundQualifies(c, v, req, [], q, traceId, i, j, k);
    }
  }
}
