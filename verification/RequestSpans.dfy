/**
 The spans of a request and the records they ask to store: where each span's record comes, and when its key is new,
 told from the ids of the request alone.
 */
module RequestSpans {
  import opened Texts
  import opened Otlp
  import opened SpanStore

  function SpanCount(scopes: seq<ScopeSpans>): nat {
    if scopes == [] then 0 else |scopes[0].spans| + SpanCount(scopes[1..])
  }

  function ScopeIndex(scopes: seq<ScopeSpans>, j: nat, k: nat): nat {
    if j == 0 || scopes == [] then k else |scopes[0].spans| + ScopeIndex(scopes[1..], j - 1, k)
  }

  /** How many spans the request lists before span k of scope j of resource i. */
  function SpanIndex(req: Request, i: nat, j: nat, k: nat): nat {
    if req == [] then 0
    else if i == 0 then ScopeIndex(req[0].scopeSpans, j, k)
    else SpanCount(req[0].scopeSpans) + SpanIndex(req[1..], i - 1, j, k)
  }

  predicate HoldsAt(records: seq<Stored>, n: nat, x: Stored) {
    n < |records| && records[n] == x
  }

  lemma HoldsFirst(a: seq<Stored>, b: seq<Stored>, n: nat, x: Stored)
    requires HoldsAt(a, n, x)
    ensures HoldsAt(a + b, n, x)
  {
  }

  lemma HoldsLater(a: seq<Stored>, b: seq<Stored>, n: nat, x: Stored)
    requires HoldsAt(b, n, x)
    ensures HoldsAt(a + b, |a| + n, x)
  {
  }

  lemma {:induction false} SpanRecordsCount(
      c: Codec, spans: seq<Span>, service: string, resource: WithAttrs<ResourceFields>, scope: WithAttrs<ScopeFields>)
    ensures |SpanRecords(c, spans, service, resource, scope)| == |spans|
  {
    if spans != [] {
      SpanRecordsCount(c, spans[1..], service, resource, scope);
    }
  }

  lemma {:induction false} SpanRecordAt(
      c: Codec, spans: seq<Span>, service: string, resource: WithAttrs<ResourceFields>, scope: WithAttrs<ScopeFields>,
      k: nat)
    requires k < |spans|
    ensures HoldsAt(
      SpanRecords(c, spans, service, resource, scope), k, RecordOf(c, spans[k], service, resource, scope))
  {
    var x := RecordOf(c, spans[k], service, resource, scope);
    var first := [RecordOf(c, spans[0], service, resource, scope)];
    var rest := SpanRecords(c, spans[1..], service, resource, scope);
    if k > 0 {
      SpanRecordAt(c, spans[1..], service, resource, scope, k - 1);
      assert spans[1..][k - 1] == spans[k];
      HoldsLater(first, rest, k - 1, x);
    } else {
      HoldsFirst(first, rest, 0, x);
    }
  }

  lemma {:induction false} ScopeRecordsAt(
      c: Codec, scopes: seq<ScopeSpans>, service: string, resource: WithAttrs<ResourceFields>, j: nat, k: nat)
    requires j < |scopes| && k < |scopes[j].spans|
    ensures HoldsAt(
      ScopeRecords(c, scopes, service, resource), ScopeIndex(scopes, j, k),
      RecordOf(c, scopes[j].spans[k], service, resource, ScopeOf(c, scopes[j])))
    decreases j
  {
    var x := RecordOf(c, scopes[j].spans[k], service, resource, ScopeOf(c, scopes[j]));
    var first := SpanRecords(c, scopes[0].spans, service, resource, ScopeOf(c, scopes[0]));
    var rest := ScopeRecords(c, scopes[1..], service, resource);
    if j > 0 {
      SpanRecordsCount(c, scopes[0].spans, service, resource, ScopeOf(c, scopes[0]));
      ScopeRecordsAt(c, scopes[1..], service, resource, j - 1, k);
      HoldsLater(first, rest, ScopeIndex(scopes[1..], j - 1, k), x);
    } else {
      SpanRecordAt(c, scopes[0].spans, service, resource, ScopeOf(c, scopes[0]), k);
      HoldsFirst(first, rest, k, x);
    }
  }

  lemma {:induction false} ScopeRecordsCount(
      c: Codec, scopes: seq<ScopeSpans>, service: string, resource: WithAttrs<ResourceFields>)
    ensures |ScopeRecords(c, scopes, service, resource)| == SpanCount(scopes)
    decreases |scopes|
  {
    if scopes != [] {
      SpanRecordsCount(c, scopes[0].spans, service, resource, ScopeOf(c, scopes[0]));
      ScopeRecordsCount(c, scopes[1..], service, resource);
    }
  }

  /** The record of span k of scope j. */
  function RecordIn(c: Codec, rs: ResourceSpans, j: nat, k: nat): Stored
    requires j < |rs.scopeSpans| && k < |rs.scopeSpans[j].spans|
  {
    RecordOf(
      c, rs.scopeSpans[j].spans[k], ResourceServiceName(c, rs.resource), ResourceOf(c, rs),
      ScopeOf(c, rs.scopeSpans[j]))
  }

  lemma RecordsSplit(c: Codec, req: Request) returns (first: seq<Stored>)
    requires req != []
    ensures Records(c, req) == first + Records(c, req[1..]) && |first| == SpanCount(req[0].scopeSpans)
    ensures first ==
      ScopeRecords(c, req[0].scopeSpans, ResourceServiceName(c, req[0].resource), ResourceOf(c, req[0]))
  {
    var service, resource := ResourceServiceName(c, req[0].resource), ResourceOf(c, req[0]);
    ScopeRecordsCount(c, req[0].scopeSpans, service, resource);
    first := ScopeRecords(c, req[0].scopeSpans, service, resource);
  }

  /** The records of a request follow its spans. */
  lemma {:induction false} RecordAt(c: Codec, req: Request, i: nat, j: nat, k: nat)
    requires i < |req| && j < |req[i].scopeSpans| && k < |req[i].scopeSpans[j].spans|
    ensures HoldsAt(Records(c, req), SpanIndex(req, i, j, k), RecordIn(c, req[i], j, k))
    decreases i
  {
    var x := RecordIn(c, req[i], j, k);
    var first := RecordsSplit(c, req);
    if i > 0 {
      RecordAt(c, req[1..], i - 1, j, k);
      HoldsLater(first, Records(c, req[1..]), SpanIndex(req[1..], i - 1, j, k), x);
    } else {
      var service, resource := ResourceServiceName(c, req[0].resource), ResourceOf(c, req[0]);
      ScopeRecordsAt(c, req[0].scopeSpans, service, resource, j, k);
      HoldsFirst(first, Records(c, req[1..]), ScopeIndex(req[0].scopeSpans, j, k), x);
    }
  }

  // ---------------------------------------------------------------- which span a record is of

  /** Resource i has a scope j with a span k. */
  predicate InRequest(req: Request, i: nat, j: nat, k: nat) {
    i < |req| && j < |req[i].scopeSpans| && k < |req[i].scopeSpans[j].spans|
  }

  /** The first place comes before the second. */
  predicate Earlier(i: nat, j: nat, k: nat, m: nat, n: nat, p: nat) {
    i < m || (i == m && (j < n || (j == n && k < p)))
  }

  lemma {:induction false} ScopePlace(scopes: seq<ScopeSpans>, m: nat) returns (j: nat, k: nat)
    requires m < SpanCount(scopes)
    ensures j < |scopes| && k < |scopes[j].spans| && ScopeIndex(scopes, j, k) == m
    decreases |scopes|
  {
    if m < |scopes[0].spans| {
      j, k := 0, m;
    } else {
      j, k := ScopePlace(scopes[1..], m - |scopes[0].spans|);
      j := j + 1;
    }
  }

  function RequestCount(req: Request): nat {
    if req == [] then 0 else SpanCount(req[0].scopeSpans) + RequestCount(req[1..])
  }

  lemma {:induction false} RecordsCount(c: Codec, req: Request)
    ensures |Records(c, req)| == RequestCount(req)
    decreases |req|
  {
    if req != [] {
      var first := RecordsSplit(c, req);
      RecordsCount(c, req[1..]);
    }
  }

  /** Every record is that of a span. */
  lemma {:induction false} PlaceOf(req: Request, m: nat) returns (i: nat, j: nat, k: nat)
    requires m < RequestCount(req)
    ensures InRequest(req, i, j, k) && SpanIndex(req, i, j, k) == m
    decreases |req|
  {
    var count := SpanCount(req[0].scopeSpans);
    if m < count {
      j, k := ScopePlace(req[0].scopeSpans, m);
      i := 0;
    } else {
      i, j, k := PlaceOf(req[1..], m - count);
      assert req[1..][i] == req[i + 1];
      i := i + 1;
    }
  }

  lemma {:induction false} ScopeIndexFits(scopes: seq<ScopeSpans>, j: nat, k: nat)
    requires j < |scopes| && k < |scopes[j].spans|
    ensures ScopeIndex(scopes, j, k) < SpanCount(scopes)
    decreases j
  {
    if j > 0 {
      ScopeIndexFits(scopes[1..], j - 1, k);
    }
  }

  lemma {:induction false} ScopeIndexRises(scopes: seq<ScopeSpans>, j: nat, k: nat, n: nat, p: nat)
    requires j < |scopes| && k < |scopes[j].spans| && n < |scopes| && p < |scopes[n].spans|
    requires j < n || (j == n && k < p)
    ensures ScopeIndex(scopes, j, k) < ScopeIndex(scopes, n, p)
    decreases j
  {
    if j > 0 {
      ScopeIndexRises(scopes[1..], j - 1, k, n - 1, p);
    }
  }

  /** Records come in the order of their spans. */
  lemma {:induction false} SpanIndexRises(req: Request, i: nat, j: nat, k: nat, m: nat, n: nat, p: nat)
    requires InRequest(req, i, j, k) && InRequest(req, m, n, p) && Earlier(i, j, k, m, n, p)
    ensures SpanIndex(req, i, j, k) < SpanIndex(req, m, n, p)
    decreases i
  {
    if i > 0 {
      SpanIndexRises(req[1..], i - 1, j, k, m - 1, n, p);
    } else if m > 0 {
      ScopeIndexFits(req[0].scopeSpans, j, k);
    } else {
      ScopeIndexRises(req[0].scopeSpans, j, k, n, p);
    }
  }

  // ---------------------------------------------------------------- keys

  /** A span id's text: sixteen zeros for no id. */
  predicate IsSpanIdText(text: string, id: seq<Byte>) {
    if id == [] then text == "0000000000000000" else IsHexOf(text, id)
  }

  lemma SpanIdText(id: seq<Byte>)
    ensures IsSpanIdText(FormatSpanID(id), id)
  {
    HexReads(id);
  }

  /** The record is stored under the ids of the span. */
  ghost predicate HasIdsOf(x: Stored, s: Span) {
    IsHexOf(x.fields.traceId, s.traceId) && IsSpanIdText(x.fields.spanId, s.spanId)
  }

  /** The spans have one key: no span id is eight zero bytes. */
  predicate SameIds(s: Span, t: Span) {
    s.traceId == t.traceId && (s.spanId == t.spanId || (IsZeroSpanID(s.spanId) && IsZeroSpanID(t.spanId)))
  }

  /** The span at (m, n, p) comes before the one at (i, j, k) and has its key. */
  predicate TakesKey(req: Request, m: nat, n: nat, p: nat, i: nat, j: nat, k: nat)
    requires InRequest(req, i, j, k)
  {
    && InRequest(req, m, n, p) && Earlier(m, n, p, i, j, k)
    && SameIds(req[m].scopeSpans[n].spans[p], req[i].scopeSpans[j].spans[k])
  }

  /** No record has the key of the span, nor has an earlier span of the request. */
  ghost predicate KeyIsNew(v: seq<Stored>, req: Request, i: nat, j: nat, k: nat)
    requires InRequest(req, i, j, k)
  {
    && (forall x | x in v :: !HasIdsOf(x, req[i].scopeSpans[j].spans[k]))
    && forall m: nat, n: nat, p: nat :: !TakesKey(req, m, n, p, i, j, k)
  }

  lemma SpanIdTextIs(text: string, id: seq<Byte>)
    ensures IsSpanIdText(text, id) <==> text == FormatSpanID(id)
  {
    HexReads(id);
    if IsSpanIdText(text, id) && id != [] {
      HexOfOne(text, Hex(id), id);
    }
  }

  lemma HasIdsIs(x: Stored, s: Span)
    ensures HasIdsOf(x, s) <==>
      x.fields.traceId == FormatTraceID(s.traceId) && x.fields.spanId == FormatSpanID(s.spanId)
  {
    HexReads(s.traceId);
    SpanIdTextIs(x.fields.spanId, s.spanId);
    if HasIdsOf(x, s) {
      HexOfOne(x.fields.traceId, Hex(s.traceId), s.traceId);
    }
  }

  lemma KeyOfRecord(c: Codec, req: Request, i: nat, j: nat, k: nat, x: Stored)
    requires InRequest(req, i, j, k)
    ensures SameKey(x, RecordIn(c, req[i], j, k)) <==> HasIdsOf(x, req[i].scopeSpans[j].spans[k])
  {
    HasIdsIs(x, req[i].scopeSpans[j].spans[k]);
  }

  lemma KeysOfRecords(c: Codec, req: Request, i: nat, j: nat, k: nat, m: nat, n: nat, p: nat)
    requires InRequest(req, i, j, k) && InRequest(req, m, n, p)
    ensures SameKey(RecordIn(c, req[m], n, p), RecordIn(c, req[i], j, k)) <==>
      SameIds(req[m].scopeSpans[n].spans[p], req[i].scopeSpans[j].spans[k])
  {
    var s, t := req[m].scopeSpans[n].spans[p], req[i].scopeSpans[j].spans[k];
    TraceIDInjective(s.traceId, t.traceId);
    SpanIDInjective(s.spanId, t.spanId);
  }

  /** An earlier record with the key is that of an earlier span with it. */
  lemma TakenBySpan(c: Codec, req: Request, i: nat, j: nat, k: nat, l: nat) returns (m: nat, n: nat, p: nat)
    requires InRequest(req, i, j, k) && l < SpanIndex(req, i, j, k) && l < |Records(c, req)|
    requires SameKey(Records(c, req)[l], RecordIn(c, req[i], j, k))
    ensures TakesKey(req, m, n, p, i, j, k)
  {
    RecordsCount(c, req);
    m, n, p := PlaceOf(req, l);
    RecordAt(c, req, m, n, p);
    KeysOfRecords(c, req, i, j, k, m, n, p);
    if !Earlier(m, n, p, i, j, k) && (m != i || n != j || p != k) {
      SpanIndexRises(req, i, j, k, m, n, p);
    }
  }

  lemma TakenByRecord(c: Codec, req: Request, i: nat, j: nat, k: nat, m: nat, n: nat, p: nat)
    requires InRequest(req, i, j, k) && TakesKey(req, m, n, p, i, j, k)
    ensures SpanIndex(req, m, n, p) < SpanIndex(req, i, j, k) < |Records(c, req)|
    ensures SameKey(Records(c, req)[SpanIndex(req, m, n, p)], RecordIn(c, req[i], j, k))
  {
    RecordAt(c, req, i, j, k);
    RecordAt(c, req, m, n, p);
    SpanIndexRises(req, m, n, p, i, j, k);
    KeysOfRecords(c, req, i, j, k, m, n, p);
  }

  lemma TakenBefore(c: Codec, req: Request, i: nat, j: nat, k: nat)
    requires InRequest(req, i, j, k) && SpanIndex(req, i, j, k) <= |Records(c, req)|
    ensures HasKeyOf(Records(c, req)[..SpanIndex(req, i, j, k)], RecordIn(c, req[i], j, k)) <==>
      exists m: nat, n: nat, p: nat :: TakesKey(req, m, n, p, i, j, k)
  {
    var before, x := Records(c, req)[..SpanIndex(req, i, j, k)], RecordIn(c, req[i], j, k);
    if l :| 0 <= l < |before| && SameKey(before[l], x) {
      var m, n, p := TakenBySpan(c, req, i, j, k, l);
    }
    if m: nat, n: nat, p: nat :| TakesKey(req, m, n, p, i, j, k) {
      TakenByRecord(c, req, i, j, k, m, n, p);
      assert SameKey(before[SpanIndex(req, m, n, p)], x);
    }
  }

  /** A span whose key is new has its record kept, and no other has. */
  lemma NewIsFirst(c: Codec, v: seq<Stored>, req: Request, i: nat, j: nat, k: nat)
    requires InRequest(req, i, j, k)
    ensures KeyIsNew(v, req, i, j, k) <==> FirstNew(v, Records(c, req), SpanIndex(req, i, j, k))
  {
    RecordAt(c, req, i, j, k);
    TakenBefore(c, req, i, j, k);
    forall x ensures SameKey(x, RecordIn(c, req[i], j, k)) <==> HasIdsOf(x, req[i].scopeSpans[j].spans[k]) {
      KeyOfRecord(c, req, i, j, k, x);
    }
    if HasKeyOf(v, RecordIn(c, req[i], j, k)) {
      var l :| 0 <= l < |v| && SameKey(v[l], RecordIn(c, req[i], j, k));
      assert v[l] in v;
    }
  }
}
