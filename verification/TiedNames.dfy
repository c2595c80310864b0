/** A request whose trace gets its root name from whichever of two spans the database comes to first. */
module TiedNames {
  import opened Seqs
  import opened Texts
  import opened Otlp
  import opened SpanStore
  import opened Tables
  import opened StoreRefinement
  import opened TraceQueries

  /** A span without a parent, of trace 01. */
  function RootSpan(spanId: seq<Byte>, name: string): Span {
    Span([1], spanId, [], name, 0, 0, 0, 0, "", 0, [], [], [])
  }

  const NO_RESOURCE := WithAttrs(ResourceFields(""), [])
  const NO_SCOPE := WithAttrs(ScopeFields("", "", ""), [])

  function TwoRoots(s: Span, t: Span): Request {
    [ResourceSpans([], "", [ScopeSpans(Scope("", "", []), "", [s, t])])]
  }

  /** Two roots that start together. */
  const TIED := TwoRoots(RootSpan([1], "x"), RootSpan([2], "y"))

  function Rooted(spanId: string, name: string): Stored {
    Stored(
      SpanFields("01", spanId, ROOT_SPAN_PARENT_ID, name, "UNSPECIFIED", 0, 0, 0, "", "unknown", 0),
      NO_RESOURCE, NO_SCOPE, [], [], [])
  }

  lemma HexOfOne(b: Byte)
    ensures Hex([b]) == [HEX_DIGITS[b / 16], HEX_DIGITS[b % 16]]
  {
    var id := [b];
    assert |Hex(id)| == 2 && Hex(id)[0] == HEX_DIGITS[b / 16] && Hex(id)[1] == HEX_DIGITS[b % 16];
  }

  lemma IdTexts()
    ensures FormatTraceID([1]) == "01" && FormatSpanID([1]) == "01" && FormatSpanID([2]) == "02"
  {
    HexOfOne(1);
    HexOfOne(2);
    assert HEX_DIGITS[0] == '0' && HEX_DIGITS[1] == '1' && HEX_DIGITS[2] == '2';
  }

  lemma RootRecord(c: Codec, spanId: seq<Byte>, text: string, name: string)
    requires FormatTraceID([1]) == "01" && FormatSpanID(spanId) == text
    ensures RecordOf(c, RootSpan(spanId, name), "unknown", NO_RESOURCE, NO_SCOPE) == Rooted(text, name)
  {
  }

  lemma TwoSpans(
      c: Codec, s: Span, t: Span, service: string, resource: WithAttrs<ResourceFields>, scope: WithAttrs<ScopeFields>)
    ensures SpanRecords(c, [s, t], service, resource, scope) ==
      [RecordOf(c, s, service, resource, scope), RecordOf(c, t, service, resource, scope)]
  {
    var both, last := [s, t], [t];
    assert both[1..] == last && last[1..] == [];
    assert SpanRecords(c, last, service, resource, scope) == [RecordOf(c, t, service, resource, scope)];
    assert SpanRecords(c, both, service, resource, scope) ==
      [RecordOf(c, s, service, resource, scope)] + SpanRecords(c, last, service, resource, scope);
  }

  lemma RecordsOfTwo(c: Codec, s: Span, t: Span)
    ensures Records(c, TwoRoots(s, t)) ==
      [RecordOf(c, s, "unknown", NO_RESOURCE, NO_SCOPE), RecordOf(c, t, "unknown", NO_RESOURCE, NO_SCOPE)]
  {
    var req := TwoRoots(s, t);
    var scopes := req[0].scopeSpans;
    assert req[1..] == [] && scopes[1..] == [];
    TwoSpans(c, s, t, "unknown", NO_RESOURCE, NO_SCOPE);
    assert ScopeRecords(c, scopes, "unknown", NO_RESOURCE) ==
      SpanRecords(c, [s, t], "unknown", NO_RESOURCE, NO_SCOPE) + ScopeRecords(c, [], "unknown", NO_RESOURCE);
  }

  lemma TiedRecords(c: Codec)
    ensures Records(c, TIED) == [Rooted("01", "x"), Rooted("02", "y")]
  {
    IdTexts();
    RecordsOfTwo(c, RootSpan([1], "x"), RootSpan([2], "y"));
    RootRecord(c, [1], "01", "x");
    RootRecord(c, [2], "02", "y");
  }

  /** The store after one request with two records of different keys. */
  lemma StoreOfTwo(c: Codec, req: Request, x: Stored, y: Stored)
    requires Records(c, req) == [x, y] && !SameKey(x, y)
    ensures View(Ingest(c, EMPTY, req)) == [x, y]
  {
    EmptyIsValid();
    IngestRefines(c, EMPTY, req);
    HasKeySnoc([], x, y);
    assert [] + [x] == [x] && [x] + [y] == [x, y];
    var both, last := [x, y], [y];
    assert both[1..] == last && last[1..] == [];
    assert KeepFirst([], x) == [x] && KeepFirst([x], y) == [x, y];
    assert FirstWins([x], last) == FirstWins([x, y], []);
  }

  lemma TiedTrace(v: seq<Stored>)
    requires v == [Rooted("01", "x"), Rooted("02", "y")]
    ensures Trace(v, "01") == [v[0].fields, v[1].fields]
    ensures IsRootName(Trace(v, "01"), "x") && IsRootName(Trace(v, "01"), "y")
  {
    assert v[1..] == [v[1]] && Filter(InTrace("01"), v[1..]) == v[1..];
    assert Filter(InTrace("01"), v) == v && Fields(v[1..]) == [v[1].fields];
    var trace := Trace(v, "01");
    assert trace == [v[0].fields, v[1].fields];
    assert IsEarliestRoot(trace, trace[0]) && IsEarliestRoot(trace, trace[1]);
  }

  const QUERY := TraceQuery("unknown", 0, 0, 1, "", [], None, false)

  lemma TiedAnswer(v: seq<Stored>, a: seq<TraceSummary>)
    requires v == [Rooted("01", "x"), Rooted("02", "y")]
    requires Trace(v, "01") != [] && IsRootName(Trace(v, "01"), "x")
    requires a == [Grouped(v, "unknown", "01").(rootName := "x")]
    ensures IsAnswer(v, QUERY, 1, a)
  {
    assert v[0] in v && v[0].fields.traceId == "01" && Matches(QUERY, v[0]);
    assert a[0].traceId == "01" && IsSummary(v, "unknown", a[0]);
    forall id | Qualifies(v, QUERY, id) ensures InAnswer(a, id) {
      assert id == "01";
    }
  }

  lemma TwoAnswers(v: seq<Stored>) returns (a: seq<TraceSummary>, b: seq<TraceSummary>)
    requires v == [Rooted("01", "x"), Rooted("02", "y")]
    ensures IsAnswer(v, QUERY, 1, a) && IsAnswer(v, QUERY, 1, b)
    ensures |a| == |b| == 1 && a[0].rootName == "x" && b[0].rootName == "y"
  {
    TiedTrace(v);
    a := [Grouped(v, "unknown", "01").(rootName := "x")];
    b := [Grouped(v, "unknown", "01").(rootName := "y")];
    TiedAnswer(v, a);
    NamesAreFree(v, QUERY, 1, a, b);
  }

  /** It happens: in the store that holds this request and nothing else, one query has two answers. */
  lemma TiedRoots(c: Codec) returns (a: seq<TraceSummary>, b: seq<TraceSummary>)
    ensures
      var v := View(Ingest(c, EMPTY, TIED));
      IsAnswer(v, QUERY, 1, a) && IsAnswer(v, QUERY, 1, b)
    ensures |a| == |b| == 1 && a[0].rootName == "x" && b[0].rootName == "y"
  {
    TiedRecords(c);
    StoreOfTwo(c, TIED, Rooted("01", "x"), Rooted("02", "y"));
    a, b := TwoAnswers(View(Ingest(c, EMPTY, TIED)));
  }
}
