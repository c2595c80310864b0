/**
 What the queries ask for, over the store seen as a list of records: which traces qualify, what their summaries say,
 in what order they come, and which spans a trace has.
 */
module TraceQueries {
  import opened Seqs
  import opened Sorting
  import opened Texts
  import opened Otlp
  import opened SpanStore

  const STATUS_ERROR := 2

  datatype AttrFilter = AttrFilter(key: string, value: string)

  datatype TraceQuery = TraceQuery(
    service: string, start: int, end: int, limit: int, order: string,
    filters: seq<AttrFilter>, status: Option<int>, hasError: bool)

  datatype TraceSummary = TraceSummary(
    traceId: string, rootName: string, startTime: int, endTime: int, duration: int,
    spanCount: nat, errorCount: nat, serviceName: string)

  // ---------------------------------------------------------------- which spans, which traces

  predicate HasAttr(attrs: seq<Attr>, f: AttrFilter) {
    exists i :: 0 <= i < |attrs| && attrs[i].key == f.key && attrs[i].text == f.value
  }

  /** One span meets the service, the window and every attribute filter. */
  predicate InWindow(service: string, start: int, end: int, filters: seq<AttrFilter>, x: Stored) {
    && x.fields.serviceName == service
    && start <= x.fields.startTime <= end
    && forall i | 0 <= i < |filters| :: HasAttr(x.attrs, filters[i])
  }

  /** One span meets all the conditions together. */
  predicate Matches(q: TraceQuery, x: Stored) {
    && InWindow(q.service, q.start, q.end, q.filters, x)
    && (q.status.Some? ==> x.fields.statusCode == q.status.value)
    && (q.hasError ==> x.fields.statusCode == STATUS_ERROR)
  }

  /** A trace qualifies if one single span of it meets all the conditions. */
  ghost predicate Qualifies(v: seq<Stored>, q: TraceQuery, traceId: string) {
    exists x :: x in v && x.fields.traceId == traceId && Matches(q, x)
  }

  function InTrace(traceId: string): Stored -> bool {
    (x: Stored) => x.fields.traceId == traceId
  }

  /** The records' own rows. */
  function Fields(xs: seq<Stored>): seq<SpanFields> {
    if xs == [] then [] else [xs[0].fields] + Fields(xs[1..])
  }

  /** The rows of a trace. */
  function Trace(v: seq<Stored>, traceId: string): seq<SpanFields> {
    Fields(Filter(InTrace(traceId), v))
  }

  function IsError(x: SpanFields): bool {
    x.statusCode == STATUS_ERROR
  }

  function MinStart(xs: seq<SpanFields>): int
    requires xs != []
  {
    if |xs| == 1 then xs[0].startTime
    else var m := MinStart(xs[1..]); if xs[0].startTime < m then xs[0].startTime else m
  }

  function MaxEnd(xs: seq<SpanFields>): int
    requires xs != []
  {
    if |xs| == 1 then xs[0].endTime
    else var m := MaxEnd(xs[1..]); if xs[0].endTime > m then xs[0].endTime else m
  }

  // ---------------------------------------------------------------- summaries

  function IsRoot(x: SpanFields): bool {
    x.parentSpanId == ROOT_SPAN_PARENT_ID
  }

  ghost predicate HasRoot(trace: seq<SpanFields>) {
    exists x :: x in trace && IsRoot(x)
  }

  ghost predicate IsEarliestRoot(trace: seq<SpanFields>, x: SpanFields) {
    x in trace && IsRoot(x) && forall y | y in trace && IsRoot(y) :: x.startTime <= y.startTime
  }

  /** Name of an earliest span without a parent; which one, if several start together, is not determined. */
  ghost predicate IsRootName(trace: seq<SpanFields>, name: string) {
    if HasRoot(trace) then exists x :: IsEarliestRoot(trace, x) && x.name == name else name == ""
  }

  /** The summary of a group of rows, apart from the root name. */
  function GroupOf(trace: seq<SpanFields>, service: string, traceId: string): TraceSummary
    requires trace != []
  {
    TraceSummary(
      traceId, "", MinStart(trace), MaxEnd(trace), MaxEnd(trace) - MinStart(trace), |trace|, |Filter(IsError, trace)|,
      service)
  }

  /** The grouped row of a trace, apart from the root name. */
  function Grouped(v: seq<Stored>, service: string, traceId: string): TraceSummary
    requires Trace(v, traceId) != []
  {
    GroupOf(Trace(v, traceId), service, traceId)
  }

  ghost predicate IsSummary(v: seq<Stored>, service: string, s: TraceSummary) {
    && Trace(v, s.traceId) != []
    && s.(rootName := "") == Grouped(v, service, s.traceId)
    && IsRootName(Trace(v, s.traceId), s.rootName)
  }

  // ---------------------------------------------------------------- order

  datatype Order = StartDesc | StartAsc | DurationDesc | DurationAsc

  function OrderOf(order: string): Order {
    if order == "start_asc" then StartAsc
    else if order == "duration_desc" then DurationDesc
    else if order == "duration_asc" then DurationAsc
    else StartDesc
  }

  /** The ORDER BY clauses; the trace id, descending, breaks every tie. */
  predicate OrderLe(o: Order, a: TraceSummary, b: TraceSummary) {
    var tie := StrLe(b.traceId, a.traceId);
    match o
    case StartDesc => a.startTime > b.startTime || (a.startTime == b.startTime && tie)
    case StartAsc => a.startTime < b.startTime || (a.startTime == b.startTime && tie)
    case DurationDesc =>
      a.duration > b.duration
      || (a.duration == b.duration && (a.startTime > b.startTime || (a.startTime == b.startTime && tie)))
    case DurationAsc =>
      a.duration < b.duration
      || (a.duration == b.duration && (a.startTime > b.startTime || (a.startTime == b.startTime && tie)))
  }

  predicate Before(o: Order, a: TraceSummary, b: TraceSummary) {
    OrderLe(o, a, b) && a.traceId != b.traceId
  }

  /** Every order is a strict total order on summaries of different traces. */
  lemma OrderTotal(o: Order, a: TraceSummary, b: TraceSummary, c: TraceSummary)
    ensures OrderLe(o, a, b) || OrderLe(o, b, a)
    ensures OrderLe(o, a, b) && OrderLe(o, b, c) ==> OrderLe(o, a, c)
    ensures a.traceId != b.traceId ==> (Before(o, a, b) <==> !Before(o, b, a))
  {
    StrLeTotal(a.traceId, b.traceId);
    if StrLe(b.traceId, a.traceId) && StrLe(c.traceId, b.traceId) {
      StrLeTrans(c.traceId, b.traceId, a.traceId);
    }
  }

  /** What the ORDER BY clauses say of two rows, a before b; an order that is not known is start_desc. */
  ghost predicate InOrder(order: string, a: TraceSummary, b: TraceSummary) {
    && (order == "start_asc" ==>
         a.startTime <= b.startTime && (a.startTime == b.startTime ==> Precedes(b.traceId, a.traceId)))
    && (order == "duration_desc" ==>
         && a.duration >= b.duration && (a.duration == b.duration ==> a.startTime >= b.startTime)
         && (a.duration == b.duration && a.startTime == b.startTime ==> Precedes(b.traceId, a.traceId)))
    && (order == "duration_asc" ==>
         && a.duration <= b.duration && (a.duration == b.duration ==> a.startTime >= b.startTime)
         && (a.duration == b.duration && a.startTime == b.startTime ==> Precedes(b.traceId, a.traceId)))
    && (order != "start_asc" && order != "duration_desc" && order != "duration_asc" ==>
         a.startTime >= b.startTime && (a.startTime == b.startTime ==> Precedes(b.traceId, a.traceId)))
  }

  lemma BeforeIsInOrder(order: string, a: TraceSummary, b: TraceSummary)
    requires a.traceId != b.traceId
    ensures Before(OrderOf(order), a, b) <==> InOrder(order, a, b)
  {
    StrLeIs(b.traceId, a.traceId);
  }

  // ---------------------------------------------------------------- the answer

  ghost predicate InAnswer(r: seq<TraceSummary>, traceId: string) {
    exists i :: 0 <= i < |r| && r[i].traceId == traceId
  }

  /** A trace is left out only for want of room, and then everything in the answer comes before it. */
  ghost predicate LeftOut(v: seq<Stored>, q: TraceQuery, limit: nat, r: seq<TraceSummary>, traceId: string) {
    && |r| == limit && Trace(v, traceId) != []
    && forall i | 0 <= i < |r| :: Before(OrderOf(q.order), r[i], Grouped(v, q.service, traceId))
  }

  /** The first limit of the summaries of the qualifying traces, in order. */
  ghost predicate IsAnswer(v: seq<Stored>, q: TraceQuery, limit: nat, r: seq<TraceSummary>) {
    && |r| <= limit
    && (forall i | 0 <= i < |r| :: Qualifies(v, q, r[i].traceId) && IsSummary(v, q.service, r[i]))
    && (forall i, j | 0 <= i < j < |r| :: Before(OrderOf(q.order), r[i], r[j]))
    && (forall traceId | Qualifies(v, q, traceId) && !InAnswer(r, traceId) :: LeftOut(v, q, limit, r, traceId))
  }

  lemma HasAttrIs(attrs: seq<Attr>, f: AttrFilter)
    ensures HasAttr(attrs, f) <==> exists a :: a in attrs && a.key == f.key && a.text == f.value
  {
    if a :| a in attrs && a.key == f.key && a.text == f.value {
      var i :| 0 <= i < |attrs| && attrs[i] == a;
    }
  }

  /** What a query asks of a record. */
  ghost predicate Meets(
    x: Stored, service: string, start: int, end: int, filters: seq<AttrFilter>, status: Option<int>)
  {
    && x.fields.serviceName == service && start <= x.fields.startTime && x.fields.startTime <= end
    && (forall f | f in filters :: exists a :: a in x.attrs && a.key == f.key && a.text == f.value)
    && (status == None || status == Some(x.fields.statusCode))
  }

  lemma InWindowMeets(x: Stored, service: string, start: int, end: int, filters: seq<AttrFilter>)
    ensures InWindow(service, start, end, filters, x) <==> Meets(x, service, start, end, filters, None)
  {
    forall f | f in filters
      ensures HasAttr(x.attrs, f) <==> exists a :: a in x.attrs && a.key == f.key && a.text == f.value
    {
      HasAttrIs(x.attrs, f);
    }
    assert forall i | 0 <= i < |filters| :: filters[i] in filters;
  }

  /** A trace qualifies if one span of it meets everything that is asked. */
  lemma QualifiesIs(v: seq<Stored>, q: TraceQuery, traceId: string)
    ensures Qualifies(v, q, traceId) <==>
      exists x ::
        && x in v && x.fields.traceId == traceId && Meets(x, q.service, q.start, q.end, q.filters, q.status)
        && (q.hasError ==> x.fields.statusCode == 2)
  {
    forall x: Stored
      ensures Matches(q, x) <==>
        Meets(x, q.service, q.start, q.end, q.filters, q.status) && (q.hasError ==> x.fields.statusCode == 2)
    {
      InWindowMeets(x, q.service, q.start, q.end, q.filters);
    }
  }

  /** The rows come in the order asked for, and a trace is left out only if it comes after all of a full answer. */
  ghost predicate AnswerOrdered(v: seq<Stored>, q: TraceQuery, limit: nat, r: seq<TraceSummary>) {
    && (forall i, j | 0 <= i < j < |r| :: InOrder(q.order, r[i], r[j]))
    && (forall s: TraceSummary | Qualifies(v, q, s.traceId) && IsSummary(v, q.service, s) && !InAnswer(r, s.traceId) ::
         |r| == limit && forall i | 0 <= i < |r| :: InOrder(q.order, r[i], s))
  }

  lemma LeftOutLater(v: seq<Stored>, q: TraceQuery, limit: nat, r: seq<TraceSummary>, s: TraceSummary, i: nat)
    requires IsAnswer(v, q, limit, r) && i < |r|
    requires Qualifies(v, q, s.traceId) && IsSummary(v, q.service, s) && !InAnswer(r, s.traceId)
    ensures InOrder(q.order, r[i], s)
  {
    assert LeftOut(v, q, limit, r, s.traceId);
    var t := s.(rootName := "");
    assert Before(OrderOf(q.order), r[i], t);
    BeforeIsInOrder(q.order, r[i], t);
  }

  lemma AnswerIsOrdered(v: seq<Stored>, q: TraceQuery, limit: nat, r: seq<TraceSummary>)
    requires IsAnswer(v, q, limit, r)
    ensures AnswerOrdered(v, q, limit, r)
  {
    forall i, j | 0 <= i < j < |r| ensures InOrder(q.order, r[i], r[j]) {
      assert Before(OrderOf(q.order), r[i], r[j]);
      BeforeIsInOrder(q.order, r[i], r[j]);
    }
    forall s: TraceSummary | Qualifies(v, q, s.traceId) && IsSummary(v, q.service, s) && !InAnswer(r, s.traceId)
      ensures |r| == limit && forall i | 0 <= i < |r| :: InOrder(q.order, r[i], s)
    {
      assert LeftOut(v, q, limit, r, s.traceId);
      forall i | 0 <= i < |r| ensures InOrder(q.order, r[i], s) {
        LeftOutLater(v, q, limit, r, s, i);
      }
    }
  }

  /** What it means of one trace. */
  lemma LeftOutIsLater(v: seq<Stored>, q: TraceQuery, limit: nat, r: seq<TraceSummary>, traceId: string)
    requires IsAnswer(v, q, limit, r) && Qualifies(v, q, traceId) && !InAnswer(r, traceId)
    ensures |r| == limit
    ensures forall s, n | IsSummary(v, q.service, s) && s.traceId == traceId && 0 <= n < |r| ::
      InOrder(q.order, r[n], s)
  {
    assert LeftOut(v, q, limit, r, traceId);
    AnswerIsOrdered(v, q, limit, r);
  }

  /** An absent order is start_desc. */
  lemma DefaultOrder(v: seq<Stored>, q: TraceQuery, limit: nat, r: seq<TraceSummary>)
    requires q.order == "" && IsAnswer(v, q.(order := "start_desc"), limit, r)
    ensures IsAnswer(v, q, limit, r)
  {
    var d := q.(order := "start_desc");
    assert OrderOf(d.order) == OrderOf(q.order);
    forall x ensures Matches(d, x) <==> Matches(q, x) {
    }
    forall id ensures Qualifies(v, d, id) <==> Qualifies(v, q, id) {
    }
  }

  predicate SameRow(a: TraceSummary, b: TraceSummary) {
    a.(rootName := "") == b.(rootName := "")
  }

  /** A summary whose trace is not among the first i of an answer comes after the i-th of it. */
  lemma ComesAfter(v: seq<Stored>, q: TraceQuery, limit: nat, r: seq<TraceSummary>, i: nat, s: TraceSummary)
    requires IsAnswer(v, q, limit, r) && i < |r|
    requires Qualifies(v, q, s.traceId) && IsSummary(v, q.service, s)
    requires forall k | 0 <= k <= i :: r[k].traceId != s.traceId
    ensures Before(OrderOf(q.order), r[i], s)
  {
    if InAnswer(r, s.traceId) {
      var j :| 0 <= j < |r| && r[j].traceId == s.traceId;
      assert IsSummary(v, q.service, r[j]);
      assert Before(OrderOf(q.order), r[i], r[j]);
      assert SameRow(r[j], s);
    } else {
      assert LeftOut(v, q, limit, r, s.traceId);
    }
  }

  /** While there is room, every qualifying trace is in the answer. */
  lemma RoomForAll(v: seq<Stored>, q: TraceQuery, limit: nat, r: seq<TraceSummary>, traceId: string)
    requires IsAnswer(v, q, limit, r) && Qualifies(v, q, traceId) && |r| < limit
    ensures InAnswer(r, traceId)
  {
  }

  /** Traces do not repeat in an answer. */
  lemma NoRepeats(v: seq<Stored>, q: TraceQuery, limit: nat, r: seq<TraceSummary>, k: nat)
    requires IsAnswer(v, q, limit, r) && k < |r|
    ensures forall l | 0 <= l < k :: r[l].traceId != r[k].traceId
  {
  }

  /** The first k rows agree. */
  ghost predicate RowsAgree(a: seq<TraceSummary>, b: seq<TraceSummary>, k: nat) {
    k <= |a| && k <= |b| && forall l | 0 <= l < k :: SameRow(a[l], b[l])
  }

  lemma NextRowExists(
      v: seq<Stored>, q: TraceQuery, n: nat, m: nat, a: seq<TraceSummary>, b: seq<TraceSummary>, k: nat)
    requires IsAnswer(v, q, n, a) && IsAnswer(v, q, m, b) && n <= m && k < |a| && RowsAgree(a, b, k)
    ensures k < |b|
  {
    NoRepeats(v, q, n, a, k);
    assert Qualifies(v, q, a[k].traceId);
    forall l | 0 <= l < k ensures b[l].traceId != a[k].traceId {
      assert SameRow(a[l], b[l]);
    }
    if k == |b| {
      RoomForAll(v, q, m, b, a[k].traceId);
    }
  }

  lemma NotAmongFirst(a: seq<TraceSummary>, b: seq<TraceSummary>, k: nat)
    requires RowsAgree(a, b, k) && k < |a| && k < |b| && a[k].traceId != b[k].traceId
    requires forall l | 0 <= l < k :: b[l].traceId != b[k].traceId
    ensures forall l | 0 <= l <= k :: a[l].traceId != b[k].traceId
  {
    forall l | 0 <= l < k ensures a[l].traceId != b[k].traceId {
      assert SameRow(a[l], b[l]);
    }
  }

  /** The row at k of one answer comes no later than the row at k of the other. */
  lemma NotAfter(
      v: seq<Stored>, q: TraceQuery, n: nat, m: nat, a: seq<TraceSummary>, b: seq<TraceSummary>, k: nat)
    requires IsAnswer(v, q, n, a) && IsAnswer(v, q, m, b) && k < |a| && k < |b| && RowsAgree(a, b, k)
    requires a[k].traceId != b[k].traceId
    ensures Before(OrderOf(q.order), a[k], b[k])
  {
    NoRepeats(v, q, m, b, k);
    NotAmongFirst(a, b, k);
    assert Qualifies(v, q, b[k].traceId) && IsSummary(v, q.service, b[k]);
    ComesAfter(v, q, n, a, k, b[k]);
  }

  lemma AgreeBackwards(a: seq<TraceSummary>, b: seq<TraceSummary>, k: nat)
    requires RowsAgree(a, b, k)
    ensures RowsAgree(b, a, k)
  {
    forall l | 0 <= l < k ensures SameRow(b[l], a[l]) {
      assert SameRow(a[l], b[l]);
    }
  }

  lemma NextRowAgrees(
      v: seq<Stored>, q: TraceQuery, n: nat, m: nat, a: seq<TraceSummary>, b: seq<TraceSummary>, k: nat)
    requires IsAnswer(v, q, n, a) && IsAnswer(v, q, m, b) && k < |a| && k < |b| && RowsAgree(a, b, k)
    ensures SameRow(a[k], b[k])
  {
    assert IsSummary(v, q.service, a[k]) && IsSummary(v, q.service, b[k]);
    if a[k].traceId != b[k].traceId {
      NotAfter(v, q, n, m, a, b, k);
      AgreeBackwards(a, b, k);
      NotAfter(v, q, m, n, b, a, k);
      OrderTotal(OrderOf(q.order), a[k], b[k], a[k]);
    }
  }

  /** On one store the answer for a limit is a prefix of the answer for any larger one, root names apart. */
  lemma {:induction false} AnswersAgree(
      v: seq<Stored>, q: TraceQuery, n: nat, m: nat, a: seq<TraceSummary>, b: seq<TraceSummary>, i: nat)
    requires IsAnswer(v, q, n, a) && IsAnswer(v, q, m, b) && n <= m && i <= |a|
    ensures RowsAgree(a, b, i)
  {
    if i > 0 {
      AnswersAgree(v, q, n, m, a, b, i - 1);
      NextRowExists(v, q, n, m, a, b, i - 1);
      NextRowAgrees(v, q, n, m, a, b, i - 1);
    }
  }

  ghost predicate RowsPrefix(a: seq<TraceSummary>, b: seq<TraceSummary>) {
    |a| <= |b| && forall k | 0 <= k < |a| :: SameRow(a[k], b[k])
  }

  /** The limit only cuts: stable prefixes, and so, for equal limits, one answer. */
  lemma LimitOnlyCuts(v: seq<Stored>, q: TraceQuery, n: nat, m: nat, a: seq<TraceSummary>, b: seq<TraceSummary>)
    requires IsAnswer(v, q, n, a) && IsAnswer(v, q, m, b) && n <= m
    ensures RowsPrefix(a, b)
    ensures n == m ==> |a| == |b|
  {
    AnswersAgree(v, q, n, m, a, b, |a|);
    assert RowsAgree(a, b, |a|);
    if n == m {
      AnswersAgree(v, q, m, n, b, a, |b|);
    }
  }

  // ---------------------------------------------------------------- every query has an answer

  function TraceIds(xs: seq<SpanFields>): seq<string> {
    if xs == [] then []
    else
      var rest := TraceIds(xs[1..]);
      if xs[0].traceId in rest then rest else [xs[0].traceId] + rest
  }

  lemma {:induction false} TraceIdsDistinct(xs: seq<SpanFields>)
    ensures NoDup(TraceIds(xs))
    ensures forall id :: id in TraceIds(xs) <==> exists x :: x in xs && x.traceId == id
  {
    if xs != [] {
      TraceIdsDistinct(xs[1..]);
      forall id ensures id in TraceIds(xs) <==> exists x :: x in xs && x.traceId == id {
        if id in TraceIds(xs[1..]) {
          var x :| x in xs[1..] && x.traceId == id;
          assert x in xs;
        }
        if id == xs[0].traceId {
          assert xs[0] in xs;
        }
        if x :| x in xs && x.traceId == id {
          assert x == xs[0] || x in xs[1..];
        }
      }
    }
  }

  function EarliestName(xs: seq<SpanFields>): (string, int)
    requires xs != []
  {
    var first := (xs[0].name, xs[0].startTime);
    if |xs| == 1 then first
    else var rest := EarliestName(xs[1..]); if first.1 <= rest.1 then first else rest
  }

  lemma {:induction false} EarliestIs(xs: seq<SpanFields>)
    requires xs != []
    ensures exists x :: x in xs && x.name == EarliestName(xs).0 && x.startTime == EarliestName(xs).1
    ensures forall y | y in xs :: EarliestName(xs).1 <= y.startTime
  {
    assert xs[0] in xs;
    if |xs| > 1 {
      EarliestIs(xs[1..]);
      var rest := EarliestName(xs[1..]);
      var x :| x in xs[1..] && x.name == rest.0 && x.startTime == rest.1;
      assert x in xs;
      forall y | y in xs ensures EarliestName(xs).1 <= y.startTime {
        assert y == xs[0] || y in xs[1..];
      }
    }
  }

  function RootName(trace: seq<SpanFields>): string {
    var roots := Filter(IsRoot, trace);
    if roots == [] then "" else EarliestName(roots).0
  }

  lemma RootNameIs(trace: seq<SpanFields>)
    ensures IsRootName(trace, RootName(trace))
  {
    var roots := Filter(IsRoot, trace);
    forall x ensures x in roots <==> x in trace && IsRoot(x) {
      FilterMember(IsRoot, trace, x);
    }
    if roots != [] {
      assert roots[0] in roots;
      EarliestIs(roots);
      var x :| x in roots && x.name == EarliestName(roots).0 && x.startTime == EarliestName(roots).1;
      assert IsEarliestRoot(trace, x);
    }
  }

  /** The whole summary of a group of rows. */
  function SummaryOf(trace: seq<SpanFields>, service: string, traceId: string): TraceSummary
    requires trace != []
  {
    GroupOf(trace, service, traceId).(rootName := RootName(trace))
  }

  lemma SummaryOfIs(v: seq<Stored>, service: string, id: string)
    requires Trace(v, id) != []
    ensures IsSummary(v, service, SummaryOf(Trace(v, id), service, id))
  {
    RootNameIs(Trace(v, id));
  }

  lemma {:induction false} FieldsMember(xs: seq<Stored>, f: SpanFields)
    ensures f in Fields(xs) <==> exists x :: x in xs && x.fields == f
  {
    if xs != [] {
      FieldsMember(xs[1..], f);
      if x :| x in xs && x.fields == f {
        assert x == xs[0] || x in xs[1..];
      }
      if f in Fields(xs) {
        if f == xs[0].fields {
          assert xs[0] in xs;
        } else {
          var x :| x in xs[1..] && x.fields == f;
          assert x in xs;
        }
      }
    }
  }

  lemma QualifiesHasTrace(v: seq<Stored>, q: TraceQuery, id: string)
    requires Qualifies(v, q, id)
    ensures Trace(v, id) != []
  {
    var x :| x in v && x.fields.traceId == id && Matches(q, x);
    FilterMember(InTrace(id), v, x);
  }

  function Matching(q: TraceQuery): Stored -> bool {
    (x: Stored) => Matches(q, x)
  }

  /** The ids of the traces that qualify, each once. */
  function Candidates(v: seq<Stored>, q: TraceQuery): seq<string> {
    TraceIds(Fields(Filter(Matching(q), v)))
  }

  lemma CandidatesQualify(v: seq<Stored>, q: TraceQuery)
    ensures NoDup(Candidates(v, q))
    ensures forall id :: id in Candidates(v, q) <==> Qualifies(v, q, id)
  {
    var xs := Filter(Matching(q), v);
    TraceIdsDistinct(Fields(xs));
    forall id ensures id in Candidates(v, q) <==> Qualifies(v, q, id) {
      if id in Candidates(v, q) {
        var f :| f in Fields(xs) && f.traceId == id;
        FieldsMember(xs, f);
        var x :| x in xs && x.fields == f;
        FilterMember(Matching(q), v, x);
      }
      if Qualifies(v, q, id) {
        var x :| x in v && x.fields.traceId == id && Matches(q, x);
        FilterMember(Matching(q), v, x);
        FieldsMember(xs, x.fields);
        assert x.fields in Fields(xs) && x.fields.traceId == id;
      }
    }
  }

  function OrderedBy(o: Order): (TraceSummary, TraceSummary) -> bool {
    (a: TraceSummary, b: TraceSummary) => OrderLe(o, a, b)
  }

  lemma OrderedByTotal(o: Order, s: seq<TraceSummary>)
    ensures TotalOn(OrderedBy(o), s)
  {
    forall x, y | x in s && y in s ensures OrderedBy(o)(x, y) || OrderedBy(o)(y, x) {
      OrderTotal(o, x, y, x);
    }
    forall x, y, z | x in s && y in s && z in s && OrderedBy(o)(x, y) && OrderedBy(o)(y, z) ensures OrderedBy(o)(x, z) {
      OrderTotal(o, x, y, z);
    }
  }

  /** Ordering and cutting the groups. */
  function OrderedCut(o: Order, all: seq<TraceSummary>, limit: nat): seq<TraceSummary> {
    var sorted := Sort(OrderedBy(o), all);
    if |sorted| <= limit then sorted else sorted[..limit]
  }

  ghost predicate CompleteList(v: seq<Stored>, q: TraceQuery, s: seq<TraceSummary>) {
    && (forall i | 0 <= i < |s| :: Qualifies(v, q, s[i].traceId) && IsSummary(v, q.service, s[i]))
    && (forall i, j | 0 <= i < j < |s| :: Before(OrderOf(q.order), s[i], s[j]))
    && (forall id | Qualifies(v, q, id) :: InAnswer(s, id))
  }

  /** The rows as they come out of the grouping, one for each qualifying trace. */
  ghost predicate OneRowEach(v: seq<Stored>, q: TraceQuery, ids: seq<string>, all: seq<TraceSummary>) {
    && NoDup(ids) && (forall id :: id in ids <==> Qualifies(v, q, id))
    && |all| == |ids|
    && forall i | 0 <= i < |all| :: all[i].traceId == ids[i] && IsSummary(v, q.service, all[i])
  }

  lemma RowOf(v: seq<Stored>, q: TraceQuery, ids: seq<string>, all: seq<TraceSummary>, s: TraceSummary) returns (k: nat)
    requires OneRowEach(v, q, ids, all) && s in all
    ensures k < |all| && all[k] == s && Qualifies(v, q, s.traceId) && IsSummary(v, q.service, s)
  {
    k :| 0 <= k < |all| && all[k] == s;
    assert ids[k] in ids;
  }

  lemma RowsDiffer(v: seq<Stored>, q: TraceQuery, ids: seq<string>, all: seq<TraceSummary>)
    requires OneRowEach(v, q, ids, all)
    ensures NoDup(all)
    ensures forall x, y | x in all && y in all && x != y :: x.traceId != y.traceId
  {
  }

  lemma SortedApart(v: seq<Stored>, q: TraceQuery, ids: seq<string>, all: seq<TraceSummary>, sorted: seq<TraceSummary>)
    requires OneRowEach(v, q, ids, all)
    requires multiset(sorted) == multiset(all) && Sorted(OrderedBy(OrderOf(q.order)), sorted)
    ensures forall i, j | 0 <= i < j < |sorted| :: Before(OrderOf(q.order), sorted[i], sorted[j])
  {
    RowsDiffer(v, q, ids, all);
    NoDupCounts(all);
    NoDupCounts(sorted);
    forall x ensures x in sorted <==> x in all {
      assert x in multiset(sorted) <==> x in multiset(all);
    }
    forall i, j | 0 <= i < j < |sorted| ensures Before(OrderOf(q.order), sorted[i], sorted[j]) {
      assert OrderedBy(OrderOf(q.order))(sorted[i], sorted[j]);
      assert sorted[i] in sorted && sorted[j] in sorted && sorted[i] != sorted[j];
    }
  }

  lemma SortedSummaries(
      v: seq<Stored>, q: TraceQuery, ids: seq<string>, all: seq<TraceSummary>, sorted: seq<TraceSummary>)
    requires OneRowEach(v, q, ids, all)
    requires multiset(sorted) == multiset(all) && Sorted(OrderedBy(OrderOf(q.order)), sorted)
    ensures CompleteList(v, q, sorted)
  {
    SortedApart(v, q, ids, all, sorted);
    forall i | 0 <= i < |sorted| ensures Qualifies(v, q, sorted[i].traceId) && IsSummary(v, q.service, sorted[i]) {
      assert sorted[i] in multiset(all);
      var _ := RowOf(v, q, ids, all, sorted[i]);
    }
    forall id | Qualifies(v, q, id) ensures InAnswer(sorted, id) {
      assert id in ids;
      var k :| 0 <= k < |ids| && ids[k] == id;
      assert all[k] in multiset(sorted);
      var i :| 0 <= i < |sorted| && sorted[i] == all[k];
    }
  }

  lemma CutLeavesOut(v: seq<Stored>, q: TraceQuery, limit: nat, s: seq<TraceSummary>, k: nat)
    requires CompleteList(v, q, s) && limit <= k < |s|
    ensures LeftOut(v, q, limit, s[..limit], s[k].traceId)
  {
    assert Qualifies(v, q, s[k].traceId) && IsSummary(v, q.service, s[k]);
    forall i | 0 <= i < limit ensures Before(OrderOf(q.order), s[..limit][i], Grouped(v, q.service, s[k].traceId)) {
      assert Before(OrderOf(q.order), s[i], s[k]);
    }
  }

  lemma CutIsAnswer(v: seq<Stored>, q: TraceQuery, limit: nat, s: seq<TraceSummary>, r: seq<TraceSummary>)
    requires CompleteList(v, q, s)
    requires r == if |s| <= limit then s else s[..limit]
    ensures IsAnswer(v, q, limit, r)
  {
    forall id | Qualifies(v, q, id) && !InAnswer(r, id) ensures LeftOut(v, q, limit, r, id) {
      assert InAnswer(s, id);
      var k :| 0 <= k < |s| && s[k].traceId == id;
      assert k >= |r|;
      CutLeavesOut(v, q, limit, s, k);
    }
  }

  /** One row for each qualifying trace, ordered and cut, is an answer. */
  lemma OrderedCutIsAnswer(v: seq<Stored>, q: TraceQuery, limit: nat, ids: seq<string>, all: seq<TraceSummary>)
    requires OneRowEach(v, q, ids, all)
    ensures IsAnswer(v, q, limit, OrderedCut(OrderOf(q.order), all, limit))
  {
    var o := OrderOf(q.order);
    OrderedByTotal(o, all);
    SortSorts(OrderedBy(o), all);
    SortPermutes(OrderedBy(o), all);
    SortedSummaries(v, q, ids, all, Sort(OrderedBy(o), all));
    CutIsAnswer(v, q, limit, Sort(OrderedBy(o), all), OrderedCut(o, all, limit));
  }

  // ---------------------------------------------------------------- when root names are determined

  /** The earliest roots share one name; so it is when there is one of them, or none. */
  ghost predicate OneRootName(trace: seq<SpanFields>) {
    forall x, y | IsEarliestRoot(trace, x) && IsEarliestRoot(trace, y) :: x.name == y.name
  }

  ghost predicate OneNameFits(trace: seq<SpanFields>) {
    forall m, n | IsRootName(trace, m) && IsRootName(trace, n) :: m == n
  }

  /** The root name of a trace is determined if and only if its earliest roots share one name. */
  lemma RootNameDetermined(trace: seq<SpanFields>)
    ensures OneNameFits(trace) <==> OneRootName(trace)
  {
    forall x | IsEarliestRoot(trace, x) ensures IsRootName(trace, x.name) {
    }
  }

  /** The traces of the rows have determined root names. */
  ghost predicate NamesDetermined(v: seq<Stored>, rows: seq<TraceSummary>) {
    forall i | 0 <= i < |rows| :: OneRootName(Trace(v, rows[i].traceId))
  }

  /** Then the limit cuts the rows with their names. */
  lemma NamedPrefix(v: seq<Stored>, q: TraceQuery, n: nat, m: nat, a: seq<TraceSummary>, b: seq<TraceSummary>)
    requires IsAnswer(v, q, n, a) && IsAnswer(v, q, m, b) && n <= m && NamesDetermined(v, a)
    ensures a <= b
  {
    LimitOnlyCuts(v, q, n, m, a, b);
    forall i | 0 <= i < |a| ensures a[i] == b[i] {
      assert SameRow(a[i], b[i]);
      assert IsSummary(v, q.service, a[i]) && IsSummary(v, q.service, b[i]);
      RootNameDetermined(Trace(v, a[i].traceId));
    }
  }

  lemma OtherName(trace: seq<SpanFields>, name: string) returns (other: string)
    requires !OneRootName(trace)
    ensures IsRootName(trace, other) && other != name
  {
    RootNameDetermined(trace);
    var m, n :| IsRootName(trace, m) && IsRootName(trace, n) && m != n;
    other := if m == name then n else m;
  }

  /** Apart from their names, the rows are the same. */
  ghost predicate SameRows(c: seq<TraceSummary>, d: seq<TraceSummary>) {
    |c| == |d| && forall j | 0 <= j < |c| :: SameRow(c[j], d[j])
  }

  lemma SameTraces(c: seq<TraceSummary>, d: seq<TraceSummary>, id: string)
    requires SameRows(c, d) && InAnswer(c, id)
    ensures InAnswer(d, id)
  {
    var j :| 0 <= j < |c| && c[j].traceId == id;
    assert SameRow(c[j], d[j]);
  }

  lemma RenamedLeftOut(
      v: seq<Stored>, q: TraceQuery, m: nat, c: seq<TraceSummary>, d: seq<TraceSummary>, id: string)
    requires SameRows(c, d) && LeftOut(v, q, m, c, id)
    ensures LeftOut(v, q, m, d, id)
  {
    forall j | 0 <= j < |d| ensures Before(OrderOf(q.order), d[j], Grouped(v, q.service, id)) {
      assert SameRow(c[j], d[j]) && Before(OrderOf(q.order), c[j], Grouped(v, q.service, id));
    }
  }

  lemma RenamedRow(v: seq<Stored>, service: string, s: TraceSummary, r: TraceSummary)
    requires IsSummary(v, service, s) && SameRow(s, r) && IsRootName(Trace(v, r.traceId), r.rootName)
    ensures IsSummary(v, service, r)
  {
  }

  lemma RenamedOrder(o: Order, c: seq<TraceSummary>, d: seq<TraceSummary>)
    requires SameRows(c, d) && forall j, k | 0 <= j < k < |c| :: Before(o, c[j], c[k])
    ensures forall j, k | 0 <= j < k < |d| :: Before(o, d[j], d[k])
  {
    forall j, k | 0 <= j < k < |d| ensures Before(o, d[j], d[k]) {
      assert SameRow(c[j], d[j]) && SameRow(c[k], d[k]) && Before(o, c[j], c[k]);
    }
  }

  ghost predicate NamesFit(v: seq<Stored>, d: seq<TraceSummary>) {
    forall j | 0 <= j < |d| :: IsRootName(Trace(v, d[j].traceId), d[j].rootName)
  }

  /** The rows of an answer may carry any names that fit. */
  lemma NamesAreFree(v: seq<Stored>, q: TraceQuery, m: nat, c: seq<TraceSummary>, d: seq<TraceSummary>)
    requires IsAnswer(v, q, m, c) && SameRows(c, d) && NamesFit(v, d)
    ensures IsAnswer(v, q, m, d)
  {
    RenamedOrder(OrderOf(q.order), c, d);
    forall j | 0 <= j < |d| ensures Qualifies(v, q, d[j].traceId) && IsSummary(v, q.service, d[j]) {
      assert SameRow(c[j], d[j]) && Qualifies(v, q, c[j].traceId);
      RenamedRow(v, q.service, c[j], d[j]);
    }
    forall id | Qualifies(v, q, id) && !InAnswer(d, id) ensures LeftOut(v, q, m, d, id) {
      if InAnswer(c, id) {
        SameTraces(c, d, id);
      }
      RenamedLeftOut(v, q, m, c, d, id);
    }
  }

  lemma Renamed(v: seq<Stored>, q: TraceQuery, m: nat, c: seq<TraceSummary>, i: nat, name: string)
    requires IsAnswer(v, q, m, c) && i < |c| && IsRootName(Trace(v, c[i].traceId), name)
    ensures IsAnswer(v, q, m, c[i := c[i].(rootName := name)])
  {
    var d := c[i := c[i].(rootName := name)];
    forall j | 0 <= j < |d| ensures IsRootName(Trace(v, d[j].traceId), d[j].rootName) {
      assert IsSummary(v, q.service, c[j]);
    }
    NamesAreFree(v, q, m, c, d);
  }

  /** A trace whose root name is not determined can be shown under another one. */
  lemma NotAPrefix(v: seq<Stored>, q: TraceQuery, m: nat, c: seq<TraceSummary>, i: nat, name: string)
      returns (d: seq<TraceSummary>)
    requires IsAnswer(v, q, m, c) && i < |c| && !OneRootName(Trace(v, c[i].traceId))
    ensures IsAnswer(v, q, m, d) && |d| == |c| && d[i].rootName != name
  {
    var other := OtherName(Trace(v, c[i].traceId), name);
    Renamed(v, q, m, c, i, other);
    d := c[i := c[i].(rootName := other)];
  }

  ghost predicate PrefixOfAll(v: seq<Stored>, q: TraceQuery, m: nat, a: seq<TraceSummary>) {
    forall b | IsAnswer(v, q, m, b) :: a <= b
  }

  lemma PrefixNeedsNames(
      v: seq<Stored>, q: TraceQuery, n: nat, m: nat, a: seq<TraceSummary>, c: seq<TraceSummary>, i: nat)
    requires IsAnswer(v, q, n, a) && IsAnswer(v, q, m, c) && n <= m
    requires i < |a| && !OneRootName(Trace(v, a[i].traceId))
    ensures !PrefixOfAll(v, q, m, a)
  {
    LimitOnlyCuts(v, q, n, m, a, c);
    assert SameRow(a[i], c[i]);
    var d := NotAPrefix(v, q, m, c, i, a[i].rootName);
    assert d[i] != a[i];
  }

  /**
   An answer, root names included, is a prefix of every answer for a limit that is no smaller if and only if the root
   names of its traces are determined. With equal limits this says when the answer is the only one.
   */
  lemma PrefixIffDetermined(
      v: seq<Stored>, q: TraceQuery, n: nat, m: nat, a: seq<TraceSummary>, c: seq<TraceSummary>)
    requires IsAnswer(v, q, n, a) && IsAnswer(v, q, m, c) && n <= m
    ensures PrefixOfAll(v, q, m, a) <==> NamesDetermined(v, a)
  {
    if NamesDetermined(v, a) {
      forall b | IsAnswer(v, q, m, b) ensures a <= b {
        NamedPrefix(v, q, n, m, a, b);
      }
    } else {
      var i :| 0 <= i < |a| && !OneRootName(Trace(v, a[i].traceId));
      PrefixNeedsNames(v, q, n, m, a, c, i);
    }
  }
}
