/** The summary of a trace and the spans of the trace, asked for separately, agree. */
module SummaryAgreement {
  import opened Seqs
  import opened Otlp
  import opened SpanStore
  import opened BatchLoad
  import opened TraceQueries
  import opened SpanQueries

  lemma {:induction false} FilterSame<T>(f: T -> bool, g: T -> bool, s: seq<T>)
    requires forall x | x in s :: f(x) <==> g(x)
    ensures Filter(f, s) == Filter(g, s)
  {
    if s != [] {
      FilterSame(f, g, s[1..]);
    }
  }

  lemma {:induction false} FilterTwice<T>(f: T -> bool, g: T -> bool, h: T -> bool, s: seq<T>)
    requires forall x | x in s :: h(x) <==> f(x) && g(x)
    ensures Filter(g, Filter(f, s)) == Filter(h, s)
  {
    if s != [] {
      FilterTwice(f, g, h, s[1..]);
    }
  }

  lemma SameMembers<T>(a: seq<T>, b: seq<T>, x: T)
    requires multiset(a) == multiset(b)
    ensures x in a <==> x in b
    ensures |a| == |b|
  {
    assert x in multiset(a) <==> x in multiset(b);
    assert |a| == |multiset(a)| == |multiset(b)| == |b|;
  }

  lemma {:induction false} MinStartIs(xs: seq<SpanFields>)
    requires xs != []
    ensures exists x :: x in xs && x.startTime == MinStart(xs)
    ensures forall x | x in xs :: MinStart(xs) <= x.startTime
  {
    assert xs[0] in xs;
    if |xs| > 1 {
      MinStartIs(xs[1..]);
      var x :| x in xs[1..] && x.startTime == MinStart(xs[1..]);
      assert x in xs;
      forall y | y in xs ensures MinStart(xs) <= y.startTime {
        assert y == xs[0] || y in xs[1..];
      }
    }
  }

  lemma {:induction false} MaxEndIs(xs: seq<SpanFields>)
    requires xs != []
    ensures exists x :: x in xs && x.endTime == MaxEnd(xs)
    ensures forall x | x in xs :: x.endTime <= MaxEnd(xs)
  {
    assert xs[0] in xs;
    if |xs| > 1 {
      MaxEndIs(xs[1..]);
      var x :| x in xs[1..] && x.endTime == MaxEnd(xs[1..]);
      assert x in xs;
      forall y | y in xs ensures y.endTime <= MaxEnd(xs) {
        assert y == xs[0] || y in xs[1..];
      }
    }
  }

  predicate IsErrorSpan(o: LoadedSpan) {
    o.fields.statusCode == 2
  }

  function LoadedFields(os: seq<LoadedSpan>): seq<SpanFields> {
    if os == [] then [] else [os[0].fields] + LoadedFields(os[1..])
  }

  lemma {:induction false} LoadedFieldsAt(os: seq<LoadedSpan>)
    ensures |LoadedFields(os)| == |os| && forall i | 0 <= i < |os| :: LoadedFields(os)[i] == os[i].fields
    ensures |Filter(IsErrorSpan, os)| == |Filter(IsError, LoadedFields(os))|
  {
    if os != [] {
      LoadedFieldsAt(os[1..]);
    }
  }

  lemma {:induction false} ShownFields(c: Codec, xs: seq<Stored>, os: seq<LoadedSpan>)
    requires ShowsAll(c, xs, os)
    ensures LoadedFields(os) == Fields(xs)
  {
    if xs != [] {
      assert ShowsSpan(c, xs[0], os[0]);
      forall i | 0 <= i < |xs[1..]| ensures ShowsSpan(c, xs[1..][i], os[1..][i]) {
        assert ShowsSpan(c, xs[i + 1], os[i + 1]);
      }
      ShownFields(c, xs[1..], os[1..]);
    }
  }

  lemma {:induction false} FieldsAppend(a: seq<Stored>, b: seq<Stored>)
    ensures Fields(a + b) == Fields(a) + Fields(b)
  {
    if a == [] {
      assert a + b == b;
    } else {
      assert (a + b)[1..] == a[1..] + b;
      FieldsAppend(a[1..], b);
    }
  }

  lemma {:induction false} FieldsPermute(a: seq<Stored>, b: seq<Stored>)
    requires multiset(a) == multiset(b)
    ensures multiset(Fields(a)) == multiset(Fields(b))
    decreases |a|
  {
    if a == [] {
      assert |multiset(b)| == 0;
    } else {
      var j := TakeOut(a, b);
      FieldsPermute(a[1..], b[..j] + b[j + 1..]);
      FieldsAppend(b[..j], b[j + 1..]);
      FieldsAppend(b[..j] + [a[0]], b[j + 1..]);
      FieldsAppend(b[..j], [a[0]]);
    }
  }

  lemma ShownInOrder(c: Codec, sel: seq<Stored>, spans: seq<LoadedSpan>, i: nat, j: nat)
    requires ShowsAll(c, sel, spans) && i < j < |spans| && sel[i].fields.startTime <= sel[j].fields.startTime
    ensures spans[i].fields.startTime <= spans[j].fields.startTime
  {
    assert ShowsSpan(c, sel[i], spans[i]) && ShowsSpan(c, sel[j], spans[j]);
  }

  /** An answer comes in start order. */
  lemma AnswerInOrder(
      c: Codec, v: seq<Stored>, traceId: string, service: string, status: Option<int>, sel: seq<Stored>,
      spans: seq<LoadedSpan>)
    requires IsTraceAnswer(c, v, traceId, service, status, sel, spans)
    ensures forall i, j | 0 <= i < j < |spans| :: spans[i].fields.startTime <= spans[j].fields.startTime
  {
    forall i, j | 0 <= i < j < |spans| ensures spans[i].fields.startTime <= spans[j].fields.startTime {
      ShownInOrder(c, sel, spans, i, j);
    }
  }

  /** Without filters an answer has exactly the trace's rows. */
  lemma AnswerIsTrace(c: Codec, v: seq<Stored>, traceId: string, sel: seq<Stored>, spans: seq<LoadedSpan>)
    requires IsTraceAnswer(c, v, traceId, "", None, sel, spans)
    ensures multiset(LoadedFields(spans)) == multiset(Trace(v, traceId))
  {
    FilterSame(OfTrace(traceId, "", None), InTrace(traceId), v);
    ShownFields(c, sel, spans);
    FieldsPermute(sel, Filter(InTrace(traceId), v));
  }

  /** The first row starts when the group starts. */
  lemma StartAgrees(trace: seq<SpanFields>, fs: seq<SpanFields>)
    requires trace != [] && multiset(fs) == multiset(trace)
    requires forall i, j | 0 <= i < j < |fs| :: fs[i].startTime <= fs[j].startTime
    ensures fs != [] && fs[0].startTime == MinStart(trace)
  {
    MinStartIs(trace);
    var x :| x in trace && x.startTime == MinStart(trace);
    SameMembers(fs, trace, x);
    var i :| 0 <= i < |fs| && fs[i] == x;
    SameMembers(fs, trace, fs[0]);
  }

  /** The latest end among the rows is the end of the group. */
  lemma EndAgrees(trace: seq<SpanFields>, fs: seq<SpanFields>)
    requires trace != [] && multiset(fs) == multiset(trace)
    ensures exists i :: 0 <= i < |fs| && fs[i].endTime == MaxEnd(trace)
    ensures forall i | 0 <= i < |fs| :: fs[i].endTime <= MaxEnd(trace)
  {
    MaxEndIs(trace);
    var x :| x in trace && x.endTime == MaxEnd(trace);
    SameMembers(fs, trace, x);
    var i :| 0 <= i < |fs| && fs[i] == x;
    forall j | 0 <= j < |fs| ensures fs[j].endTime <= MaxEnd(trace) {
      SameMembers(fs, trace, fs[j]);
    }
  }

  lemma LoadedFieldsMember(os: seq<LoadedSpan>, f: SpanFields)
    ensures f in LoadedFields(os) <==> exists o :: o in os && o.fields == f
  {
    LoadedFieldsAt(os);
    if f in LoadedFields(os) {
      var i :| 0 <= i < |os| && LoadedFields(os)[i] == f;
      assert os[i] in os;
    }
    if o :| o in os && o.fields == f {
      var i :| 0 <= i < |os| && os[i] == o;
      assert LoadedFields(os)[i] == f;
    }
  }

  predicate HasNoParent(o: LoadedSpan) {
    o.fields.parentSpanId == "0000000000000000"
  }

  /** The name of an earliest of the spans without a parent, or nothing if there is none. */
  ghost predicate NamesRoot(name: string, spans: seq<LoadedSpan>) {
    && ((forall o | o in spans :: !HasNoParent(o)) ==> name == "")
    && ((exists o :: o in spans && HasNoParent(o)) ==>
         exists r ::
           && r in spans && HasNoParent(r) && r.fields.name == name
           && forall o | o in spans && HasNoParent(o) :: r.fields.startTime <= o.fields.startTime)
  }

  /** The root name of the group is that of an earliest root among the spans. */
  lemma RootNameAgrees(trace: seq<SpanFields>, name: string, spans: seq<LoadedSpan>)
    requires IsRootName(trace, name) && multiset(LoadedFields(spans)) == multiset(trace)
    ensures NamesRoot(name, spans)
  {
    forall o | o in spans ensures o.fields in trace {
      LoadedFieldsMember(spans, o.fields);
      SameMembers(LoadedFields(spans), trace, o.fields);
    }
    if HasRoot(trace) {
      var x :| IsEarliestRoot(trace, x) && x.name == name;
      SameMembers(LoadedFields(spans), trace, x);
      LoadedFieldsMember(spans, x);
      var r :| r in spans && r.fields == x;
      assert HasNoParent(r);
    }
  }

  lemma SameCount<T>(a: seq<T>, b: seq<T>)
    requires multiset(a) == multiset(b)
    ensures |a| == |b|
  {
    assert |a| == |multiset(a)| == |multiset(b)| == |b|;
  }

  /** Counts, start, end, duration and root name of the summary are those of the spans. */
  ghost predicate Fits(s: TraceSummary, spans: seq<LoadedSpan>) {
    && |spans| == s.spanCount && |Filter(IsErrorSpan, spans)| == s.errorCount
    && spans != [] && spans[0].fields.startTime == s.startTime
    && (exists i :: 0 <= i < |spans| && spans[i].fields.endTime == s.endTime)
    && (forall i | 0 <= i < |spans| :: spans[i].fields.endTime <= s.endTime)
    && s.duration == s.endTime - s.startTime
    && NamesRoot(s.rootName, spans)
  }

  /** A summary fits the unfiltered spans of its trace. */
  lemma SummaryAgrees(
      c: Codec, v: seq<Stored>, service: string, s: TraceSummary, sel: seq<Stored>, spans: seq<LoadedSpan>)
    requires IsSummary(v, service, s) && IsTraceAnswer(c, v, s.traceId, "", None, sel, spans)
    ensures Fits(s, spans) && s.serviceName == service
  {
    var trace, fs := Trace(v, s.traceId), LoadedFields(spans);
    AnswerIsTrace(c, v, s.traceId, sel, spans);
    AnswerInOrder(c, v, s.traceId, "", None, sel, spans);
    LoadedFieldsAt(spans);
    assert s.(rootName := "") == Grouped(v, service, s.traceId);
    StartAgrees(trace, fs);
    EndAgrees(trace, fs);
    var i :| 0 <= i < |fs| && fs[i].endTime == MaxEnd(trace);
    assert spans[i].fields.endTime == s.endTime;
    FilterPermutes(IsError, fs, trace);
    SameMembers(fs, trace, fs[0]);
    SameCount(Filter(IsError, fs), Filter(IsError, trace));
    RootNameAgrees(trace, s.rootName, spans);
  }

  lemma {:induction false} ErrorRows(xs: seq<Stored>)
    ensures |Filter((x: Stored) => IsError(x.fields), xs)| == |Filter(IsError, Fields(xs))|
  {
    if xs != [] {
      ErrorRows(xs[1..]);
    }
  }

  /** Asking for the trace's errors gives as many spans as the summary counts. */
  lemma ErrorsAgree(
      c: Codec, v: seq<Stored>, service: string, s: TraceSummary, sel: seq<Stored>, spans: seq<LoadedSpan>)
    requires IsSummary(v, service, s) && IsTraceAnswer(c, v, s.traceId, "", Some(2), sel, spans)
    ensures |spans| == s.errorCount
    ensures forall i | 0 <= i < |spans| :: IsErrorSpan(spans[i])
  {
    var wanted := OfTrace(s.traceId, "", Some(2));
    var isError := (x: Stored) => IsError(x.fields);
    FilterTwice(InTrace(s.traceId), isError, wanted, v);
    ErrorRows(Filter(InTrace(s.traceId), v));
    assert s.(rootName := "") == Grouped(v, service, s.traceId);
    SameCount(sel, Filter(wanted, v));
    forall i | 0 <= i < |spans| ensures IsErrorSpan(spans[i]) {
      SameMembers(sel, Filter(wanted, v), sel[i]);
      FilterMember(wanted, v, sel[i]);
      assert ShowsSpan(c, sel[i], spans[i]);
    }
  }
}
