/**
 The hook that fetches the trace list: its state, the requests it has started, and what every run of it keeps. A
 request that was aborted may still resolve, if its rows had already arrived; its rejection is ignored.
 */
module UseTraces {
  import opened Seqs
  import opened Texts
  import opened SpanStore
  import opened TraceQueries
  import opened SearchUrl

  datatype Status = Idle | Loading | Success | Error

  datatype Outcome = Pending | Resolved(rows: seq<TraceSummary>) | Rejected

  /** One run of the effect with a query: the fetch it started and its abort controller. */
  datatype Fetch = Fetch(query: ClientQuery, aborted: bool, outcome: Outcome)

  datatype State = State(
    status: Status, data: seq<TraceSummary>, error: Option<string>, previous: Option<ClientQuery>,
    query: Option<ClientQuery>, fetches: seq<Fetch>)

  datatype Event =
    | QueryChanged(query: Option<ClientQuery>)
    | Resolve(fetch: nat, rows: seq<TraceSummary>)
    | Reject(fetch: nat, message: string)

  const INIT := State(Idle, [], None, None, None, [])

  // ---------------------------------------------------------------- load-more queries

  /** The two ask for the same traces, and next for more of them. */
  predicate IsLoadMore(previous: Option<ClientQuery>, next: ClientQuery) {
    && previous.Some?
    && var p := previous.value;
      && p.service == next.service && p.start == next.start && p.end == next.end && p.order == next.order
      && p.hasError == next.hasError && p.limit < next.limit && SamePairs(p.filters, next.filters)
  }

  method SameFilters(left: seq<UrlFilter>, right: seq<UrlFilter>) returns (same: bool)
    ensures same <==> SamePairs(left, right)
  {
    if |left| != |right| {
      return false;
    }
    for i := 0 to |left|
      invariant forall j | 0 <= j < i :: left[j].key == right[j].key && left[j].value == right[j].value
    {
      if left[i].key != right[i].key || left[i].value != right[i].value {
        return false;
      }
    }
    same := true;
  }

  method IsLoadMoreQuery(previous: Option<ClientQuery>, next: ClientQuery) returns (yes: bool)
    ensures yes <==> IsLoadMore(previous, next)
    ensures yes ==> previous.Some? && next == previous.value.(limit := next.limit, filters := next.filters)
    ensures yes ==> previous.value.limit < next.limit && |previous.value.filters| == |next.filters|
    ensures previous.Some? && previous.value.limit < next.limit && next == previous.value.(limit := next.limit) ==> yes
  {
    if previous.None? {
      return false;
    }
    var p := previous.value;
    if p.service != next.service {
      return false;
    }
    if p.start != next.start || p.end != next.end {
      return false;
    }
    if p.order != next.order {
      return false;
    }
    if p.hasError != next.hasError {
      return false;
    }
    if p.limit >= next.limit {
      return false;
    }
    yes := SameFilters(p.filters, next.filters);
  }

  // ---------------------------------------------------------------- steps

  /** The cleanup of the last effect, if it started a fetch. */
  function AbortLast(s: State): seq<Fetch> {
    if s.query.None? || s.fetches == [] then s.fetches
    else s.fetches[|s.fetches| - 1 := s.fetches[|s.fetches| - 1].(aborted := true)]
  }

  /** The effect runs when the query has changed; a fetch settles once. */
  predicate Enabled(s: State, e: Event) {
    match e
    case QueryChanged(q) => q != s.query
    case Resolve(i, _) => i < |s.fetches| && s.fetches[i].outcome.Pending?
    case Reject(i, _) => i < |s.fetches| && s.fetches[i].outcome.Pending?
  }

  function Step(s: State, e: Event): State
    requires Enabled(s, e)
  {
    match e
    case QueryChanged(None) => State(Idle, [], None, s.previous, None, AbortLast(s))
    case QueryChanged(Some(q)) =>
      State(
        Loading, if IsLoadMore(s.previous, q) then s.data else [], None, s.previous, Some(q),
        AbortLast(s) + [Fetch(q, false, Pending)])
    case Resolve(i, rows) =>
      State(
        Success, rows, None, Some(s.fetches[i].query), s.query,
        s.fetches[i := s.fetches[i].(outcome := Resolved(rows))])
    case Reject(i, message) =>
      var fetches := s.fetches[i := s.fetches[i].(outcome := Rejected)];
      if s.fetches[i].aborted then s.(fetches := fetches)
      else State(Error, [], Some(message), s.previous, s.query, fetches)
  }

  /** The hook itself: the state it shows, the ref, and the fetches under way. */
  class Hook {
    var status: Status
    var data: seq<TraceSummary>
    var error: Option<string>
    var previousQuery: Option<ClientQuery>
    var query: Option<ClientQuery>
    var fetches: seq<Fetch>

    constructor ()
      ensures Now() == INIT
    {
      status, data, error := Idle, [], None;
      previousQuery, query, fetches := None, None, [];
    }

    function Now(): State
      reads this
    {
      State(status, data, error, previousQuery, query, fetches)
    }

    /** The cleanup of the effect before, then the effect. */
    method Effect(next: Option<ClientQuery>)
      requires Enabled(Now(), QueryChanged(next))
      modifies this
      ensures Now() == Step(old(Now()), QueryChanged(next))
      ensures query == next && previousQuery == old(previousQuery) && error == None
      ensures next == None ==> status == Idle && data == [] && |fetches| == |old(fetches)|
      ensures next != None ==> status == Loading && |fetches| == |old(fetches)| + 1
      ensures next != None ==> fetches[|old(fetches)|] == Fetch(next.value, false, Pending)
      ensures next != None ==> data == if IsLoadMore(old(previousQuery), next.value) then old(data) else []
      ensures forall i | 0 <= i < |old(fetches)| ::
        && fetches[i].query == old(fetches)[i].query && fetches[i].outcome == old(fetches)[i].outcome
        && (fetches[i].aborted <==>
            old(fetches)[i].aborted || (i == |old(fetches)| - 1 && old(query) != None))
    {
      if query.Some? && |fetches| > 0 {
        var last := |fetches| - 1;
        fetches := fetches[last := fetches[last].(aborted := true)];
      }
      query := next;
      if next.None? {
        status, data, error := Idle, [], None;
        return;
      }
      var isLoadMore := IsLoadMoreQuery(previousQuery, next.value);
      if !isLoadMore {
        data := [];
      }
      status, error := Loading, None;
      fetches := fetches + [Fetch(next.value, false, Pending)];
    }

    method OnResolve(i: nat, rows: seq<TraceSummary>)
      requires Enabled(Now(), Resolve(i, rows))
      modifies this
      ensures Now() == Step(old(Now()), Resolve(i, rows))
      ensures status == Success && data == rows && error == None
      ensures previousQuery == Some(old(fetches)[i].query) && query == old(query)
      ensures fetches == old(fetches)[i := old(fetches)[i].(outcome := Resolved(rows))]
    {
      status, data, error := Success, rows, None;
      previousQuery := Some(fetches[i].query);
      fetches := fetches[i := fetches[i].(outcome := Resolved(rows))];
    }

    method OnReject(i: nat, message: string)
      requires Enabled(Now(), Reject(i, message))
      modifies this
      ensures Now() == Step(old(Now()), Reject(i, message))
      ensures old(fetches)[i].aborted ==> status == old(status) && data == old(data) && error == old(error)
      ensures !old(fetches)[i].aborted ==> status == Error && data == [] && error == Some(message)
      ensures previousQuery == old(previousQuery) && query == old(query)
      ensures fetches == old(fetches)[i := old(fetches)[i].(outcome := Rejected)]
    {
      var aborted := fetches[i].aborted;
      fetches := fetches[i := fetches[i].(outcome := Rejected)];
      if aborted {
        return;
      }
      status, data, error := Error, [], Some(message);
    }
  }

  // ---------------------------------------------------------------- what every run keeps

  predicate IsSource(s: State, i: nat)
    requires i < |s.fetches|
  {
    s.previous == Some(s.fetches[i].query) && s.fetches[i].outcome == Resolved(s.data)
  }

  /** Some fetch for the previous query brought exactly the data. */
  ghost predicate Fetched(s: State) {
    && s.previous.Some?
    && exists i :: 0 <= i < |s.fetches| && IsSource(s, i)
  }

  /** Only the last fetch may be live, and it is for the current query. */
  ghost predicate OneLive(s: State) {
    && (forall i | 0 <= i < |s.fetches| && !s.fetches[i].aborted ::
         i == |s.fetches| - 1 && s.query == Some(s.fetches[i].query))
    && (s.query.Some? ==> s.fetches != [] && !s.fetches[|s.fetches| - 1].aborted)
  }

  ghost predicate Inv(s: State) {
    && OneLive(s)
    && (s.data == [] || Fetched(s))
    && (s.status == Success ==> Fetched(s))
    && (s.status == Idle || s.status == Error ==> s.data == [])
    && (s.status == Loading && s.data != [] ==> s.query.Some? && IsLoadMore(s.previous, s.query.value))
    && (s.status == Loading ==> s.query.Some?)
  }

  lemma SourceStays(s: State, t: State, i: nat)
    requires i < |s.fetches| <= |t.fetches| && IsSource(s, i)
    requires t.previous == s.previous && t.data == s.data
    requires t.fetches[i].query == s.fetches[i].query && t.fetches[i].outcome == s.fetches[i].outcome
    ensures Fetched(t)
  {
    assert IsSource(t, i);
  }

  lemma StepKeepsInv(s: State, e: Event)
    requires Inv(s) && Enabled(s, e)
    ensures Inv(Step(s, e))
  {
    var t := Step(s, e);
    if s.data != [] && t.data == s.data && t.previous == s.previous {
      var i :| 0 <= i < |s.fetches| && IsSource(s, i);
      SourceStays(s, t, i);
    } else if s.status == Success && e.Reject? && s.fetches[e.fetch].aborted {
      var i :| 0 <= i < |s.fetches| && IsSource(s, i);
      SourceStays(s, t, i);
    }
    if e.Resolve? {
      assert IsSource(t, e.fetch);
    }
  }

  // ---------------------------------------------------------------- runs

  predicate Legal(s: State, events: seq<Event>)
    decreases |events|
  {
    events == [] || (Enabled(s, events[0]) && Legal(Step(s, events[0]), events[1..]))
  }

  function After(s: State, events: seq<Event>): State
    requires Legal(s, events)
    decreases |events|
  {
    if events == [] then s else After(Step(s, events[0]), events[1..])
  }

  /** Over every run, what is displayed is nothing or exactly what was fetched for the previous query. */
  lemma {:induction false} RunsShowFetched(s: State, events: seq<Event>)
    requires Inv(s) && Legal(s, events)
    ensures Inv(After(s, events))
    ensures After(s, events).data == [] || Fetched(After(s, events))
    decreases |events|
  {
    if events != [] {
      StepKeepsInv(s, events[0]);
      RunsShowFetched(Step(s, events[0]), events[1..]);
    }
  }

  lemma InitInv()
    ensures Inv(INIT)
  {
  }

  // ---------------------------------------------------------------- stale answers

  /** It shows an answer, but not one for the current query. */
  predicate Stale(s: State) {
    s.status == Success && s.previous != s.query
  }

  /** A fetch resolves although the query has moved on. */
  predicate IsLate(s: State, e: Event)
    requires Enabled(s, e)
  {
    e.Resolve? && s.fetches[e.fetch].aborted && s.query != Some(s.fetches[e.fetch].query)
  }

  /** A rejection that changes nothing on screen. */
  predicate IsIgnored(s: State, e: Event)
    requires Enabled(s, e)
  {
    e.Reject? && s.fetches[e.fetch].aborted
  }

  /** One step leaves a stale answer if it is a late resolve, or a rejection that is ignored. */
  lemma StaleStep(s: State, e: Event)
    requires Inv(s) && Enabled(s, e)
    ensures Stale(Step(s, e)) <==> IsLate(s, e) || (IsIgnored(s, e) && Stale(s))
  {
  }

  ghost predicate AllIgnored(s: State, events: seq<Event>)
    requires Legal(s, events)
    decreases |events|
  {
    events != [] ==> IsIgnored(s, events[0]) && AllIgnored(Step(s, events[0]), events[1..])
  }

  /** Some fetch resolves late, and after that only rejections come that are ignored. */
  ghost predicate LateAtLast(s: State, events: seq<Event>)
    requires Legal(s, events)
    decreases |events|
  {
    && events != []
    && var t := Step(s, events[0]);
      (IsLate(s, events[0]) && AllIgnored(t, events[1..])) || LateAtLast(t, events[1..])
  }

  /**
   When exactly a run ends with a stale answer on screen: after a late resolve that nothing but ignored rejections
   followed, or if it began with one and nothing but ignored rejections came.
   */
  lemma {:induction false} StaleExactly(s: State, events: seq<Event>)
    requires Inv(s) && Legal(s, events)
    ensures Stale(After(s, events)) <==> LateAtLast(s, events) || (Stale(s) && AllIgnored(s, events))
    decreases |events|
  {
    if events != [] {
      StepKeepsInv(s, events[0]);
      StaleStep(s, events[0]);
      StaleExactly(Step(s, events[0]), events[1..]);
    }
  }

  ghost predicate NeverLate(s: State, events: seq<Event>)
    requires Legal(s, events)
    decreases |events|
  {
    events != [] ==> !IsLate(s, events[0]) && NeverLate(Step(s, events[0]), events[1..])
  }

  /** Without late resolves a shown answer is always the current query's. */
  lemma {:induction false} NotLateNotStale(s: State, events: seq<Event>)
    requires Inv(s) && !Stale(s) && Legal(s, events) && NeverLate(s, events)
    ensures !Stale(After(s, events))
    ensures After(s, events).status == Success ==>
      Fetched(After(s, events)) && After(s, events).previous == After(s, events).query
    decreases |events|
  {
    RunsShowFetched(s, events);
    if events != [] {
      StepKeepsInv(s, events[0]);
      StaleStep(s, events[0]);
      NotLateNotStale(Step(s, events[0]), events[1..]);
    }
  }

  /** It does happen: the answer to a query that was replaced arrives last and is shown for the new one. */
  lemma StaleHappens(a: ClientQuery, b: ClientQuery, rows: seq<TraceSummary>) returns (events: seq<Event>)
    requires a != b
    ensures Legal(INIT, events) && |events| == 3
    ensures
      var s := After(INIT, events);
      s.status == Success && s.data == rows && s.previous == Some(a) && s.query == Some(b) && Stale(s)
  {
    var e, f, g := QueryChanged(Some(a)), QueryChanged(Some(b)), Resolve(0, rows);
    var s := Step(INIT, e);
    var t := Step(s, f);
    var u := Step(t, g);
    assert Legal(u, []);
    assert [g][1..] == [] && [f, g][1..] == [g] && [e, f, g][1..] == [f, g];
    assert Legal(t, [g]) && After(t, [g]) == u;
    assert Legal(s, [f, g]) && After(s, [f, g]) == u;
    events := [e, f, g];
  }

  // ---------------------------------------------------------------- load more

  /** What the server is asked by a client's query, if it accepts it. */
  type Asks = ClientQuery -> Option<TraceQuery>

  /** Load-more queries ask for the same traces, with no smaller limit. */
  ghost predicate Consistent(asks: Asks) {
    forall p, q | IsLoadMore(Some(p), q) && asks(p).Some? && asks(q).Some? ::
      asks(p).value == asks(q).value.(limit := asks(p).value.limit) && asks(p).value.limit <= asks(q).value.limit
  }

  /** The rows are an answer of the store to the query as the server read it. */
  ghost predicate FromStore(asks: Asks, v: seq<Stored>, q: ClientQuery, rows: seq<TraceSummary>) {
    match asks(q)
    case Some(asked) => asked.limit > 0 && IsAnswer(v, asked, asked.limit, rows)
    case None => false
  }

  /** The client's printer followed by the server's parser. */
  function Sent(t: NumberText): Asks {
    (q: ClientQuery) => ServerQuery(QueryParams(t, q))
  }

  lemma {:induction false} SamePairsPrint(a: seq<UrlFilter>, b: seq<UrlFilter>)
    requires SamePairs(a, b)
    ensures PrintedFilters(a) == PrintedFilters(b)
  {
    if a != [] {
      SamePairsPrint(a[1..], b[1..]);
    }
  }

  lemma SentSame(t: NumberText, p: ClientQuery, q: ClientQuery)
    requires Lawful(t) && IsLoadMore(Some(p), q)
    ensures
      var a, b := Sent(t)(p), Sent(t)(q);
      a.Some? && b.Some? ==> a.value == b.value.(limit := a.value.limit) && a.value.limit <= b.value.limit
  {
    ServerQueryIs(t, p);
    ServerQueryIs(t, q);
    SamePairsPrint(p.filters, q.filters);
    TrimTrims(t.text(p.limit));
    TrimTrims(t.text(q.limit));
    assert KeepsOrder(t, p.limit, q.limit);
  }

  /** What is sent is consistent. */
  lemma SentConsistent(t: NumberText)
    requires Lawful(t)
    ensures Consistent(Sent(t))
  {
    forall p, q | IsLoadMore(Some(p), q) && Sent(t)(p).Some? && Sent(t)(q).Some?
      ensures
        var a, b := Sent(t)(p).value, Sent(t)(q).value;
        a == b.(limit := a.limit) && a.limit <= b.limit
    {
      SentSame(t, p, q);
    }
  }

  lemma LimitApart(v: seq<Stored>, q: TraceQuery, limit: int, n: nat, r: seq<TraceSummary>)
    requires IsAnswer(v, q, n, r)
    ensures IsAnswer(v, q.(limit := limit), n, r)
  {
  }

  /** On one store, the rows of a query are a prefix of the rows of any load-more of it. */
  lemma LoadMoreExtends(
      asks: Asks, v: seq<Stored>, p: ClientQuery, q: ClientQuery, rows: seq<TraceSummary>, more: seq<TraceSummary>)
    requires Consistent(asks) && IsLoadMore(Some(p), q) && FromStore(asks, v, p, rows) && FromStore(asks, v, q, more)
    ensures RowsPrefix(rows, more)
    ensures NamesDetermined(v, rows) ==> rows <= more
  {
    var a, b := asks(p).value, asks(q).value;
    LimitApart(v, b, a.limit, b.limit, more);
    assert b.(limit := a.limit) == a;
    LimitOnlyCuts(v, a, a.limit, b.limit, rows, more);
    if NamesDetermined(v, rows) {
      NamedPrefix(v, a, a.limit, b.limit, rows, more);
    }
  }

  /** Every fetch that resolved did so with an answer of the store. */
  ghost predicate AllFromStore(asks: Asks, v: seq<Stored>, s: State) {
    forall i | 0 <= i < |s.fetches| && s.fetches[i].outcome.Resolved? ::
      FromStore(asks, v, s.fetches[i].query, s.fetches[i].outcome.rows)
  }

  ghost predicate Honest(asks: Asks, v: seq<Stored>, s: State, e: Event)
    requires Enabled(s, e)
  {
    e.Resolve? ==> FromStore(asks, v, s.fetches[e.fetch].query, e.rows)
  }

  ghost predicate AllHonest(asks: Asks, v: seq<Stored>, s: State, events: seq<Event>)
    requires Legal(s, events)
    decreases |events|
  {
    events != [] ==> Honest(asks, v, s, events[0]) && AllHonest(asks, v, Step(s, events[0]), events[1..])
  }

  lemma {:induction false} RunsFromStore(asks: Asks, v: seq<Stored>, s: State, events: seq<Event>)
    requires Legal(s, events) && AllFromStore(asks, v, s) && AllHonest(asks, v, s, events)
    ensures AllFromStore(asks, v, After(s, events))
    decreases |events|
  {
    if events != [] {
      RunsFromStore(asks, v, Step(s, events[0]), events[1..]);
    }
  }

  /**
   Load more is consistent: after any run over an unchanged store, when the live fetch resolves while its rows are
   awaited, the rows on screen are a prefix of the rows that replace them, with their root names if those are
   determined.
   */
  lemma LoadMoreKeepsRows(asks: Asks, v: seq<Stored>, events: seq<Event>, i: nat, rows: seq<TraceSummary>)
    requires Consistent(asks) && Legal(INIT, events) && AllHonest(asks, v, INIT, events)
    requires
      var s := After(INIT, events);
      && s.status == Loading && Enabled(s, Resolve(i, rows)) && !s.fetches[i].aborted
      && FromStore(asks, v, s.fetches[i].query, rows)
    ensures RowsPrefix(After(INIT, events).data, rows)
    ensures NamesDetermined(v, After(INIT, events).data) ==> After(INIT, events).data <= rows
  {
    var s := After(INIT, events);
    InitInv();
    RunsShowFetched(INIT, events);
    RunsFromStore(asks, v, INIT, events);
    if s.data != [] {
      var j :| 0 <= j < |s.fetches| && IsSource(s, j);
      LoadMoreExtends(asks, v, s.fetches[j].query, s.fetches[i].query, s.data, rows);
    }
  }
}
