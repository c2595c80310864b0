/**
 Loading the events or links of many spans in chunks, against looking them up span by span. The two loaders are the
 same code for two tables; the parts they share are modelled once.
 */
module ChildLoad {
  import opened Seqs
  import opened Sorting
  import opened Texts
  import opened Otlp
  import opened SpanStore
  import opened Tables
  import opened BatchLoad

  /** Rows come in the order of their ids, each its own. */
  ghost predicate IdsRise<F>(rows: seq<ChildRow<F>>) {
    forall i, j | 0 <= i < j < |rows| :: rows[i].id < rows[j].id
  }

  ghost predicate TotalOrder<F(!new)>(le: (F, F) -> bool) {
    && (forall x, y :: le(x, y) || le(y, x))
    && (forall x, y, z | le(x, y) && le(y, z) :: le(x, z))
  }

  lemma EventLeTotal()
    ensures TotalOrder(EventLe)
  {
    forall x, y ensures EventLe(x, y) || EventLe(y, x) {
      StrLeTotal(x.name, y.name);
    }
    forall x, y, z | EventLe(x, y) && EventLe(y, z) ensures EventLe(x, z) {
      if x.time == y.time == z.time {
        StrLeTrans(x.name, y.name, z.name);
      }
    }
  }

  lemma LinkLeTotal()
    ensures TotalOrder(LinkLe)
  {
    forall x, y ensures LinkLe(x, y) || LinkLe(y, x) {
      StrLeTotal(x.spanId, y.spanId);
      StrLeTotal(x.traceId, y.traceId);
    }
    forall x, y, z | LinkLe(x, y) && LinkLe(y, z) ensures LinkLe(x, z) {
      if x.traceId == y.traceId == z.traceId {
        StrLeTrans(x.spanId, y.spanId, z.spanId);
      } else if x.traceId != y.traceId && y.traceId != z.traceId {
        StrLeTrans(x.traceId, y.traceId, z.traceId);
        StrLeTotal(x.traceId, y.traceId);
      }
    }
  }

  /** sortEvents and sortLinks: sort.Slice is not stable, so only sortedness and the elements are promised. */
  method SortLoaded<F(!new)>(le: (F, F) -> bool, list: seq<Loaded<F>>) returns (sorted: seq<Loaded<F>>)
    requires TotalOrder(le)
    ensures multiset(sorted) == multiset(list)
    ensures forall i, j | 0 <= i < j < |sorted| :: le(sorted[i].fields, sorted[j].fields)
  {
    if |list| < 2 {
      return list;
    }
    var lessOrTied := (a: Loaded<F>, b: Loaded<F>) => le(a.fields, b.fields);
    sorted := Sort(lessOrTied, list);
    SortPermutes(lessOrTied, list);
    forall x, y | x in list && y in list ensures lessOrTied(x, y) || lessOrTied(y, x) {
      assert le(x.fields, y.fields) || le(y.fields, x.fields);
    }
    forall x, y, z | x in list && y in list && z in list && lessOrTied(x, y) && lessOrTied(y, z)
      ensures lessOrTied(x, z)
    {
      assert le(x.fields, y.fields) && le(y.fields, z.fields);
    }
    SortSorts(lessOrTied, list);
    assert Sorted(lessOrTied, sorted);
    forall i, j | 0 <= i < j < |sorted| ensures le(sorted[i].fields, sorted[j].fields) {
      assert lessOrTied(sorted[i], sorted[j]);
    }
  }

  /** Both lists lose the same place. */
  lemma AlignedWithout<F>(c: Codec, ws: seq<WithAttrs<F>>, os: seq<Loaded<F>>, j: nat)
    requires Aligned(c, ws, os) && j < |os|
    ensures Aligned(c, ws[..j] + ws[j + 1..], os[..j] + os[j + 1..])
  {
  }

  lemma AlignedCons<F>(c: Codec, w: WithAttrs<F>, ws: seq<WithAttrs<F>>, os: seq<Loaded<F>>)
    requires os != [] && Shows(c, w, os[0]) && Aligned(c, ws, os[1..])
    ensures Aligned(c, [w] + ws, os)
  {
    forall i | 0 <= i < |os| ensures Shows(c, ([w] + ws)[i], os[i]) {
      assert i > 0 ==> Shows(c, ws[i - 1], os[1..][i - 1]);
    }
  }

  /** Rearranging the list can be followed by its sources. */
  lemma {:induction false} AlignedPermutes<F>(c: Codec, ws: seq<WithAttrs<F>>, os: seq<Loaded<F>>, ps: seq<Loaded<F>>)
      returns (vs: seq<WithAttrs<F>>)
    requires Aligned(c, ws, os) && multiset(ps) == multiset(os)
    ensures Aligned(c, vs, ps) && multiset(vs) == multiset(ws)
    decreases |ps|
  {
    if ps == [] {
      assert |multiset(os)| == 0;
      vs := [];
    } else {
      var j := TakeOut(ps, os);
      AlignedWithout(c, ws, os, j);
      var rest := AlignedPermutes(c, ws[..j] + ws[j + 1..], os[..j] + os[j + 1..], ps[1..]);
      AlignedCons(c, ws[j], rest, ps);
      PutFirst(ws, j, rest);
      vs := [ws[j]] + rest;
    }
  }

  function SpanIn<F>(batch: seq<nat>): ChildRow<F> -> bool {
    (r: ChildRow<F>) => r.spanId in batch
  }

  method SelectChildren<F>(rows: seq<ChildRow<F>>, batch: seq<nat>) returns (out: seq<ChildRow<F>>)
    ensures multiset(out) == multiset(Filter(SpanIn(batch), rows))
  {
    out := Filter(SpanIn(batch), rows);
  }

  lemma SelectedChildren<F>(rows: seq<ChildRow<F>>, batch: seq<nat>, out: seq<ChildRow<F>>, r: ChildRow<F>)
    requires multiset(out) == multiset(Filter(SpanIn(batch), rows))
    ensures r in out <==> r in rows && r.spanId in batch
  {
    FilterMember(SpanIn(batch), rows, r);
    assert r in out <==> r in multiset(out);
  }

  lemma {:induction false} RowsForPermutes<F>(
      a: seq<ChildRow<F>>, b: seq<ChildRow<F>>, attrs: seq<AttrRow>, span: nat)
    requires multiset(a) == multiset(b)
    ensures multiset(RowsFor(a, attrs, span)) == multiset(RowsFor(b, attrs, span))
    decreases |a|
  {
    if a == [] {
      assert |multiset(b)| == 0;
    } else {
      var j := TakeOut(a, b);
      RowsForPermutes(a[1..], b[..j] + b[j + 1..], attrs, span);
      RowsForAppend(b[..j], b[j + 1..], attrs, span);
      RowsForAppend(b[..j] + [a[0]], b[j + 1..], attrs, span);
      RowsForAppend(b[..j], [a[0]], attrs, span);
      RowsForAppend([a[0]], a[1..], attrs, span);
      assert [a[0]] + a[1..] == a;
    }
  }

  lemma {:induction false} RowsForFiltered<F>(rows: seq<ChildRow<F>>, ids: seq<nat>, attrs: seq<AttrRow>, span: nat)
    requires span in ids
    ensures RowsFor(Filter(SpanIn(ids), rows), attrs, span) == RowsFor(rows, attrs, span)
  {
    if rows != [] {
      RowsForFiltered(rows[1..], ids, attrs, span);
    }
  }

  /** Rows of the table are known by their ids. */
  lemma SameIdSameRow<F>(rows: seq<ChildRow<F>>, r: ChildRow<F>, q: ChildRow<F>)
    requires IdsRise(rows)
    requires r in rows && q in rows && r.id == q.id
    ensures r == q
  {
  }

  /** The rows read so far, by their ids: bare of attributes, and the span each belongs to. */
  ghost predicate ChildrenSoFar<F>(
    t: ChildTable<F>, ids: seq<nat>, rowIds: seq<nat>, byId: map<nat, Loaded<F>>, spanOf: map<nat, nat>,
    rowOf: map<nat, ChildRow<F>>)
  {
    && byId.Keys == spanOf.Keys == rowOf.Keys
    && (forall id | id in rowOf :: id in rowIds && rowOf[id].id == id && rowOf[id] in t.rows && rowOf[id].spanId in ids)
    && (forall r | r in t.rows && r.spanId in ids :: r.id in rowOf && rowOf[r.id] == r)
    && (forall id | id in rowOf :: spanOf[id] == rowOf[id].spanId && byId[id] == Loaded(rowOf[id].fields, map[]))
  }

  /** The rows of one chunk. */
  method ReadChildren<F>(
      t: ChildTable<F>, ghost ids: seq<nat>, batch: seq<nat>,
      rowIds0: seq<nat>, byId0: map<nat, Loaded<F>>, spanOf0: map<nat, nat>, ghost rowOf0: map<nat, ChildRow<F>>)
      returns (rowIds: seq<nat>, byId: map<nat, Loaded<F>>, spanOf: map<nat, nat>, ghost rowOf: map<nat, ChildRow<F>>)
    requires IdsRise(t.rows)
    requires ChildrenSoFar(t, ids, rowIds0, byId0, spanOf0, rowOf0)
    ensures ChildrenSoFar(t, ids + batch, rowIds, byId, spanOf, rowOf)
  {
    var out := SelectChildren(t.rows, batch);
    rowIds, byId, spanOf, rowOf := rowIds0, byId0, spanOf0, rowOf0;
    for i := 0 to |out|
      invariant byId.Keys == spanOf.Keys == rowOf.Keys
      invariant forall id | id in rowOf ::
        id in rowIds && rowOf[id].id == id && rowOf[id] in t.rows && rowOf[id].spanId in ids + batch
      invariant forall id | id in rowOf ::
        spanOf[id] == rowOf[id].spanId && byId[id] == Loaded(rowOf[id].fields, map[])
      invariant forall id | id in rowOf0 :: id in rowOf
      invariant forall j | 0 <= j < i :: out[j].id in rowOf
    {
      var r := out[i];
      SelectedChildren(t.rows, batch, out, r);
      rowIds := rowIds + [r.id];
      byId := byId[r.id := Loaded(r.fields, map[])];
      spanOf := spanOf[r.id := r.spanId];
      rowOf := rowOf[r.id := r];
    }
    forall r | r in t.rows && r.spanId in ids + batch ensures r.id in rowOf && rowOf[r.id] == r {
      if r.spanId in batch {
        SelectedChildren(t.rows, batch, out, r);
      }
      SameIdSameRow(t.rows, r, rowOf[r.id]);
    }
  }

  function ListAt<F>(m: map<nat, seq<Loaded<F>>>, span: nat): seq<Loaded<F>> {
    if span in m then m[span] else []
  }

  /** What a load of events or links promises: for each span, its own, sorted. */
  ghost predicate LoadsChildren<F(!new)>(
    c: Codec, le: (F, F) -> bool, t: ChildTable<F>, spans: seq<nat>, result: map<nat, seq<Loaded<F>>>)
  {
    && (forall span | span in result :: span in spans)
    && (forall span | span in spans :: ShowsSorted(c, le, ChildrenFor(t, span), ListAt(result, span)))
  }

  /** For each span, the list shows the rows placed so far that belong to it, in that order. */
  ghost predicate PlacedSoFar<F>(
    c: Codec, attrs: seq<AttrRow>, placed: seq<ChildRow<F>>, spans: seq<nat>, result: map<nat, seq<Loaded<F>>>)
  {
    && (forall span | span in result :: span in spans)
    && (forall span: nat :: Aligned(c, RowsFor(placed, attrs, span), ListAt(result, span)))
  }

  /** The rows of r's span gain r at the end; those of another span stay. */
  lemma RowsForNext<F>(placed: seq<ChildRow<F>>, attrs: seq<AttrRow>, r: ChildRow<F>, span: nat)
    ensures RowsFor(placed + [r], attrs, span) == RowsFor(placed, attrs, span) +
      if r.spanId == span then [WithAttrs(r.fields, AttrsFor(attrs, r.id))] else []
  {
    RowsForAppend(placed, [r], attrs, span);
  }

  lemma PlaceOne<F>(
      c: Codec, attrs: seq<AttrRow>, placed: seq<ChildRow<F>>, spans: seq<nat>, result: map<nat, seq<Loaded<F>>>,
      r: ChildRow<F>, o: Loaded<F>)
    requires PlacedSoFar(c, attrs, placed, spans, result) && r.spanId in spans
    requires Shows(c, WithAttrs(r.fields, AttrsFor(attrs, r.id)), o)
    ensures PlacedSoFar(c, attrs, placed + [r], spans, result[r.spanId := ListAt(result, r.spanId) + [o]])
  {
    var next := result[r.spanId := ListAt(result, r.spanId) + [o]];
    forall span: nat ensures Aligned(c, RowsFor(placed + [r], attrs, span), ListAt(next, span)) {
      assert Aligned(c, RowsFor(placed, attrs, span), ListAt(result, span));
      RowsForNext(placed, attrs, r, span);
    }
  }

  lemma PlacedNone<F>(c: Codec, attrs: seq<AttrRow>, spans: seq<nat>)
    ensures PlacedSoFar<F>(c, attrs, [], spans, map[])
  {
  }

  /** Placed are the rows by id that are not to do any more, each once. */
  ghost predicate PlacedAre<F(!new)>(rowOf: map<nat, ChildRow<F>>, todo: set<nat>, placed: seq<ChildRow<F>>) {
    NoDup(placed) && forall r :: r in placed <==> r.id in rowOf && rowOf[r.id] == r && r.id !in todo
  }

  lemma PlacedNext<F(!new)>(rowOf: map<nat, ChildRow<F>>, todo: set<nat>, placed: seq<ChildRow<F>>, id: nat)
    requires PlacedAre(rowOf, todo, placed)
    requires id in todo && id in rowOf && rowOf[id].id == id
    ensures PlacedAre(rowOf, todo - {id}, placed + [rowOf[id]])
  {
    forall r ensures r in placed + [rowOf[id]] <==> r.id in rowOf && rowOf[r.id] == r && r.id !in todo - {id} {
      assert r in placed + [rowOf[id]] <==> r in placed || r == rowOf[id];
    }
  }

  /** The loop over the rows by id, in any order: attributes are attached and the rows grouped by span. */
  method PlaceChildren<F(!new)>(
      c: Codec, t: ChildTable<F>, spans: seq<nat>, rowIds: seq<nat>, byId: map<nat, Loaded<F>>, spanOf: map<nat, nat>,
      attrMap: map<nat, map<string, Value>>, ghost rowOf: map<nat, ChildRow<F>>)
      returns (result: map<nat, seq<Loaded<F>>>, ghost placed: seq<ChildRow<F>>)
    requires ChildrenSoFar(t, spans, rowIds, byId, spanOf, rowOf)
    requires LoadsAttributes(c, t.attrs, rowIds, attrMap)
    ensures PlacedSoFar(c, t.attrs, placed, spans, result)
    ensures NoDup(placed)
    ensures forall r :: r in placed <==> r in t.rows && r.spanId in spans
  {
    result, placed := map[], [];
    PlacedNone<F>(c, t.attrs, spans);
    var todo := byId.Keys;
    while todo != {}
      invariant todo <= byId.Keys
      invariant PlacedSoFar(c, t.attrs, placed, spans, result)
      invariant PlacedAre(rowOf, todo, placed)
      decreases |todo|
    {
      var id: nat :| id in todo;
      ghost var r := rowOf[id];
      var e := byId[id];
      if id in attrMap {
        e := e.(attributes := attrMap[id]);
      }
      PlaceOne(c, t.attrs, placed, spans, result, r, e);
      PlacedNext(rowOf, todo, placed, id);
      var span := spanOf[id];
      result := result[span := (if span in result then result[span] else []) + [e]];
      placed := placed + [r];
      todo := todo - {id};
    }
  }

  lemma PlacedIsAll<F>(t: ChildTable<F>, spans: seq<nat>, placed: seq<ChildRow<F>>, span: nat)
    requires IdsRise(t.rows)
    requires NoDup(placed) && forall r :: r in placed <==> r in t.rows && r.spanId in spans
    requires span in spans
    ensures multiset(RowsFor(placed, t.attrs, span)) == multiset(ChildrenFor(t, span))
  {
    var wanted := Filter(SpanIn(spans), t.rows);
    forall r ensures r in placed <==> r in wanted {
      FilterMember(SpanIn(spans), t.rows, r);
    }
    assert NoDup(t.rows);
    FilterNoDup(SpanIn(spans), t.rows);
    NoDupPermutes(placed, wanted);
    RowsForPermutes(placed, wanted, t.attrs, span);
    RowsForFiltered(t.rows, spans, t.attrs, span);
  }

  /** The last loop: each list is sorted. */
  method SortLists<F(!new)>(
      c: Codec, le: (F, F) -> bool, t: ChildTable<F>, spans: seq<nat>, lists: map<nat, seq<Loaded<F>>>,
      ghost placed: seq<ChildRow<F>>)
      returns (result: map<nat, seq<Loaded<F>>>)
    requires TotalOrder(le)
    requires PlacedSoFar(c, t.attrs, placed, spans, lists)
    requires forall span | span in spans :: multiset(RowsFor(placed, t.attrs, span)) == multiset(ChildrenFor(t, span))
    ensures LoadsChildren(c, le, t, spans, result)
  {
    result := lists;
    var todo := lists.Keys;
    while todo != {}
      invariant todo <= lists.Keys && result.Keys == lists.Keys
      invariant forall span | span in todo :: result[span] == lists[span]
      invariant forall span | span in result && span !in todo :: ShowsSorted(c, le, ChildrenFor(t, span), result[span])
      decreases |todo|
    {
      var span: nat :| span in todo;
      assert Aligned(c, RowsFor(placed, t.attrs, span), ListAt(lists, span));
      var sorted := SortLoaded(le, result[span]);
      ghost var src := AlignedPermutes(c, RowsFor(placed, t.attrs, span), lists[span], sorted);
      assert multiset(src) == multiset(ChildrenFor(t, span)) && Aligned(c, src, sorted);
      result := result[span := sorted];
      todo := todo - {span};
    }
    forall span | span in spans ensures ShowsSorted(c, le, ChildrenFor(t, span), ListAt(result, span)) {
      if span !in lists {
        assert Aligned(c, RowsFor(placed, t.attrs, span), ListAt(lists, span));
      }
    }
  }

  /** loadEventsBatch and loadLinksBatch. */
  method LoadChildrenBatch<F(!new)>(c: Codec, le: (F, F) -> bool, t: ChildTable<F>, spans: seq<nat>, size: int)
      returns (result: map<nat, seq<Loaded<F>>>)
    requires TotalOrder(le)
    requires IdsRise(t.rows)
    ensures LoadsChildren(c, le, t, spans, result)
  {
    if |spans| == 0 {
      return map[];
    }
    var rowIds: seq<nat>, byId: map<nat, Loaded<F>>, spanOf: map<nat, nat> := [], map[], map[];
    ghost var rowOf: map<nat, ChildRow<F>> := map[];
    var chunks := ChunkIDs(spans, size);
    for b := 0 to |chunks|
      invariant ChildrenSoFar(t, Concat(chunks[..b]), rowIds, byId, spanOf, rowOf)
    {
      ConcatNext(chunks, b);
      rowIds, byId, spanOf, rowOf := ReadChildren(t, Concat(chunks[..b]), chunks[b], rowIds, byId, spanOf, rowOf);
    }
    assert chunks[..|chunks|] == chunks;
    var attrMap, _ := LoadAttributesBatch(c, t.attrs, rowIds, size);
    var lists;
    ghost var placed;
    lists, placed := PlaceChildren(c, t, spans, rowIds, byId, spanOf, attrMap, rowOf);
    forall span | span in spans ensures multiset(RowsFor(placed, t.attrs, span)) == multiset(ChildrenFor(t, span)) {
      PlacedIsAll(t, spans, placed, span);
    }
    result := SortLists(c, le, t, spans, lists, placed);
  }

  method LoadEventsBatch(c: Codec, t: ChildTable<EventFields>, spans: seq<nat>, size: int)
      returns (result: map<nat, seq<Loaded<EventFields>>>)
    requires IdsRise(t.rows)
    ensures LoadsChildren(c, EventLe, t, spans, result)
  {
    EventLeTotal();
    result := LoadChildrenBatch(c, EventLe, t, spans, size);
  }

  method LoadLinksBatch(c: Codec, t: ChildTable<LinkFields>, spans: seq<nat>, size: int)
      returns (result: map<nat, seq<Loaded<LinkFields>>>)
    requires IdsRise(t.rows)
    ensures LoadsChildren(c, LinkLe, t, spans, result)
  {
    LinkLeTotal();
    result := LoadChildrenBatch(c, LinkLe, t, spans, size);
  }
}
