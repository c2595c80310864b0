/**
 Loading the rows that belong to many ids in chunks, against looking up each id by itself.

 A SELECT without ORDER BY returns its rows in any order, and a Go map is walked in any order; the select methods
 here promise only which rows come out, and the loops over maps pick any key. The loaders of resources and scopes
 are the same code for two tables, and modelled once.
 */
module BatchLoad {
  import opened Seqs
  import opened Texts
  import opened Otlp
  import opened SpanStore
  import opened Tables
  import opened StoreRefinement

  /** A resource, scope, event or link as a query returns it. */
  datatype Loaded<F> = Loaded(fields: F, attributes: map<string, Value>)

  datatype LoadedSpan = LoadedSpan(
    fields: SpanFields, resource: Loaded<ResourceFields>, scope: Loaded<ScopeFields>,
    attributes: map<string, Value>, events: seq<Loaded<EventFields>>, links: seq<Loaded<LinkFields>>)

  // ---------------------------------------------------------------- what a load should give

  /** The map has the keys of the attributes, each with the value of one of its attributes. */
  ghost predicate Decodes(c: Codec, attrs: seq<Attr>, m: map<string, Value>) {
    && (forall a | a in attrs :: a.key in m)
    && (forall k | k in m :: exists a :: a in attrs && a.key == k && Parse(c, a.typ, a.text) == m[k])
  }

  ghost predicate Shows<F>(c: Codec, w: WithAttrs<F>, o: Loaded<F>) {
    o.fields == w.fields && Decodes(c, w.attrs, o.attributes)
  }

  /** Element by element. */
  ghost predicate Aligned<F>(c: Codec, ws: seq<WithAttrs<F>>, os: seq<Loaded<F>>) {
    |ws| == |os| && forall i | 0 <= i < |ws| :: Shows(c, ws[i], os[i])
  }

  /** os shows a permutation of ws, sorted. */
  ghost predicate ShowsSorted<F(!new)>(c: Codec, le: (F, F) -> bool, ws: seq<WithAttrs<F>>, os: seq<Loaded<F>>) {
    && (forall i, j | 0 <= i < j < |os| :: le(os[i].fields, os[j].fields))
    && exists src :: multiset(src) == multiset(ws) && Aligned(c, src, os)
  }

  predicate EventLe(a: EventFields, b: EventFields) {
    a.time < b.time || (a.time == b.time && StrLe(a.name, b.name))
  }

  predicate LinkLe(a: LinkFields, b: LinkFields) {
    if a.traceId == b.traceId then StrLe(a.spanId, b.spanId) else StrLe(a.traceId, b.traceId)
  }

  /** Earlier first; at the same time, by name. */
  ghost predicate EventInOrder(a: EventFields, b: EventFields) {
    a.time <= b.time && (a.time == b.time ==> a.name == b.name || Precedes(a.name, b.name))
  }

  /** By trace id; in the same trace, by span id. */
  ghost predicate LinkInOrder(a: LinkFields, b: LinkFields) {
    if a.traceId == b.traceId then a.spanId == b.spanId || Precedes(a.spanId, b.spanId)
    else Precedes(a.traceId, b.traceId)
  }

  lemma EventLeIs(a: EventFields, b: EventFields)
    ensures EventLe(a, b) <==> EventInOrder(a, b)
  {
    StrLeIs(a.name, b.name);
  }

  lemma LinkLeIs(a: LinkFields, b: LinkFields)
    ensures LinkLe(a, b) <==> LinkInOrder(a, b)
  {
    StrLeIs(a.traceId, b.traceId);
    StrLeIs(a.spanId, b.spanId);
  }

  ghost predicate ShowsSpan(c: Codec, x: Stored, o: LoadedSpan) {
    && o.fields == x.fields
    && Shows(c, x.resource, o.resource) && Shows(c, x.scope, o.scope)
    && Decodes(c, x.attrs, o.attributes)
    && ShowsSorted(c, EventLe, x.events, o.events)
    && ShowsSorted(c, LinkLe, x.links, o.links)
  }

  // ---------------------------------------------------------------- chunks

  function Concat(chunks: seq<seq<nat>>): seq<nat> {
    if chunks == [] then [] else chunks[0] + Concat(chunks[1..])
  }

  lemma {:induction false} ConcatSnoc(chunks: seq<seq<nat>>, last: seq<nat>)
    ensures Concat(chunks + [last]) == Concat(chunks) + last
  {
    if chunks == [] {
      assert chunks + [last] == [last];
    } else {
      assert (chunks + [last])[1..] == chunks[1..] + [last];
      ConcatSnoc(chunks[1..], last);
    }
  }

  lemma ConcatNext(chunks: seq<seq<nat>>, b: nat)
    requires b < |chunks|
    ensures Concat(chunks[..b + 1]) == Concat(chunks[..b]) + chunks[b]
  {
    assert chunks[..b + 1] == chunks[..b] + [chunks[b]];
    ConcatSnoc(chunks[..b], chunks[b]);
  }

  /** chunkIDs: the chunks put together are the ids, and none is longer than the size. */
  method ChunkIDs(ids: seq<nat>, size: int) returns (chunks: seq<seq<nat>>)
    ensures Concat(chunks) == ids
    ensures size > 0 ==> forall k | 0 <= k < |chunks| :: |chunks[k]| <= size
    ensures size > 0 ==> forall k | 0 <= k < |chunks| - 1 :: |chunks[k]| == size
  {
    if size <= 0 || |ids| <= size {
      assert Concat([ids]) == ids + Concat([]);
      return [ids];
    }
    chunks := [];
    var start := 0;
    while start < |ids|
      invariant 0 <= start
      invariant Concat(chunks) == ids[..if start < |ids| then start else |ids|]
      invariant forall k | 0 <= k < |chunks| :: |chunks[k]| <= size
      invariant forall k | 0 <= k < |chunks| && (k < |chunks| - 1 || start < |ids|) :: |chunks[k]| == size
      decreases |ids| - start
    {
      var end := start + size;
      if end > |ids| {
        end := |ids|;
      }
      ConcatSnoc(chunks, ids[start..end]);
      assert ids[..start] + ids[start..end] == ids[..end];
      chunks := chunks + [ids[start..end]];
      start := start + size;
    }
  }

  // ---------------------------------------------------------------- attributes

  function OwnedByAny(batch: seq<nat>): AttrRow -> bool {
    (r: AttrRow) => r.owner in batch
  }

  /** SELECT ... WHERE owner IN batch. */
  method SelectAttributes(rows: seq<AttrRow>, batch: seq<nat>) returns (out: seq<AttrRow>)
    ensures multiset(out) == multiset(Filter(OwnedByAny(batch), rows))
  {
    out := Filter(OwnedByAny(batch), rows);
  }

  lemma SelectedAttributes(rows: seq<AttrRow>, batch: seq<nat>, out: seq<AttrRow>, r: AttrRow)
    requires multiset(out) == multiset(Filter(OwnedByAny(batch), rows))
    ensures r in out <==> r in rows && r.owner in batch
  {
    FilterMember(OwnedByAny(batch), rows, r);
    assert r in out <==> r in multiset(out);
  }

  /** The result after one more row. */
  function WithRow(c: Codec, result: map<nat, map<string, Value>>, r: AttrRow): map<nat, map<string, Value>> {
    var m := if r.owner in result then result[r.owner] else map[];
    result[r.owner := m[r.attr.key := Parse(c, r.attr.typ, r.attr.text)]]
  }

  /** The result after the rows were read in this order. */
  ghost function LoadRows(c: Codec, rows: seq<AttrRow>): map<nat, map<string, Value>> {
    if rows == [] then map[] else WithRow(c, LoadRows(c, rows[..|rows| - 1]), rows[|rows| - 1])
  }

  /** The map made of attributes that are read in this order: the last one with a key wins. */
  ghost function LastWins(c: Codec, attrs: seq<Attr>): map<string, Value> {
    if attrs == [] then map[]
    else
      var last := attrs[|attrs| - 1];
      LastWins(c, attrs[..|attrs| - 1])[last.key := Parse(c, last.typ, last.text)]
  }

  lemma LastWinsSnoc(c: Codec, attrs: seq<Attr>, a: Attr)
    ensures LastWins(c, attrs + [a]) == LastWins(c, attrs)[a.key := Parse(c, a.typ, a.text)]
  {
    assert (attrs + [a])[..|attrs|] == attrs;
  }

  lemma AttrsForSnoc(rows: seq<AttrRow>, r: AttrRow, owner: nat)
    ensures AttrsFor(rows + [r], owner) ==
      if r.owner == owner then AttrsFor(rows, owner) + [r.attr] else AttrsFor(rows, owner)
  {
    AttrsForAppend(rows, [r], owner);
    assert [r][1..] == [];
  }

  ghost predicate ResultAt(c: Codec, result: map<nat, map<string, Value>>, attrs: seq<Attr>, id: nat) {
    (id in result <==> attrs != []) && (id in result ==> result[id] == LastWins(c, attrs))
  }

  lemma WithRowAt(c: Codec, result: map<nat, map<string, Value>>, attrs: seq<Attr>, r: AttrRow, id: nat)
    requires ResultAt(c, result, attrs, id)
    ensures ResultAt(c, WithRow(c, result, r), if r.owner == id then attrs + [r.attr] else attrs, id)
  {
    if r.owner == id {
      LastWinsSnoc(c, attrs, r.attr);
    }
  }

  /** For each owner the rows make the map of its attributes, in the order in which they come. */
  lemma {:induction false} LoadRowsAt(c: Codec, rows: seq<AttrRow>, id: nat)
    ensures ResultAt(c, LoadRows(c, rows), AttrsFor(rows, id), id)
    decreases |rows|
  {
    if rows != [] {
      var init, last := rows[..|rows| - 1], rows[|rows| - 1];
      LoadRowsAt(c, init, id);
      assert rows == init + [last];
      AttrsForSnoc(init, last, id);
      WithRowAt(c, LoadRows(c, init), AttrsFor(init, id), last, id);
    }
  }

  /** Under each key is what is read of the last attribute with that key. */
  lemma {:induction false} LastWinsIs(c: Codec, attrs: seq<Attr>, i: nat)
    requires i < |attrs| && forall j | i < j < |attrs| :: attrs[j].key != attrs[i].key
    ensures attrs[i].key in LastWins(c, attrs)
    ensures LastWins(c, attrs)[attrs[i].key] == Parse(c, attrs[i].typ, attrs[i].text)
    decreases |attrs|
  {
    var n := |attrs| - 1;
    if i < n {
      assert attrs[n].key != attrs[i].key;
      assert forall j | 0 <= j < n :: attrs[..n][j] == attrs[j];
      LastWinsIs(c, attrs[..n], i);
    }
  }

  lemma {:induction false} LastWinsDecodes(c: Codec, attrs: seq<Attr>)
    ensures Decodes(c, attrs, LastWins(c, attrs))
    decreases |attrs|
  {
    if attrs != [] {
      var init, last, m := attrs[..|attrs| - 1], attrs[|attrs| - 1], LastWins(c, attrs);
      LastWinsDecodes(c, init);
      assert attrs == init + [last];
      forall k | k in m ensures exists a :: a in attrs && a.key == k && Parse(c, a.typ, a.text) == m[k] {
        if k == last.key {
          assert last in attrs;
        } else {
          var a :| a in init && a.key == k && Parse(c, a.typ, a.text) == m[k];
          assert a in attrs;
        }
      }
    }
  }

  /** What is decoded does not depend on the order or the number of the attributes. */
  lemma DecodesSameMembers(c: Codec, attrs: seq<Attr>, others: seq<Attr>, m: map<string, Value>)
    requires Decodes(c, attrs, m) && forall a :: a in attrs <==> a in others
    ensures Decodes(c, others, m)
  {
    forall k | k in m ensures exists a :: a in others && a.key == k && Parse(c, a.typ, a.text) == m[k] {
      var a :| a in attrs && a.key == k && Parse(c, a.typ, a.text) == m[k];
    }
  }

  lemma {:induction false} AttrsForMember(rows: seq<AttrRow>, owner: nat, a: Attr)
    ensures a in AttrsFor(rows, owner) <==> AttrRow(owner, a) in rows
  {
    if rows != [] {
      AttrsForMember(rows[1..], owner, a);
    }
  }

  /** What every attribute load promises: for each id asked for, what looking it up alone would give. */
  ghost predicate LoadsAttributes(c: Codec, rows: seq<AttrRow>, ids: seq<nat>, result: map<nat, map<string, Value>>) {
    && (forall id :: id in result <==> id in ids && AttrsFor(rows, id) != [])
    && (forall id | id in result :: Decodes(c, AttrsFor(rows, id), result[id]))
  }

  lemma ReadOwner(c: Codec, rows: seq<AttrRow>, ids: seq<nat>, read: seq<AttrRow>, id: nat)
    requires forall r :: r in read <==> r in rows && r.owner in ids
    ensures id in LoadRows(c, read) <==> id in ids && AttrsFor(rows, id) != []
    ensures id in LoadRows(c, read) ==> Decodes(c, AttrsFor(rows, id), LoadRows(c, read)[id])
  {
    var attrs, others := AttrsFor(read, id), AttrsFor(rows, id);
    LoadRowsAt(c, read, id);
    forall a ensures a in attrs <==> a in others && id in ids {
      AttrsForMember(read, id, a);
      AttrsForMember(rows, id, a);
      assert AttrRow(id, a) in read <==> AttrRow(id, a) in rows && id in ids;
    }
    if attrs != [] {
      assert attrs[0] in others;
      LastWinsDecodes(c, attrs);
      DecodesSameMembers(c, attrs, others, LastWins(c, attrs));
    } else if others != [] {
      assert others[0] !in attrs;
    }
  }

  lemma ReadAll(c: Codec, rows: seq<AttrRow>, ids: seq<nat>, read: seq<AttrRow>)
    requires forall r :: r in read <==> r in rows && r.owner in ids
    ensures LoadsAttributes(c, rows, ids, LoadRows(c, read))
  {
    forall id
      ensures id in LoadRows(c, read) <==> id in ids && AttrsFor(rows, id) != []
      ensures id in LoadRows(c, read) ==> Decodes(c, AttrsFor(rows, id), LoadRows(c, read)[id])
    {
      ReadOwner(c, rows, ids, read, id);
    }
  }

  lemma LoadRowsNext(c: Codec, seen: seq<AttrRow>, out: seq<AttrRow>, i: nat)
    requires i < |out|
    ensures LoadRows(c, seen + out[..i + 1]) == WithRow(c, LoadRows(c, seen + out[..i]), out[i])
  {
    var rows := seen + out[..i + 1];
    assert rows[..|rows| - 1] == seen + out[..i] && rows[|rows| - 1] == out[i];
  }

  /** One row: its owner's map is made if there is none yet. */
  method ReadRow(c: Codec, r: AttrRow, loaded: map<nat, map<string, Value>>)
      returns (result: map<nat, map<string, Value>>)
    ensures result == WithRow(c, loaded, r)
  {
    var attrs := if r.owner in loaded then loaded[r.owner] else map[];
    attrs := attrs[r.attr.key := Parse(c, r.attr.typ, r.attr.text)];
    result := loaded[r.owner := attrs];
  }

  /** The rows of one SELECT. */
  method ReadRows(c: Codec, out: seq<AttrRow>, loaded: map<nat, map<string, Value>>, ghost seen: seq<AttrRow>)
      returns (result: map<nat, map<string, Value>>)
    requires loaded == LoadRows(c, seen)
    ensures result == LoadRows(c, seen + out)
  {
    result := loaded;
    assert seen + out[..0] == seen;
    assert seen + out[..|out|] == seen + out;
    for i := 0 to |out|
      invariant result == LoadRows(c, seen + out[..i])
    {
      LoadRowsNext(c, seen, out, i);
      result := ReadRow(c, out[i], result);
    }
  }

  lemma NotInBoth(ids: seq<nat>, batch: seq<nat>, id: nat)
    requires NoDup(ids + batch) && id in ids
    ensures id !in batch
  {
    var i :| 0 <= i < |ids| && ids[i] == id;
    forall j | 0 <= j < |batch| ensures batch[j] != id {
      assert (ids + batch)[i] != (ids + batch)[|ids| + j];
    }
  }

  /** One more SELECT, for other ids than the ones before, adds each of their rows once. */
  lemma SelectMore(rows: seq<AttrRow>, ids: seq<nat>, batch: seq<nat>, seen: seq<AttrRow>, out: seq<AttrRow>)
    requires NoDup(ids + batch)
    requires multiset(seen) == multiset(Filter(OwnedByAny(ids), rows))
    requires multiset(out) == multiset(Filter(OwnedByAny(batch), rows))
    ensures multiset(seen + out) == multiset(Filter(OwnedByAny(ids + batch), rows))
  {
    forall r ensures multiset(seen + out)[r] == multiset(Filter(OwnedByAny(ids + batch), rows))[r] {
      FilterMultiset(OwnedByAny(ids), rows, r);
      FilterMultiset(OwnedByAny(batch), rows, r);
      FilterMultiset(OwnedByAny(ids + batch), rows, r);
      if r.owner in ids {
        NotInBoth(ids, batch, r.owner);
      }
    }
  }

  /** The rows read for some of the ids: each that is asked for, and once if no id is repeated. */
  ghost predicate ReadFor(rows: seq<AttrRow>, ids: seq<nat>, read: seq<AttrRow>) {
    && (forall r :: r in read <==> r in rows && r.owner in ids)
    && (NoDup(ids) ==> multiset(read) == multiset(Filter(OwnedByAny(ids), rows)))
  }

  lemma ReadMore(rows: seq<AttrRow>, ids: seq<nat>, batch: seq<nat>, seen: seq<AttrRow>, out: seq<AttrRow>)
    requires ReadFor(rows, ids, seen) && multiset(out) == multiset(Filter(OwnedByAny(batch), rows))
    ensures ReadFor(rows, ids + batch, seen + out)
  {
    forall r ensures r in seen + out <==> r in rows && r.owner in ids + batch {
      SelectedAttributes(rows, batch, out, r);
    }
    if NoDup(ids + batch) {
      assert NoDup(ids) by {
        assert forall i | 0 <= i < |ids| :: (ids + batch)[i] == ids[i];
      }
      SelectMore(rows, ids, batch, seen, out);
    }
  }

  lemma {:induction false} ReadNothing(rows: seq<AttrRow>)
    ensures ReadFor(rows, [], []) && Filter(OwnedByAny([]), rows) == []
  {
    if rows != [] {
      ReadNothing(rows[1..]);
    }
  }

  /** loadSpanAttributesBatch and loadAttributesBatch: the result is that of the rows in the order they were read. */
  method LoadAttributesBatch(c: Codec, rows: seq<AttrRow>, ids: seq<nat>, size: int)
      returns (result: map<nat, map<string, Value>>, ghost read: seq<AttrRow>)
    ensures ReadFor(rows, ids, read) && result == LoadRows(c, read)
    ensures LoadsAttributes(c, rows, ids, result)
  {
    result, read := map[], [];
    ReadNothing(rows);
    if |ids| == 0 {
      ReadAll(c, rows, ids, read);
      return;
    }
    var chunks := ChunkIDs(ids, size);
    for b := 0 to |chunks|
      invariant ReadFor(rows, Concat(chunks[..b]), read) && result == LoadRows(c, read)
    {
      var out := SelectAttributes(rows, chunks[b]);
      ConcatNext(chunks, b);
      ReadMore(rows, Concat(chunks[..b]), chunks[b], read, out);
      result := ReadRows(c, out, result, read);
      read := read + out;
    }
    assert chunks[..|chunks|] == chunks;
    ReadAll(c, rows, ids, read);
  }

  // ---------------------------------------------------------------- repeated keys

  /** Attributes with the same key are read as the same value. */
  ghost predicate ValuesAgree(c: Codec, attrs: seq<Attr>) {
    forall a, b | a in attrs && b in attrs && a.key == b.key :: Parse(c, a.typ, a.text) == Parse(c, b.typ, b.text)
  }

  /** The map does not depend on the order in which the attributes are read. */
  ghost predicate OrderIsFree(c: Codec, attrs: seq<Attr>) {
    forall p, q | multiset(p) == multiset(attrs) && multiset(q) == multiset(attrs) :: LastWins(c, p) == LastWins(c, q)
  }

  ghost predicate InSomeOrder(c: Codec, attrs: seq<Attr>, m: map<string, Value>) {
    exists p :: multiset(p) == multiset(attrs) && m == LastWins(c, p)
  }

  lemma DecodesDetermined(c: Codec, attrs: seq<Attr>, m: map<string, Value>, a: Attr)
    requires Decodes(c, attrs, m) && ValuesAgree(c, attrs) && a in attrs
    ensures a.key in m && m[a.key] == Parse(c, a.typ, a.text)
  {
  }

  lemma {:induction false} LastWinsAppend(c: Codec, a: seq<Attr>, b: seq<Attr>)
    ensures LastWins(c, a + b) == LastWins(c, a) + LastWins(c, b)
    decreases |b|
  {
    if b == [] {
      assert a + b == a;
    } else {
      assert (a + b)[..|a + b| - 1] == a + b[..|b| - 1];
      LastWinsAppend(c, a, b[..|b| - 1]);
    }
  }

  lemma MergedLast(x: map<string, Value>, y: map<string, Value>, k: string, v: Value)
    ensures (x + (map[k := v] + y))[k := v] == (x + y)[k := v]
  {
  }

  lemma Moved<T>(before: seq<T>, a: T, after: seq<T>)
    ensures multiset(before + after + [a]) == multiset(before + ([a] + after))
  {
  }

  lemma OneAttribute(c: Codec, a: Attr)
    ensures LastWins(c, [a]) == map[a.key := Parse(c, a.typ, a.text)]
  {
    LastWinsSnoc(c, [], a);
    assert [] + [a] == [a];
  }

  lemma MovedWins(c: Codec, before: seq<Attr>, a: Attr, after: seq<Attr>)
    ensures LastWins(c, before + after + [a]) ==
      LastWins(c, before + ([a] + after))[a.key := Parse(c, a.typ, a.text)]
  {
    LastWinsAppend(c, before, [a] + after);
    LastWinsAppend(c, [a], after);
    LastWinsAppend(c, before, after);
    OneAttribute(c, a);
    LastWinsSnoc(c, before + after, a);
    MergedLast(LastWins(c, before), LastWins(c, after), a.key, Parse(c, a.typ, a.text));
  }

  /** An attribute that is read last instead decides for its key, and for no other. */
  lemma MoveLast(c: Codec, p: seq<Attr>, a: Attr) returns (q: seq<Attr>)
    requires a in p
    ensures multiset(q) == multiset(p)
    ensures LastWins(c, q) == LastWins(c, p)[a.key := Parse(c, a.typ, a.text)]
  {
    var i :| 0 <= i < |p| && p[i] == a;
    var before, after := p[..i], p[i + 1..];
    assert p == before + ([a] + after);
    q := before + after + [a];
    Moved(before, a, after);
    MovedWins(c, before, a, after);
  }

  lemma PermutedDecodes(c: Codec, attrs: seq<Attr>, p: seq<Attr>)
    requires multiset(p) == multiset(attrs)
    ensures Decodes(c, attrs, LastWins(c, p))
  {
    LastWinsDecodes(c, p);
    forall a ensures a in p <==> a in attrs {
      assert a in multiset(p) <==> a in multiset(attrs);
    }
    DecodesSameMembers(c, p, attrs, LastWins(c, p));
  }

  /** For any keys of the map there is an order that gives their values. */
  lemma {:induction false} OrderFor(c: Codec, attrs: seq<Attr>, m: map<string, Value>, keys: set<string>)
      returns (p: seq<Attr>)
    requires Decodes(c, attrs, m) && keys <= m.Keys
    ensures multiset(p) == multiset(attrs)
    ensures forall k | k in keys :: k in LastWins(c, p) && LastWins(c, p)[k] == m[k]
    decreases |keys|
  {
    if keys == {} {
      p := attrs;
    } else {
      var k :| k in keys;
      var before := OrderFor(c, attrs, m, keys - {k});
      var a :| a in attrs && a.key == k && Parse(c, a.typ, a.text) == m[k];
      assert a in multiset(before);
      p := MoveLast(c, before, a);
    }
  }

  /** What a load promises of a map is what reading the rows in some order makes of it, and nothing more. */
  lemma DecodesIffInSomeOrder(c: Codec, attrs: seq<Attr>, m: map<string, Value>)
    ensures Decodes(c, attrs, m) <==> InSomeOrder(c, attrs, m)
  {
    if Decodes(c, attrs, m) {
      var p := OrderFor(c, attrs, m, m.Keys);
      PermutedDecodes(c, attrs, p);
      assert m == LastWins(c, p);
    }
    if p :| multiset(p) == multiset(attrs) && m == LastWins(c, p) {
      PermutedDecodes(c, attrs, p);
    }
  }

  lemma DecodedInOther(c: Codec, attrs: seq<Attr>, m: map<string, Value>, n: map<string, Value>, k: string)
    requires ValuesAgree(c, attrs) && Decodes(c, attrs, m) && Decodes(c, attrs, n) && k in m
    ensures k in n && n[k] == m[k]
  {
    var a :| a in attrs && a.key == k && Parse(c, a.typ, a.text) == m[k];
    DecodesDetermined(c, attrs, n, a);
  }

  lemma AgreeingDecodeAlike(c: Codec, attrs: seq<Attr>, m: map<string, Value>, n: map<string, Value>)
    requires ValuesAgree(c, attrs) && Decodes(c, attrs, m) && Decodes(c, attrs, n)
    ensures m == n
  {
    forall k | k in m ensures k in n && n[k] == m[k] {
      DecodedInOther(c, attrs, m, n, k);
    }
    forall k | k in n ensures k in m {
      DecodedInOther(c, attrs, n, m, k);
    }
  }

  lemma DisagreeingOrders(c: Codec, attrs: seq<Attr>, a: Attr, b: Attr)
    requires a in attrs && b in attrs && a.key == b.key && Parse(c, a.typ, a.text) != Parse(c, b.typ, b.text)
    ensures !OrderIsFree(c, attrs)
  {
    var p := MoveLast(c, attrs, a);
    var q := MoveLast(c, attrs, b);
    assert LastWins(c, p)[a.key] != LastWins(c, q)[a.key];
  }

  /**
   The loaded map is the same for every row order if and only if attributes with the same key have the same value.
   */
  lemma LoadDetermined(c: Codec, attrs: seq<Attr>)
    ensures OrderIsFree(c, attrs) <==> ValuesAgree(c, attrs)
  {
    if ValuesAgree(c, attrs) {
      forall p, q | multiset(p) == multiset(attrs) && multiset(q) == multiset(attrs)
        ensures LastWins(c, p) == LastWins(c, q)
      {
        PermutedDecodes(c, attrs, p);
        PermutedDecodes(c, attrs, q);
        AgreeingDecodeAlike(c, attrs, LastWins(c, p), LastWins(c, q));
      }
    } else {
      var a, b :| a in attrs && b in attrs && a.key == b.key && Parse(c, a.typ, a.text) != Parse(c, b.typ, b.text);
      DisagreeingOrders(c, attrs, a, b);
    }
  }

  const REPEATED := [KeyValue("k", StringV("1")), KeyValue("k", StringV("2"))]

  /** Two rows of one owner and key: the second one decides. */
  lemma SecondDecides(c: Codec, x: AttrRow, y: AttrRow)
    requires x.owner == y.owner && x.attr.key == y.attr.key
    ensures LoadRows(c, [x, y]) == map[x.owner := map[x.attr.key := Parse(c, y.attr.typ, y.attr.text)]]
  {
    var one, two := [x], [x, y];
    var v, w := Parse(c, x.attr.typ, x.attr.text), Parse(c, y.attr.typ, y.attr.text);
    assert one[..|one| - 1] == [] && LoadRows(c, one) == map[x.owner := map[x.attr.key := v]];
    assert two[..|two| - 1] == one;
    assert map[x.attr.key := v][x.attr.key := w] == map[x.attr.key := w];
  }

  /** A list with a repeated key: its two rows, read one way round and the other. */
  lemma RepeatedKey(c: Codec) returns (x: AttrRow, y: AttrRow)
    ensures AttrRows(0, AttrsOf(c, REPEATED)) == [x, y]
    ensures LoadRows(c, [x, y]) == map[0 := map["k" := Str("2")]]
    ensures LoadRows(c, [y, x]) == map[0 := map["k" := Str("1")]]
  {
    var a, b := Attr("k", TString, "1"), Attr("k", TString, "2");
    x, y := AttrRow(0, a), AttrRow(0, b);
    var kvs := REPEATED;
    assert kvs[1..] == [kvs[1]] && kvs[1..][1..] == [];
    assert AttrsOf(c, kvs[1..]) == [b] && AttrsOf(c, kvs) == [a, b];
    var attrs := [a, b];
    assert attrs[1..] == [b] && AttrRows(0, attrs[1..]) == [y];
    assert AttrRows(0, attrs) == [AttrRow(0, attrs[0])] + AttrRows(0, attrs[1..]) == [x, y];
    SecondDecides(c, x, y);
    SecondDecides(c, y, x);
  }

  // ---------------------------------------------------------------- resources and scopes

  function HeadIn<F>(batch: seq<nat>): HeadRow<F> -> bool {
    (r: HeadRow<F>) => r.id in batch
  }

  method SelectHeads<F>(rows: seq<HeadRow<F>>, batch: seq<nat>) returns (out: seq<HeadRow<F>>)
    ensures multiset(out) == multiset(Filter(HeadIn(batch), rows))
  {
    out := Filter(HeadIn(batch), rows);
  }

  lemma SelectedHeads<F>(rows: seq<HeadRow<F>>, batch: seq<nat>, out: seq<HeadRow<F>>, r: HeadRow<F>)
    requires multiset(out) == multiset(Filter(HeadIn(batch), rows))
    ensures r in out <==> r in rows && r.id in batch
  {
    FilterMember(HeadIn(batch), rows, r);
    assert r in out <==> r in multiset(out);
  }

  /** Row ids are unique, so a row is found by its id. */
  lemma {:induction false} FindHeadRow<F>(rows: seq<HeadRow<F>>, r: HeadRow<F>)
    requires r in rows && forall i, j | 0 <= i < j < |rows| :: rows[i].id < rows[j].id
    ensures FindHead(rows, r.id) == Some(r.fields)
  {
    if r != rows[0] {
      var i :| 0 <= i < |rows| && rows[i] == r;
      assert rows[0].id < rows[i].id;
      assert rows[1..][i - 1] == r;
      FindHeadRow(rows[1..], r);
    }
  }

  lemma {:induction false} FoundHeadRow<F>(rows: seq<HeadRow<F>>, id: nat)
    requires FindHead(rows, id).Some?
    ensures HeadRow(id, FindHead(rows, id).value) in rows
  {
    if rows[0].id != id {
      FoundHeadRow(rows[1..], id);
    }
  }

  /** The map has, bare of attributes, the rows found for some of the ids. */
  ghost predicate HeadsSoFar<F>(t: HeadTable<F>, ids: seq<nat>, result: map<nat, Loaded<F>>) {
    && (forall id :: id in result <==> id in ids && FindHead(t.rows, id).Some?)
    && (forall id | id in result ::
         FindHead(t.rows, id).Some? && result[id] == Loaded(FindHead(t.rows, id).value, map[]))
  }

  /** The rows of one chunk. */
  method ReadHeads<F>(t: HeadTable<F>, ghost ids: seq<nat>, batch: seq<nat>, loaded: map<nat, Loaded<F>>)
      returns (result: map<nat, Loaded<F>>)
    requires HeadOk(t) && HeadsSoFar(t, ids, loaded)
    ensures HeadsSoFar(t, ids + batch, result)
  {
    var out := SelectHeads(t.rows, batch);
    result := loaded;
    for i := 0 to |out|
      invariant forall id :: id in result <==> id in loaded || exists j :: 0 <= j < i && out[j].id == id
      invariant forall id | id in result ::
        FindHead(t.rows, id).Some? && result[id] == Loaded(FindHead(t.rows, id).value, map[])
    {
      SelectedHeads(t.rows, batch, out, out[i]);
      FindHeadRow(t.rows, out[i]);
      result := result[out[i].id := Loaded(out[i].fields, map[])];
    }
    forall id ensures id in result <==> id in ids + batch && FindHead(t.rows, id).Some? {
      if id in result && id !in loaded {
        var j :| 0 <= j < |out| && out[j].id == id;
        SelectedHeads(t.rows, batch, out, out[j]);
      }
      if id in batch && FindHead(t.rows, id).Some? {
        FoundHeadRow(t.rows, id);
        SelectedHeads(t.rows, batch, out, HeadRow(id, FindHead(t.rows, id).value));
      }
    }
  }

  /** What a load of resources or scopes promises: for each id, what looking it up alone gives. */
  ghost predicate LoadsHeads<F>(c: Codec, t: HeadTable<F>, zero: F, ids: seq<nat>, result: map<nat, Loaded<F>>) {
    && (forall id :: id in result <==> id in ids && FindHead(t.rows, id).Some?)
    && (forall id | id in result :: Shows(c, HeadFor(t, id, zero), result[id]))
  }

  /** The loop that gives each loaded row its attributes, in any order. */
  method AttachAttributes<F>(loaded: map<nat, Loaded<F>>, attrs: map<nat, map<string, Value>>)
      returns (result: map<nat, Loaded<F>>)
    requires forall id | id in loaded :: loaded[id].attributes == map[]
    ensures result.Keys == loaded.Keys
    ensures forall id | id in loaded ::
      result[id] == Loaded(loaded[id].fields, if id in attrs then attrs[id] else map[])
  {
    result := loaded;
    var todo := loaded.Keys;
    while todo != {}
      invariant todo <= loaded.Keys && result.Keys == loaded.Keys
      invariant forall id | id in loaded ::
        result[id] == if id in todo || id !in attrs then loaded[id] else Loaded(loaded[id].fields, attrs[id])
      decreases |todo|
    {
      var id: nat :| id in todo;
      if id in attrs {
        result := result[id := result[id].(attributes := attrs[id])];
      }
      todo := todo - {id};
    }
  }

  /** loadResourcesBatch and loadScopesBatch. */
  method LoadHeadsBatch<F>(c: Codec, t: HeadTable<F>, ids: seq<nat>, size: int, ghost zero: F)
      returns (result: map<nat, Loaded<F>>)
    requires HeadOk(t)
    ensures LoadsHeads(c, t, zero, ids, result)
  {
    result := map[];
    if |ids| == 0 {
      return;
    }
    var chunks := ChunkIDs(ids, size);
    for b := 0 to |chunks|
      invariant HeadsSoFar(t, Concat(chunks[..b]), result)
    {
      ConcatNext(chunks, b);
      result := ReadHeads(t, Concat(chunks[..b]), chunks[b], result);
    }
    assert chunks[..|chunks|] == chunks;
    var attrs, _ := LoadAttributesBatch(c, t.attrs, ids, size);
    result := AttachAttributes(result, attrs);
  }
}
