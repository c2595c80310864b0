/**
 What the flat, depth-annotated span list says about the forest it came from, and the collapsed view of it.
 */
module SpanRows {
  import opened Seqs
  import opened Sorting
  import opened SpanForest

  // ---------------------------------------------------------------- shape of the flat list

  lemma {:induction false} FlattenAppend(f: seq<Tree>, g: seq<Tree>, d: nat)
    ensures Flatten(f + g, d) == Flatten(f, d) + Flatten(g, d)
  {
    if f == [] {
      assert f + g == g;
    } else {
      assert (f + g)[1..] == f[1..] + g;
      FlattenAppend(f[1..], g, d);
    }
  }

  lemma {:induction false} NoShallowerRow(f: seq<Tree>, d: nat)
    ensures forall i | 0 <= i < |Flatten(f, d)| :: Flatten(f, d)[i].depth >= d
    ensures f != [] ==> Flatten(f, d) != [] && Flatten(f, d)[0] == Row(f[0].span, d)
  {
    if f != [] {
      NoShallowerRow(f[0].children, d + 1);
      NoShallowerRow(f[1..], d);
    }
  }

  ghost predicate ChildrenOf(p: Span, f: seq<Tree>) {
    forall i | 0 <= i < |f| :: f[i].span.parentSpanId == p.spanId
  }

  /** Every child names its tree's root as its parent. */
  ghost predicate Linked(f: seq<Tree>) {
    f == [] || (ChildrenOf(f[0].span, f[0].children) && Linked(f[0].children) && Linked(f[1..]))
  }

  lemma {:induction false} TopRow(f: seq<Tree>, d: nat, i: nat) returns (t: nat)
    requires i < |Flatten(f, d)| && Flatten(f, d)[i].depth == d
    ensures t < |f| && f[t].span == Flatten(f, d)[i].span
  {
    var sub := Flatten(f[0].children, d + 1);
    if i == 0 {
      t := 0;
    } else if i <= |sub| {
      NoShallowerRow(f[0].children, d + 1);
      assert false;
    } else {
      assert Flatten(f, d)[i] == Flatten(f[1..], d)[i - 1 - |sub|];
      t := TopRow(f[1..], d, i - 1 - |sub|);
      t := t + 1;
    }
  }

  /** p is the nearest row before i that is one level shallower, and it is the parent of row i. */
  ghost predicate NearestShallowerIsParent(rows: seq<Row>, p: nat, i: nat) {
    && p < i < |rows|
    && rows[p].depth + 1 == rows[i].depth
    && rows[i].span.parentSpanId == rows[p].span.spanId
    && forall q | p < q < i :: rows[q].depth >= rows[i].depth
  }

  lemma NearestLater(pre: seq<Row>, rows: seq<Row>, p: nat, i: nat)
    requires NearestShallowerIsParent(rows, p, i)
    ensures NearestShallowerIsParent(pre + rows, |pre| + p, |pre| + i)
  {
  }

  lemma NearestInContext(pre: seq<Row>, mid: seq<Row>, post: seq<Row>, p: nat, i: nat)
    requires NearestShallowerIsParent(mid, p, i)
    ensures NearestShallowerIsParent(pre + mid + post, |pre| + p, |pre| + i)
  {
  }

  lemma NearestIsTop(top: Span, f: seq<Tree>, rest: seq<Row>, d: nat, i: nat)
    requires ChildrenOf(top, f) && i < |Flatten(f, d + 1)| && Flatten(f, d + 1)[i].depth == d + 1
    ensures NearestShallowerIsParent([Row(top, d)] + Flatten(f, d + 1) + rest, 0, i + 1)
  {
    NoShallowerRow(f, d + 1);
    var t := TopRow(f, d + 1, i);
    var sub := Flatten(f, d + 1);
    var rows := [Row(top, d)] + sub + rest;
    forall q | 0 < q <= i + 1 ensures rows[q] == sub[q - 1] {
    }
  }

  lemma {:induction false} NearestParent(f: seq<Tree>, d: nat, i: nat) returns (p: nat)
    requires Linked(f) && i < |Flatten(f, d)| && Flatten(f, d)[i].depth > d
    ensures NearestShallowerIsParent(Flatten(f, d), p, i)
    decreases f
  {
    var top := [Row(f[0].span, d)];
    var sub := Flatten(f[0].children, d + 1);
    var rest := Flatten(f[1..], d);
    if i <= |sub| {
      assert Flatten(f, d)[i] == sub[i - 1];
      if sub[i - 1].depth == d + 1 {
        NearestIsTop(f[0].span, f[0].children, rest, d, i - 1);
        p := 0;
      } else {
        NoShallowerRow(f[0].children, d + 1);
        p := NearestParent(f[0].children, d + 1, i - 1);
        NearestInContext(top, sub, rest, p, i - 1);
        p := p + 1;
      }
    } else {
      assert Flatten(f, d)[i] == rest[i - 1 - |sub|];
      p := NearestParent(f[1..], d, i - 1 - |sub|);
      NearestLater(top + sub, rest, p, i - 1 - |sub|);
      p := p + 1 + |sub|;
    }
  }

  lemma {:induction false} GrowLinked(table: seq<Span>, list: seq<Span>, d: nat)
    requires UniqueIds(table) && AllRooted(table, list, d)
    ensures Linked(Grow(table, list, d))
    ensures |Grow(table, list, d)| == |list|
    ensures forall i | 0 <= i < |list| :: Grow(table, list, d)[i].span == list[i]
    decreases |table| - d, |list|
  {
    if list != [] {
      var p := list[0];
      assert p in list;
      ChainBound(table, p, d);
      KidsRooted(table, p, d);
      SpanMembers(IsChildOf(p.spanId), table);
      GrowLinked(table, Kids(table, p.spanId), d + 1);
      GrowLinked(table, list[1..], d);
      var f := Grow(table, list, d);
      assert f[1..] == Grow(table, list[1..], d);
      forall i | 0 <= i < |f[0].children| ensures f[0].children[i].span.parentSpanId == p.spanId {
        assert Kids(table, p.spanId)[i] in Kids(table, p.spanId);
      }
    }
  }

  /** In the flat list of any trace, the parent of a row is the nearest earlier row one level shallower. */
  lemma FlatListShowsParents(spans: seq<Span>, i: nat) returns (p: nat)
    requires i < |Flatten(BuildForest(spans), 0)| && Flatten(BuildForest(spans), 0)[i].depth > 0
    ensures NearestShallowerIsParent(Flatten(BuildForest(spans), 0), p, i)
  {
    TableHoldsLast(spans);
    RootsRooted(Table(spans));
    GrowLinked(Table(spans), Roots(Table(spans)), 0);
    p := NearestParent(BuildForest(spans), 0, i);
  }

  /** Siblings are in start order, at every level. */
  ghost predicate InStartOrder(f: seq<Tree>) {
    && (forall i, j | 0 <= i < j < |f| :: f[i].span.startTime <= f[j].span.startTime)
    && (forall i | 0 <= i < |f| :: InStartOrder(f[i].children))
  }

  lemma StartLeTotal(s: seq<Span>)
    ensures TotalOn(StartLe, s)
  {
  }

  lemma StartOrderCons(t: Tree, f: seq<Tree>)
    requires InStartOrder(t.children) && InStartOrder(f)
    requires forall i | 0 <= i < |f| :: t.span.startTime <= f[i].span.startTime
    ensures InStartOrder([t] + f)
  {
    assert forall i | 0 < i <= |f| :: ([t] + f)[i] == f[i - 1];
  }

  lemma {:induction false} GrowInStartOrder(table: seq<Span>, list: seq<Span>, d: nat)
    requires UniqueIds(table) && AllRooted(table, list, d) && Sorted(StartLe, list)
    ensures InStartOrder(Grow(table, list, d))
    decreases |table| - d, |list|
  {
    if list != [] {
      var p := list[0];
      assert p in list;
      ChainBound(table, p, d);
      KidsRooted(table, p, d);
      StartLeTotal(Filter(IsChildOf(p.spanId), table));
      SortSorts(StartLe, Filter(IsChildOf(p.spanId), table));
      GrowInStartOrder(table, Kids(table, p.spanId), d + 1);
      GrowInStartOrder(table, list[1..], d);
      GrowLinked(table, list[1..], d);
      forall i | 0 <= i < |list[1..]| ensures p.startTime <= list[1..][i].startTime {
        assert StartLe(list[0], list[i + 1]);
      }
      StartOrderCons(Node(p, Grow(table, Kids(table, p.spanId), d + 1)), Grow(table, list[1..], d));
    }
  }

  lemma ForestInStartOrder(spans: seq<Span>)
    ensures InStartOrder(BuildForest(spans))
  {
    var table := Table(spans);
    TableHoldsLast(spans);
    RootsRooted(table);
    StartLeTotal(Filter(IsRootIn(table), table));
    SortSorts(StartLe, Filter(IsRootIn(table), table));
    GrowInStartOrder(table, Roots(table), 0);
  }

  function StartsAt(start: int): Span -> bool {
    (s: Span) => s.startTime == start
  }

  /** Those of the list that start together come as the node map lists them; kin says who is in the list. */
  ghost predicate InTableOrder(table: seq<Span>, kin: Span -> bool, list: seq<Span>) {
    forall start :: Filter(StartsAt(start), list) == Filter(StartsAt(start), Filter(kin, table))
  }

  lemma SortsStably(table: seq<Span>, kin: Span -> bool)
    ensures InTableOrder(table, kin, Sort(StartLe, Filter(kin, table)))
  {
    forall start
      ensures Filter(StartsAt(start), Sort(StartLe, Filter(kin, table))) ==
        Filter(StartsAt(start), Filter(kin, table))
    {
      SortStable(StartLe, StartsAt(start), Filter(kin, table));
    }
  }

  function TopSpans(f: seq<Tree>): seq<Span> {
    if f == [] then [] else [f[0].span] + TopSpans(f[1..])
  }

  ghost predicate StableBelow(table: seq<Span>, f: seq<Tree>) {
    forall i | 0 <= i < |f| ::
      && InTableOrder(table, IsChildOf(f[i].span.spanId), TopSpans(f[i].children))
      && StableBelow(table, f[i].children)
  }

  lemma {:induction false} GrowTop(table: seq<Span>, list: seq<Span>, d: nat)
    requires UniqueIds(table) && AllRooted(table, list, d)
    ensures TopSpans(Grow(table, list, d)) == list
    decreases |list|
  {
    if list != [] {
      GrowTop(table, list[1..], d);
      assert Grow(table, list, d)[1..] == Grow(table, list[1..], d);
    }
  }

  lemma {:induction false} GrowStable(table: seq<Span>, list: seq<Span>, d: nat)
    requires UniqueIds(table) && AllRooted(table, list, d)
    ensures StableBelow(table, Grow(table, list, d))
    decreases |table| - d, |list|
  {
    if list != [] {
      var p := list[0];
      assert p in list;
      ChainBound(table, p, d);
      KidsRooted(table, p, d);
      SortsStably(table, IsChildOf(p.spanId));
      GrowTop(table, Kids(table, p.spanId), d + 1);
      GrowStable(table, Kids(table, p.spanId), d + 1);
      GrowStable(table, list[1..], d);
      var f := Grow(table, list, d);
      assert f[0] == Node(p, Grow(table, Kids(table, p.spanId), d + 1)) && f[1..] == Grow(table, list[1..], d);
      forall i | 0 <= i < |f|
        ensures InTableOrder(table, IsChildOf(f[i].span.spanId), TopSpans(f[i].children))
        ensures StableBelow(table, f[i].children)
      {
        if i > 0 {
          assert f[i] == f[1..][i - 1];
        }
      }
    }
  }

  /** In the forest of any trace, roots or children of one span that start together keep the order of the node map. */
  lemma SiblingsStable(spans: seq<Span>)
    ensures InTableOrder(Table(spans), IsRootIn(Table(spans)), TopSpans(BuildForest(spans)))
    ensures StableBelow(Table(spans), BuildForest(spans))
  {
    TableHoldsLast(spans);
    RootsRooted(Table(spans));
    SortsStably(Table(spans), IsRootIn(Table(spans)));
    GrowTop(Table(spans), Roots(Table(spans)), 0);
    GrowStable(Table(spans), Roots(Table(spans)), 0);
  }

  // ---------------------------------------------------------------- rebuilding

  /** The length of the leading run of rows deeper than d. */
  function Block(rows: seq<Row>, d: nat): (n: nat)
    ensures n <= |rows|
  {
    if rows == [] || rows[0].depth <= d then 0 else 1 + Block(rows[1..], d)
  }

  /** Reads a forest back from its flat list: the rows below a row are the run of deeper rows after it. */
  function Rebuild(rows: seq<Row>): seq<Tree>
    decreases |rows|
  {
    if rows == [] then []
    else
      var tail := rows[1..];
      var n := Block(tail, rows[0].depth);
      [Node(rows[0].span, Rebuild(tail[..n]))] + Rebuild(tail[n..])
  }

  lemma {:induction false} BlockEndsAt(deep: seq<Row>, rest: seq<Row>, d: nat)
    requires forall i | 0 <= i < |deep| :: deep[i].depth > d
    requires rest == [] || rest[0].depth <= d
    ensures Block(deep + rest, d) == |deep|
  {
    if deep == [] {
      assert deep + rest == rest;
    } else {
      assert (deep + rest)[1..] == deep[1..] + rest;
      BlockEndsAt(deep[1..], rest, d);
    }
  }

  lemma RebuildSplits(top: Row, deep: seq<Row>, rest: seq<Row>)
    requires forall i | 0 <= i < |deep| :: deep[i].depth > top.depth
    requires rest == [] || rest[0].depth <= top.depth
    ensures Rebuild([top] + deep + rest) == [Node(top.span, Rebuild(deep))] + Rebuild(rest)
  {
    var tail := deep + rest;
    var rows := [top] + tail;
    assert [top] + deep + rest == rows;
    assert rows[1..] == tail;
    BlockEndsAt(deep, rest, top.depth);
    assert tail[..|deep|] == deep;
    assert tail[|deep|..] == rest;
  }

  /** Flattening loses nothing: subtrees are contiguous and the depths give the forest back. */
  lemma {:induction false} RebuildFlatten(f: seq<Tree>, d: nat)
    ensures Rebuild(Flatten(f, d)) == f
    decreases f
  {
    if f != [] {
      NoShallowerRow(f[0].children, d + 1);
      NoShallowerRow(f[1..], d);
      RebuildFlatten(f[0].children, d + 1);
      RebuildFlatten(f[1..], d);
      RebuildSplits(Row(f[0].span, d), Flatten(f[0].children, d + 1), Flatten(f[1..], d));
    }
  }

  // ---------------------------------------------------------------- the collapsed view

  /** Preorder that goes below a node only if its id is expanded. */
  function FlattenExpanded(f: seq<Tree>, expanded: set<string>, depth: nat): seq<Row> {
    if f == [] then []
    else
      [Row(f[0].span, depth)]
      + (if f[0].span.spanId in expanded then FlattenExpanded(f[0].children, expanded, depth + 1) else [])
      + FlattenExpanded(f[1..], expanded, depth)
  }

  /** A row with the ids of its proper ancestors. */
  datatype Placed = Placed(row: Row, above: set<string>)

  function Places(f: seq<Tree>, above: set<string>, depth: nat): seq<Placed> {
    if f == [] then []
    else
      [Placed(Row(f[0].span, depth), above)]
      + Places(f[0].children, above + {f[0].span.spanId}, depth + 1)
      + Places(f[1..], above, depth)
  }

  function RowsOf(ps: seq<Placed>): seq<Row> {
    if ps == [] then [] else [ps[0].row] + RowsOf(ps[1..])
  }

  function Shown(expanded: set<string>): Placed -> bool {
    (p: Placed) => p.above <= expanded
  }

  lemma {:induction false} RowsOfAppend(a: seq<Placed>, b: seq<Placed>)
    ensures RowsOf(a + b) == RowsOf(a) + RowsOf(b)
  {
    if a == [] {
      assert a + b == b;
    } else {
      assert (a + b)[1..] == a[1..] + b;
      RowsOfAppend(a[1..], b);
    }
  }

  /** Places annotates the flat list and adds nothing to it. */
  lemma {:induction false} PlacesFlatten(f: seq<Tree>, above: set<string>, depth: nat)
    ensures RowsOf(Places(f, above, depth)) == Flatten(f, depth)
    decreases f
  {
    if f != [] {
      var top := [Placed(Row(f[0].span, depth), above)];
      var under := Places(f[0].children, above + {f[0].span.spanId}, depth + 1);
      PlacesFlatten(f[0].children, above + {f[0].span.spanId}, depth + 1);
      PlacesFlatten(f[1..], above, depth);
      RowsOfAppend(top + under, Places(f[1..], above, depth));
      RowsOfAppend(top, under);
    }
  }

  lemma {:induction false} HiddenBelow(f: seq<Tree>, above: set<string>, depth: nat, expanded: set<string>)
    requires !(above <= expanded)
    ensures Filter(Shown(expanded), Places(f, above, depth)) == []
    decreases f
  {
    if f != [] {
      var top := [Placed(Row(f[0].span, depth), above)];
      var under := Places(f[0].children, above + {f[0].span.spanId}, depth + 1);
      HiddenBelow(f[0].children, above + {f[0].span.spanId}, depth + 1, expanded);
      HiddenBelow(f[1..], above, depth, expanded);
      FilterAppend(Shown(expanded), top + under, Places(f[1..], above, depth));
      FilterAppend(Shown(expanded), top, under);
    }
  }

  /** The collapsed view is the flat list without the rows that have a collapsed proper ancestor. */
  lemma {:induction false} ExpandedShowsUncollapsed(f: seq<Tree>, above: set<string>, depth: nat, expanded: set<string>)
    requires above <= expanded
    ensures FlattenExpanded(f, expanded, depth) == RowsOf(Filter(Shown(expanded), Places(f, above, depth)))
    decreases f
  {
    if f != [] {
      var top := [Placed(Row(f[0].span, depth), above)];
      var here := above + {f[0].span.spanId};
      var under := Places(f[0].children, here, depth + 1);
      var rest := Places(f[1..], above, depth);
      var keep := Shown(expanded);
      FilterAppend(keep, top + under, rest);
      FilterAppend(keep, top, under);
      RowsOfAppend(Filter(keep, top + under), Filter(keep, rest));
      RowsOfAppend(Filter(keep, top), Filter(keep, under));
      ExpandedShowsUncollapsed(f[1..], above, depth, expanded);
      if f[0].span.spanId in expanded {
        ExpandedShowsUncollapsed(f[0].children, here, depth + 1, expanded);
      } else {
        HiddenBelow(f[0].children, here, depth + 1, expanded);
      }
    }
  }

  /** Every id of the forest. */
  function Ids(f: seq<Tree>): set<string> {
    if f == [] then {} else {f[0].span.spanId} + Ids(f[0].children) + Ids(f[1..])
  }

  /** Expanding every id shows the whole flat list. */
  lemma {:induction false} ExpandAllShowsAll(f: seq<Tree>, expanded: set<string>, depth: nat)
    requires Ids(f) <= expanded
    ensures FlattenExpanded(f, expanded, depth) == Flatten(f, depth)
    decreases f
  {
    if f != [] {
      ExpandAllShowsAll(f[0].children, expanded, depth + 1);
      ExpandAllShowsAll(f[1..], expanded, depth);
    }
  }

  /** The click handler: expand if collapsed, collapse if expanded. */
  function Toggle(expanded: set<string>, id: string): set<string> {
    if id in expanded then expanded - {id} else expanded + {id}
  }

  ghost predicate DistinctIds(f: seq<Tree>) {
    f == [] || (
      && f[0].span.spanId !in Ids(f[0].children)
      && f[0].span.spanId !in Ids(f[1..])
      && Ids(f[0].children) !! Ids(f[1..])
      && DistinctIds(f[0].children) && DistinctIds(f[1..]))
  }

  lemma {:induction false} CollapseElsewhere(f: seq<Tree>, expanded: set<string>, id: string, depth: nat)
    requires id !in Ids(f)
    ensures FlattenExpanded(f, expanded - {id}, depth) == FlattenExpanded(f, expanded, depth)
    decreases f
  {
    if f != [] {
      CollapseElsewhere(f[0].children, expanded, id, depth + 1);
      CollapseElsewhere(f[1..], expanded, id, depth);
    }
  }

  ghost predicate Visible(f: seq<Tree>, expanded: set<string>, id: string) {
    f != [] && (
      || f[0].span.spanId == id
      || (f[0].span.spanId in expanded && Visible(f[0].children, expanded, id))
      || Visible(f[1..], expanded, id))
  }

  function RowIds(rows: seq<Row>): set<string> {
    if rows == [] then {} else {rows[0].span.spanId} + RowIds(rows[1..])
  }

  lemma {:induction false} RowIdsAppend(a: seq<Row>, b: seq<Row>)
    ensures RowIds(a + b) == RowIds(a) + RowIds(b)
  {
    if a == [] {
      assert a + b == b;
    } else {
      assert (a + b)[1..] == a[1..] + b;
      RowIdsAppend(a[1..], b);
    }
  }

  /** Visible means that the view has a row with the id. */
  lemma {:induction false} VisibleIffRow(f: seq<Tree>, expanded: set<string>, id: string, depth: nat)
    ensures Visible(f, expanded, id) <==> id in RowIds(FlattenExpanded(f, expanded, depth))
    ensures Visible(f, expanded, id) ==> id in Ids(f)
    decreases f
  {
    if f != [] {
      VisibleIffRow(f[0].children, expanded, id, depth + 1);
      VisibleIffRow(f[1..], expanded, id, depth);
      var top := [Row(f[0].span, depth)];
      var under := if f[0].span.spanId in expanded then FlattenExpanded(f[0].children, expanded, depth + 1) else [];
      RowIdsAppend(top + under, FlattenExpanded(f[1..], expanded, depth));
      RowIdsAppend(top, under);
    }
  }

  /** The view around the block that collapsing one node takes out. */
  datatype Hole = Hole(before: seq<Row>, node: Tree, depth: nat, after: seq<Row>)

  ghost predicate IsHole(f: seq<Tree>, expanded: set<string>, id: string, depth: nat, h: Hole) {
    && h.node.span.spanId == id
    && FlattenExpanded(f, expanded, depth) ==
         h.before + [Row(h.node.span, h.depth)] + FlattenExpanded(h.node.children, expanded, h.depth + 1) + h.after
    && FlattenExpanded(f, expanded - {id}, depth) == h.before + [Row(h.node.span, h.depth)] + h.after
  }

  lemma HoleInFirst(f: seq<Tree>, expanded: set<string>, id: string, depth: nat, h: Hole) returns (r: Hole)
    requires f != [] && f[0].span.spanId in expanded && f[0].span.spanId != id && id !in Ids(f[1..])
    requires IsHole(f[0].children, expanded, id, depth + 1, h)
    ensures IsHole(f, expanded, id, depth, r)
  {
    var top, rest := [Row(f[0].span, depth)], FlattenExpanded(f[1..], expanded, depth);
    CollapseElsewhere(f[1..], expanded, id, depth);
    r := h.(before := top + h.before, after := h.after + rest);
    var row, block := [Row(h.node.span, h.depth)], FlattenExpanded(h.node.children, expanded, h.depth + 1);
    assert top + (h.before + row + block + h.after) + rest == top + h.before + row + block + (h.after + rest);
    assert top + (h.before + row + h.after) + rest == top + h.before + row + (h.after + rest);
  }

  lemma HoleInRest(f: seq<Tree>, expanded: set<string>, id: string, depth: nat, h: Hole) returns (r: Hole)
    requires f != [] && f[0].span.spanId != id && id !in Ids(f[0].children)
    requires IsHole(f[1..], expanded, id, depth, h)
    ensures IsHole(f, expanded, id, depth, r)
  {
    var first :=
      [Row(f[0].span, depth)]
      + (if f[0].span.spanId in expanded then FlattenExpanded(f[0].children, expanded, depth + 1) else []);
    CollapseElsewhere(f[0].children, expanded, id, depth + 1);
    r := h.(before := first + h.before);
    var row, block := [Row(h.node.span, h.depth)], FlattenExpanded(h.node.children, expanded, h.depth + 1);
    assert first + (h.before + row + block + h.after) == first + h.before + row + block + h.after;
    assert first + (h.before + row + h.after) == first + h.before + row + h.after;
  }

  lemma HoleHere(f: seq<Tree>, expanded: set<string>, id: string, depth: nat) returns (h: Hole)
    requires DistinctIds(f) && f != [] && f[0].span.spanId == id && id in expanded
    ensures IsHole(f, expanded, id, depth, h)
  {
    CollapseElsewhere(f[1..], expanded, id, depth);
    h := Hole([], f[0], depth, FlattenExpanded(f[1..], expanded, depth));
    assert FlattenExpanded(f, expanded - {id}, depth) == [Row(f[0].span, depth)] + h.after;
    assert h.before + [Row(f[0].span, depth)] == [Row(f[0].span, depth)];
  }

  /**
   Collapsing a visible expanded node removes from the view exactly the rows visible below it, one contiguous block
   right after the node.
   */
  lemma {:induction false} CollapseRemovesBlock(f: seq<Tree>, expanded: set<string>, id: string, depth: nat)
      returns (h: Hole)
    requires DistinctIds(f) && id in expanded && Visible(f, expanded, id)
    ensures IsHole(f, expanded, id, depth, h)
    decreases f
  {
    if f[0].span.spanId == id {
      h := HoleHere(f, expanded, id, depth);
    } else if f[0].span.spanId in expanded && Visible(f[0].children, expanded, id) {
      VisibleIffRow(f[0].children, expanded, id, depth + 1);
      h := CollapseRemovesBlock(f[0].children, expanded, id, depth + 1);
      h := HoleInFirst(f, expanded, id, depth, h);
    } else {
      VisibleIffRow(f[1..], expanded, id, depth);
      h := CollapseRemovesBlock(f[1..], expanded, id, depth);
      h := HoleInRest(f, expanded, id, depth, h);
    }
  }

  /** Collapsing a node that cannot be seen changes nothing. */
  lemma {:induction false} CollapseUnseen(f: seq<Tree>, expanded: set<string>, id: string, depth: nat)
    requires !Visible(f, expanded, id)
    ensures FlattenExpanded(f, expanded - {id}, depth) == FlattenExpanded(f, expanded, depth)
    decreases f
  {
    if f != [] {
      if f[0].span.spanId in expanded {
        CollapseUnseen(f[0].children, expanded, id, depth + 1);
      }
      CollapseUnseen(f[1..], expanded, id, depth);
    }
  }

  /** The flat list has exactly the ids of the forest. */
  lemma {:induction false} IdsAreRowIds(f: seq<Tree>, d: nat)
    ensures RowIds(Flatten(f, d)) == Ids(f)
    decreases f
  {
    if f != [] {
      var top, under := [Row(f[0].span, d)], Flatten(f[0].children, d + 1);
      IdsAreRowIds(f[0].children, d + 1);
      IdsAreRowIds(f[1..], d);
      RowIdsAppend(top + under, Flatten(f[1..], d));
      RowIdsAppend(top, under);
    }
  }

  ghost predicate DistinctRowIds(rows: seq<Row>) {
    rows == [] || (rows[0].span.spanId !in RowIds(rows[1..]) && DistinctRowIds(rows[1..]))
  }

  lemma {:induction false} DistinctRowIdsSplit(a: seq<Row>, b: seq<Row>)
    requires DistinctRowIds(a + b)
    ensures DistinctRowIds(a) && DistinctRowIds(b) && RowIds(a) !! RowIds(b)
  {
    if a == [] {
      assert a + b == b;
    } else {
      assert (a + b)[1..] == a[1..] + b;
      RowIdsAppend(a[1..], b);
      DistinctRowIdsSplit(a[1..], b);
    }
  }

  lemma {:induction false} DistinctRowsDistinctIds(f: seq<Tree>, d: nat)
    requires DistinctRowIds(Flatten(f, d))
    ensures DistinctIds(f)
    decreases f
  {
    if f != [] {
      var top, under, rest := [Row(f[0].span, d)], Flatten(f[0].children, d + 1), Flatten(f[1..], d);
      DistinctRowIdsSplit(top + under, rest);
      DistinctRowIdsSplit(top, under);
      RowIdsAppend(top, under);
      IdsAreRowIds(f[0].children, d + 1);
      IdsAreRowIds(f[1..], d);
      DistinctRowsDistinctIds(f[0].children, d + 1);
      DistinctRowsDistinctIds(f[1..], d);
    }
  }

  lemma {:induction false} RowWithId(rows: seq<Row>, id: string) returns (r: Row)
    requires id in RowIds(rows)
    ensures r in rows && r.span.spanId == id
  {
    if rows[0].span.spanId == id {
      r := rows[0];
    } else {
      r := RowWithId(rows[1..], id);
    }
  }

  lemma {:induction false} DistinctFromCounts(rows: seq<Row>)
    requires forall r :: multiset(rows)[r] <= 1
    requires forall r, t | r in rows && t in rows && r.span.spanId == t.span.spanId :: r == t
    ensures DistinctRowIds(rows)
  {
    if rows != [] {
      TailMultiset(rows);
      forall r ensures multiset(rows[1..])[r] <= 1 {
        assert multiset(rows)[r] <= 1;
      }
      DistinctFromCounts(rows[1..]);
      if rows[0].span.spanId in RowIds(rows[1..]) {
        var r := RowWithId(rows[1..], rows[0].span.spanId);
        assert false;
      }
    }
  }

  /** No id occurs twice in the forest of any trace, so the collapse law holds for all of them. */
  lemma ForestDistinctIds(spans: seq<Span>)
    ensures DistinctIds(BuildForest(spans))
  {
    var rows := Flatten(BuildForest(spans), 0);
    TableHoldsLast(spans);
    forall r ensures multiset(rows)[r] <= 1 {
      ForestRooted(spans, r);
    }
    forall r, t | r in rows && t in rows && r.span.spanId == t.span.spanId ensures r == t {
      ForestRooted(spans, r);
      ForestRooted(spans, t);
      assert multiset(rows)[r] > 0 && multiset(rows)[t] > 0;
      SameIdSameSpan(Table(spans), r.span, t.span);
      RootedDepthUnique(Table(spans), r.span, r.depth, t.depth);
    }
    DistinctFromCounts(rows);
    DistinctRowsDistinctIds(BuildForest(spans), 0);
  }

  /** The view a trace opens with, every id given expanded, is its whole flat list. */
  lemma OpensExpanded(spans: seq<Span>)
    ensures
      var ids := set i | 0 <= i < |spans| :: spans[i].spanId;
      FlattenExpanded(BuildForest(spans), ids, 0) == Flatten(BuildForest(spans), 0)
  {
    var ids := set i | 0 <= i < |spans| :: spans[i].spanId;
    var rows := Flatten(BuildForest(spans), 0);
    IdsAreRowIds(BuildForest(spans), 0);
    forall id | id in RowIds(rows) ensures id in ids {
      var r := RowWithId(rows, id);
      ForestRooted(spans, r);
      assert multiset(rows)[r] > 0;
    }
    ExpandAllShowsAll(BuildForest(spans), ids, 0);
  }

  /** The handler changes whether the id is expanded, and nothing else. */
  lemma ToggleIs(expanded: set<string>, id: string, other: string)
    ensures id in Toggle(expanded, id) <==> id !in expanded
    ensures other != id ==> (other in Toggle(expanded, id) <==> other in expanded)
  {
  }

  /** Toggling twice restores the view. */
  lemma ToggleTwice(f: seq<Tree>, expanded: set<string>, id: string)
    ensures FlattenExpanded(f, Toggle(Toggle(expanded, id), id), 0) == FlattenExpanded(f, expanded, 0)
  {
    assert Toggle(Toggle(expanded, id), id) == expanded;
  }
}
