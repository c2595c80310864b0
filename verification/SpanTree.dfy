/**
 The span tree code as it runs: node objects whose children and depth are updated in place,
 proved against the forest of SpanForest for every list of spans.
 */
module SpanTree {
  import opened Seqs
  import opened Sorting
  import opened SpanForest
  import opened SpanRows

  class SpanNode {
    const span: Span
    var children: seq<SpanNode>
    var depth: nat

    constructor (span: Span)
      ensures this.span == span && children == [] && depth == 0
    {
      this.span := span;
      children := [];
      depth := 0;
    }
  }

  predicate NodeLe(a: SpanNode, b: SpanNode) {
    StartLe(a.span, b.span)
  }

  ghost predicate HasNodes(nodes: map<string, SpanNode>, list: seq<Span>) {
    forall s | s in list :: s.spanId in nodes && nodes[s.spanId].span == s
  }

  /** The node objects are one per id of the table, each holding that id's span. */
  ghost predicate NodesFor(table: seq<Span>, nodes: map<string, SpanNode>) {
    UniqueIds(table) && HasNodes(nodes, table)
  }

  /** The node objects of a list of spans. */
  ghost function NodesOf(nodes: map<string, SpanNode>, list: seq<Span>): seq<SpanNode> {
    if list == [] then []
    else (if list[0].spanId in nodes then [nodes[list[0].spanId]] else []) + NodesOf(nodes, list[1..])
  }

  lemma {:induction false} NodesOfAppend(nodes: map<string, SpanNode>, a: seq<Span>, b: seq<Span>)
    ensures NodesOf(nodes, a + b) == NodesOf(nodes, a) + NodesOf(nodes, b)
  {
    if a == [] {
      assert a + b == b;
    } else {
      assert (a + b)[1..] == a[1..] + b;
      NodesOfAppend(nodes, a[1..], b);
    }
  }

  lemma {:induction false} NodesOfMember(nodes: map<string, SpanNode>, list: seq<Span>, n: SpanNode)
    requires HasNodes(nodes, list)
    ensures n in NodesOf(nodes, list) <==> n.span in list && nodes[n.span.spanId] == n
  {
    if list != [] {
      assert list[0] in list;
      NodesOfMember(nodes, list[1..], n);
    }
  }

  lemma {:induction false} InsertNodes(nodes: map<string, SpanNode>, x: Span, list: seq<Span>)
    requires HasNodes(nodes, [x]) && HasNodes(nodes, list)
    ensures Insert(NodeLe, nodes[x.spanId], NodesOf(nodes, list)) == NodesOf(nodes, Insert(StartLe, x, list))
  {
    assert x in [x];
    if list != [] {
      assert list[0] in list;
      assert NodesOf(nodes, list)[1..] == NodesOf(nodes, list[1..]);
      if StartLe(x, list[0]) {
        assert ([x] + list)[1..] == list;
      } else {
        InsertNodes(nodes, x, list[1..]);
        assert Insert(StartLe, x, list)[1..] == Insert(StartLe, x, list[1..]);
      }
    }
  }

  /** Sorting node objects by start time is sorting their spans. */
  lemma {:induction false} SortNodes(nodes: map<string, SpanNode>, list: seq<Span>)
    requires HasNodes(nodes, list)
    ensures Sort(NodeLe, NodesOf(nodes, list)) == NodesOf(nodes, Sort(StartLe, list))
  {
    if list != [] {
      var rest := Sort(StartLe, list[1..]);
      assert list[0] in list;
      SortNodes(nodes, list[1..]);
      forall s | s in rest ensures s in list {
        SortMember(StartLe, list[1..], s);
      }
      InsertNodes(nodes, list[0], rest);
      assert NodesOf(nodes, list)[1..] == NodesOf(nodes, list[1..]);
    }
  }

  /** The heap reachable from list is the forest f, its roots at the given depth. */
  ghost predicate Represents(repr: set<SpanNode>, list: seq<SpanNode>, f: seq<Tree>, depth: nat)
    reads repr
    decreases f
  {
    if f == [] then list == []
    else
      && list != [] && list[0] in repr
      && list[0].span == f[0].span && list[0].depth == depth
      && Represents(repr, list[0].children, f[0].children, depth + 1)
      && Represents(repr, list[1..], f[1..], depth)
  }

  ghost function RowsIn(list: seq<SpanNode>): seq<Row>
    reads list
  {
    if list == [] then [] else [Row(list[0].span, list[0].depth)] + RowsIn(list[1..])
  }

  lemma {:induction false} RowsInAppend(a: seq<SpanNode>, b: seq<SpanNode>)
    ensures RowsIn(a + b) == RowsIn(a) + RowsIn(b)
  {
    if a == [] {
      assert a + b == b;
    } else {
      assert (a + b)[1..] == a[1..] + b;
      RowsInAppend(a[1..], b);
    }
  }

  lemma RowsInNext(list: seq<SpanNode>, node: SpanNode)
    ensures RowsIn(list + [node]) == RowsIn(list) + [Row(node.span, node.depth)]
  {
    RowsInAppend(list, [node]);
  }

  lemma {:induction false} RepresentsLength(repr: set<SpanNode>, list: seq<SpanNode>, f: seq<Tree>, depth: nat)
    requires Represents(repr, list, f, depth)
    ensures |list| == |f|
  {
    if f != [] {
      RepresentsLength(repr, list[1..], f[1..], depth);
    }
  }

  lemma {:induction false} RepresentsAt(repr: set<SpanNode>, list: seq<SpanNode>, f: seq<Tree>, depth: nat, i: nat)
    requires Represents(repr, list, f, depth) && i < |f|
    ensures |list| == |f| && list[i] in repr
    ensures list[i].span == f[i].span && list[i].depth == depth
    ensures Represents(repr, list[i].children, f[i].children, depth + 1)
  {
    RepresentsLength(repr, list, f, depth);
    if i > 0 {
      RepresentsAt(repr, list[1..], f[1..], depth, i - 1);
    }
  }

  // ---------------------------------------------------------------- flattening

  ghost function NodeRows(t: Tree, depth: nat): seq<Row> {
    [Row(t.span, depth)] + Flatten(t.children, depth + 1)
  }

  lemma FlattenNext(f: seq<Tree>, depth: nat, i: nat)
    requires i < |f|
    ensures Flatten(f[..i + 1], depth) ==
      Flatten(f[..i], depth) + NodeRows(f[i], depth)
  {
    assert f[..i + 1] == f[..i] + [f[i]];
    FlattenAppend(f[..i], [f[i]], depth);
  }

  /** flattenTree's walk: push each node, then walk its children. */
  method Walk(flat: seq<SpanNode>, list: seq<SpanNode>, ghost repr: set<SpanNode>, ghost f: seq<Tree>, ghost depth: nat)
      returns (out: seq<SpanNode>)
    requires Represents(repr, list, f, depth)
    ensures RowsIn(out) == RowsIn(flat) + Flatten(f, depth)
    decreases f, 1
  {
    out := flat;
    RepresentsLength(repr, list, f, depth);
    for i := 0 to |list|
      invariant RowsIn(out) == RowsIn(flat) + Flatten(f[..i], depth)
    {
      RepresentsAt(repr, list, f, depth, i);
      FlattenNext(f, depth, i);
      ghost var rows, before, node := RowsIn(flat), Flatten(f[..i], depth), NodeRows(f[i], depth);
      assert rows + before + node == rows + (before + node);
      out := WalkNode(out, list[i], repr, f[i], depth);
    }
    assert f[..|f|] == f;
  }

  /** The body of walk's loop. */
  method WalkNode(flat: seq<SpanNode>, node: SpanNode, ghost repr: set<SpanNode>, ghost t: Tree, ghost depth: nat)
      returns (out: seq<SpanNode>)
    requires node in repr && node.span == t.span && node.depth == depth
    requires Represents(repr, node.children, t.children, depth + 1)
    ensures RowsIn(out) == RowsIn(flat) + NodeRows(t, depth)
    decreases t, 0
  {
    RowsInNext(flat, node);
    out := Walk(flat + [node], node.children, repr, t.children, depth + 1);
  }

  method FlattenTree(list: seq<SpanNode>, ghost repr: set<SpanNode>, ghost f: seq<Tree>) returns (flat: seq<SpanNode>)
    requires Represents(repr, list, f, 0)
    ensures RowsIn(flat) == Flatten(f, 0)
  {
    flat := Walk([], list, repr, f, 0);
  }

  lemma {:induction false} FlattenExpandedAppend(f: seq<Tree>, g: seq<Tree>, expanded: set<string>, d: nat)
    ensures FlattenExpanded(f + g, expanded, d) == FlattenExpanded(f, expanded, d) + FlattenExpanded(g, expanded, d)
  {
    if f == [] {
      assert f + g == g;
    } else {
      assert (f + g)[1..] == f[1..] + g;
      FlattenExpandedAppend(f[1..], g, expanded, d);
    }
  }

  ghost function ExpandedNode(t: Tree, expanded: set<string>, depth: nat): seq<Row> {
    [Row(t.span, depth)] + if t.span.spanId in expanded then FlattenExpanded(t.children, expanded, depth + 1) else []
  }

  lemma FlattenExpandedNext(rows: seq<Row>, f: seq<Tree>, expanded: set<string>, depth: nat, i: nat)
    requires i < |f|
    ensures rows + FlattenExpanded(f[..i + 1], expanded, depth) ==
      rows + FlattenExpanded(f[..i], expanded, depth) + ExpandedNode(f[i], expanded, depth)
  {
    assert f[..i + 1] == f[..i] + [f[i]];
    FlattenExpandedAppend(f[..i], [f[i]], expanded, depth);
    var before, node := FlattenExpanded(f[..i], expanded, depth), ExpandedNode(f[i], expanded, depth);
    assert rows + before + node == rows + (before + node);
  }

  lemma ExpandedNodeIs(rows: seq<Row>, t: Tree, expanded: set<string>, depth: nat)
    ensures rows + ExpandedNode(t, expanded, depth) ==
      if t.children != [] && t.span.spanId in expanded
        then rows + [Row(t.span, depth)] + FlattenExpanded(t.children, expanded, depth + 1)
        else rows + [Row(t.span, depth)]
  {
  }

  method WalkExpanded(
      flat: seq<SpanNode>, list: seq<SpanNode>, expanded: set<string>,
      ghost repr: set<SpanNode>, ghost f: seq<Tree>, ghost depth: nat)
      returns (out: seq<SpanNode>)
    requires Represents(repr, list, f, depth)
    ensures RowsIn(out) == RowsIn(flat) + FlattenExpanded(f, expanded, depth)
    decreases f, 1
  {
    out := flat;
    RepresentsLength(repr, list, f, depth);
    ghost var rows := RowsIn(flat);
    for i := 0 to |list|
      invariant RowsIn(out) == rows + FlattenExpanded(f[..i], expanded, depth)
    {
      RepresentsAt(repr, list, f, depth, i);
      FlattenExpandedNext(rows, f, expanded, depth, i);
      out := WalkExpandedNode(out, list[i], expanded, repr, f[i], depth);
    }
    assert f[..|f|] == f;
  }

  /** The body of the expanded walk's loop. */
  method WalkExpandedNode(
      flat: seq<SpanNode>, node: SpanNode, expanded: set<string>,
      ghost repr: set<SpanNode>, ghost t: Tree, ghost depth: nat)
      returns (out: seq<SpanNode>)
    requires node in repr && node.span == t.span && node.depth == depth
    requires Represents(repr, node.children, t.children, depth + 1)
    ensures RowsIn(out) == RowsIn(flat) + ExpandedNode(t, expanded, depth)
    decreases t, 0
  {
    RowsInNext(flat, node);
    RepresentsLength(repr, node.children, t.children, depth + 1);
    ExpandedNodeIs(RowsIn(flat), t, expanded, depth);
    out := flat + [node];
    if |node.children| > 0 && node.span.spanId in expanded {
      out := WalkExpanded(out, node.children, expanded, repr, t.children, depth + 1);
    }
  }

  method FlattenExpandedTree(list: seq<SpanNode>, expanded: set<string>, ghost repr: set<SpanNode>, ghost f: seq<Tree>)
      returns (flat: seq<SpanNode>)
    requires Represents(repr, list, f, 0)
    ensures RowsIn(flat) == FlattenExpanded(f, expanded, 0)
  {
    flat := WalkExpanded([], list, expanded, repr, f, 0);
  }

  // ---------------------------------------------------------------- sorting and depths

  lemma {:induction false} NodesOfLength(nodes: map<string, SpanNode>, list: seq<Span>)
    requires HasNodes(nodes, list)
    ensures |NodesOf(nodes, list)| == |list|
  {
    if list != [] {
      assert list[0] in list;
      NodesOfLength(nodes, list[1..]);
    }
  }

  lemma {:induction false} NodesOfIndex(nodes: map<string, SpanNode>, list: seq<Span>, i: nat)
    requires HasNodes(nodes, list) && i < |list|
    ensures |NodesOf(nodes, list)| == |list| && NodesOf(nodes, list)[i] == nodes[list[i].spanId]
  {
    NodesOfLength(nodes, list);
    if i > 0 {
      NodesOfIndex(nodes, list[1..], i - 1);
    }
  }

  ghost function TreeSpans(f: seq<Tree>): set<Span> {
    if f == [] then {} else {f[0].span} + TreeSpans(f[0].children) + TreeSpans(f[1..])
  }

  lemma {:induction false} TreeSpansAppend(f: seq<Tree>, g: seq<Tree>)
    ensures TreeSpans(f + g) == TreeSpans(f) + TreeSpans(g)
  {
    if f == [] {
      assert f + g == g;
    } else {
      assert (f + g)[1..] == f[1..] + g;
      TreeSpansAppend(f[1..], g);
    }
  }

  lemma TreeSpansNext(f: seq<Tree>, i: nat)
    requires i < |f|
    ensures TreeSpans(f[..i + 1]) == TreeSpans(f[..i]) + ({f[i].span} + TreeSpans(f[i].children))
  {
    assert f[..i + 1] == f[..i] + [f[i]];
    TreeSpansAppend(f[..i], [f[i]]);
  }

  lemma {:induction false} RowsAreInTrees(f: seq<Tree>, d: nat, r: Row)
    requires r in Flatten(f, d)
    ensures r.span in TreeSpans(f)
    decreases f
  {
    if r in Flatten(f[0].children, d + 1) {
      RowsAreInTrees(f[0].children, d + 1, r);
    } else if r in Flatten(f[1..], d) {
      RowsAreInTrees(f[1..], d, r);
    }
  }

  /** Every rooted span is in the forest. */
  lemma RootedAreInForest(spans: seq<Span>, s: Span, e: nat)
    requires s in Table(spans) && Rooted(Table(spans), s, e)
    ensures s in TreeSpans(BuildForest(spans))
  {
    ForestRooted(spans, Row(s, e));
    TableMember(spans, s);
    assert Row(s, e) in multiset(Flatten(BuildForest(spans), 0));
    RowsAreInTrees(BuildForest(spans), 0, Row(s, e));
  }

  /** t is the tree that grows from its span. */
  ghost predicate Grown(table: seq<Span>, t: Tree, d: nat)
    requires UniqueIds(table)
  {
    && t.span in table && Rooted(table, t.span, d)
    && AllRooted(table, Kids(table, t.span.spanId), d + 1)
    && t.children == Grow(table, Kids(table, t.span.spanId), d + 1)
  }

  lemma {:induction false} GrownAt(table: seq<Span>, list: seq<Span>, d: nat, i: nat)
    requires UniqueIds(table) && AllRooted(table, list, d) && i < |list|
    ensures |Grow(table, list, d)| == |list|
    ensures Grow(table, list, d)[i].span == list[i] && Grown(table, Grow(table, list, d)[i], d)
    decreases |list|
  {
    GrowLinked(table, list, d);
    assert list[0] in list;
    KidsRooted(table, list[0], d);
    assert Grow(table, list, d)[1..] == Grow(table, list[1..], d);
    if i > 0 {
      GrownAt(table, list[1..], d, i - 1);
    }
  }

  /** The children of s, once sorted, are the nodes of its kids. */
  ghost predicate ChildrenFilled(table: seq<Span>, nodes: map<string, SpanNode>, s: Span)
    reads nodes.Values`children
  {
    s.spanId in nodes && Sort(NodeLe, nodes[s.spanId].children) == NodesOf(nodes, Kids(table, s.spanId))
  }

  ghost predicate ChildrenSorted(table: seq<Span>, nodes: map<string, SpanNode>, s: Span)
    reads nodes.Values`children
  {
    s.spanId in nodes && nodes[s.spanId].children == NodesOf(nodes, Kids(table, s.spanId))
  }

  ghost predicate AllFilled(table: seq<Span>, nodes: map<string, SpanNode>)
    reads nodes.Values`children
  {
    forall s | s in table :: ChildrenFilled(table, nodes, s)
  }

  ghost predicate AllSorted(table: seq<Span>, nodes: map<string, SpanNode>, spans: set<Span>)
    reads nodes.Values`children
  {
    forall s | s in spans :: s in table && ChildrenSorted(table, nodes, s)
  }

  lemma KidsHaveNodes(table: seq<Span>, nodes: map<string, SpanNode>, id: string)
    requires NodesFor(table, nodes)
    ensures HasNodes(nodes, Kids(table, id))
  {
    SpanMembers(IsChildOf(id), table);
  }

  lemma SortedAreFilled(table: seq<Span>, nodes: map<string, SpanNode>, id: string)
    requires NodesFor(table, nodes)
    ensures Sort(NodeLe, NodesOf(nodes, Kids(table, id))) == NodesOf(nodes, Kids(table, id))
  {
    KidsHaveNodes(table, nodes, id);
    StartLeTotal(Filter(IsChildOf(id), table));
    SortSorts(StartLe, Filter(IsChildOf(id), table));
    SortedIsFixed(StartLe, Kids(table, id));
    SortNodes(nodes, Kids(table, id));
  }

  /** The children of one node are replaced by the nodes of its kids. */
  method SetChildren(
      node: SpanNode, children: seq<SpanNode>, ghost table: seq<Span>, ghost nodes: map<string, SpanNode>,
      ghost p: Span, ghost keep: set<Span>)
    requires NodesFor(table, nodes) && p in table && node == nodes[p.spanId]
    requires children == NodesOf(nodes, Kids(table, p.spanId)) == Sort(NodeLe, children)
    requires AllFilled(table, nodes) && AllSorted(table, nodes, keep)
    modifies nodes.Values`children
    ensures AllFilled(table, nodes) && AllSorted(table, nodes, keep + {p})
  {
    node.children := children;
  }

  /**
   sortTree: sort the list, then the children of each of its nodes, in place.
   The spans in keep have sorted children before, and the spans of the trees that grow from part have so as well
   afterwards.
   */
  method SortTree(
      list: seq<SpanNode>, ghost table: seq<Span>, ghost nodes: map<string, SpanNode>,
      ghost part: seq<Span>, ghost d: nat, ghost keep: set<Span>)
      returns (sorted: seq<SpanNode>)
    requires NodesFor(table, nodes) && AllRooted(table, part, d) && d <= |table|
    requires Sort(NodeLe, list) == NodesOf(nodes, part)
    requires AllFilled(table, nodes) && AllSorted(table, nodes, keep)
    modifies nodes.Values`children
    ensures sorted == NodesOf(nodes, part)
    ensures AllFilled(table, nodes)
    ensures AllSorted(table, nodes, keep + TreeSpans(Grow(table, part, d)))
    decreases |table| - d, 1
  {
    sorted := Sort(NodeLe, list);
    NodesOfLength(nodes, part);
    ghost var f := Grow(table, part, d);
    GrowLinked(table, part, d);
    for i := 0 to |sorted|
      invariant AllFilled(table, nodes)
      invariant AllSorted(table, nodes, keep + TreeSpans(f[..i]))
    {
      GrownAt(table, part, d, i);
      NodesOfIndex(nodes, part, i);
      TreeSpansNext(f, i);
      SortChildren(sorted[i], table, nodes, f[i], d, keep + TreeSpans(f[..i]));
    }
    assert f[..|f|] == f;
  }

  /** The body of sortTree's loop. */
  method SortChildren(
      node: SpanNode, ghost table: seq<Span>, ghost nodes: map<string, SpanNode>,
      ghost t: Tree, ghost d: nat, ghost keep: set<Span>)
    requires NodesFor(table, nodes) && Grown(table, t, d)
    requires node == nodes[t.span.spanId]
    requires AllFilled(table, nodes) && AllSorted(table, nodes, keep)
    modifies nodes.Values`children
    ensures AllFilled(table, nodes)
    ensures AllSorted(table, nodes, keep + ({t.span} + TreeSpans(t.children)))
    decreases |table| - d, 0
  {
    ghost var p := t.span;
    ChainBound(table, p, d);
    assert ChildrenFilled(table, nodes, p);
    SortedAreFilled(table, nodes, p.spanId);
    var children := SortTree(node.children, table, nodes, Kids(table, p.spanId), d + 1, keep);
    SetChildren(node, children, table, nodes, p, keep + TreeSpans(t.children));
  }

  /** Each of the spans carries the length of its parent chain. */
  ghost predicate AllNumbered(table: seq<Span>, nodes: map<string, SpanNode>, spans: set<Span>)
    reads nodes.Values`depth
  {
    forall s | s in spans :: s in table && s.spanId in nodes && Rooted(table, s, nodes[s.spanId].depth)
  }

  ghost predicate RootedAreSorted(table: seq<Span>, nodes: map<string, SpanNode>)
    reads nodes.Values`children
  {
    forall s, e: nat | s in table && Rooted(table, s, e) :: ChildrenSorted(table, nodes, s)
  }

  /** assignDepth: number the list, then the children of each of its nodes, in place. */
  method AssignDepth(
      list: seq<SpanNode>, depth: nat, ghost table: seq<Span>, ghost nodes: map<string, SpanNode>,
      ghost part: seq<Span>, ghost keep: set<Span>)
    requires NodesFor(table, nodes) && AllRooted(table, part, depth) && depth <= |table|
    requires list == NodesOf(nodes, part)
    requires RootedAreSorted(table, nodes) && AllNumbered(table, nodes, keep)
    modifies nodes.Values`depth
    ensures AllNumbered(table, nodes, keep + TreeSpans(Grow(table, part, depth)))
    decreases |table| - depth, 1
  {
    NodesOfLength(nodes, part);
    ghost var f := Grow(table, part, depth);
    GrowLinked(table, part, depth);
    for i := 0 to |list|
      invariant AllNumbered(table, nodes, keep + TreeSpans(f[..i]))
    {
      GrownAt(table, part, depth, i);
      NodesOfIndex(nodes, part, i);
      TreeSpansNext(f, i);
      AssignBelow(list[i], depth, table, nodes, f[i], keep + TreeSpans(f[..i]));
    }
    assert f[..|f|] == f;
  }

  /** The body of assignDepth's loop. */
  method AssignBelow(
      node: SpanNode, depth: nat, ghost table: seq<Span>, ghost nodes: map<string, SpanNode>,
      ghost t: Tree, ghost keep: set<Span>)
    requires NodesFor(table, nodes) && Grown(table, t, depth)
    requires node == nodes[t.span.spanId]
    requires RootedAreSorted(table, nodes) && AllNumbered(table, nodes, keep)
    modifies nodes.Values`depth
    ensures AllNumbered(table, nodes, keep + ({t.span} + TreeSpans(t.children)))
    decreases |table| - depth, 0
  {
    ghost var p := t.span;
    ChainBound(table, p, depth);
    assert ChildrenSorted(table, nodes, p);
    node.depth := depth;
    AssignDepth(node.children, depth + 1, table, nodes, Kids(table, p.spanId), keep + {p});
  }

  // ---------------------------------------------------------------- building

  ghost predicate RootedAreNumbered(table: seq<Span>, nodes: map<string, SpanNode>)
    reads nodes.Values`depth
  {
    forall s, e: nat | s in table && Rooted(table, s, e) :: s.spanId in nodes && nodes[s.spanId].depth == e
  }

  /** Sorting and numbering the whole forest reaches every rooted span. */
  lemma ForestReachesRooted(spans: seq<Span>, nodes: map<string, SpanNode>)
    ensures AllSorted(Table(spans), nodes, TreeSpans(BuildForest(spans))) ==> RootedAreSorted(Table(spans), nodes)
    ensures AllNumbered(Table(spans), nodes, TreeSpans(BuildForest(spans))) ==> RootedAreNumbered(Table(spans), nodes)
  {
    var table := Table(spans);
    forall s, e: nat | s in table && Rooted(table, s, e)
      ensures s in TreeSpans(BuildForest(spans))
      ensures AllNumbered(table, nodes, TreeSpans(BuildForest(spans))) ==> nodes[s.spanId].depth == e
    {
      RootedAreInForest(spans, s, e);
      if AllNumbered(table, nodes, TreeSpans(BuildForest(spans))) {
        RootedDepthUnique(table, s, e, nodes[s.spanId].depth);
      }
    }
  }

  /** The node of p is sorted and numbered. */
  ghost predicate InPlace(table: seq<Span>, nodes: map<string, SpanNode>, p: Span, d: nat)
    reads nodes.Values
  {
    && p.spanId in nodes
    && nodes[p.spanId].span == p && nodes[p.spanId].depth == d
    && nodes[p.spanId].children == NodesOf(nodes, Kids(table, p.spanId))
  }

  lemma NodeInPlace(table: seq<Span>, nodes: map<string, SpanNode>, p: Span, d: nat)
    requires NodesFor(table, nodes) && RootedAreSorted(table, nodes) && RootedAreNumbered(table, nodes)
    requires p in table && Rooted(table, p, d)
    ensures InPlace(table, nodes, p, d)
  {
    assert ChildrenSorted(table, nodes, p);
  }

  /** A sorted and numbered node graph represents the forest grown from the same spans. */
  lemma {:induction false} GraphRepresents(table: seq<Span>, nodes: map<string, SpanNode>, part: seq<Span>, d: nat)
    requires NodesFor(table, nodes) && AllRooted(table, part, d)
    requires RootedAreSorted(table, nodes) && RootedAreNumbered(table, nodes)
    ensures Represents(nodes.Values, NodesOf(nodes, part), Grow(table, part, d), d)
    decreases |table| - d, |part|
  {
    if part != [] {
      var p, rest := part[0], part[1..];
      assert p in part;
      ChainBound(table, p, d);
      KidsRooted(table, p, d);
      GraphRepresents(table, nodes, Kids(table, p.spanId), d + 1);
      GraphRepresents(table, nodes, rest, d);
      NodeInPlace(table, nodes, p, d);
      var list, f := NodesOf(nodes, part), Grow(table, part, d);
      assert list != [] && list[1..] == NodesOf(nodes, rest);
      assert f != [] && f[1..] == Grow(table, rest, d);
      assert Represents(nodes.Values, list, f, d);
    }
  }

  function IdsOf(table: seq<Span>): seq<string> {
    if table == [] then [] else [table[0].spanId] + IdsOf(table[1..])
  }

  /** The Map's entries are the table's spans, its key order the table's order. */
  ghost predicate KeysInOrder(table: seq<Span>, nodes: map<string, SpanNode>, order: seq<string>) {
    order == IdsOf(table) && HasNodes(nodes, table) && (forall id | id in nodes :: id in order)
  }

  lemma {:induction false} IdsOfLength(table: seq<Span>)
    ensures |IdsOf(table)| == |table|
  {
    if table != [] {
      IdsOfLength(table[1..]);
    }
  }

  lemma {:induction false} IdAt(table: seq<Span>, i: nat)
    requires i < |table|
    ensures |IdsOf(table)| == |table| && IdsOf(table)[i] == table[i].spanId
  {
    IdsOfLength(table);
    if i > 0 {
      IdAt(table[1..], i - 1);
    }
  }

  lemma {:induction false} IdsOfPut(table: seq<Span>, span: Span)
    ensures IdsOf(Put(table, span)) ==
      if span.spanId in IdsOf(table) then IdsOf(table) else IdsOf(table) + [span.spanId]
  {
    if table != [] {
      var rest := table[1..];
      IndexOfFinds(rest, span.spanId);
      if table[0].spanId == span.spanId {
        assert Put(table, span) == [span] + rest;
      } else {
        IdsOfPut(rest, span);
        assert Put(table, span) == [table[0]] + Put(rest, span);
        assert Put(table, span)[1..] == Put(rest, span);
      }
    }
  }

  lemma {:induction false} IdOfMember(table: seq<Span>, s: Span)
    requires s in table
    ensures s.spanId in IdsOf(table)
  {
    if s != table[0] {
      IdOfMember(table[1..], s);
    }
  }

  lemma {:induction false} MemberWithId(table: seq<Span>, id: string) returns (s: Span)
    requires id in IdsOf(table)
    ensures s in table && s.spanId == id
  {
    if table[0].spanId == id {
      s := table[0];
    } else {
      s := MemberWithId(table[1..], id);
    }
  }

  lemma PutKeepsOrder(table: seq<Span>, nodes: map<string, SpanNode>, order: seq<string>, node: SpanNode)
    requires KeysInOrder(table, nodes, order) && UniqueIds(table)
    ensures
      var id := node.span.spanId;
      KeysInOrder(Put(table, node.span), nodes[id := node], if id in nodes then order else order + [id])
  {
    var id := node.span.spanId;
    IdsOfPut(table, node.span);
    PutEffect(table, node.span);
    if id in IdsOf(table) && id !in nodes {
      var s := MemberWithId(table, id);
      assert false;
    }
  }

  /** The first loop: the Map of nodes, as its entries and the order of its keys. */
  method CollectNodes(spans: seq<Span>) returns (nodes: map<string, SpanNode>, order: seq<string>)
    ensures fresh(nodes.Values)
    ensures KeysInOrder(Table(spans), nodes, order)
    ensures forall id | id in nodes :: nodes[id].children == []
  {
    nodes, order := map[], [];
    for i := 0 to |spans|
      invariant forall id | id in nodes :: fresh(nodes[id]) && nodes[id].children == []
      invariant KeysInOrder(Table(spans[..i]), nodes, order)
    {
      ghost var table := Table(spans[..i]);
      assert spans[..i + 1][..i] == spans[..i];
      assert Table(spans[..i + 1]) == Put(table, spans[i]);
      TableUnique(spans[..i]);
      var node := new SpanNode(spans[i]);
      PutKeepsOrder(table, nodes, order, node);
      if spans[i].spanId !in nodes {
        order := order + [spans[i].spanId];
      }
      nodes := nodes[spans[i].spanId := node];
    }
    assert spans[..|spans|] == spans;
  }

  /** The nodes found so far below id. */
  ghost function Found(nodes: map<string, SpanNode>, part: seq<Span>, keep: Span -> bool): seq<SpanNode> {
    NodesOf(nodes, Filter(keep, part))
  }

  lemma FoundNext(nodes: map<string, SpanNode>, table: seq<Span>, i: nat, keep: Span -> bool)
    requires i < |table| && table[i].spanId in nodes
    ensures Found(nodes, table[..i + 1], keep) ==
      Found(nodes, table[..i], keep) + if keep(table[i]) then [nodes[table[i].spanId]] else []
  {
    assert table[..i + 1] == table[..i] + [table[i]];
    FilterAppend(keep, table[..i], [table[i]]);
    NodesOfAppend(nodes, Filter(keep, table[..i]), Filter(keep, [table[i]]));
  }

  lemma KeyInTable(table: seq<Span>, nodes: map<string, SpanNode>, order: seq<string>, id: string)
    requires KeysInOrder(table, nodes, order) && id in nodes
    ensures nodes[id].span in table && nodes[id].span.spanId == id
  {
    var s := MemberWithId(table, id);
  }

  /** A node is among the roots if it names no parent or none that is there, and else among its parent's children. */
  ghost predicate LinkedByParent(table: seq<Span>, nodes: map<string, SpanNode>, roots: seq<SpanNode>)
    requires NodesFor(table, nodes)
    reads nodes.Values`children
  {
    && (forall s | s in table ::
         nodes[s.spanId] in roots <==>
         s.parentSpanId == "" || s.parentSpanId == "0000000000000000" || s.parentSpanId !in nodes)
    && (forall s, p | s in table && p in table ::
         nodes[s.spanId] in nodes[p.spanId].children <==>
         s.parentSpanId == p.spanId && p.spanId != "" && p.spanId != "0000000000000000")
  }

  lemma FoundMember(table: seq<Span>, nodes: map<string, SpanNode>, keep: Span -> bool, s: Span)
    requires NodesFor(table, nodes) && s in table
    ensures nodes[s.spanId] in Found(nodes, table, keep) <==> keep(s)
  {
    forall x | x in Filter(keep, table) ensures x in table {
      FilterMember(keep, table, x);
    }
    NodesOfMember(nodes, Filter(keep, table), nodes[s.spanId]);
    FilterMember(keep, table, s);
  }

  lemma KeyIffGiven(table: seq<Span>, nodes: map<string, SpanNode>, order: seq<string>, id: string)
    requires KeysInOrder(table, nodes, order)
    ensures id in nodes <==> exists x :: x in table && x.spanId == id
  {
    if id in nodes {
      KeyInTable(table, nodes, order, id);
    }
  }

  lemma RootIffNoNode(table: seq<Span>, nodes: map<string, SpanNode>, order: seq<string>, s: Span)
    requires NodesFor(table, nodes) && KeysInOrder(table, nodes, order)
    ensures IsRootIn(table)(s) <==>
      s.parentSpanId == "" || s.parentSpanId == "0000000000000000" || s.parentSpanId !in nodes
  {
    ParentInTable(table, s);
    KeyIffGiven(table, nodes, order, s.parentSpanId);
  }

  lemma FoundByParent(table: seq<Span>, nodes: map<string, SpanNode>, order: seq<string>, roots: seq<SpanNode>)
    requires NodesFor(table, nodes) && KeysInOrder(table, nodes, order)
    requires roots == Found(nodes, table, IsRootIn(table))
    requires forall s | s in table :: nodes[s.spanId].children == Found(nodes, table, IsChildOf(s.spanId))
    ensures LinkedByParent(table, nodes, roots)
  {
    forall s | s in table
      ensures nodes[s.spanId] in roots <==>
        s.parentSpanId == "" || s.parentSpanId == "0000000000000000" || s.parentSpanId !in nodes
    {
      FoundMember(table, nodes, IsRootIn(table), s);
      RootIffNoNode(table, nodes, order, s);
    }
    forall s, p | s in table && p in table
      ensures nodes[s.spanId] in nodes[p.spanId].children <==>
        s.parentSpanId == p.spanId && p.spanId != "" && p.spanId != "0000000000000000"
    {
      FoundMember(table, nodes, IsChildOf(p.spanId), s);
    }
  }

  /** The second loop: each node is pushed to its parent's children, or to the roots if it has no parent here. */
  method LinkNodes(ghost table: seq<Span>, nodes: map<string, SpanNode>, order: seq<string>)
      returns (roots: seq<SpanNode>)
    requires NodesFor(table, nodes) && KeysInOrder(table, nodes, order)
    requires forall id | id in nodes :: nodes[id].children == []
    modifies nodes.Values`children
    ensures roots == Found(nodes, table, IsRootIn(table))
    ensures forall s | s in table :: nodes[s.spanId].children == Found(nodes, table, IsChildOf(s.spanId))
    ensures LinkedByParent(table, nodes, roots)
  {
    roots := [];
    IdsOfLength(table);
    for i := 0 to |order|
      invariant roots == Found(nodes, table[..i], IsRootIn(table))
      invariant forall s | s in table :: nodes[s.spanId].children == Found(nodes, table[..i], IsChildOf(s.spanId))
    {
      IdsOfLength(table);
      IdAt(table, i);
      assert table[i] in table;
      var node := nodes[order[i]];
      var parentId := node.span.parentSpanId;
      ParentInTable(table, node.span);
      FoundNext(nodes, table, i, IsRootIn(table));
      forall s | s in table
        ensures Found(nodes, table[..i + 1], IsChildOf(s.spanId)) ==
          Found(nodes, table[..i], IsChildOf(s.spanId)) + if IsChildOf(s.spanId)(node.span) then [node] else []
      {
        FoundNext(nodes, table, i, IsChildOf(s.spanId));
      }
      if IsRootRef(parentId) {
        roots := roots + [node];
      } else if parentId in nodes {
        var parent := nodes[parentId];
        KeyInTable(table, nodes, order, parentId);
        parent.children := parent.children + [node];
      } else {
        roots := roots + [node];
      }
    }
    assert table[..|table|] == table;
    FoundByParent(table, nodes, order, roots);
  }

  lemma FoundSorts(table: seq<Span>, nodes: map<string, SpanNode>, id: string)
    requires NodesFor(table, nodes)
    ensures Sort(NodeLe, Found(nodes, table, IsChildOf(id))) == NodesOf(nodes, Kids(table, id))
  {
    forall c | c in Filter(IsChildOf(id), table) ensures c in table {
      FilterMember(IsChildOf(id), table, c);
    }
    SortNodes(nodes, Filter(IsChildOf(id), table));
  }

  lemma LinkedAreFilled(table: seq<Span>, nodes: map<string, SpanNode>)
    requires NodesFor(table, nodes)
    requires forall s | s in table :: nodes[s.spanId].children == Found(nodes, table, IsChildOf(s.spanId))
    ensures AllFilled(table, nodes)
  {
    forall s | s in table ensures ChildrenFilled(table, nodes, s) {
      FoundSorts(table, nodes, s.spanId);
    }
  }

  lemma RootsSort(table: seq<Span>, nodes: map<string, SpanNode>)
    requires NodesFor(table, nodes)
    ensures Sort(NodeLe, Found(nodes, table, IsRootIn(table))) == NodesOf(nodes, Roots(table))
  {
    forall r | r in Filter(IsRootIn(table), table) ensures r in table {
      FilterMember(IsRootIn(table), table, r);
    }
    SortNodes(nodes, Filter(IsRootIn(table), table));
  }

  /** buildSpanTree: for every list of spans it ends, and its result represents the forest of that list. */
  method BuildSpanTree(spans: seq<Span>) returns (roots: seq<SpanNode>, ghost repr: set<SpanNode>)
    ensures fresh(repr)
    ensures Represents(repr, roots, BuildForest(spans), 0)
  {
    ghost var table := Table(spans);
    TableUnique(spans);
    var nodes, order := CollectNodes(spans);
    repr := nodes.Values;
    roots := LinkNodes(table, nodes, order);
    LinkedAreFilled(table, nodes);
    RootsSort(table, nodes);
    RootsRooted(table);
    roots := SortTree(roots, table, nodes, Roots(table), 0, {});
    assert {} + TreeSpans(BuildForest(spans)) == TreeSpans(BuildForest(spans));
    ForestReachesRooted(spans, nodes);
    AssignDepth(roots, 0, table, nodes, Roots(table), {});
    ForestReachesRooted(spans, nodes);
    GraphRepresents(table, nodes, Roots(table), 0);
  }

  /** The two passes a trace view makes: for every list of spans they end, in the flat list of its forest. */
  method FlattenSpans(spans: seq<Span>) returns (flat: seq<SpanNode>)
    ensures RowsIn(flat) == Flatten(BuildForest(spans), 0)
  {
    var roots, repr := BuildSpanTree(spans);
    flat := FlattenTree(roots, repr, BuildForest(spans));
  }

  /** SpanTree's own passes: the rows shown for the current set of expanded ids. */
  method ShownRows(spans: seq<Span>, expanded: set<string>) returns (flat: seq<SpanNode>)
    ensures RowsIn(flat) == FlattenExpanded(BuildForest(spans), expanded, 0)
  {
    var roots, repr := BuildSpanTree(spans);
    flat := FlattenExpandedTree(roots, expanded, repr, BuildForest(spans));
  }
}
