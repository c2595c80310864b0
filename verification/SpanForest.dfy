/**
 The span forest of a trace: what building and flattening it mean, as functions on values.
 Parent ids are untrusted: ids may repeat, and parents may be absent, the span itself, or part of a cycle.
 */
module SpanForest {
  import opened Seqs
  import opened Sorting

  const ROOT_PARENT_ID := "0000000000000000"

  /** The fields the forest depends on, and name for the rest of the record. */
  datatype Span = Span(spanId: string, parentSpanId: string, startTime: int, endTime: int, name: string)

  datatype Tree = Node(span: Span, children: seq<Tree>)

  datatype Row = Row(span: Span, depth: nat)

  // ---------------------------------------------------------------- the node table

  function IndexOf(table: seq<Span>, id: string): Option<nat> {
    if table == [] then None
    else if table[0].spanId == id then Some(0)
    else match IndexOf(table[1..], id) case None => None case Some(i) => Some(i + 1)
  }

  /** Map.set: a new key goes to the end, an existing one keeps its place and takes the new value. */
  function Put(table: seq<Span>, span: Span): seq<Span> {
    match IndexOf(table, span.spanId)
    case Some(i) => if i < |table| then table[i := span] else table
    case None => table + [span]
  }

  /** The values of the node table, in its iteration order. */
  function Table(spans: seq<Span>): seq<Span> {
    if spans == [] then [] else Put(Table(spans[..|spans| - 1]), spans[|spans| - 1])
  }

  ghost predicate UniqueIds(table: seq<Span>) {
    table == [] || ((forall s | s in table[1..] :: s.spanId != table[0].spanId) && UniqueIds(table[1..]))
  }

  lemma {:induction false} SameIdSameSpan(table: seq<Span>, s: Span, t: Span)
    requires UniqueIds(table) && s in table && t in table && s.spanId == t.spanId
    ensures s == t
  {
    if s != table[0] && t != table[0] {
      SameIdSameSpan(table[1..], s, t);
    }
  }

  lemma {:induction false} UniqueIdsDistinct(table: seq<Span>)
    requires UniqueIds(table)
    ensures NoDup(table)
  {
    if table != [] {
      UniqueIdsDistinct(table[1..]);
      assert table[0] !in table[1..];
      forall i, j | 0 <= i < j < |table| ensures table[i] != table[j] {
        assert table[j] == table[1..][j - 1];
        if i > 0 {
          assert table[i] == table[1..][i - 1];
        }
      }
    }
  }

  lemma {:induction false} IndexOfFinds(table: seq<Span>, id: string)
    ensures
      match IndexOf(table, id)
      case Some(i) => i < |table| && table[i].spanId == id
      case None => forall j | 0 <= j < |table| :: table[j].spanId != id
  {
    if table != [] && table[0].spanId != id {
      IndexOfFinds(table[1..], id);
      forall j | 0 < j < |table| && IndexOf(table, id).None? ensures table[j].spanId != id {
        assert table[j] == table[1..][j - 1];
      }
    }
  }

  /** A put replaces the span with the same id, or adds one. */
  lemma {:induction false} PutEffect(table: seq<Span>, span: Span)
    requires UniqueIds(table)
    ensures UniqueIds(Put(table, span))
    ensures forall s :: s in Put(table, span) <==> s == span || (s in table && s.spanId != span.spanId)
  {
    if table != [] {
      var rest := table[1..];
      if table[0].spanId == span.spanId {
        assert Put(table, span) == [span] + rest;
      } else {
        PutEffect(rest, span);
        IndexOfFinds(rest, span.spanId);
        assert Put(table, span) == [table[0]] + Put(rest, span);
        assert Put(table, span)[1..] == Put(rest, span);
      }
    }
  }

  /** span is the last one given for its id. */
  ghost predicate LastGiven(spans: seq<Span>, span: Span) {
    exists i :: 0 <= i < |spans| && spans[i] == span && forall j | i < j < |spans| :: spans[j].spanId != span.spanId
  }

  lemma LastGivenSnoc(init: seq<Span>, last: Span, s: Span)
    ensures LastGiven(init + [last], s) <==> s == last || (LastGiven(init, s) && s.spanId != last.spanId)
  {
    var spans := init + [last];
    if s == last {
      assert spans[|init|] == s;
    } else {
      if LastGiven(init, s) && s.spanId != last.spanId {
        var i :| 0 <= i < |init| && init[i] == s && forall j | i < j < |init| :: init[j].spanId != s.spanId;
        assert spans[i] == s;
      }
      if LastGiven(spans, s) {
        var i :| 0 <= i < |spans| && spans[i] == s && forall j | i < j < |spans| :: spans[j].spanId != s.spanId;
        assert i < |init| && init[i] == s;
        assert spans[|init|].spanId != s.spanId;
        assert forall j | i < j < |init| :: init[j] == spans[j];
      }
    }
  }

  lemma {:induction false} TableUnique(spans: seq<Span>)
    ensures UniqueIds(Table(spans))
  {
    if spans != [] {
      TableUnique(spans[..|spans| - 1]);
      PutEffect(Table(spans[..|spans| - 1]), spans[|spans| - 1]);
    }
  }

  lemma {:induction false} TableMember(spans: seq<Span>, s: Span)
    ensures s in Table(spans) <==> LastGiven(spans, s)
  {
    if spans != [] {
      var init, last := spans[..|spans| - 1], spans[|spans| - 1];
      TableMember(init, s);
      TableUnique(init);
      PutEffect(Table(init), last);
      assert spans == init + [last];
      LastGivenSnoc(init, last, s);
    }
  }

  /** The table holds each distinct id once, with the last span given for it. */
  lemma TableHoldsLast(spans: seq<Span>)
    ensures UniqueIds(Table(spans))
    ensures forall s :: s in Table(spans) <==> LastGiven(spans, s)
  {
    TableUnique(spans);
    forall s ensures s in Table(spans) <==> LastGiven(spans, s) {
      TableMember(spans, s);
    }
  }

  /** An id is given before the first span with the other. */
  ghost predicate GivenBefore(spans: seq<Span>, id: string, other: string) {
    exists k :: 0 <= k < |spans| && spans[k].spanId == id && forall l | 0 <= l <= k :: spans[l].spanId != other
  }

  lemma GivenBeforeMore(init: seq<Span>, last: Span, id: string, other: string)
    requires GivenBefore(init, id, other)
    ensures GivenBefore(init + [last], id, other)
  {
    var k :| 0 <= k < |init| && init[k].spanId == id && forall l | 0 <= l <= k :: init[l].spanId != other;
    assert (init + [last])[k].spanId == id;
    assert forall l | 0 <= l <= k :: (init + [last])[l] == init[l];
  }

  /** An id that is given has an entry. */
  lemma {:induction false} GivenHasEntry(spans: seq<Span>, l: nat) returns (s: Span)
    requires l < |spans|
    ensures s in Table(spans) && s.spanId == spans[l].spanId
  {
    var init, last := spans[..|spans| - 1], spans[|spans| - 1];
    TableUnique(init);
    PutEffect(Table(init), last);
    s := last;
    if last.spanId != spans[l].spanId {
      s := GivenHasEntry(init, l);
    }
  }

  lemma NewComesLast(init: seq<Span>, last: Span, i: nat)
    requires i < |Table(init)| && forall j | 0 <= j < |Table(init)| :: Table(init)[j].spanId != last.spanId
    ensures GivenBefore(init + [last], Table(init)[i].spanId, last.spanId)
  {
    TableMember(init, Table(init)[i]);
    var k :| 0 <= k < |init| && init[k] == Table(init)[i];
    forall l | 0 <= l < |init| ensures init[l].spanId != last.spanId {
      var s := GivenHasEntry(init, l);
      var j :| 0 <= j < |Table(init)| && Table(init)[j] == s;
    }
    assert (init + [last])[k].spanId == Table(init)[i].spanId;
    assert forall l | 0 <= l <= k :: (init + [last])[l] == init[l];
  }

  /** The table keeps the order in which the ids were first given. */
  lemma {:induction false} TableInFirstOrder(spans: seq<Span>, i: nat, j: nat)
    requires i < j < |Table(spans)|
    ensures GivenBefore(spans, Table(spans)[i].spanId, Table(spans)[j].spanId)
    decreases |spans|
  {
    var init, last := spans[..|spans| - 1], spans[|spans| - 1];
    var table := Table(init);
    assert spans == init + [last] && Table(spans) == Put(table, last);
    IndexOfFinds(table, last.spanId);
    if j < |table| {
      TableInFirstOrder(init, i, j);
      GivenBeforeMore(init, last, table[i].spanId, table[j].spanId);
    } else {
      NewComesLast(init, last, i);
    }
  }

  // ---------------------------------------------------------------- parents

  predicate IsRootRef(id: string) {
    id == "" || id == ROOT_PARENT_ID
  }

  function Parent(table: seq<Span>, s: Span): Option<Span> {
    if IsRootRef(s.parentSpanId) then None
    else match IndexOf(table, s.parentSpanId)
      case Some(i) => if i < |table| then Some(table[i]) else None
      case None => None
  }

  /** The span n steps up the parent chain. */
  ghost function Ancestor(table: seq<Span>, s: Span, n: nat): Option<Span>
    decreases n
  {
    if n == 0 then Some(s)
    else match Parent(table, s)
      case Some(p) => Ancestor(table, p, n - 1)
      case None => None
  }

  /** The parent chain ends at a root after exactly n steps. */
  ghost predicate Rooted(table: seq<Span>, s: Span, n: nat)
    decreases n
  {
    match Parent(table, s)
    case Some(p) => n > 0 && Rooted(table, p, n - 1)
    case None => n == 0
  }

  lemma ParentInTable(table: seq<Span>, s: Span)
    ensures
      match Parent(table, s)
      case Some(p) => p in table && p.spanId == s.parentSpanId && !IsRootRef(s.parentSpanId)
      case None => IsRootRef(s.parentSpanId) || forall x | x in table :: x.spanId != s.parentSpanId
  {
    IndexOfFinds(table, s.parentSpanId);
  }

  lemma ParentById(table: seq<Span>, s: Span, p: Span)
    requires UniqueIds(table) && p in table
    ensures Parent(table, s) == Some(p) <==> !IsRootRef(s.parentSpanId) && s.parentSpanId == p.spanId
  {
  }

  lemma {:induction false} RootedDepthUnique(table: seq<Span>, s: Span, m: nat, n: nat)
    requires Rooted(table, s, m) && Rooted(table, s, n)
    ensures m == n
    decreases m
  {
    if m > 0 {
      RootedDepthUnique(table, Parent(table, s).value, m - 1, n - 1);
    }
  }

  /** Counting up a chain one step at a time from the far end. */
  lemma {:induction false} AncestorStep(table: seq<Span>, s: Span, n: nat)
    ensures
      match Ancestor(table, s, n)
      case Some(a) => Ancestor(table, s, n + 1) == Parent(table, a)
      case None => Ancestor(table, s, n + 1) == None
    decreases n
  {
    if n > 0 && Parent(table, s).Some? {
      AncestorStep(table, Parent(table, s).value, n - 1);
    }
  }

  lemma {:induction false} RootedAncestor(table: seq<Span>, s: Span, d: nat, n: nat)
    requires Rooted(table, s, d) && n <= d
    ensures Ancestor(table, s, n).Some? && Rooted(table, Ancestor(table, s, n).value, d - n)
    decreases n
  {
    if n > 0 {
      RootedAncestor(table, Parent(table, s).value, d - 1, n - 1);
    }
  }

  lemma {:induction false} AncestorInTable(table: seq<Span>, s: Span, n: nat)
    requires s in table && Ancestor(table, s, n).Some?
    ensures Ancestor(table, s, n).value in table
    decreases n
  {
    if n > 0 {
      ParentInTable(table, s);
      AncestorInTable(table, Parent(table, s).value, n - 1);
    }
  }

  ghost predicate RootedWithin(table: seq<Span>, s: Span, d: nat) {
    exists n: nat :: n <= d && Rooted(table, s, n)
  }

  /** The spans on a rooted chain are distinct, so a chain is shorter than the table. */
  lemma {:induction false} ChainSet(table: seq<Span>, s: Span, d: nat) returns (chain: set<Span>)
    requires s in table && Rooted(table, s, d)
    ensures |chain| == d + 1
    ensures forall x | x in chain :: x in table && RootedWithin(table, x, d)
    decreases d
  {
    chain := {s};
    if d > 0 {
      ParentInTable(table, s);
      var rest := ChainSet(table, Parent(table, s).value, d - 1);
      if s in rest {
        var n: nat :| n <= d - 1 && Rooted(table, s, n);
        RootedDepthUnique(table, s, n, d);
        assert false;
      }
      forall x | x in rest ensures RootedWithin(table, x, d) {
        var n: nat :| n <= d - 1 && Rooted(table, x, n);
      }
      chain := {s} + rest;
    }
  }

  lemma {:induction false} DistinctFit(table: seq<Span>, chain: set<Span>)
    requires forall x | x in chain :: x in table
    ensures |chain| <= |table|
  {
    if table != [] {
      DistinctFit(table[1..], chain - {table[0]});
    } else {
      assert chain == {};
    }
  }

  lemma ChainBound(table: seq<Span>, s: Span, d: nat)
    requires s in table && Rooted(table, s, d)
    ensures d < |table|
  {
    var chain := ChainSet(table, s, d);
    DistinctFit(table, chain);
  }

  // ---------------------------------------------------------------- the forest

  predicate StartLe(a: Span, b: Span) {
    a.startTime <= b.startTime
  }

  function IsChildOf(id: string): Span -> bool {
    (s: Span) => !IsRootRef(s.parentSpanId) && s.parentSpanId == id
  }

  function IsRootIn(table: seq<Span>): Span -> bool {
    (s: Span) => Parent(table, s).None?
  }

  function Kids(table: seq<Span>, id: string): seq<Span> {
    Sort(StartLe, Filter(IsChildOf(id), table))
  }

  function Roots(table: seq<Span>): seq<Span> {
    Sort(StartLe, Filter(IsRootIn(table), table))
  }

  ghost predicate AllRooted(table: seq<Span>, list: seq<Span>, d: nat) {
    forall s | s in list :: s in table && Rooted(table, s, d)
  }

  lemma SpanMembers(keep: Span -> bool, list: seq<Span>)
    ensures forall s :: s in Sort(StartLe, Filter(keep, list)) <==> s in list && keep(s)
  {
    forall s ensures s in Sort(StartLe, Filter(keep, list)) <==> s in list && keep(s) {
      SortMember(StartLe, Filter(keep, list), s);
      FilterMember(keep, list, s);
    }
  }

  lemma KidsRooted(table: seq<Span>, s: Span, d: nat)
    requires UniqueIds(table) && s in table && Rooted(table, s, d)
    ensures AllRooted(table, Kids(table, s.spanId), d + 1)
  {
    SpanMembers(IsChildOf(s.spanId), table);
    forall c | c in Kids(table, s.spanId) ensures c in table && Rooted(table, c, d + 1) {
      ParentById(table, c, s);
    }
  }

  lemma RootsRooted(table: seq<Span>)
    ensures AllRooted(table, Roots(table), 0)
  {
    SpanMembers(IsRootIn(table), table);
  }

  /** The trees below a list of spans of the same depth. */
  ghost function Grow(table: seq<Span>, list: seq<Span>, d: nat): seq<Tree>
    requires UniqueIds(table) && AllRooted(table, list, d)
    decreases |table| - d, |list|
  {
    if list == [] then []
    else
      assert list[0] in list;
      ChainBound(table, list[0], d);
      KidsRooted(table, list[0], d);
      [Node(list[0], Grow(table, Kids(table, list[0].spanId), d + 1))] + Grow(table, list[1..], d)
  }

  ghost function BuildForest(spans: seq<Span>): seq<Tree> {
    TableHoldsLast(spans);
    RootsRooted(Table(spans));
    Grow(Table(spans), Roots(Table(spans)), 0)
  }

  /** Preorder, each row with its depth. */
  function Flatten(f: seq<Tree>, depth: nat): seq<Row> {
    if f == [] then []
    else [Row(f[0].span, depth)] + Flatten(f[0].children, depth + 1) + Flatten(f[1..], depth)
  }

  // ---------------------------------------------------------------- exactness

  lemma KidsDistinct(table: seq<Span>, keep: Span -> bool)
    requires UniqueIds(table)
    ensures NoDup(Sort(StartLe, Filter(keep, table)))
  {
    var r := Sort(StartLe, Filter(keep, table));
    UniqueIdsDistinct(table);
    NoDupCounts(table);
    SortPermutes(StartLe, Filter(keep, table));
    forall x ensures multiset(r)[x] <= 1 {
      FilterMultiset(keep, table, x);
    }
    NoDupCounts(r);
  }

  /** s lies below (or in) list, whose spans have depth d. */
  ghost predicate Below(table: seq<Span>, list: seq<Span>, d: nat, s: Span, e: nat) {
    d <= e && Rooted(table, s, e) && Ancestor(table, s, e - d).Some? && Ancestor(table, s, e - d).value in list
  }

  /** One step above a child of p is p. */
  lemma BelowKids(table: seq<Span>, p: Span, d: nat, s: Span, e: nat)
    requires UniqueIds(table) && p in table && s in table
    ensures Below(table, Kids(table, p.spanId), d + 1, s, e) <==>
      d < e && Rooted(table, s, e) && Ancestor(table, s, e - d) == Some(p)
  {
    if d < e && Rooted(table, s, e) {
      RootedAncestor(table, s, e, e - d - 1);
      AncestorStep(table, s, e - d - 1);
      var c := Ancestor(table, s, e - d - 1).value;
      AncestorInTable(table, s, e - d - 1);
      SpanMembers(IsChildOf(p.spanId), table);
      ParentById(table, c, p);
    }
  }

  lemma BelowSplits(table: seq<Span>, list: seq<Span>, d: nat, s: Span, e: nat)
    requires UniqueIds(table) && list != [] && list[0] !in list[1..] && s in table
    requires list[0] in table && Rooted(table, list[0], d)
    ensures
      var top := Row(list[0], d) == Row(s, e);
      var under := Below(table, Kids(table, list[0].spanId), d + 1, s, e);
      var rest := Below(table, list[1..], d, s, e);
      && (Below(table, list, d, s, e) <==> top || under || rest)
      && !(top && under) && !(top && rest) && !(under && rest)
  {
    BelowKids(table, list[0], d, s, e);
    if d <= e && Rooted(table, s, e) {
      RootedAncestor(table, s, e, e - d);
      var a := Ancestor(table, s, e - d).value;
      assert a in list <==> a == list[0] || a in list[1..];
    }
  }

  /** Each span below the list occurs once, at its own depth, and nothing else occurs. */
  lemma {:induction false} GrowCounts(table: seq<Span>, list: seq<Span>, d: nat, s: Span, e: nat)
    requires UniqueIds(table) && AllRooted(table, list, d) && NoDup(list) && s in table
    ensures
      multiset(Flatten(Grow(table, list, d), d))[Row(s, e)] == if Below(table, list, d, s, e) then 1 else 0
    decreases |table| - d, |list|
  {
    if list != [] {
      var p := list[0];
      assert p in list;
      ChainBound(table, p, d);
      KidsRooted(table, p, d);
      KidsDistinct(table, IsChildOf(p.spanId));
      GrowCounts(table, Kids(table, p.spanId), d + 1, s, e);
      GrowCounts(table, list[1..], d, s, e);
      assert list[0] !in list[1..];
      BelowSplits(table, list, d, s, e);
      var f := Grow(table, list, d);
      assert f[1..] == Grow(table, list[1..], d);
      assert Flatten(f, d) ==
        [Row(p, d)] + Flatten(Grow(table, Kids(table, p.spanId), d + 1), d + 1) + Flatten(Grow(table, list[1..], d), d);
    }
  }

  lemma {:induction false} GrowFromTable(table: seq<Span>, list: seq<Span>, d: nat, r: Row)
    requires UniqueIds(table) && AllRooted(table, list, d)
    requires r in Flatten(Grow(table, list, d), d)
    ensures r.span in table
    decreases |table| - d, |list|
  {
    if list != [] {
      var p := list[0];
      assert p in list;
      ChainBound(table, p, d);
      KidsRooted(table, p, d);
      var f := Grow(table, list, d);
      assert f[1..] == Grow(table, list[1..], d);
      if r in Flatten(f[0].children, d + 1) {
        GrowFromTable(table, Kids(table, p.spanId), d + 1, r);
      } else if r in Flatten(f[1..], d) {
        GrowFromTable(table, list[1..], d, r);
      }
    }
  }

  lemma ForestRooted(spans: seq<Span>, r: Row)
    ensures
      multiset(Flatten(BuildForest(spans), 0))[r] ==
        if LastGiven(spans, r.span) && Rooted(Table(spans), r.span, r.depth) then 1 else 0
  {
    var table := Table(spans);
    var rows := Flatten(BuildForest(spans), 0);
    TableHoldsLast(spans);
    RootsRooted(table);
    if r.span in table {
      KidsDistinct(table, IsRootIn(table));
      GrowCounts(table, Roots(table), 0, r.span, r.depth);
      if Rooted(table, r.span, r.depth) {
        RootedAncestor(table, r.span, r.depth, r.depth);
        AncestorInTable(table, r.span, r.depth);
        SpanMembers(IsRootIn(table), table);
      }
    } else if r in rows {
      GrowFromTable(table, Roots(table), 0, r);
    }
    assert r in rows <==> multiset(rows)[r] > 0;
  }

  /** The parent chain of s comes back to a span it has passed. */
  ghost predicate EntersCycle(table: seq<Span>, s: Span) {
    exists i: nat, j: nat ::
      i < j && Ancestor(table, s, i).Some? && Ancestor(table, s, j) == Ancestor(table, s, i)
  }

  lemma {:induction false} EndlessChain(table: seq<Span>, s: Span, n: nat)
    requires forall d: nat | d < n :: !Rooted(table, s, d)
    ensures Ancestor(table, s, n).Some?
    decreases n
  {
    if n > 0 {
      assert !Rooted(table, s, 0);
      var p := Parent(table, s).value;
      forall d: nat | d < n - 1 ensures !Rooted(table, p, d) {
        assert !Rooted(table, s, d + 1);
      }
      EndlessChain(table, p, n - 1);
    }
  }

  lemma {:induction false} ChainMeetsItself(table: seq<Span>, s: Span, n: nat, seen: set<Span>)
    requires s in table
    requires forall m: nat | m < n :: Ancestor(table, s, m).Some? && Ancestor(table, s, m).value in seen
    requires |seen| < n
    ensures EntersCycle(table, s)
    decreases n
  {
    var last := Ancestor(table, s, n - 1);
    if m: nat :| m < n - 1 && Ancestor(table, s, m) == last {
    } else if n > 1 {
      ChainMeetsItself(table, s, n - 1, seen - {last.value});
    } else {
      assert false;
    }
  }

  lemma {:induction false} RootedEndsChain(table: seq<Span>, s: Span, d: nat, n: nat)
    requires Rooted(table, s, d) && d < n
    ensures Ancestor(table, s, n).None?
    decreases d
  {
    if d > 0 {
      RootedEndsChain(table, Parent(table, s).value, d - 1, n - 1);
    }
  }

  lemma RootedCannotRepeat(table: seq<Span>, s: Span, d: nat, i: nat, j: nat)
    requires Rooted(table, s, d) && i < j && Ancestor(table, s, i).Some?
    ensures Ancestor(table, s, j) != Ancestor(table, s, i)
  {
    if j > d {
      RootedEndsChain(table, s, d, j);
    } else {
      RootedAncestor(table, s, d, i);
      RootedAncestor(table, s, d, j);
      if Ancestor(table, s, j) == Ancestor(table, s, i) {
        RootedDepthUnique(table, Ancestor(table, s, i).value, d - i, d - j);
        assert false;
      }
    }
  }

  lemma OmittedIffEntersCycle(spans: seq<Span>, s: Span)
    requires LastGiven(spans, s)
    ensures (forall d: nat :: Row(s, d) !in Flatten(BuildForest(spans), 0)) <==> EntersCycle(Table(spans), s)
  {
    var table := Table(spans);
    TableHoldsLast(spans);
    forall d: nat ensures Row(s, d) in Flatten(BuildForest(spans), 0) <==> Rooted(table, s, d) {
      ForestRooted(spans, Row(s, d));
      assert Row(s, d) in Flatten(BuildForest(spans), 0) <==> multiset(Flatten(BuildForest(spans), 0))[Row(s, d)] > 0;
    }
    if forall d: nat :: !Rooted(table, s, d) {
      var seen := set x | x in table;
      DistinctFit(table, seen);
      forall m: nat ensures Ancestor(table, s, m).Some? && Ancestor(table, s, m).value in seen {
        EndlessChain(table, s, m);
        AncestorInTable(table, s, m);
      }
      ChainMeetsItself(table, s, |seen| + 1, seen);
      assert forall d: nat :: Row(s, d) !in Flatten(BuildForest(spans), 0);
    } else {
      var d: nat :| Rooted(table, s, d);
      assert Row(s, d) in Flatten(BuildForest(spans), 0);
      if EntersCycle(table, s) {
        var i: nat, j: nat :|
          i < j && Ancestor(table, s, i).Some? && Ancestor(table, s, j) == Ancestor(table, s, i);
        RootedCannotRepeat(table, s, d, i, j);
        assert false;
      }
    }
  }
  // ---------------------------------------------------------------- the forest, by the spans given

  /** p is the last span given for the id that s names as its parent, and that id is no mark of a root. */
  ghost predicate NamesParent(spans: seq<Span>, s: Span, p: Span) {
    LastGiven(spans, p) && p.spanId == s.parentSpanId && p.spanId != "" && p.spanId != "0000000000000000"
  }

  /** s has no parent: it names none, or sixteen zeros, or one that was not given. */
  ghost predicate AtTop(spans: seq<Span>, s: Span) {
    s.parentSpanId == "" || s.parentSpanId == "0000000000000000" || forall x | x in spans :: x.spanId != s.parentSpanId
  }

  /** Each span of the chain names the next one as its parent. */
  ghost predicate IsChain(spans: seq<Span>, chain: seq<Span>) {
    chain != [] && forall i | 0 <= i < |chain| - 1 :: NamesParent(spans, chain[i], chain[i + 1])
  }

  /** A chain of d steps leads from s to a span without a parent. */
  ghost predicate ReachesTop(spans: seq<Span>, s: Span, d: nat) {
    exists chain ::
      IsChain(spans, chain) && |chain| == d + 1 && chain[0] == s && AtTop(spans, chain[d])
  }

  /** A chain leads from s to some span twice. */
  ghost predicate MeetsItself(spans: seq<Span>, s: Span) {
    exists chain, i: nat, j: nat ::
      IsChain(spans, chain) && chain[0] == s && i < j < |chain| && chain[i] == chain[j]
  }

  lemma {:induction false} SomeLastGiven(spans: seq<Span>, x: Span) returns (p: Span)
    requires x in spans
    ensures LastGiven(spans, p) && p.spanId == x.spanId
    decreases |spans|
  {
    var init, last := spans[..|spans| - 1], spans[|spans| - 1];
    assert spans == init + [last];
    if last.spanId == x.spanId {
      p := last;
    } else {
      p := SomeLastGiven(init, x);
    }
    LastGivenSnoc(init, last, p);
  }

  lemma ParentIsNamed(spans: seq<Span>, s: Span, p: Span)
    ensures NamesParent(spans, s, p) <==> Parent(Table(spans), s) == Some(p)
  {
    TableHoldsLast(spans);
    ParentInTable(Table(spans), s);
    if p in Table(spans) {
      ParentById(Table(spans), s, p);
    }
  }

  lemma NoParentAtTop(spans: seq<Span>, s: Span)
    ensures AtTop(spans, s) <==> Parent(Table(spans), s).None?
  {
    if AtTop(spans, s) && Parent(Table(spans), s).Some? {
      var p := Parent(Table(spans), s).value;
      ParentIsNamed(spans, s, p);
      assert false;
    }
    if !AtTop(spans, s) {
      var x :| x in spans && x.spanId == s.parentSpanId;
      var p := SomeLastGiven(spans, x);
      ParentIsNamed(spans, s, p);
    }
  }

  lemma ChainCons(spans: seq<Span>, s: Span, chain: seq<Span>)
    requires IsChain(spans, chain) && NamesParent(spans, s, chain[0])
    ensures IsChain(spans, [s] + chain)
  {
    forall i | 0 <= i < |chain| ensures NamesParent(spans, ([s] + chain)[i], ([s] + chain)[i + 1]) {
      assert i > 0 ==> NamesParent(spans, chain[i - 1], chain[i]);
    }
  }

  lemma ChainTail(spans: seq<Span>, chain: seq<Span>)
    requires IsChain(spans, chain) && |chain| > 1
    ensures IsChain(spans, chain[1..]) && NamesParent(spans, chain[0], chain[1])
  {
    forall i | 0 <= i < |chain| - 2 ensures NamesParent(spans, chain[1..][i], chain[1..][i + 1]) {
      assert NamesParent(spans, chain[i + 1], chain[i + 2]);
    }
  }

  /** The ancestors are what the chains lead to. */
  lemma {:induction false} ChainUp(spans: seq<Span>, s: Span, n: nat) returns (chain: seq<Span>)
    requires Ancestor(Table(spans), s, n).Some?
    ensures IsChain(spans, chain) && |chain| == n + 1 && chain[0] == s
    ensures forall m | 0 <= m <= n :: Ancestor(Table(spans), s, m) == Some(chain[m])
    decreases n
  {
    chain := [s];
    if n > 0 {
      var p := Parent(Table(spans), s).value;
      ParentIsNamed(spans, s, p);
      var rest := ChainUp(spans, p, n - 1);
      ChainCons(spans, s, rest);
      chain := [s] + rest;
      forall m | 0 < m <= n ensures Ancestor(Table(spans), s, m) == Some(chain[m]) {
        assert Ancestor(Table(spans), p, m - 1) == Some(rest[m - 1]);
      }
    }
  }

  lemma {:induction false} ChainLeadsTo(spans: seq<Span>, chain: seq<Span>, m: nat)
    requires IsChain(spans, chain) && m < |chain|
    ensures Ancestor(Table(spans), chain[0], m) == Some(chain[m])
    decreases m
  {
    if m > 0 {
      ChainTail(spans, chain);
      ParentIsNamed(spans, chain[0], chain[1]);
      ChainLeadsTo(spans, chain[1..], m - 1);
    }
  }

  lemma {:induction false} RootedAt(table: seq<Span>, s: Span, d: nat)
    ensures Rooted(table, s, d) <==> Ancestor(table, s, d).Some? && Parent(table, Ancestor(table, s, d).value).None?
    decreases d
  {
    if d > 0 && Parent(table, s).Some? {
      RootedAt(table, Parent(table, s).value, d - 1);
    }
  }

  lemma RootedReachesTop(spans: seq<Span>, s: Span, d: nat)
    ensures Rooted(Table(spans), s, d) <==> ReachesTop(spans, s, d)
  {
    RootedAt(Table(spans), s, d);
    if Rooted(Table(spans), s, d) {
      var chain := ChainUp(spans, s, d);
      NoParentAtTop(spans, chain[d]);
    }
    if chain :| IsChain(spans, chain) && |chain| == d + 1 && chain[0] == s && AtTop(spans, chain[d]) {
      ChainLeadsTo(spans, chain, d);
      NoParentAtTop(spans, chain[d]);
    }
  }

  /**
   For every list of spans, a row occurs in the flattened forest exactly once if it pairs the last span given for an id
   with the length of its chain of parents, should that chain reach a span without a parent, and not at all otherwise.
   */
  lemma ForestExact(spans: seq<Span>, r: Row)
    ensures
      multiset(Flatten(BuildForest(spans), 0))[r] ==
        if LastGiven(spans, r.span) && ReachesTop(spans, r.span, r.depth) then 1 else 0
  {
    ForestRooted(spans, r);
    RootedReachesTop(spans, r.span, r.depth);
  }

  /** A span is left out of the forest exactly when its chain of parents meets itself. */
  lemma OmittedIffCycle(spans: seq<Span>, s: Span)
    requires LastGiven(spans, s)
    ensures (forall d: nat :: Row(s, d) !in Flatten(BuildForest(spans), 0)) <==> MeetsItself(spans, s)
  {
    var table := Table(spans);
    OmittedIffEntersCycle(spans, s);
    if EntersCycle(table, s) {
      var i: nat, j: nat :| i < j && Ancestor(table, s, i).Some? && Ancestor(table, s, j) == Ancestor(table, s, i);
      var chain := ChainUp(spans, s, j);
      assert chain[i] == chain[j];
    }
    if chain, i: nat, j: nat :|
      IsChain(spans, chain) && chain[0] == s && i < j < |chain| && chain[i] == chain[j]
    {
      ChainLeadsTo(spans, chain, i);
      ChainLeadsTo(spans, chain, j);
    }
  }

  lemma RowIffRooted(spans: seq<Span>, s: Span, d: nat)
    requires LastGiven(spans, s)
    ensures Row(s, d) in Flatten(BuildForest(spans), 0) <==> Rooted(Table(spans), s, d)
  {
    ForestRooted(spans, Row(s, d));
    assert Row(s, d) in Flatten(BuildForest(spans), 0) <==> multiset(Flatten(BuildForest(spans), 0))[Row(s, d)] > 0;
  }

  /** A span is shown one level below the span it names as its parent, whenever that one is shown. */
  lemma ChildBelowParent(spans: seq<Span>, s: Span, p: Span, d: nat)
    requires LastGiven(spans, s) && LastGiven(spans, p)
    requires s.parentSpanId == p.spanId && p.spanId != "" && p.spanId != "0000000000000000"
    ensures Row(s, d + 1) in Flatten(BuildForest(spans), 0) <==> Row(p, d) in Flatten(BuildForest(spans), 0)
  {
    ParentIsNamed(spans, s, p);
    RowIffRooted(spans, s, d + 1);
    RowIffRooted(spans, p, d);
  }

  /** A span is shown at the top if and only if it names no parent, or sixteen zeros, or one that was not given. */
  lemma TopIffNoParent(spans: seq<Span>, s: Span)
    requires LastGiven(spans, s)
    ensures Row(s, 0) in Flatten(BuildForest(spans), 0) <==>
      s.parentSpanId == "" || s.parentSpanId == "0000000000000000" ||
      forall x | x in spans :: x.spanId != s.parentSpanId
  {
    RowIffRooted(spans, s, 0);
    NoParentAtTop(spans, s);
  }
}
