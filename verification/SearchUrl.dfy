/**
 The search page's URL: printing the search state as parameters and parsing it back, and the same filters and query
 as the server reads them. Parameters are a list of pairs; percent-encoding is library code. White space is ASCII.
 */
module SearchUrl {
  import opened Seqs
  import opened Texts
  import opened TraceQueries

  /**
   How numbers become text. holds says which integers a double holds exactly; number is Number() followed by the
   finiteness check and truncation.
   */
  datatype NumberText = NumberText(holds: int -> bool, text: int -> string, number: string -> Option<int>)

  /** Whether the server's decimal parser keeps the order of m and n. */
  predicate KeepsOrder(t: NumberText, m: int, n: int) {
    var a, b := ParseInt64(t.text(m)), ParseInt64(t.text(n));
    m <= n && a.Some? && b.Some? ==> a.value <= b.value
  }

  ghost predicate Lawful(t: NumberText) {
    && (forall n | t.holds(n) :: t.number(t.text(n)) == Some(n))
    && (forall n :: t.text(n) != "" && Trimmed(t.text(n)))
    && (forall s | t.number(s).Some? :: t.holds(t.number(s).value))
    && (forall m, n :: KeepsOrder(t, m, n))
  }

  const DECIMAL := NumberText(i => MIN_INT64 <= i < -MIN_INT64, PrintInt, ParseInt64)

  lemma DecimalReads(n: int)
    ensures DECIMAL.number(DECIMAL.text(n)) == if DECIMAL.holds(n) then Some(n) else None
    ensures DECIMAL.text(n) != "" && Trimmed(DECIMAL.text(n))
  {
    ParsePrintAny(n);
  }

  lemma DecimalKeepsOrder(m: int, n: int)
    ensures KeepsOrder(DECIMAL, m, n)
  {
    DecimalReads(m);
    DecimalReads(n);
  }

  /** Plain decimal text of the 64-bit integers obeys the laws. */
  lemma DecimalIsLawful()
    ensures Lawful(DECIMAL)
  {
    forall n ensures DECIMAL.holds(n) ==> DECIMAL.number(DECIMAL.text(n)) == Some(n) {
      DecimalReads(n);
    }
    forall n ensures DECIMAL.text(n) != "" && Trimmed(DECIMAL.text(n)) {
      DecimalReads(n);
    }
    forall m, n ensures KeepsOrder(DECIMAL, m, n) {
      DecimalKeepsOrder(m, n);
    }
  }

  datatype Param = Param(key: string, value: string)

  function Get(params: seq<Param>, key: string): Option<string> {
    if params == [] then None
    else if params[0].key == key then Some(params[0].value)
    else Get(params[1..], key)
  }

  ghost predicate FirstAt(params: seq<Param>, key: string, value: string, i: nat) {
    i < |params| && params[i] == Param(key, value) && forall j | 0 <= j < i :: params[j].key != key
  }

  /** The first parameter of that name has the value. */
  ghost predicate FirstIs(params: seq<Param>, key: string, value: string) {
    exists i: nat :: FirstAt(params, key, value, i)
  }

  ghost predicate Without(params: seq<Param>, key: string) {
    forall p | p in params :: p.key != key
  }

  lemma FirstAtNext(p: Param, rest: seq<Param>, key: string, value: string, i: nat)
    ensures FirstAt([p] + rest, key, value, i + 1) <==> p.key != key && FirstAt(rest, key, value, i)
  {
    var params := [p] + rest;
    assert forall j | 0 <= j < |rest| :: params[j + 1] == rest[j];
    if FirstAt(params, key, value, i + 1) {
      assert params[0].key != key;
      forall j | 0 <= j < i ensures rest[j].key != key {
        assert params[j + 1].key != key;
      }
    }
    if p.key != key && FirstAt(rest, key, value, i) {
      forall j | 0 <= j < i + 1 ensures params[j].key != key {
        assert j > 0 ==> params[j] == rest[j - 1];
      }
    }
  }

  lemma FirstIsCons(p: Param, rest: seq<Param>, key: string, value: string)
    ensures FirstIs([p] + rest, key, value) <==>
      if p.key == key then p.value == value else FirstIs(rest, key, value)
  {
    if p == Param(key, value) {
      assert FirstAt([p] + rest, key, value, 0);
    }
    if i: nat :| FirstAt([p] + rest, key, value, i) {
      if i > 0 {
        FirstAtNext(p, rest, key, value, i - 1);
      }
    }
    if i: nat :| FirstAt(rest, key, value, i) {
      FirstAtNext(p, rest, key, value, i);
    }
  }

  lemma {:induction false} GetIs(params: seq<Param>, key: string)
    ensures Get(params, key) == None <==> Without(params, key)
    ensures forall v :: Get(params, key) == Some(v) <==> FirstIs(params, key, v)
  {
    if params != [] {
      var rest := params[1..];
      GetIs(rest, key);
      assert params == [params[0]] + rest;
      forall v ensures Get(params, key) == Some(v) <==> FirstIs(params, key, v) {
        FirstIsCons(params[0], rest, key, v);
      }
    }
  }

  function GetAll(params: seq<Param>, key: string): seq<string> {
    if params == [] then []
    else (if params[0].key == key then [params[0].value] else []) + GetAll(params[1..], key)
  }

  /** URLSearchParams.set: a key not there yet is appended; otherwise the first is replaced, the rest dropped. */
  function Set(params: seq<Param>, key: string, value: string): seq<Param> {
    if params == [] then [Param(key, value)]
    else if params[0].key == key then [Param(key, value)] + Filter((p: Param) => p.key != key, params[1..])
    else [params[0]] + Set(params[1..], key, value)
  }

  datatype UrlFilter = UrlFilter(id: string, key: string, value: string)

  datatype SearchState = SearchState(
    service: string, startMs: int, endMs: int, limit: int, order: string, hasError: bool, filters: seq<UrlFilter>)

  const DEFAULT_LIMIT := 100
  const DEFAULT_RANGE_MS := 60 * 60 * 1000
  const ORDERS := ["start_desc", "start_asc", "duration_desc", "duration_asc"]

  // ---------------------------------------------------------------- filters

  /** The position of the first '=', or none. */
  function Equals(s: string): (at: Option<nat>)
    ensures at.Some? ==> at.value < |s| && s[at.value] == '='
  {
    if s == "" then None
    else if s[0] == '=' then Some(0)
    else match Equals(s[1..]) case Some(i) => Some(i + 1) case None => None
  }

  function Printed(key: string, value: string): string {
    key + "=" + value
  }

  /** The client's reading of one attr parameter. */
  function ClientFilter(raw: string): Option<AttrFilter> {
    var trimmed := Trim(raw);
    if trimmed == "" then None
    else match Equals(trimmed)
      case None => None
      case Some(at) =>
        if at == 0 then None
        else
          var key, value := Trim(trimmed[..at]), Trim(trimmed[at + 1..]);
          if key == "" || value == "" then None else Some(AttrFilter(key, value))
  }

  /** The server's; None is an error. */
  function ServerFilter(raw: string): Option<AttrFilter> {
    match Equals(raw)
    case None => None
    case Some(at) =>
      var key, value := Trim(raw[..at]), Trim(raw[at + 1..]);
      if key == "" || value == "" then None else Some(AttrFilter(key, value))
  }

  lemma {:induction false} EqualsIs(s: string)
    ensures match Equals(s)
      case Some(i) => i < |s| && s[i] == '=' && '=' !in s[..i]
      case None => '=' !in s
  {
    if s != "" && s[0] != '=' {
      EqualsIs(s[1..]);
      match Equals(s[1..])
      case Some(i) => assert s[..i + 1] == [s[0]] + s[1..][..i];
      case None =>
    }
  }

  lemma {:induction false} EqualsAt(s: string, i: nat)
    requires i < |s| && s[i] == '=' && '=' !in s[..i]
    ensures Equals(s) == Some(i)
  {
    if i > 0 {
      assert s[..i] == [s[0]] + s[1..][..i - 1];
      EqualsAt(s[1..], i - 1);
    }
  }

  /** What trimming keeps is a slice; what it drops is white space. */
  /** White space in front does not matter to Trim. */
  lemma {:induction false} TrimDropsFront(space: string, s: string)
    requires forall i | 0 <= i < |space| :: IsSpace(space[i])
    ensures TrimLeft(space + s) == TrimLeft(s) && Trim(space + s) == Trim(s)
  {
    if space == "" {
      assert space + s == s;
    } else {
      assert (space + s)[1..] == space[1..] + s;
      TrimDropsFront(space[1..], s);
    }
  }

  lemma {:induction false} TrimRightDropsEnd(s: string, space: string)
    requires forall i | 0 <= i < |space| :: IsSpace(space[i])
    ensures TrimRight(s + space) == TrimRight(s)
  {
    if space == "" {
      assert s + space == s;
    } else {
      var n := |space| - 1;
      assert (s + space)[..|s + space| - 1] == s + space[..n];
      assert (s + space)[|s + space| - 1] == space[n];
      TrimRightDropsEnd(s, space[..n]);
    }
  }

  lemma {:induction false} TrimLeftKeepsEnd(s: string, space: string)
    ensures TrimLeft(s) != "" ==> TrimLeft(s + space) == TrimLeft(s) + space
    ensures TrimLeft(s) == "" ==> TrimLeft(s + space) == TrimLeft(space)
  {
    if s == "" {
      assert s + space == space;
    } else if IsSpace(s[0]) {
      assert (s + space)[1..] == s[1..] + space;
      TrimLeftKeepsEnd(s[1..], space);
    }
  }

  /** Nor does white space at the end. */
  lemma TrimDropsEnd(s: string, space: string)
    requires forall i | 0 <= i < |space| :: IsSpace(space[i])
    ensures Trim(s + space) == Trim(s)
  {
    TrimLeftKeepsEnd(s, space);
    TrimRightDropsEnd(TrimLeft(s), space);
    if TrimLeft(s) == "" {
      TrimDropsFront(space, "");
      assert space + "" == space;
    }
  }

  /** Where the first '=' of the trimmed text is, and what trimming each side gives. */
  lemma TrimmedSides(raw: string, a: nat, b: nat, at: nat)
    requires a <= b <= |raw| && at < |raw| && raw[at] == '=' && '=' !in raw[..at]
    requires forall i | 0 <= i < |raw| && (i < a || i >= b) :: IsSpace(raw[i])
    ensures a <= at < b && Equals(raw[a..b]) == Some(at - a)
    ensures Trim(raw[a..b][..at - a]) == Trim(raw[..at])
    ensures Trim(raw[a..b][at - a + 1..]) == Trim(raw[at + 1..])
  {
    assert a <= at < b;
    var trimmed := raw[a..b];
    SliceOfSlice(raw, a, b, 0, at - a);
    SliceOfSlice(raw, a, b, at - a + 1, b - a);
    assert raw[..at] == raw[..a] + raw[a..at];
    assert raw[at + 1..] == raw[at + 1..b] + raw[b..];
    forall i | 0 <= i < at - a ensures trimmed[i] != '=' {
      assert raw[..at][a + i] == trimmed[i];
    }
    EqualsAt(trimmed, at - a);
    TrimDropsFront(raw[..a], raw[a..at]);
    TrimDropsEnd(raw[at + 1..b], raw[b..]);
  }

  /** Both sides read every parameter alike. */
  lemma ClientReadsLikeServer(raw: string)
    ensures ClientFilter(raw) == ServerFilter(raw)
  {
    var a, b := TrimSlice(raw);
    EqualsIs(raw);
    EqualsIs(Trim(raw));
    match Equals(raw)
    case None => assert forall c | c in raw[a..b] :: c in raw;
    case Some(at) => TrimmedSides(raw, a, b, at);
  }

  predicate Blank(s: string) {
    Trim(s) == ""
  }

  lemma TrimKeepsEquals(s: string)
    ensures '=' in Trim(s) <==> '=' in s
  {
    var a, b := TrimSlice(s);
    if '=' in s {
      var i :| 0 <= i < |s| && s[i] == '=';
      assert s[a..b][i - a] == '=';
    }
  }

  /**
   A printed filter is read back as the trimmed pair exactly when the key has no '=' in it; the value may have some.
   */
  lemma ServerReadsPrinted(key: string, value: string)
    requires !Blank(key) && !Blank(value)
    ensures ServerFilter(Printed(key, value)) == Some(AttrFilter(Trim(key), Trim(value))) <==> '=' !in key
  {
    var raw := Printed(key, value);
    EqualsIs(raw);
    assert raw[|key|] == '=';
    assert raw[..|key|] == key && raw[|key| + 1..] == value;
    if '=' !in key {
      EqualsAt(raw, |key|);
    } else {
      var at := Equals(raw).value;
      TrimKeepsEquals(key);
      TrimKeepsEquals(raw[..at]);
    }
  }

  /** A key with an '=' comes out as another pair. */
  lemma KeyWithEquals()
    ensures ServerFilter(Printed("a=b", "c")) == Some(AttrFilter("a", "b=c"))
  {
    var raw := Printed("a=b", "c");
    EqualsAt(raw, 1);
    assert raw[..1] == "a" && raw[2..] == "b=c";
    TrimTrims("a");
    TrimTrims("b=c");
  }

  // ---------------------------------------------------------------- lists of filters

  /** parseAttrFilters of the page: unreadable parameters are dropped, the others numbered by their position. */
  function ClientFilters(raw: seq<string>, index: nat): seq<UrlFilter>
    decreases |raw|
  {
    if raw == [] then []
    else
      (match ClientFilter(raw[0])
       case Some(f) => [UrlFilter("attr-filter-url-" + PrintNat(index), f.key, f.value)]
       case None => [])
      + ClientFilters(raw[1..], index + 1)
  }

  /** The pairs that get printed. */
  function PrintedFilters(filters: seq<UrlFilter>): seq<string> {
    if filters == [] then []
    else
      (if !Blank(filters[0].key) && !Blank(filters[0].value) then [Printed(filters[0].key, filters[0].value)] else [])
      + PrintedFilters(filters[1..])
  }

  predicate SamePairs(a: seq<UrlFilter>, b: seq<UrlFilter>) {
    |a| == |b| && forall i | 0 <= i < |a| :: a[i].key == b[i].key && a[i].value == b[i].value
  }

  /** A filter as the client's parser makes them. */
  predicate CleanFilter(f: UrlFilter) {
    f.key != "" && f.value != "" && Trimmed(f.key) && Trimmed(f.value) && '=' !in f.key
  }

  predicate CleanFilters(filters: seq<UrlFilter>) {
    forall i | 0 <= i < |filters| :: CleanFilter(filters[i])
  }

  lemma {:induction false} ClientFiltersClean(raw: seq<string>, index: nat)
    ensures CleanFilters(ClientFilters(raw, index))
    decreases |raw|
  {
    if raw != [] {
      ClientFiltersClean(raw[1..], index + 1);
      ClientReadsLikeServer(raw[0]);
      match Equals(raw[0])
      case Some(at) =>
        EqualsIs(raw[0]);
        TrimTrims(raw[0][..at]);
        TrimTrims(raw[0][at + 1..]);
        TrimKeepsEquals(raw[0][..at]);
      case None =>
    }
  }

  lemma FilterBack(f: UrlFilter)
    requires CleanFilter(f)
    ensures !Blank(f.key) && !Blank(f.value)
    ensures ClientFilter(Printed(f.key, f.value)) == Some(AttrFilter(f.key, f.value))
  {
    TrimTrims(f.key);
    TrimTrims(f.value);
    ServerReadsPrinted(f.key, f.value);
    ClientReadsLikeServer(Printed(f.key, f.value));
  }

  lemma ClientFiltersNext(raw: seq<string>, f: AttrFilter, index: nat)
    requires raw != [] && ClientFilter(raw[0]) == Some(f)
    ensures ClientFilters(raw, index) ==
      [UrlFilter("attr-filter-url-" + PrintNat(index), f.key, f.value)] + ClientFilters(raw[1..], index + 1)
  {
  }

  /** Parsing what was printed from parsed filters gives them back, with new ids. */
  lemma {:induction false} FiltersBack(filters: seq<UrlFilter>, index: nat)
    requires CleanFilters(filters)
    ensures SamePairs(ClientFilters(PrintedFilters(filters), index), filters)
    decreases |filters|
  {
    if filters != [] {
      var f := filters[0];
      assert CleanFilter(f);
      FilterBack(f);
      FiltersBack(filters[1..], index + 1);
      assert PrintedFilters(filters)[1..] == PrintedFilters(filters[1..]);
      ClientFiltersNext(PrintedFilters(filters), AttrFilter(f.key, f.value), index);
    }
  }

  /** All of them, or an error if one cannot be read. */
  function ServerFilters(raw: seq<string>): Option<seq<AttrFilter>> {
    if raw == [] then Some([])
    else match ServerFilter(raw[0])
      case None => None
      case Some(f) => match ServerFilters(raw[1..])
        case None => None
        case Some(rest) => Some([f] + rest)
  }

  function Joined(found: seq<AttrFilter>, rest: Option<seq<AttrFilter>>): Option<seq<AttrFilter>> {
    match rest case Some(fs) => Some(found + fs) case None => None
  }

  lemma JoinedNext(found: seq<AttrFilter>, raw: seq<string>, i: nat)
    requires i < |raw|
    ensures Joined(found, ServerFilters(raw[i..])) ==
      match ServerFilter(raw[i])
      case Some(f) => Joined(found + [f], ServerFilters(raw[i + 1..]))
      case None => None
  {
    assert raw[i..][1..] == raw[i + 1..];
    if ServerFilter(raw[i]).Some? && ServerFilters(raw[i + 1..]).Some? {
      var f, rest := ServerFilter(raw[i]).value, ServerFilters(raw[i + 1..]).value;
      assert found + ([f] + rest) == found + [f] + rest;
    }
  }

  /** The first '=' is there, with key and value on its sides, apart from white space around them. */
  predicate SplitsAt(raw: string, at: nat, key: string, value: string) {
    && at < |raw| && raw[at] == '=' && '=' !in raw[..at]
    && key == Trim(raw[..at]) && value == Trim(raw[at + 1..])
  }

  /** A filter as it is written: the key and the value around the first '=', trimmed, neither empty. */
  ghost predicate ReadsAs(raw: string, key: string, value: string) {
    key != "" && value != "" && exists at: nat :: SplitsAt(raw, at, key, value)
  }

  lemma ServerFilterIs(raw: string)
    ensures forall key, value :: ServerFilter(raw) == Some(AttrFilter(key, value)) <==> ReadsAs(raw, key, value)
    ensures ServerFilter(raw).None? <==> forall key, value :: !ReadsAs(raw, key, value)
  {
    EqualsIs(raw);
    forall key, value ensures ServerFilter(raw) == Some(AttrFilter(key, value)) <==> ReadsAs(raw, key, value) {
      if at: nat :| SplitsAt(raw, at, key, value) {
        EqualsAt(raw, at);
      }
      if Equals(raw).Some? && key == Trim(raw[..Equals(raw).value]) && value == Trim(raw[Equals(raw).value + 1..]) {
        assert SplitsAt(raw, Equals(raw).value, key, value);
      }
    }
    if ServerFilter(raw).Some? {
      assert ReadsAs(raw, ServerFilter(raw).value.key, ServerFilter(raw).value.value);
    }
  }

  ghost predicate Readable(raw: string) {
    exists key, value :: ReadsAs(raw, key, value)
  }

  ghost predicate FiltersAsked(raw: seq<string>, filters: seq<AttrFilter>) {
    |filters| == |raw| && forall i | 0 <= i < |raw| :: ReadsAs(raw[i], filters[i].key, filters[i].value)
  }

  lemma FiltersAskedSplit(raw: seq<string>, filters: seq<AttrFilter>)
    requires raw != [] && filters != []
    ensures FiltersAsked(raw, filters) <==>
      ReadsAs(raw[0], filters[0].key, filters[0].value) && FiltersAsked(raw[1..], filters[1..])
  {
    if FiltersAsked(raw[1..], filters[1..]) && ReadsAs(raw[0], filters[0].key, filters[0].value) {
      forall i | 0 <= i < |raw| ensures ReadsAs(raw[i], filters[i].key, filters[i].value) {
        assert i > 0 ==> ReadsAs(raw[1..][i - 1], filters[1..][i - 1].key, filters[1..][i - 1].value);
      }
    }
    if FiltersAsked(raw, filters) {
      forall i | 0 <= i < |raw| - 1 ensures ReadsAs(raw[1..][i], filters[1..][i].key, filters[1..][i].value) {
        assert ReadsAs(raw[i + 1], filters[i + 1].key, filters[i + 1].value);
      }
    }
  }

  lemma {:induction false} FiltersAreAsked(raw: seq<string>, filters: seq<AttrFilter>)
    ensures ServerFilters(raw) == Some(filters) <==> FiltersAsked(raw, filters)
    decreases |raw|
  {
    if raw != [] && filters != [] {
      ServerFilterIs(raw[0]);
      FiltersAreAsked(raw[1..], filters[1..]);
      FiltersAskedSplit(raw, filters);
      assert filters == [filters[0]] + filters[1..];
      if ServerFilter(raw[0]).Some? && ServerFilters(raw[1..]).Some? {
        var all := [ServerFilter(raw[0]).value] + ServerFilters(raw[1..]).value;
        assert all[0] == ServerFilter(raw[0]).value && all[1..] == ServerFilters(raw[1..]).value;
      }
    }
  }

  /** parseAttrFilters of the server. */
  method ParseServerFilters(raw: seq<string>) returns (filters: Option<seq<AttrFilter>>)
    ensures filters == ServerFilters(raw)
    ensures filters.None? ==> exists i :: 0 <= i < |raw| && !Readable(raw[i])
    ensures filters.Some? ==> FiltersAsked(raw, filters.value)
  {
    var found: seq<AttrFilter> := [];
    assert raw[0..] == raw;
    assert ServerFilters(raw).Some? ==> [] + ServerFilters(raw).value == ServerFilters(raw).value;
    for i := 0 to |raw|
      invariant ServerFilters(raw) == Joined(found, ServerFilters(raw[i..]))
    {
      JoinedNext(found, raw, i);
      var f := ServerFilter(raw[i]);
      if f.None? {
        ServerFilterIs(raw[i]);
        assert !Readable(raw[i]);
        return None;
      }
      found := found + [f.value];
    }
    assert found + [] == found;
    filters := Some(found);
    FiltersAreAsked(raw, found);
  }

  /** The pairs a list of filters stands for: blank ones are skipped, the others trimmed. */
  function Meant(filters: seq<UrlFilter>): seq<AttrFilter> {
    if filters == [] then []
    else
      (if !Blank(filters[0].key) && !Blank(filters[0].value)
       then [AttrFilter(Trim(filters[0].key), Trim(filters[0].value))] else [])
      + Meant(filters[1..])
  }

  predicate PlainFilter(f: UrlFilter) {
    !Blank(f.key) && !Blank(f.value) ==> '=' !in f.key
  }

  predicate KeysPlain(filters: seq<UrlFilter>) {
    forall f | f in filters :: PlainFilter(f)
  }

  lemma MeantFirst(filters: seq<UrlFilter>)
    requires filters != [] && !Blank(filters[0].key) && !Blank(filters[0].value)
    ensures
      var f, rest := filters[0], filters[1..];
      ServerFilters(PrintedFilters(filters)) == Some(Meant(filters)) <==>
      PlainFilter(f) && ServerFilters(PrintedFilters(rest)) == Some(Meant(rest))
  {
    var f, rest := filters[0], filters[1..];
    var raw, more, meant := Printed(f.key, f.value), PrintedFilters(rest), AttrFilter(Trim(f.key), Trim(f.value));
    ServerReadsPrinted(f.key, f.value);
    assert PrintedFilters(filters) == [raw] + more && ([raw] + more)[1..] == more;
    assert Meant(filters) == [meant] + Meant(rest);
    if ServerFilter(raw).Some? && ServerFilters(more).Some? {
      var g, gs := ServerFilter(raw).value, ServerFilters(more).value;
      assert ServerFilters([raw] + more) == Some([g] + gs);
      assert ([g] + gs)[0] == g && ([g] + gs)[1..] == gs;
      assert ([meant] + Meant(rest))[0] == meant && ([meant] + Meant(rest))[1..] == Meant(rest);
    }
  }

  /** The server gets the pairs that are meant exactly when no printed key has an '='. */
  lemma {:induction false} ServerReadsMeant(filters: seq<UrlFilter>)
    ensures ServerFilters(PrintedFilters(filters)) == Some(Meant(filters)) <==> KeysPlain(filters)
  {
    if filters != [] {
      ServerReadsMeant(filters[1..]);
      assert filters == [filters[0]] + filters[1..];
      assert KeysPlain(filters) <==> PlainFilter(filters[0]) && KeysPlain(filters[1..]);
      if !Blank(filters[0].key) && !Blank(filters[0].value) {
        MeantFirst(filters);
      } else {
        assert PrintedFilters(filters) == PrintedFilters(filters[1..]);
        assert Meant(filters) == Meant(filters[1..]);
      }
    }
  }

  // ---------------------------------------------------------------- the whole state

  function NumberParam(t: NumberText, params: seq<Param>, key: string): Option<int> {
    match Get(params, key)
    case None => None
    case Some(raw) => if raw == "" then None else t.number(raw)
  }

  function Lower(s: string): string {
    seq(|s|, i requires 0 <= i < |s| => if 'A' <= s[i] <= 'Z' then s[i] - 'A' + 'a' else s[i])
  }

  function BoolParam(params: seq<Param>, key: string): bool {
    match Get(params, key)
    case None => false
    case Some(raw) => Lower(Trim(raw)) == "1" || Lower(Trim(raw)) == "true"
  }

  function OrDefault(o: Option<string>): string {
    match o case Some(s) => s case None => ""
  }

  function Raw(params: seq<Param>, key: string): string {
    OrDefault(Get(params, key))
  }

  function OrderParam(params: seq<Param>): string {
    var raw := Trim(Raw(params, "order"));
    if raw in ORDERS then raw else "start_desc"
  }

  /** The range asked for, or the last hour if there is none that makes sense. */
  function RangeParam(t: NumberText, now: int, params: seq<Param>): (int, int) {
    var (defaultStart, defaultEnd) := (now - DEFAULT_RANGE_MS, now);
    var start := match NumberParam(t, params, "startMs") case Some(n) => n case None => defaultStart;
    var end := match NumberParam(t, params, "endMs") case Some(n) => n case None => defaultEnd;
    if end < start then (defaultStart, defaultEnd) else (start, end)
  }

  function LimitParam(t: NumberText, params: seq<Param>): int {
    match NumberParam(t, params, "limit")
    case Some(n) => if n <= 0 then DEFAULT_LIMIT else n
    case None => DEFAULT_LIMIT
  }

  function Parse(t: NumberText, now: int, params: seq<Param>): SearchState {
    var range := RangeParam(t, now, params);
    SearchState(
      Trim(Raw(params, "service")), range.0, range.1, LimitParam(t, params), OrderParam(params),
      BoolParam(params, "has_error"), ClientFilters(GetAll(params, "attr"), 0))
  }

  /** The first parameter of that name is a number. */
  ghost predicate NumberGiven(t: NumberText, params: seq<Param>, key: string, n: int) {
    exists v :: FirstIs(params, key, v) && v != "" && t.number(v) == Some(n)
  }

  ghost predicate NoNumber(t: NumberText, params: seq<Param>, key: string) {
    forall n :: !NumberGiven(t, params, key, n)
  }

  lemma NumberParamIs(t: NumberText, params: seq<Param>, key: string)
    ensures NumberParam(t, params, key).None? <==> NoNumber(t, params, key)
    ensures forall n :: NumberParam(t, params, key) == Some(n) <==> NumberGiven(t, params, key, n)
  {
    GetIs(params, key);
    if Get(params, key).Some? {
      assert FirstIs(params, key, Get(params, key).value);
    }
    if NumberParam(t, params, key).Some? {
      assert NumberGiven(t, params, key, NumberParam(t, params, key).value);
    }
  }

  /** The range of the page: what is given, else from an hour ago until now; and the last hour if it is inverted. */
  ghost predicate RangeRead(t: NumberText, now: int, params: seq<Param>, start: int, end: int) {
    && (NoNumber(t, params, "startMs") && NoNumber(t, params, "endMs") ==> start == now - 3_600_000 && end == now)
    && (forall a | NumberGiven(t, params, "startMs", a) && NoNumber(t, params, "endMs") ::
         (a <= now ==> start == a && end == now) && (a > now ==> start == now - 3_600_000 && end == now))
    && (forall b | NoNumber(t, params, "startMs") && NumberGiven(t, params, "endMs", b) ::
         && (b >= now - 3_600_000 ==> start == now - 3_600_000 && end == b)
         && (b < now - 3_600_000 ==> start == now - 3_600_000 && end == now))
    && (forall a, b | NumberGiven(t, params, "startMs", a) && NumberGiven(t, params, "endMs", b) ::
         (a <= b ==> start == a && end == b) && (a > b ==> start == now - 3_600_000 && end == now))
  }

  /** The limit of the page: what is given if it is positive, else 100. */
  ghost predicate LimitRead(t: NumberText, params: seq<Param>, limit: int) {
    && (forall n | NumberGiven(t, params, "limit", n) && n > 0 :: limit == n)
    && ((forall n | NumberGiven(t, params, "limit", n) :: n <= 0) ==> limit == 100)
  }

  /** One of the four orders if it is given, with white space around it or not, else start_desc. */
  ghost predicate OrderRead(params: seq<Param>, order: string) {
    && order in ["start_desc", "start_asc", "duration_desc", "duration_asc"]
    && (order != "start_desc" ==> exists v :: FirstIs(params, "order", v) && Trim(v) == order)
    && (forall v | FirstIs(params, "order", v) && Trim(v) in ["start_asc", "duration_desc", "duration_asc"] ::
         order == Trim(v))
  }

  /** The text is the word, whose letters are small, in any case. */
  predicate IgnoringCase(text: string, word: string) {
    && |text| == |word|
    && forall i | 0 <= i < |text| ::
      text[i] == word[i] || ('A' <= text[i] <= 'Z' && text[i] as int + 32 == word[i] as int)
  }

  ghost predicate BoolRead(params: seq<Param>, key: string, yes: bool) {
    yes <==> exists v :: FirstIs(params, key, v) && (Trim(v) == "1" || IgnoringCase(Trim(v), "true"))
  }

  lemma LowerIs(s: string, word: string)
    requires forall c | c in word :: !('A' <= c <= 'Z')
    ensures Lower(s) == word <==> IgnoringCase(s, word)
  {
    if IgnoringCase(s, word) {
      forall i | 0 <= i < |s| ensures Lower(s)[i] == word[i] {
        assert word[i] in word;
      }
    }
    if Lower(s) == word {
      forall i | 0 <= i < |s|
        ensures s[i] == word[i] || ('A' <= s[i] <= 'Z' && s[i] as int + 32 == word[i] as int)
      {
        assert Lower(s)[i] == word[i];
      }
    }
  }

  lemma BoolParamRead(params: seq<Param>, key: string)
    ensures BoolRead(params, key, BoolParam(params, key))
  {
    GetIs(params, key);
    if Get(params, key).Some? {
      var v := Get(params, key).value;
      LowerIs(Trim(v), "1");
      LowerIs(Trim(v), "true");
      assert FirstIs(params, key, v);
    }
  }

  lemma OrderParamRead(params: seq<Param>)
    ensures OrderRead(params, OrderParam(params))
  {
    GetIs(params, "order");
    if Get(params, "order").Some? {
      assert FirstIs(params, "order", Get(params, "order").value);
    } else {
      assert Trim("") == "";
    }
  }

  lemma RangeParamRead(t: NumberText, now: int, params: seq<Param>)
    ensures RangeRead(t, now, params, RangeParam(t, now, params).0, RangeParam(t, now, params).1)
  {
    NumberParamIs(t, params, "startMs");
    NumberParamIs(t, params, "endMs");
  }

  lemma LimitParamRead(t: NumberText, params: seq<Param>)
    ensures LimitRead(t, params, LimitParam(t, params))
  {
    NumberParamIs(t, params, "limit");
  }

  /** f is what parameter number at says. */
  ghost predicate FilterAt(raw: seq<string>, index: nat, at: nat, f: UrlFilter) {
    at < |raw| && ReadsAs(raw[at], f.key, f.value) && f.id == "attr-filter-url-" + PrintNat(index + at)
  }

  ghost predicate Rises(pos: seq<nat>) {
    forall i, j | 0 <= i < j < |pos| :: pos[i] < pos[j]
  }

  ghost predicate HasReadable(raw: seq<string>, pos: seq<nat>) {
    forall i: nat | i < |raw| && Readable(raw[i]) :: i in pos
  }

  /** The filters are those of the readable parameters, in order, each numbered by its place; pos says which. */
  ghost predicate FiltersRead(raw: seq<string>, index: nat, pos: seq<nat>, filters: seq<UrlFilter>) {
    && |pos| == |filters| && Rises(pos) && HasReadable(raw, pos)
    && forall k | 0 <= k < |pos| :: FilterAt(raw, index, pos[k], filters[k])
  }

  function Shift(pos: seq<nat>): seq<nat> {
    seq(|pos|, k requires 0 <= k < |pos| => pos[k] + 1)
  }

  lemma ShiftRises(pos: seq<nat>)
    requires Rises(pos)
    ensures Rises(Shift(pos)) && Rises([0] + Shift(pos))
  {
  }

  lemma ShiftHasReadable(raw: seq<string>, pos: seq<nat>)
    requires raw != [] && HasReadable(raw[1..], pos)
    ensures HasReadable(raw, [0] + Shift(pos))
    ensures !Readable(raw[0]) ==> HasReadable(raw, Shift(pos))
  {
    forall i: nat | 0 < i < |raw| && Readable(raw[i]) ensures i in Shift(pos) {
      assert raw[1..][i - 1] == raw[i];
      var k :| 0 <= k < |pos| && pos[k] == i - 1;
      assert Shift(pos)[k] == i;
    }
  }

  lemma FilterAtNext(raw: seq<string>, index: nat, at: nat, f: UrlFilter)
    requires raw != [] && FilterAt(raw[1..], index + 1, at, f)
    ensures FilterAt(raw, index, at + 1, f)
  {
    assert raw[1..][at] == raw[at + 1] && index + 1 + at == index + (at + 1);
  }

  lemma FiltersReadSkip(raw: seq<string>, index: nat, rest: seq<nat>, filters: seq<UrlFilter>)
    requires raw != [] && !Readable(raw[0]) && FiltersRead(raw[1..], index + 1, rest, filters)
    ensures FiltersRead(raw, index, Shift(rest), filters)
  {
    ShiftRises(rest);
    ShiftHasReadable(raw, rest);
    forall k | 0 <= k < |rest| ensures FilterAt(raw, index, Shift(rest)[k], filters[k]) {
      FilterAtNext(raw, index, rest[k], filters[k]);
    }
  }

  lemma FilterAtPlace(
      raw: seq<string>, index: nat, rest: seq<nat>, filters: seq<UrlFilter>, f: UrlFilter, k: nat)
    requires raw != [] && FilterAt(raw, index, 0, f) && |rest| == |filters| && k <= |rest|
    requires k > 0 ==> FilterAt(raw[1..], index + 1, rest[k - 1], filters[k - 1])
    ensures FilterAt(raw, index, ([0] + Shift(rest))[k], ([f] + filters)[k])
  {
    if k > 0 {
      assert ([0] + Shift(rest))[k] == rest[k - 1] + 1 && ([f] + filters)[k] == filters[k - 1];
      FilterAtNext(raw, index, rest[k - 1], filters[k - 1]);
    }
  }

  lemma FiltersReadFirst(raw: seq<string>, index: nat, rest: seq<nat>, filters: seq<UrlFilter>, f: UrlFilter)
    requires raw != [] && FilterAt(raw, index, 0, f) && FiltersRead(raw[1..], index + 1, rest, filters)
    ensures FiltersRead(raw, index, [0] + Shift(rest), [f] + filters)
  {
    ShiftRises(rest);
    ShiftHasReadable(raw, rest);
    forall k | 0 <= k < |rest| + 1 ensures FilterAt(raw, index, ([0] + Shift(rest))[k], ([f] + filters)[k]) {
      FilterAtPlace(raw, index, rest, filters, f, k);
    }
  }

  lemma FilterNumbered(raw: seq<string>, index: nat, f: AttrFilter)
    requires raw != [] && ClientFilter(raw[0]) == Some(f)
    ensures FilterAt(raw, index, 0, UrlFilter("attr-filter-url-" + PrintNat(index), f.key, f.value))
  {
    ClientReadsLikeServer(raw[0]);
    ServerFilterIs(raw[0]);
  }

  lemma Unreadable(raw: string)
    requires ClientFilter(raw).None?
    ensures !Readable(raw)
  {
    ClientReadsLikeServer(raw);
    ServerFilterIs(raw);
  }

  lemma {:induction false} ClientFiltersRead(raw: seq<string>, index: nat) returns (pos: seq<nat>)
    ensures FiltersRead(raw, index, pos, ClientFilters(raw, index))
    decreases |raw|
  {
    if raw == [] {
      pos := [];
    } else {
      var rest := ClientFiltersRead(raw[1..], index + 1);
      var filters := ClientFilters(raw[1..], index + 1);
      match ClientFilter(raw[0])
      case None =>
        Unreadable(raw[0]);
        FiltersReadSkip(raw, index, rest, filters);
        pos := Shift(rest);
      case Some(f) =>
        ClientFiltersNext(raw, f, index);
        FilterNumbered(raw, index, f);
        FiltersReadFirst(
          raw, index, rest, filters, UrlFilter("attr-filter-url-" + PrintNat(index), f.key, f.value));
        pos := [0] + Shift(rest);
    }
  }

  /** What the page reads in its URL. */
  ghost predicate StateRead(t: NumberText, now: int, params: seq<Param>, s: SearchState) {
    && (forall v | FirstIs(params, "service", v) :: s.service == Trim(v))
    && (Without(params, "service") ==> s.service == "")
    && RangeRead(t, now, params, s.startMs, s.endMs) && LimitRead(t, params, s.limit)
    && OrderRead(params, s.order) && BoolRead(params, "has_error", s.hasError)
    && exists pos :: FiltersRead(GetAll(params, "attr"), 0, pos, s.filters)
  }

  lemma ParseReads(t: NumberText, now: int, params: seq<Param>)
    ensures StateRead(t, now, params, Parse(t, now, params))
  {
    GetIs(params, "service");
    assert Trim("") == "";
    RangeParamRead(t, now, params);
    LimitParamRead(t, params);
    OrderParamRead(params);
    BoolParamRead(params, "has_error");
    var pos := ClientFiltersRead(GetAll(params, "attr"), 0);
  }

  /** parseSearchState; now is what the clock says. */
  method ParseSearchState(t: NumberText, now: int, params: seq<Param>) returns (s: SearchState)
    ensures s == Parse(t, now, params) && StateRead(t, now, params, s)
  {
    ParseReads(t, now, params);
    var defaultStart, defaultEnd := now - DEFAULT_RANGE_MS, now;
    var service := Trim(Raw(params, "service"));
    var start := NumberParam(t, params, "startMs");
    var end := NumberParam(t, params, "endMs");
    var limit := NumberParam(t, params, "limit");
    if start.None? {
      start := Some(defaultStart);
    }
    if end.None? {
      end := Some(defaultEnd);
    }
    if end.value < start.value {
      start := Some(defaultStart);
      end := Some(defaultEnd);
    }
    if limit.None? || limit.value <= 0 {
      limit := Some(DEFAULT_LIMIT);
    }
    var filters := ClientFilters(GetAll(params, "attr"), 0);
    s := SearchState(
      service, start.value, end.value, limit.value, OrderParam(params), BoolParam(params, "has_error"), filters);
  }

  function AttrParams(raw: seq<string>): seq<Param> {
    if raw == [] then [] else [Param("attr", raw[0])] + AttrParams(raw[1..])
  }

  /** The parameters every state with a service has. */
  function FixedParams(t: NumberText, s: SearchState): seq<Param> {
    [Param("service", Trim(s.service)), Param("startMs", t.text(s.startMs)), Param("endMs", t.text(s.endMs)),
     Param("limit", t.text(s.limit)), Param("order", s.order)]
  }

  /** The parameters a state is printed as; none without a service. */
  function Built(t: NumberText, s: SearchState): seq<Param> {
    if Blank(s.service) then []
    else
      FixedParams(t, s)
      + (if s.hasError then [Param("has_error", "1")] else [])
      + AttrParams(PrintedFilters(s.filters))
  }

  lemma {:induction false} SetsAtEnd(params: seq<Param>, key: string, value: string)
    requires forall i | 0 <= i < |params| :: params[i].key != key
    ensures Set(params, key, value) == params + [Param(key, value)]
  {
    if params != [] {
      SetsAtEnd(params[1..], key, value);
    }
  }

  /** The first part of buildSearchParams. */
  method SetFixedParams(t: NumberText, s: SearchState, service: string) returns (params: seq<Param>)
    requires service == Trim(s.service)
    ensures params == FixedParams(t, s)
  {
    params := Set([], "service", service);
    SetsAtEnd(params, "startMs", t.text(s.startMs));
    params := Set(params, "startMs", t.text(s.startMs));
    SetsAtEnd(params, "endMs", t.text(s.endMs));
    params := Set(params, "endMs", t.text(s.endMs));
    SetsAtEnd(params, "limit", t.text(s.limit));
    params := Set(params, "limit", t.text(s.limit));
    SetsAtEnd(params, "order", s.order);
    params := Set(params, "order", s.order);
  }

  lemma AppendNext(params: seq<Param>, filters: seq<UrlFilter>, i: nat)
    requires i < |filters|
    ensures params + AttrParams(PrintedFilters(filters[i..])) ==
      (if !Blank(filters[i].key) && !Blank(filters[i].value)
       then params + [Param("attr", Printed(filters[i].key, filters[i].value))] else params)
      + AttrParams(PrintedFilters(filters[i + 1..]))
  {
    var rest := PrintedFilters(filters[i + 1..]);
    assert filters[i..][1..] == filters[i + 1..];
    if !Blank(filters[i].key) && !Blank(filters[i].value) {
      var raw := Printed(filters[i].key, filters[i].value);
      assert PrintedFilters(filters[i..]) == [raw] + rest && ([raw] + rest)[1..] == rest;
      assert AttrParams([raw] + rest) == [Param("attr", raw)] + AttrParams(rest);
    } else {
      assert PrintedFilters(filters[i..]) == rest;
    }
  }

  /** The loop that appends the filters. */
  method AppendFilters(before: seq<Param>, filters: seq<UrlFilter>) returns (params: seq<Param>)
    ensures params == before + AttrParams(PrintedFilters(filters))
  {
    params := before;
    for i := 0 to |filters|
      invariant params + AttrParams(PrintedFilters(filters[i..])) == before + AttrParams(PrintedFilters(filters))
    {
      AppendNext(params, filters, i);
      if Trim(filters[i].key) != "" && Trim(filters[i].value) != "" {
        params := params + [Param("attr", Printed(filters[i].key, filters[i].value))];
      }
    }
    assert params + [] == params;
  }

  /** buildSearchParams. */
  method BuildSearchParams(t: NumberText, s: SearchState) returns (params: seq<Param>)
    ensures params == Built(t, s)
  {
    var service := Trim(s.service);
    if service == "" {
      return [];
    }
    params := SetFixedParams(t, s, service);
    if s.hasError {
      SetsAtEnd(params, "has_error", "1");
      params := Set(params, "has_error", "1");
    }
    params := AppendFilters(params, s.filters);
  }

  lemma {:induction false} GetFirstAppend(a: seq<Param>, b: seq<Param>, key: string)
    ensures Get(a + b, key) == if Get(a, key).Some? then Get(a, key) else Get(b, key)
  {
    if a == [] {
      assert a + b == b;
    } else {
      assert (a + b)[1..] == a[1..] + b;
      GetFirstAppend(a[1..], b, key);
    }
  }

  lemma {:induction false} GetAllAppend(a: seq<Param>, b: seq<Param>, key: string)
    ensures GetAll(a + b, key) == GetAll(a, key) + GetAll(b, key)
  {
    if a == [] {
      assert a + b == b;
    } else {
      var head := if a[0].key == key then [a[0].value] else [];
      assert (a + b)[1..] == a[1..] + b;
      GetAllAppend(a[1..], b, key);
      assert head + (GetAll(a[1..], key) + GetAll(b, key)) == head + GetAll(a[1..], key) + GetAll(b, key);
    }
  }

  lemma GetAppend(a: seq<Param>, b: seq<Param>, key: string)
    ensures Get(a + b, key) == if Get(a, key).Some? then Get(a, key) else Get(b, key)
    ensures GetAll(a + b, key) == GetAll(a, key) + GetAll(b, key)
  {
    GetFirstAppend(a, b, key);
    GetAllAppend(a, b, key);
  }

  lemma {:induction false} GetAttrs(raw: seq<string>, key: string)
    ensures GetAll(AttrParams(raw), "attr") == raw
    ensures key != "attr" ==> Get(AttrParams(raw), key).None?
  {
    if raw != [] {
      GetAttrs(raw[1..], key);
    }
  }

  /** Parameters are found where they were put. */
  lemma BuiltGet(t: NumberText, s: SearchState, key: string)
    requires !Blank(s.service)
    ensures
      var p, attrs := Built(t, s), AttrParams(PrintedFilters(s.filters));
      Get(p, key) ==
        if key == "service" then Some(Trim(s.service))
        else if key == "startMs" then Some(t.text(s.startMs))
        else if key == "endMs" then Some(t.text(s.endMs))
        else if key == "limit" then Some(t.text(s.limit))
        else if key == "order" then Some(s.order)
        else if key == "has_error" && s.hasError then Some("1")
        else Get(attrs, key)
    ensures key == "attr" ==> GetAll(Built(t, s), key) == PrintedFilters(s.filters)
  {
    var attrs := AttrParams(PrintedFilters(s.filters));
    var error := if s.hasError then [Param("has_error", "1")] else [];
    var a, b := Param("service", Trim(s.service)), Param("startMs", t.text(s.startMs));
    var c, d, e := Param("endMs", t.text(s.endMs)), Param("limit", t.text(s.limit)), Param("order", s.order);
    var rest := error + attrs;
    assert Built(t, s) == [a] + ([b] + ([c] + ([d] + ([e] + rest))));
    GetAppend([a], [b] + ([c] + ([d] + ([e] + rest))), key);
    GetAppend([b], [c] + ([d] + ([e] + rest)), key);
    GetAppend([c], [d] + ([e] + rest), key);
    GetAppend([d], [e] + rest, key);
    GetAppend([e], rest, key);
    GetAppend(error, attrs, key);
    GetAttrs(PrintedFilters(s.filters), key);
  }

  /** What the parser finds under each name in the parameters a state is printed as. */
  lemma BuiltHas(t: NumberText, s: SearchState)
    requires !Blank(s.service)
    ensures
      var p := Built(t, s);
      && Get(p, "service") == Some(Trim(s.service))
      && Get(p, "startMs") == Some(t.text(s.startMs)) && Get(p, "endMs") == Some(t.text(s.endMs))
      && Get(p, "limit") == Some(t.text(s.limit)) && Get(p, "order") == Some(s.order)
      && Get(p, "has_error") == (if s.hasError then Some("1") else None)
      && GetAll(p, "attr") == PrintedFilters(s.filters)
  {
    BuiltGet(t, s, "service");
    BuiltGet(t, s, "startMs");
    BuiltGet(t, s, "endMs");
    BuiltGet(t, s, "limit");
    BuiltGet(t, s, "order");
    BuiltGet(t, s, "has_error");
    BuiltGet(t, s, "attr");
    GetAttrs(PrintedFilters(s.filters), "has_error");
  }

  predicate SameState(a: SearchState, b: SearchState) {
    a.(filters := []) == b.(filters := []) && SamePairs(a.filters, b.filters)
  }

  lemma OrderIsTrimmed(order: string)
    requires order in ORDERS
    ensures Trim(order) == order
  {
  }

  lemma OneIsTrue()
    ensures Lower(Trim("1")) == "1"
  {
  }

  /** What the parser promises of every state it returns. */
  predicate ParsedState(t: NumberText, s: SearchState) {
    && Trimmed(s.service) && s.startMs <= s.endMs && s.limit > 0 && s.order in ORDERS
    && t.holds(s.startMs) && t.holds(s.endMs) && t.holds(s.limit)
    && CleanFilters(s.filters)
  }

  lemma NumbersParsed(t: NumberText, now: int, params: seq<Param>)
    requires Lawful(t) && t.holds(now) && t.holds(now - DEFAULT_RANGE_MS) && t.holds(DEFAULT_LIMIT)
    ensures
      var range, limit := RangeParam(t, now, params), LimitParam(t, params);
      range.0 <= range.1 && limit > 0 && t.holds(range.0) && t.holds(range.1) && t.holds(limit)
  {
  }

  lemma ParseIsParsed(t: NumberText, now: int, params: seq<Param>)
    requires Lawful(t) && t.holds(now) && t.holds(now - DEFAULT_RANGE_MS) && t.holds(DEFAULT_LIMIT)
    ensures ParsedState(t, Parse(t, now, params))
  {
    TrimTrims(Raw(params, "service"));
    NumbersParsed(t, now, params);
    ClientFiltersClean(GetAll(params, "attr"), 0);
  }

  lemma NumbersBack(t: NumberText, s: SearchState, later: int)
    requires Lawful(t) && ParsedState(t, s) && s.service != ""
    ensures RangeParam(t, later, Built(t, s)) == (s.startMs, s.endMs) && LimitParam(t, Built(t, s)) == s.limit
  {
    TrimTrims(s.service);
    BuiltHas(t, s);
  }

  lemma WordsBack(t: NumberText, s: SearchState)
    requires ParsedState(t, s) && s.service != ""
    ensures
      var p := Built(t, s);
      && Trim(Raw(p, "service")) == s.service && OrderParam(p) == s.order && BoolParam(p, "has_error") == s.hasError
      && GetAll(p, "attr") == PrintedFilters(s.filters)
  {
    TrimTrims(s.service);
    BuiltHas(t, s);
    OrderIsTrimmed(s.order);
    OneIsTrue();
  }

  /** A parsed state with a service survives being printed and parsed, whenever that happens; only filter ids change. */
  lemma ParseBuilt(t: NumberText, s: SearchState, later: int)
    requires Lawful(t) && ParsedState(t, s) && s.service != ""
    ensures SameState(Parse(t, later, Built(t, s)), s)
  {
    NumbersBack(t, s, later);
    WordsBack(t, s);
    FiltersBack(s.filters, 0);
  }

  /** The round trip: whatever the URL was, the state read from it survives, if it has a service. */
  lemma UrlRoundTrips(t: NumberText, params: seq<Param>, now: int, later: int)
    requires Lawful(t) && t.holds(now) && t.holds(now - DEFAULT_RANGE_MS) && t.holds(DEFAULT_LIMIT)
    ensures
      var s := Parse(t, now, params);
      s.service != "" ==> SameState(Parse(t, later, Built(t, s)), s)
  {
    ParseIsParsed(t, now, params);
    if Parse(t, now, params).service != "" {
      ParseBuilt(t, Parse(t, now, params), later);
    }
  }

  // ---------------------------------------------------------------- the query as the server gets it

  datatype ClientQuery = ClientQuery(
    service: string, start: int, end: int, limit: int, order: string, filters: seq<UrlFilter>, hasError: bool)

  /** buildTraceQueryParams. */
  function QueryParams(t: NumberText, q: ClientQuery): seq<Param> {
    [Param("service", q.service), Param("start", t.text(q.start)), Param("end", t.text(q.end)),
     Param("limit", t.text(q.limit)), Param("order", q.order)]
    + AttrParams(PrintedFilters(q.filters))
    + (if q.hasError then [Param("has_error", "1")] else [])
  }

  function ServerStatus(raw: string): Option<Option<int>> {
    var trimmed := Lower(Trim(raw));
    if trimmed == "" then Some(None)
    else if trimmed == "unset" then Some(Some(0))
    else if trimmed == "ok" then Some(Some(1))
    else if trimmed == "error" then Some(Some(STATUS_ERROR))
    else None
  }

  function ServerBool(raw: string): Option<bool> {
    var trimmed := Trim(raw);
    if trimmed == "" then Some(false)
    else if trimmed in ["1", "t", "T", "TRUE", "true", "True"] then Some(true)
    else if trimmed in ["0", "f", "F", "FALSE", "false", "False"] then Some(false)
    else None
  }

  function ServerLimit(raw: string): Option<int> {
    if Trim(raw) == "" then Some(DEFAULT_LIMIT)
    else match ParseInt64(Trim(raw))
      case Some(n) => if n <= 0 then None else Some(n)
      case None => None
  }

  function ServerOrder(raw: string): Option<string> {
    if Trim(raw) == "" then Some("start_desc") else if Trim(raw) in ORDERS then Some(Trim(raw)) else None
  }

  /** parseTraceQueryParams; None is a bad request. */
  function ServerQuery(params: seq<Param>): Option<TraceQuery> {
    var service := Trim(Raw(params, "service"));
    var start, end := ParseInt64(Trim(Raw(params, "start"))), ParseInt64(Trim(Raw(params, "end")));
    var limit, filters := ServerLimit(Raw(params, "limit")), ServerFilters(GetAll(params, "attr"));
    var status, hasError := ServerStatus(Raw(params, "status")), ServerBool(Raw(params, "has_error"));
    var order := ServerOrder(Raw(params, "order"));
    if service == "" || start.None? || end.None? || limit.None? || filters.None? || status.None? || hasError.None? then
      None
    else if hasError.value && status.value.Some? && status.value.value != STATUS_ERROR then None
    else if order.None? then None
    else
      Some(TraceQuery(
        service, start.value, end.value, limit.value, order.value, filters.value, status.value, hasError.value))
  }

  /** The limit asked for: 100 unless one is given, which must be positive. */
  ghost predicate LimitAsked(raw: string, limit: int) {
    if Trim(raw) == "" then limit == 100 else ParseInt64(Trim(raw)) == Some(limit) && limit > 0
  }

  ghost predicate OrderAsked(raw: string, order: string) {
    if Trim(raw) == "" then order == "start_desc"
    else order == Trim(raw) && order in ["start_desc", "start_asc", "duration_desc", "duration_asc"]
  }

  ghost predicate StatusAsked(raw: string, status: Option<int>) {
    || (Trim(raw) == "" && status == None)
    || (IgnoringCase(Trim(raw), "unset") && status == Some(0))
    || (IgnoringCase(Trim(raw), "ok") && status == Some(1))
    || (IgnoringCase(Trim(raw), "error") && status == Some(2))
  }

  ghost predicate ErrorAsked(raw: string, yes: bool) {
    if yes then Trim(raw) in ["1", "t", "T", "TRUE", "true", "True"]
    else Trim(raw) in ["", "0", "f", "F", "FALSE", "false", "False"]
  }

  /** What the server takes a list of parameters to ask for. */
  ghost predicate QueryAsked(params: seq<Param>, q: TraceQuery) {
    && q.service == Trim(Raw(params, "service")) && q.service != ""
    && ParseInt64(Trim(Raw(params, "start"))) == Some(q.start) && ParseInt64(Trim(Raw(params, "end"))) == Some(q.end)
    && LimitAsked(Raw(params, "limit"), q.limit) && OrderAsked(Raw(params, "order"), q.order)
    && FiltersAsked(GetAll(params, "attr"), q.filters)
    && StatusAsked(Raw(params, "status"), q.status) && ErrorAsked(Raw(params, "has_error"), q.hasError)
    && (q.hasError ==> q.status == None || q.status == Some(2))
  }

  lemma StatusIsAsked(raw: string, status: Option<int>)
    ensures ServerStatus(raw) == Some(status) <==> StatusAsked(raw, status)
  {
    LowerIs(Trim(raw), "");
    LowerIs(Trim(raw), "unset");
    LowerIs(Trim(raw), "ok");
    LowerIs(Trim(raw), "error");
  }

  lemma LimitIsAsked(raw: string, limit: int)
    ensures ServerLimit(raw) == Some(limit) <==> LimitAsked(raw, limit)
  {
  }

  lemma OrderIsAsked(raw: string, order: string)
    ensures ServerOrder(raw) == Some(order) <==> OrderAsked(raw, order)
  {
  }

  lemma ErrorIsAsked(raw: string, yes: bool)
    ensures ServerBool(raw) == Some(yes) <==> ErrorAsked(raw, yes)
  {
  }

  /** The server takes the parameters to ask for q if and only if they do, and refuses them if they ask for nothing. */
  lemma ServerAnswersAsked(params: seq<Param>, q: TraceQuery)
    ensures ServerQuery(params) == Some(q) <==> QueryAsked(params, q)
  {
    var limit, order := Raw(params, "limit"), Raw(params, "order");
    var status, yes := Raw(params, "status"), Raw(params, "has_error");
    assert ServerQuery(params) == Some(q) <==>
      && q.service == Trim(Raw(params, "service")) && q.service != ""
      && ParseInt64(Trim(Raw(params, "start"))) == Some(q.start) && ParseInt64(Trim(Raw(params, "end"))) == Some(q.end)
      && ServerLimit(limit) == Some(q.limit) && ServerOrder(order) == Some(q.order)
      && ServerFilters(GetAll(params, "attr")) == Some(q.filters)
      && ServerStatus(status) == Some(q.status) && ServerBool(yes) == Some(q.hasError)
      && (q.hasError ==> q.status == None || q.status == Some(2));
    FiltersAreAsked(GetAll(params, "attr"), q.filters);
    LimitIsAsked(limit, q.limit);
    OrderIsAsked(order, q.order);
    StatusIsAsked(status, q.status);
    ErrorIsAsked(yes, q.hasError);
  }

  /** What the server finds under each name. */
  lemma QueryGet(t: NumberText, q: ClientQuery, key: string)
    ensures Get(QueryParams(t, q), key) ==
      if key == "service" then Some(q.service)
      else if key == "start" then Some(t.text(q.start))
      else if key == "end" then Some(t.text(q.end))
      else if key == "limit" then Some(t.text(q.limit))
      else if key == "order" then Some(q.order)
      else if key == "attr" then Get(AttrParams(PrintedFilters(q.filters)), key)
      else if key == "has_error" && q.hasError then Some("1")
      else None
    ensures key == "attr" ==> GetAll(QueryParams(t, q), key) == PrintedFilters(q.filters)
  {
    var attrs := AttrParams(PrintedFilters(q.filters));
    var error := if q.hasError then [Param("has_error", "1")] else [];
    var a, b, c := Param("service", q.service), Param("start", t.text(q.start)), Param("end", t.text(q.end));
    var d, e := Param("limit", t.text(q.limit)), Param("order", q.order);
    var rest := attrs + error;
    assert QueryParams(t, q) == [a] + ([b] + ([c] + ([d] + ([e] + rest))));
    GetAppend([a], [b] + ([c] + ([d] + ([e] + rest))), key);
    GetAppend([b], [c] + ([d] + ([e] + rest)), key);
    GetAppend([c], [d] + ([e] + rest), key);
    GetAppend([d], [e] + rest, key);
    GetAppend([e], rest, key);
    GetAppend(attrs, error, key);
    GetAttrs(PrintedFilters(q.filters), key);
  }

  /** The server's query, from the parts of the client's. */
  lemma ServerQueryIs(t: NumberText, q: ClientQuery)
    requires Lawful(t)
    ensures
      var start, end := ParseInt64(t.text(q.start)), ParseInt64(t.text(q.end));
      var limit, order := ServerLimit(t.text(q.limit)), ServerOrder(q.order);
      var filters := ServerFilters(PrintedFilters(q.filters));
      ServerQuery(QueryParams(t, q)) ==
        if Blank(q.service) || start.None? || end.None? || limit.None? || filters.None? || order.None? then None
        else
          Some(TraceQuery(
            Trim(q.service), start.value, end.value, limit.value, order.value, filters.value, None, q.hasError))
  {
    QueryGet(t, q, "service");
    QueryGet(t, q, "start");
    QueryGet(t, q, "end");
    QueryGet(t, q, "limit");
    QueryGet(t, q, "order");
    QueryGet(t, q, "attr");
    QueryGet(t, q, "has_error");
    QueryGet(t, q, "status");
    TrimTrims("1");
    TrimTrims("");
    TrimTrims(t.text(q.start));
    TrimTrims(t.text(q.end));
    assert Lower("") == "";
    assert "1" in ["1", "t", "T", "TRUE", "true", "True"];
  }

  /** A query whose numbers print as 64-bit decimals and whose keys have no '=' arrives as it was meant. */
  lemma ServerReadsQuery(t: NumberText, q: ClientQuery)
    requires Lawful(t) && !Blank(q.service) && q.order in ORDERS && KeysPlain(q.filters)
    requires ParseInt64(t.text(q.start)).Some? && ParseInt64(t.text(q.end)).Some?
    requires q.limit > 0 && ParseInt64(t.text(q.limit)) == Some(q.limit)
    ensures ServerQuery(QueryParams(t, q)) == Some(TraceQuery(
      Trim(q.service), ParseInt64(t.text(q.start)).value, ParseInt64(t.text(q.end)).value, q.limit, q.order,
      Meant(q.filters), None, q.hasError))
  {
    ServerQueryIs(t, q);
    ServerReadsMeant(q.filters);
    OrderIsTrimmed(q.order);
    TrimTrims(t.text(q.limit));
  }
}
