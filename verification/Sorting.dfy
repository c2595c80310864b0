/** Insertion sort: the reference for the library sorts, with what a stable sort promises. */
module Sorting {
  import opened Seqs

  ghost predicate TotalOn<T>(le: (T, T) -> bool, s: seq<T>) {
    && (forall x, y | x in s && y in s :: le(x, y) || le(y, x))
    && (forall x, y, z | x in s && y in s && z in s && le(x, y) && le(y, z) :: le(x, z))
  }

  ghost predicate Sorted<T>(le: (T, T) -> bool, s: seq<T>) {
    forall i, j | 0 <= i < j < |s| :: le(s[i], s[j])
  }

  function Insert<T>(le: (T, T) -> bool, x: T, s: seq<T>): seq<T> {
    if s == [] then [x]
    else if le(x, s[0]) then [x] + s
    else [s[0]] + Insert(le, x, s[1..])
  }

  /** An element goes before the later elements it ties with, so the sort is stable. */
  function Sort<T>(le: (T, T) -> bool, s: seq<T>): seq<T> {
    if s == [] then [] else Insert(le, s[0], Sort(le, s[1..]))
  }

  lemma {:induction false} InsertPermutes<T>(le: (T, T) -> bool, x: T, s: seq<T>)
    ensures multiset(Insert(le, x, s)) == multiset{x} + multiset(s)
    ensures |Insert(le, x, s)| == |s| + 1
  {
    if s != [] {
      InsertPermutes(le, x, s[1..]);
      assert s == [s[0]] + s[1..];
    }
  }

  lemma {:induction false} SortPermutes<T>(le: (T, T) -> bool, s: seq<T>)
    ensures multiset(Sort(le, s)) == multiset(s)
    ensures |Sort(le, s)| == |s|
  {
    if s != [] {
      SortPermutes(le, s[1..]);
      InsertPermutes(le, s[0], Sort(le, s[1..]));
      assert s == [s[0]] + s[1..];
    }
  }

  lemma SortMember<T>(le: (T, T) -> bool, s: seq<T>, x: T)
    ensures x in Sort(le, s) <==> x in s
  {
    SortPermutes(le, s);
    assert x in multiset(Sort(le, s)) <==> x in multiset(s);
  }

  lemma {:induction false} InsertSorts<T>(le: (T, T) -> bool, x: T, s: seq<T>)
    requires Sorted(le, s) && TotalOn(le, [x] + s)
    ensures Sorted(le, Insert(le, x, s))
  {
    assert forall y | y in s :: y in [x] + s;
    assert x in [x] + s;
    if s != [] && !le(x, s[0]) {
      var rest := Insert(le, x, s[1..]);
      assert forall y | y in [x] + s[1..] :: y in [x] + s;
      InsertSorts(le, x, s[1..]);
      InsertPermutes(le, x, s[1..]);
      forall j | 0 <= j < |rest| ensures le(s[0], rest[j]) {
        assert rest[j] in multiset(rest);
        assert rest[j] == x || rest[j] in s[1..];
      }
    } else if s != [] {
      assert le(x, s[0]);
    }
  }

  lemma {:induction false} SortSorts<T>(le: (T, T) -> bool, s: seq<T>)
    requires TotalOn(le, s)
    ensures Sorted(le, Sort(le, s))
  {
    if s != [] {
      assert forall y | y in s[1..] :: y in s;
      SortSorts(le, s[1..]);
      forall y | y in [s[0]] + Sort(le, s[1..]) ensures y in s {
        SortMember(le, s[1..], y);
      }
      InsertSorts(le, s[0], Sort(le, s[1..]));
    }
  }

  /** Sorting a sorted sequence changes nothing. */
  lemma {:induction false} SortedIsFixed<T>(le: (T, T) -> bool, s: seq<T>)
    requires Sorted(le, s)
    ensures Sort(le, s) == s
  {
    if s != [] {
      SortedIsFixed(le, s[1..]);
      assert s == [s[0]] + s[1..];
      if |s| > 1 {
        assert le(s[0], s[1]);
      }
    }
  }

  /** Elements that tie with v keep their relative order. */
  lemma {:induction false} InsertStable<T>(le: (T, T) -> bool, ties: T -> bool, x: T, s: seq<T>)
    requires forall y | y in s && ties(x) && ties(y) :: le(x, y)
    ensures Filter(ties, Insert(le, x, s)) == Filter(ties, [x] + s)
  {
    if s != [] && !le(x, s[0]) {
      InsertStable(le, ties, x, s[1..]);
      var rest := Insert(le, x, s[1..]);
      assert s[0] in s;
      assert ([s[0]] + rest)[1..] == rest;
      assert ([x] + s)[1..] == s && ([x] + s[1..])[1..] == s[1..];
    }
  }

  lemma {:induction false} SortStable<T>(le: (T, T) -> bool, ties: T -> bool, s: seq<T>)
    requires forall x, y | x in s && y in s && ties(x) && ties(y) :: le(x, y)
    ensures Filter(ties, Sort(le, s)) == Filter(ties, s)
  {
    if s != [] {
      var rest := Sort(le, s[1..]);
      SortStable(le, ties, s[1..]);
      forall y | y in rest ensures y in s {
        SortMember(le, s[1..], y);
      }
      InsertStable(le, ties, s[0], rest);
      assert ([s[0]] + rest)[1..] == rest;
    }
  }
}
