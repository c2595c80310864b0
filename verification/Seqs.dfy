/** Facts about sequences shared by the models: weighted totals, distinctness, filtering. */
module Seqs {

  datatype Option<+T> = None | Some(value: T)

  /** The sum of the weights of the elements of s. */
  function Total<T>(weight: T -> nat, s: seq<T>): nat {
    if s == [] then 0 else weight(s[0]) + Total(weight, s[1..])
  }

  lemma {:induction false} TotalUpdate<T>(weight: T -> nat, s: seq<T>, i: nat, x: T)
    requires i < |s|
    ensures Total(weight, s[i := x]) + weight(s[i]) == Total(weight, s) + weight(x)
  {
    if i == 0 {
      assert s[i := x][1..] == s[1..];
    } else {
      TotalUpdate(weight, s[1..], i - 1, x);
      assert s[i := x][1..] == s[1..][i - 1 := x];
    }
  }

  lemma {:induction false} TotalPositive<T>(weight: T -> nat, s: seq<T>) returns (i: nat)
    requires Total(weight, s) > 0
    ensures i < |s| && weight(s[i]) > 0
  {
    if weight(s[0]) > 0 {
      i := 0;
    } else {
      i := TotalPositive(weight, s[1..]);
      i := i + 1;
    }
  }

  lemma SliceOfSlice<T>(s: seq<T>, a: nat, b: nat, c: nat, d: nat)
    requires a <= b <= |s| && c <= d <= b - a
    ensures s[a..b][c..d] == s[a + c..a + d]
  {
    forall i | 0 <= i < d - c ensures s[a..b][c..d][i] == s[a + c..a + d][i] {
      assert s[a..b][c..d][i] == s[a..b][c + i] == s[a + c + i];
    }
    assert s[a..b][c..d] == s[a + c..a + d];
  }

  ghost predicate NoDup<T>(s: seq<T>) {
    forall i, j | 0 <= i < j < |s| :: s[i] != s[j]
  }

  /** The elements of s that satisfy keep, in order. */
  function Filter<T>(keep: T -> bool, s: seq<T>): (r: seq<T>) {
    if s == [] then []
    else if keep(s[0]) then [s[0]] + Filter(keep, s[1..])
    else Filter(keep, s[1..])
  }

  lemma {:induction false} FilterAppend<T>(keep: T -> bool, a: seq<T>, b: seq<T>)
    ensures Filter(keep, a + b) == Filter(keep, a) + Filter(keep, b)
  {
    if a == [] {
      assert a + b == b;
    } else {
      FilterAppend(keep, a[1..], b);
      assert (a + b)[1..] == a[1..] + b;
    }
  }

  lemma {:induction false} FilterMultiset<T>(keep: T -> bool, s: seq<T>, x: T)
    ensures multiset(Filter(keep, s))[x] == if keep(x) then multiset(s)[x] else 0
  {
    if s != [] {
      assert s == [s[0]] + s[1..];
      FilterMultiset(keep, s[1..], x);
    }
  }

  lemma FilterMember<T>(keep: T -> bool, s: seq<T>, x: T)
    ensures x in Filter(keep, s) <==> x in s && keep(x)
  {
  }

  lemma TailMultiset<T>(s: seq<T>)
    requires s != []
    ensures multiset(s[1..]) == multiset(s) - multiset{s[0]}
  {
    assert s == [s[0]] + s[1..];
  }

  /** Taking out one occurrence of the first element of a leaves b a permutation of the rest of a. */
  lemma TakeOut<T>(a: seq<T>, b: seq<T>) returns (j: nat)
    requires multiset(a) == multiset(b) && a != []
    ensures j < |b| && b[j] == a[0]
    ensures b == b[..j] + [a[0]] + b[j + 1..]
    ensures multiset(a[1..]) == multiset(b[..j] + b[j + 1..])
  {
    assert a == [a[0]] + a[1..];
    assert a[0] in multiset(b);
    j :| 0 <= j < |b| && b[j] == a[0];
    assert b == b[..j] + [a[0]] + b[j + 1..];
    TailMultiset(a);
    assert multiset(b) == multiset(b[..j]) + multiset{a[0]} + multiset(b[j + 1..]);
    assert multiset(b[..j] + b[j + 1..]) == multiset(b) - multiset{a[0]};
  }

  /** A place taken out of a list may be put first in what is left of it, in any order. */
  lemma PutFirst<T>(s: seq<T>, j: nat, rest: seq<T>)
    requires j < |s| && multiset(rest) == multiset(s[..j] + s[j + 1..])
    ensures multiset([s[j]] + rest) == multiset(s)
  {
    assert s == s[..j] + [s[j]] + s[j + 1..];
  }

  lemma {:induction false} FilterPermutes<T>(keep: T -> bool, a: seq<T>, b: seq<T>)
    requires multiset(a) == multiset(b)
    ensures multiset(Filter(keep, a)) == multiset(Filter(keep, b))
    decreases |a|
  {
    if a == [] {
      assert |multiset(b)| == 0;
      assert b == [];
    } else {
      var j := TakeOut(a, b);
      FilterPermutes(keep, a[1..], b[..j] + b[j + 1..]);
      FilterAppend(keep, b[..j], b[j + 1..]);
      FilterAppend(keep, b[..j] + [a[0]], b[j + 1..]);
      FilterAppend(keep, b[..j], [a[0]]);
    }
  }

  /** Distinct elements occur once in the multiset, and conversely. */
  lemma {:induction false} NoDupCounts<T>(s: seq<T>)
    ensures NoDup(s) <==> forall x :: multiset(s)[x] <= 1
  {
    if s != [] {
      NoDupCounts(s[1..]);
      assert s == [s[0]] + s[1..];
      if NoDup(s) {
        assert NoDup(s[1..]);
        assert s[0] !in s[1..];
      }
      if forall x :: multiset(s)[x] <= 1 {
        forall x ensures multiset(s[1..])[x] <= 1 {
          assert multiset(s)[x] <= 1;
        }
        assert multiset(s)[s[0]] == 1 + multiset(s[1..])[s[0]];
      }
    }
  }

  /** Two lists without repetitions that have the same members are permutations of each other. */
  lemma NoDupPermutes<T>(a: seq<T>, b: seq<T>)
    requires NoDup(a) && NoDup(b)
    requires forall x :: x in a <==> x in b
    ensures multiset(a) == multiset(b)
  {
    NoDupCounts(a);
    NoDupCounts(b);
    forall x ensures multiset(a)[x] == multiset(b)[x] {
      assert x in a <==> x in multiset(a);
      assert x in b <==> x in multiset(b);
    }
  }

  lemma FilterNoDup<T>(keep: T -> bool, s: seq<T>)
    requires NoDup(s)
    ensures NoDup(Filter(keep, s))
  {
    NoDupCounts(s);
    forall x ensures multiset(Filter(keep, s))[x] <= 1 {
      FilterMultiset(keep, s, x);
    }
    NoDupCounts(Filter(keep, s));
  }
}
