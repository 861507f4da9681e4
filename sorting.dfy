/**
 * The collection steps the routes chain together: `[...new Set(xs)]`
 * (distinct elements, first occurrence first) and `Array.prototype.sort`
 * with a comparator, modelled as a stable insertion sort. `before(a, b)`
 * holds when the comparator puts `a` strictly ahead of `b`.
 */
module Sorting {
  /** What a comparator that is consistent gives: a strict order. */
  ghost predicate StrictOrder<T(!new)>(before: (T, T) -> bool) {
    (forall a :: !before(a, a)) &&
    (forall a, b, c :: before(a, b) && before(b, c) ==> before(a, c))
  }

  /** No later element belongs strictly ahead of an earlier one. */
  ghost predicate Sorted<T>(s: seq<T>, before: (T, T) -> bool) {
    forall i, j :: 0 <= i < j < |s| ==> !before(s[j], s[i])
  }

  predicate NoDuplicates<T(==)>(s: seq<T>) {
    forall i, j :: 0 <= i < j < |s| ==> s[i] != s[j]
  }

  /** Insert `x` after every element it does not belong ahead of. */
  function Insert<T>(x: T, s: seq<T>, before: (T, T) -> bool): (r: seq<T>)
    ensures multiset(r) == multiset(s) + multiset{x}
  {
    if s == [] then [x]
    else if before(x, s[0]) then [x] + s
    else
      assert s == [s[0]] + s[1..];
      [s[0]] + Insert(x, s[1..], before)
  }

  /** Stable sort: each element is inserted after the equal ones already placed. */
  function Sort<T>(xs: seq<T>, before: (T, T) -> bool): (r: seq<T>)
    ensures multiset(r) == multiset(xs)
  {
    if xs == [] then []
    else
      assert xs == xs[..|xs| - 1] + [xs[|xs| - 1]];
      Insert(xs[|xs| - 1], Sort(xs[..|xs| - 1], before), before)
  }

  lemma {:induction false} InsertSorted<T(!new)>(x: T, s: seq<T>, before: (T, T) -> bool)
    requires StrictOrder(before) && Sorted(s, before)
    ensures Sorted(Insert(x, s, before), before)
  {
    if s != [] && !before(x, s[0]) {
      InsertSorted(x, s[1..], before);
      var r := Insert(x, s[1..], before);
      forall e | e in multiset(r)
        ensures !before(e, s[0])
      {
        assert e in multiset(s[1..]) || e == x;
        if e in multiset(s[1..]) {
          var j :| 0 <= j < |s[1..]| && s[1..][j] == e;
          assert s[j + 1] == e;
        }
      }
      forall j | 0 < j < |[s[0]] + r|
        ensures !before(([s[0]] + r)[j], s[0])
      {
        assert ([s[0]] + r)[j] == r[j - 1];
        assert r[j - 1] in multiset(r);
      }
    }
  }

  /** The output is in comparator order and is a permutation of the input. */
  lemma {:induction false} SortSorted<T(!new)>(xs: seq<T>, before: (T, T) -> bool)
    requires StrictOrder(before)
    ensures Sorted(Sort(xs, before), before)
    ensures multiset(Sort(xs, before)) == multiset(xs)
  {
    if xs != [] {
      SortSorted(xs[..|xs| - 1], before);
      InsertSorted(xs[|xs| - 1], Sort(xs[..|xs| - 1], before), before);
    }
  }

  /** Sorting keeps exactly the elements it was given. */
  lemma SortMembers<T>(xs: seq<T>, before: (T, T) -> bool)
    ensures forall x :: x in Sort(xs, before) <==> x in xs
  {
    var r := Sort(xs, before);
    forall x ensures x in r <==> x in xs {
      assert x in r <==> x in multiset(r);
      assert x in xs <==> x in multiset(xs);
    }
  }

  lemma MultisetNoDuplicates<T>(a: seq<T>, b: seq<T>)
    requires multiset(a) == multiset(b) && NoDuplicates(a)
    ensures NoDuplicates(b)
  {
    forall i, j | 0 <= i < j < |b|
      ensures b[i] != b[j]
    {
      AtMostOnce(a, b[i]);
      CountTwo(b, i, j);
    }
  }

  lemma CountTwo<T>(b: seq<T>, i: int, j: int)
    requires 0 <= i < j < |b|
    ensures b[i] == b[j] ==> multiset(b)[b[i]] >= 2
  {
    assert b == b[..i] + [b[i]] + b[i + 1..j] + [b[j]] + b[j + 1..];
  }

  lemma {:induction false} AtMostOnce<T>(a: seq<T>, x: T)
    requires NoDuplicates(a)
    ensures multiset(a)[x] <= 1
  {
    if a != [] {
      assert a == [a[0]] + a[1..];
      AtMostOnce(a[1..], x);
      if a[0] == x {
        assert x !in a[1..];
      }
    }
  }

  /** `[...new Set(xs)]`: each distinct element once, in order of first occurrence. */
  function Dedup<T(==)>(xs: seq<T>): (r: seq<T>)
    ensures NoDuplicates(r)
    ensures forall i :: 0 <= i < |r| ==> r[i] in xs
    ensures forall i :: 0 <= i < |xs| ==> xs[i] in r
    ensures |r| <= |xs|
  {
    if xs == [] then []
    else
      var r := Dedup(xs[..|xs| - 1]);
      var x := xs[|xs| - 1];
      assert forall i :: 0 <= i < |xs| - 1 ==> xs[i] == xs[..|xs| - 1][i];
      if x in r then r else r + [x]
  }

  /** An element's position in a sequence without duplicates. */
  lemma DistinctElements<T>(r: seq<T>)
    requires NoDuplicates(r)
    ensures |set x | x in r| == |r|
    decreases |r|
  {
    if r != [] {
      var init := r[..|r| - 1];
      DistinctElements(init);
      assert (set x | x in r) == (set x | x in init) + {r[|r| - 1]} by {
        assert r == init + [r[|r| - 1]];
      }
      assert r[|r| - 1] !in init;
    }
  }
}
