/**
 sort.Sort as its callers use it: some permutation in order. Under a strict total order there
 is only one, so it does not matter which algorithm finds it.
 */
module Sorting {

  ghost predicate StrictTotal<T(!new)>(less: (T, T) -> bool) {
    && (forall x :: !less(x, x))
    && (forall x, y :: less(x, y) || less(y, x) || x == y)
    && (forall x, y, z :: less(x, y) && less(y, z) ==> less(x, z))
  }

  predicate Ordered<T>(xs: seq<T>, less: (T, T) -> bool) {
    forall i, j | 0 <= i < j < |xs| :: !less(xs[j], xs[i])
  }

  function Insert<T>(x: T, xs: seq<T>, less: (T, T) -> bool): (r: seq<T>)
    ensures multiset(r) == multiset(xs) + multiset{x}
  {
    if xs == [] then [x]
    else if less(xs[0], x) then
      assert xs == [xs[0]] + xs[1..];
      [xs[0]] + Insert(x, xs[1..], less)
    else [x] + xs
  }

  function Sort<T>(xs: seq<T>, less: (T, T) -> bool): (r: seq<T>)
    ensures multiset(r) == multiset(xs)
    ensures |r| == |xs|
  {
    if xs == [] then []
    else
      assert xs == [xs[0]] + xs[1..];
      var r := Insert(xs[0], Sort(xs[1..], less), less);
      assert |r| == |multiset(r)| == |multiset(xs)| == |xs|;
      r
  }

  lemma {:induction false} InsertOrdered<T(!new)>(x: T, xs: seq<T>, less: (T, T) -> bool)
    requires StrictTotal(less) && Ordered(xs, less)
    ensures Ordered(Insert(x, xs, less), less)
  {
    if xs != [] && less(xs[0], x) {
      InsertOrdered(x, xs[1..], less);
      var r := Insert(x, xs[1..], less);
      forall k | 0 <= k < |r| ensures !less(r[k], xs[0]) {
        assert r[k] in multiset(r);
        assert r[k] == x || r[k] in xs[1..];
      }
    }
  }

  lemma {:induction false} SortOrdered<T(!new)>(xs: seq<T>, less: (T, T) -> bool)
    requires StrictTotal(less)
    ensures Ordered(Sort(xs, less), less)
  {
    if xs != [] {
      SortOrdered(xs[1..], less);
      InsertOrdered(xs[0], Sort(xs[1..], less), less);
    }
  }

  lemma LeastFirst<T(!new)>(xs: seq<T>, less: (T, T) -> bool, x: T)
    requires StrictTotal(less) && Ordered(xs, less) && x in xs
    ensures !less(x, xs[0])
  {
    var i :| 0 <= i < |xs| && xs[i] == x;
  }

  lemma SameFirst<T(!new)>(xs: seq<T>, ys: seq<T>, less: (T, T) -> bool)
    requires StrictTotal(less) && Ordered(xs, less) && Ordered(ys, less)
    requires xs != [] && ys != [] && multiset(xs) == multiset(ys)
    ensures xs[0] == ys[0]
  {
    hide Ordered;
    assert xs[0] in multiset(ys) && ys[0] in multiset(xs);
    LeastFirst(xs, less, ys[0]);
    LeastFirst(ys, less, xs[0]);
  }

  lemma TailOrdered<T>(xs: seq<T>, less: (T, T) -> bool)
    requires xs != [] && Ordered(xs, less)
    ensures Ordered(xs[1..], less) && multiset(xs[1..]) == multiset(xs) - multiset{xs[0]}
  {
    assert xs == [xs[0]] + xs[1..];
  }

  /** Any two ordered permutations of the same elements are the same list. */
  lemma {:induction false} OrderedIsUnique<T(!new)>(xs: seq<T>, ys: seq<T>, less: (T, T) -> bool)
    requires StrictTotal(less)
    requires multiset(xs) == multiset(ys) && Ordered(xs, less) && Ordered(ys, less)
    ensures xs == ys
    decreases |xs|
  {
    hide Ordered, StrictTotal;
    assert |xs| == |multiset(xs)| == |multiset(ys)| == |ys|;
    if xs != [] {
      SameFirst(xs, ys, less);
      TailOrdered(xs, less);
      TailOrdered(ys, less);
      OrderedIsUnique(xs[1..], ys[1..], less);
      assert xs == [xs[0]] + xs[1..] && ys == [ys[0]] + ys[1..];
    }
  }

  ghost predicate TheOnlyOne<T(!new)>(xs: seq<T>, sorted: seq<T>, less: (T, T) -> bool) {
    forall other :: multiset(other) == multiset(xs) && Ordered(other, less) ==> other == sorted
  }

  /** So sort.Sort leaves the one ordered permutation there is, whatever it does inside. */
  method SortBy<T(!new)>(xs: seq<T>, less: (T, T) -> bool) returns (sorted: seq<T>)
    requires StrictTotal(less)
    ensures multiset(sorted) == multiset(xs) && Ordered(sorted, less)
    ensures TheOnlyOne(xs, sorted, less)
  {
    sorted := Sort(xs, less);
    SortOrdered(xs, less);
    forall other | multiset(other) == multiset(xs) && Ordered(other, less) ensures other == sorted {
      OrderedIsUnique(other, sorted, less);
    }
  }
}
