/**
 Sorting by a comparator, as the library calls of the source promise it: `sort.Slice` gives some
 sorted permutation, `Array.prototype.sort` the stable one. Both promise order only for a
 comparator that is a total preorder on the elements.
 */
module Sorting {

  /** The comparator ranks the elements of `xs` consistently. */
  ghost predicate PreorderOn<T(!new)>(cmp: (T, T) -> int, xs: seq<T>) {
    && (forall a, b :: a in xs && b in xs ==> (cmp(a, b) > 0 <==> cmp(b, a) < 0))
    && (forall a, b, c :: a in xs && b in xs && c in xs && cmp(a, b) <= 0 && cmp(b, c) <= 0 ==> cmp(a, c) <= 0)
  }

  ghost predicate Sorted<T>(cmp: (T, T) -> int, xs: seq<T>) {
    forall i, j :: 0 <= i < j < |xs| ==> cmp(xs[i], xs[j]) <= 0
  }

  /** Puts `x` behind every element it does not precede, scanning from the right. */
  function Insert<T>(cmp: (T, T) -> int, xs: seq<T>, x: T): seq<T> {
    if xs == [] || cmp(xs[|xs| - 1], x) <= 0 then xs + [x]
    else Insert(cmp, xs[..|xs| - 1], x) + [xs[|xs| - 1]]
  }

  function StableSort<T>(cmp: (T, T) -> int, xs: seq<T>): seq<T> {
    if xs == [] then [] else Insert(cmp, StableSort(cmp, xs[..|xs| - 1]), xs[|xs| - 1])
  }

  /** The elements ranked level with `k`, in order. */
  function Level<T>(cmp: (T, T) -> int, k: T, xs: seq<T>): seq<T> {
    if xs == [] then []
    else Level(cmp, k, xs[..|xs| - 1]) + if cmp(xs[|xs| - 1], k) == 0 then [xs[|xs| - 1]] else []
  }

  lemma {:induction false} InsertPermutes<T>(cmp: (T, T) -> int, xs: seq<T>, x: T)
    ensures multiset(Insert(cmp, xs, x)) == multiset(xs) + multiset{x}
    decreases |xs|
  {
    if xs == [] || cmp(xs[|xs| - 1], x) <= 0 {
    } else {
      InsertPermutes(cmp, xs[..|xs| - 1], x);
      assert xs == xs[..|xs| - 1] + [xs[|xs| - 1]];
    }
  }

  lemma {:induction false} StableSortPermutes<T>(cmp: (T, T) -> int, xs: seq<T>)
    ensures multiset(StableSort(cmp, xs)) == multiset(xs)
    ensures |StableSort(cmp, xs)| == |xs|
    decreases |xs|
  {
    if xs == [] {
    } else {
      StableSortPermutes(cmp, xs[..|xs| - 1]);
      InsertPermutes(cmp, StableSort(cmp, xs[..|xs| - 1]), xs[|xs| - 1]);
      assert xs == xs[..|xs| - 1] + [xs[|xs| - 1]];
    }
    assert |multiset(StableSort(cmp, xs))| == |multiset(xs)|;
  }

  lemma {:induction false} SameElements<T>(xs: seq<T>, ys: seq<T>)
    requires multiset(xs) == multiset(ys)
    ensures forall x :: x in xs <==> x in ys
  {
    forall x ensures x in xs <==> x in ys {
      assert x in xs <==> x in multiset(xs);
      assert x in ys <==> x in multiset(ys);
    }
  }

  /** Appending an element that the last one does not exceed. */
  lemma {:induction false} SortedSnoc<T(!new)>(cmp: (T, T) -> int, xs: seq<T>, x: T, all: seq<T>)
    requires PreorderOn(cmp, all) && x in all && (forall y :: y in xs ==> y in all)
    requires Sorted(cmp, xs) && (xs != [] ==> cmp(xs[|xs| - 1], x) <= 0)
    ensures Sorted(cmp, xs + [x])
  {
    forall i | 0 <= i < |xs|
      ensures cmp(xs[i], x) <= 0
    {
      assert xs[i] in all && xs[|xs| - 1] in all;
      if i < |xs| - 1 { assert cmp(xs[i], xs[|xs| - 1]) <= 0; }
    }
  }

  lemma {:induction false} SortedFront<T(!new)>(cmp: (T, T) -> int, xs: seq<T>)
    requires xs != [] && Sorted(cmp, xs)
    ensures Sorted(cmp, xs[..|xs| - 1])
    ensures var init, last := xs[..|xs| - 1], xs[|xs| - 1]; forall y :: y in init ==> cmp(y, last) <= 0
  {}

  lemma {:induction false} AllBelow<T(!new)>(cmp: (T, T) -> int, xs: seq<T>, top: T)
    requires Sorted(cmp, xs) && forall y :: y in xs ==> cmp(y, top) <= 0
    ensures Sorted(cmp, xs + [top])
  {
    forall i | 0 <= i < |xs|
      ensures cmp(xs[i], top) <= 0
    {
      assert xs[i] in xs;
    }
  }

  lemma {:induction false} InsertSorts<T(!new)>(cmp: (T, T) -> int, xs: seq<T>, x: T, all: seq<T>)
    requires PreorderOn(cmp, all) && x in all && (forall y :: y in xs ==> y in all)
    requires Sorted(cmp, xs)
    ensures Sorted(cmp, Insert(cmp, xs, x))
    decreases |xs|
  {
    if xs == [] || cmp(xs[|xs| - 1], x) <= 0 {
      SortedSnoc(cmp, xs, x, all);
    } else {
      var init, last := xs[..|xs| - 1], xs[|xs| - 1];
      SortedFront(cmp, xs);
      InsertSorts(cmp, init, x, all);
      InsertPermutes(cmp, init, x);
      SameElements(Insert(cmp, init, x), init + [x]);
      assert last in xs;
      assert forall y :: y in init + [x] ==> y in init || y == x;
      AllBelow(cmp, Insert(cmp, init, x), last);
    }
  }

  lemma {:induction false} StableSortSorts<T(!new)>(cmp: (T, T) -> int, xs: seq<T>, all: seq<T>)
    requires PreorderOn(cmp, all) && forall y :: y in xs ==> y in all
    ensures Sorted(cmp, StableSort(cmp, xs))
    decreases |xs|
  {
    if xs == [] {
    } else {
      var init := xs[..|xs| - 1];
      StableSortSorts(cmp, init, all);
      StableSortPermutes(cmp, init);
      SameElements(StableSort(cmp, init), init);
      InsertSorts(cmp, StableSort(cmp, init), xs[|xs| - 1], all);
    }
  }

  lemma {:induction false} InsertKeepsLevel<T(!new)>(cmp: (T, T) -> int, xs: seq<T>, x: T, k: T, all: seq<T>)
    requires PreorderOn(cmp, all) && x in all && k in all && (forall y :: y in xs ==> y in all)
    ensures Level(cmp, k, Insert(cmp, xs, x)) == Level(cmp, k, xs + [x])
    decreases |xs|
  {
    assert (xs + [x])[..|xs|] == xs;
    if xs == [] || cmp(xs[|xs| - 1], x) <= 0 {
    } else {
      var init, last := xs[..|xs| - 1], xs[|xs| - 1];
      InsertKeepsLevel(cmp, init, x, k, all);
      assert (init + [x])[..|init|] == init;
      var r := Insert(cmp, init, x) + [last];
      assert r[..|r| - 1] == Insert(cmp, init, x);
      assert last in all;
      assert !(cmp(last, k) == 0 && cmp(x, k) == 0);
    }
  }

  /** Elements of equal rank keep their order. */
  lemma {:induction false} StableSortKeepsLevels<T(!new)>(cmp: (T, T) -> int, xs: seq<T>, k: T, all: seq<T>)
    requires PreorderOn(cmp, all) && k in all && forall y :: y in xs ==> y in all
    ensures Level(cmp, k, StableSort(cmp, xs)) == Level(cmp, k, xs)
    decreases |xs|
  {
    if xs == [] {
    } else {
      var init, x := xs[..|xs| - 1], xs[|xs| - 1];
      StableSortKeepsLevels(cmp, init, k, all);
      StableSortPermutes(cmp, init);
      SameElements(StableSort(cmp, init), init);
      InsertKeepsLevel(cmp, StableSort(cmp, init), x, k, all);
      assert (StableSort(cmp, init) + [x])[..|init|] == StableSort(cmp, init);
    }
  }

  /**
   `sort.Slice`: sorts in place. Callers may rely on what its documentation promises and no more:
   a permutation, and the order if the comparator is consistent on the elements.
   */
  method SortSlice<T(!new)>(a: array<T>, cmp: (T, T) -> int)
    modifies a
    ensures multiset(a[..]) == multiset(old(a[..]))
    ensures PreorderOn(cmp, old(a[..])) ==> Sorted(cmp, a[..])
  {
    var sorted := StableSort(cmp, a[..]);
    StableSortPermutes(cmp, a[..]);
    if PreorderOn(cmp, a[..]) {
      StableSortSorts(cmp, a[..], a[..]);
    }
    forall i | 0 <= i < a.Length {
      a[i] := sorted[i];
    }
    assert a[..] == sorted;
  }
}
