/** Sorting by a strict order: what a sort promises, and that the order leaves it no choice. */
module Sorting {

  /** `less` is a strict total order on the elements of `xs`. */
  ghost predicate StrictOrder<T(!new)>(less: (T, T) -> bool, xs: seq<T>) {
    && (forall x :: x in xs ==> !less(x, x))
    && (forall x, y {:trigger less(x, y)} :: x in xs && y in xs && x != y ==> (less(x, y) || less(y, x)) && !(less(x, y) && less(y, x)))
    && (forall x, y, z {:trigger less(x, y), less(y, z)} :: x in xs && y in xs && z in xs && less(x, y) && less(y, z) ==> less(x, z))
  }

  ghost predicate Sorted<T(!new)>(less: (T, T) -> bool, xs: seq<T>) {
    forall i, j :: 0 <= i < j < |xs| ==> less(xs[i], xs[j])
  }

  ghost predicate Distinct<T(!new)>(xs: seq<T>) {
    forall i, j :: 0 <= i < j < |xs| ==> xs[i] != xs[j]
  }

  ghost predicate SameElements<T(!new)>(xs: seq<T>, ys: seq<T>) {
    |xs| == |ys| && forall x :: x in xs <==> x in ys
  }

  lemma LeastFirst<T(!new)>(less: (T, T) -> bool, xs: seq<T>, z: T)
    requires Sorted(less, xs) && z in xs
    ensures z == xs[0] || (less(xs[0], z) && z in xs[1..])
  {
    var i :| 0 <= i < |xs| && xs[i] == z;
    if i > 0 {
      assert less(xs[0], xs[i]) && xs[1..][i - 1] == z;
    }
  }

  /** Two sorted arrangements of the same elements are the same. */
  lemma {:induction false} SortIsUnique<T(!new)>(less: (T, T) -> bool, xs: seq<T>, ys: seq<T>)
    requires StrictOrder(less, xs) && SameElements(xs, ys)
    requires Sorted(less, xs) && Sorted(less, ys)
    ensures xs == ys
    decreases |xs|
  {
    if xs != [] {
      assert xs[0] in ys && ys[0] in xs;
      LeastFirst(less, xs, ys[0]);
      LeastFirst(less, ys, xs[0]);
      assert xs[0] == ys[0];
      forall z ensures z in xs[1..] <==> z in ys[1..] {
        if z in xs[1..] {
          var j :| 1 <= j < |xs| && xs[j] == z;
          assert less(xs[0], xs[j]) && z in ys;
          LeastFirst(less, ys, z);
        }
        if z in ys[1..] {
          var j :| 1 <= j < |ys| && ys[j] == z;
          assert less(ys[0], ys[j]) && z in xs;
          LeastFirst(less, xs, z);
        }
      }
      SortIsUnique(less, xs[1..], ys[1..]);
    }
  }

  /** Different elements that all occur in a sequence are not more than its elements. */
  lemma {:induction false} NotMore<T(!new)>(xs: seq<T>, ys: seq<T>)
    requires Distinct(xs) && forall x :: x in xs ==> x in ys
    ensures |xs| <= |ys|
    decreases |xs|
  {
    if xs != [] {
      assert xs[0] in ys;
      var i :| 0 <= i < |ys| && ys[i] == xs[0];
      var rest := ys[..i] + ys[i + 1..];
      forall x | x in xs[1..] ensures x in rest {
        var k :| 1 <= k < |xs| && xs[k] == x;
        assert xs[0] != xs[k] && x in ys;
        var j :| 0 <= j < |ys| && ys[j] == x;
        assert x == rest[if j < i then j else j - 1];
      }
      NotMore(xs[1..], rest);
    }
  }

  lemma SameCount<T(!new)>(xs: seq<T>, ys: seq<T>)
    requires Distinct(xs) && Distinct(ys) && forall x :: x in xs <==> x in ys
    ensures |xs| == |ys|
  {
    NotMore(xs, ys);
    NotMore(ys, xs);
  }

  lemma SortIsDistinct<T(!new)>(less: (T, T) -> bool, xs: seq<T>, ys: seq<T>)
    requires StrictOrder(less, xs) && SameElements(ys, xs) && Sorted(less, ys)
    ensures Distinct(ys)
  {
  }

  lemma SameAsItself<T(!new)>(xs: seq<T>)
    ensures SameElements(xs, xs)
  {
  }

  lemma SortedIsDistinct<T(!new)>(less: (T, T) -> bool, xs: seq<T>)
    requires StrictOrder(less, xs) && Sorted(less, xs)
    ensures Distinct(xs)
  {
  }

  /** Comparing neighbours is enough to see whether a sequence is sorted. */
  lemma {:induction false} NeighboursDecide<T(!new)>(less: (T, T) -> bool, xs: seq<T>)
    requires StrictOrder(less, xs) && Distinct(xs)
    requires forall i :: 0 < i < |xs| ==> !less(xs[i], xs[i - 1])
    ensures Sorted(less, xs)
    decreases |xs|
  {
    if |xs| > 1 {
      var front, last := xs[..|xs| - 1], |xs| - 1;
      NeighboursDecide(less, front);
      assert less(xs[last - 1], xs[last]);
      forall i | 0 <= i < last ensures less(xs[i], xs[last]) {
        if i < last - 1 {
          assert less(front[i], front[last - 1]);
        }
      }
      forall i, j | 0 <= i < j < |xs| ensures less(xs[i], xs[j]) {
        if j < last {
          assert less(front[i], front[j]);
        }
      }
    }
  }

  method IsSorted<T(!new)>(less: (T, T) -> bool, xs: seq<T>) returns (sorted: bool)
    requires StrictOrder(less, xs) && Distinct(xs)
    ensures sorted <==> Sorted(less, xs)
  {
    for i := 0 to |xs|
      invariant forall j :: 0 < j < i ==> !less(xs[j], xs[j - 1])
    {
      if i > 0 && less(xs[i], xs[i - 1]) {
        assert !less(xs[i - 1], xs[i]);
        return false;
      }
    }
    NeighboursDecide(less, xs);
    return true;
  }

  /** Puts an element into its place in a sorted sequence. */
  method Insert<T(!new)>(less: (T, T) -> bool, x: T, xs: seq<T>) returns (ys: seq<T>)
    requires StrictOrder(less, [x] + xs) && Sorted(less, xs) && x !in xs
    ensures Sorted(less, ys) && SameElements(ys, [x] + xs)
  {
    var i := 0;
    while i < |xs| && less(xs[i], x)
      invariant 0 <= i <= |xs| && forall j :: 0 <= j < i ==> less(xs[j], x)
    {
      i := i + 1;
    }
    ys := xs[..i] + [x] + xs[i..];
    var all := [x] + xs;
    assert forall z :: z in xs ==> z in all;
    assert x in all;
    if i < |xs| {
      assert less(x, xs[i]);
    }
    forall j, k | 0 <= j < k < |ys| ensures less(ys[j], ys[k]) {
      if j < i && k == i {
      } else if j == i && k > i {
        assert ys[k] == xs[k - 1];
        if k - 1 > i {
          assert less(xs[i], xs[k - 1]);
        }
      }
    }
    assert xs == xs[..i] + xs[i..];
  }

  /** A sort; which one does not matter, because the order leaves no choice. */
  method Sort<T(!new)>(less: (T, T) -> bool, xs: seq<T>) returns (ys: seq<T>)
    requires StrictOrder(less, xs) && Distinct(xs)
    ensures Sorted(less, ys) && SameElements(ys, xs)
  {
    ys := [];
    for i := 0 to |xs|
      invariant Sorted(less, ys) && SameElements(ys, xs[..i])
    {
      assert forall z :: z in [xs[i]] + ys ==> z in xs;
      assert xs[..i + 1] == xs[..i] + [xs[i]];
      ys := Insert(less, xs[i], ys);
    }
    assert xs[..|xs|] == xs;
  }
}
