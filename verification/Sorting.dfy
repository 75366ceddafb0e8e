/** What the stores expect of `sort.Slice`: some permutation of the slice in which no later
    element is less than an earlier one. The library's sort is unstable, so nothing is
    promised about the order of elements that tie. */
module Sorting {

  ghost predicate StrictWeakOrder<T(!new)>(less: (T, T) -> bool) {
    && (forall a, b :: less(a, b) ==> !less(b, a))
    && (forall a, b, c :: !less(a, b) && !less(b, c) ==> !less(a, c))
  }

  ghost predicate SortedBy<T>(less: (T, T) -> bool, s: seq<T>) {
    forall i, j | 0 <= i < j < |s| :: !less(s[j], s[i])
  }

  /** Stronger than SortedBy: no two positions tie. */
  ghost predicate StrictlySortedBy<T>(less: (T, T) -> bool, s: seq<T>) {
    forall i, j | 0 <= i < j < |s| :: less(s[i], s[j])
  }

  ghost predicate IsSorting<T>(less: (T, T) -> bool, s: seq<T>, out: seq<T>) {
    multiset(out) == multiset(s) && SortedBy(less, out)
  }

  function InsertSorted<T>(less: (T, T) -> bool, x: T, s: seq<T>): seq<T> {
    if s == [] || less(x, s[0]) then [x] + s else [s[0]] + InsertSorted(less, x, s[1..])
  }

  function SortSlice<T>(less: (T, T) -> bool, s: seq<T>): seq<T> {
    if s == [] then [] else InsertSorted(less, s[0], SortSlice(less, s[1..]))
  }

  lemma {:induction false} InsertSortedSorts<T(!new)>(less: (T, T) -> bool, x: T, s: seq<T>)
    requires StrictWeakOrder(less) && SortedBy(less, s)
    ensures IsSorting(less, [x] + s, InsertSorted(less, x, s))
  {
    if s == [] {
    } else if less(x, s[0]) {
      forall j | 0 < j < |s| + 1 ensures !less(([x] + s)[j], x) {
        assert !less(s[0], x);
        assert !less(s[j - 1], s[0]);
      }
    } else {
      var rest := InsertSorted(less, x, s[1..]);
      InsertSortedSorts(less, x, s[1..]);
      assert s == [s[0]] + s[1..];
      forall y | y in rest ensures !less(y, s[0]) {
        assert y in multiset(rest);
        assert y in multiset([x] + s[1..]);
        assert y in [x] + s[1..];
      }
    }
  }

  lemma {:induction false} SortSliceSorts<T(!new)>(less: (T, T) -> bool, s: seq<T>)
    requires StrictWeakOrder(less)
    ensures IsSorting(less, s, SortSlice(less, s))
  {
    if s != [] {
      SortSliceSorts(less, s[1..]);
      InsertSortedSorts(less, s[0], SortSlice(less, s[1..]));
      assert s == [s[0]] + s[1..];
    }
  }

  /** Without ties the sorted permutation is unique, so an unstable sort is as good as any other. */
  lemma {:induction false} SortingUnique<T>(less: (T, T) -> bool, a: seq<T>, b: seq<T>)
    requires StrictlySortedBy(less, a) && IsSorting(less, a, b)
    ensures a == b
  {
    if a == [] {
      assert |multiset(b)| == |b|;
    } else {
      assert a[0] in multiset(b);
      assert |b| > 0;
      assert b[0] in multiset(a);
      assert a[0] == b[0];
      assert a == [a[0]] + a[1..] && b == [b[0]] + b[1..];
      assert multiset(a[1..]) == multiset(a) - multiset{a[0]};
      assert multiset(b[1..]) == multiset(b) - multiset{b[0]};
      SortingUnique(less, a[1..], b[1..]);
    }
  }

  lemma SortingMembers<T>(less: (T, T) -> bool, s: seq<T>, out: seq<T>)
    requires IsSorting(less, s, out)
    ensures |out| == |s| && forall x :: x in out <==> x in s
  {
    forall x ensures x in out <==> x in s {
      assert x in out <==> x in multiset(out);
      assert x in s <==> x in multiset(s);
    }
    assert |multiset(out)| == |out| && |multiset(s)| == |s|;
  }
}
