/** The array operations the pages apply to fetched lists: `filter`, and `sort`
    with a numeric comparator, which reorders the array in place. */
module Lists {

  /** `Array.prototype.filter`: the elements that satisfy `keep`, in order. */
  function Filter<T(!new)>(s: seq<T>, keep: T -> bool): (r: seq<T>)
    ensures |r| <= |s|
    ensures forall x :: x in r <==> x in s && keep(x)
  {
    if s == [] then [] else (if keep(s[0]) then [s[0]] else []) + Filter(s[1..], keep)
  }

  /** Every occurrence of a kept value survives; no other value does. */
  lemma {:induction false} FilterCount<T(!new)>(s: seq<T>, keep: T -> bool, x: T)
    ensures multiset(Filter(s, keep))[x] == if keep(x) then multiset(s)[x] else 0
  {
    if s != [] {
      FilterCount(s[1..], keep, x);
      assert s == [s[0]] + s[1..];
    }
  }

  /** Filtering works piecewise, so it keeps the relative order of what it keeps. */
  lemma {:induction false} FilterConcat<T(!new)>(a: seq<T>, b: seq<T>, keep: T -> bool)
    ensures Filter(a + b, keep) == Filter(a, keep) + Filter(b, keep)
  {
    if a == [] {
      assert a + b == b;
    } else {
      assert (a + b)[0] == a[0];
      assert (a + b)[1..] == a[1..] + b;
      FilterConcat(a[1..], b, keep);
    }
  }

  /** A filter that accepts everything returns the list unchanged. */
  lemma {:induction false} FilterKeepsAll<T(!new)>(s: seq<T>, keep: T -> bool)
    requires forall i :: 0 <= i < |s| ==> keep(s[i])
    ensures Filter(s, keep) == s
  {
    if s != [] {
      FilterKeepsAll(s[1..], keep);
    }
  }

  /** The comparator laws at `x`, `y`, `z`: swapping two arguments flips the
      sign, and "goes no later than" is transitive. */
  ghost predicate ComparatorLaws<T>(cmp: (T, T) -> int, x: T, y: T, z: T) {
    && (cmp(x, y) > 0 <==> cmp(y, x) < 0)
    && (cmp(x, y) <= 0 && cmp(y, z) <= 0 ==> cmp(x, z) <= 0)
  }

  /** A JavaScript comparator that is consistent: the laws hold everywhere. */
  ghost predicate IsComparator<T(!new)>(cmp: (T, T) -> int) {
    forall x, y, z :: ComparatorLaws(cmp, x, y, z)
  }

  /** `s` is in the order `sort(cmp)` produces: no pair is out of order. */
  ghost predicate SortedBy<T>(s: seq<T>, cmp: (T, T) -> int) {
    forall i, j :: 0 <= i < j < |s| ==> cmp(s[i], s[j]) <= 0
  }

  /** Filtering a sorted list leaves it sorted. */
  lemma {:induction false} FilterSorted<T(!new)>(s: seq<T>, keep: T -> bool, cmp: (T, T) -> int)
    requires SortedBy(s, cmp)
    ensures SortedBy(Filter(s, keep), cmp)
  {
    if s != [] {
      FilterSorted(s[1..], keep, cmp);
      var rest := Filter(s[1..], keep);
      forall j | 0 <= j < |rest|
        ensures cmp(s[0], rest[j]) <= 0
      {
        assert rest[j] in s[1..];
      }
    }
  }

  /** The insertion step's shape: `s[..i+1]` is in order except that `s[j]`
      precedes everything after it and has not yet been compared with what
      precedes it. */
  ghost predicate InsertingAt<T>(s: seq<T>, i: int, j: int, cmp: (T, T) -> int)
    requires 0 <= j <= i < |s|
  {
    && (forall p, q :: 0 <= p < q <= i && p != j && q != j ==> cmp(s[p], s[q]) <= 0)
    && (forall q :: j < q <= i ==> cmp(s[j], s[q]) < 0)
  }

  /** A sorted prefix `s[..i]` followed by `s[i]` is the shape before the
      first comparison. */
  lemma InsertStart<T>(s: seq<T>, i: int, cmp: (T, T) -> int)
    requires 0 <= i < |s| && SortedBy(s[..i], cmp)
    ensures InsertingAt(s, i, i, cmp)
  {
    forall p, q | 0 <= p < q <= i && p != i && q != i
      ensures cmp(s[p], s[q]) <= 0
    {
      assert s[p] == s[..i][p] && s[q] == s[..i][q];
    }
  }

  /** Once `s[j]` is no later than its predecessor, the prefix through `i` is sorted. */
  lemma InsertDone<T(!new)>(s: seq<T>, i: int, j: int, cmp: (T, T) -> int)
    requires IsComparator(cmp)
    requires 0 <= j <= i < |s| && InsertingAt(s, i, j, cmp)
    requires j > 0 ==> cmp(s[j - 1], s[j]) <= 0
    ensures SortedBy(s[..i + 1], cmp)
  {
    forall p, q | 0 <= p < q <= i
      ensures cmp(s[p], s[q]) <= 0
    {
      if q == j && p < j - 1 {
        assert ComparatorLaws(cmp, s[p], s[j - 1], s[j]);
      }
    }
  }

  /** Swapping `s[j]` below an earlier element that should follow it moves the
      insertion point down by one. */
  lemma SwapStep<T(!new)>(s: seq<T>, i: int, j: int, cmp: (T, T) -> int)
    requires IsComparator(cmp)
    requires 0 < j <= i < |s| && InsertingAt(s, i, j, cmp)
    requires cmp(s[j - 1], s[j]) > 0
    ensures InsertingAt(s[j - 1 := s[j]][j := s[j - 1]], i, j - 1, cmp)
  {
    assert ComparatorLaws(cmp, s[j - 1], s[j], s[j]);
  }

  /** The elements `cmp` ranks level with `x`. */
  function TiesWith<T>(cmp: (T, T) -> int, x: T): T -> bool {
    y => cmp(x, y) == 0
  }

  /** `t` keeps the relative order `s` gives to every group of elements
      that `cmp` ranks level: the promise of a stable sort. */
  ghost predicate SameTieOrder<T(!new)>(s: seq<T>, t: seq<T>, cmp: (T, T) -> int) {
    forall x :: Filter(s, TiesWith(cmp, x)) == Filter(t, TiesWith(cmp, x))
  }

  /** Two elements both level with `x` are level with each other. */
  lemma LevelWithSame<T(!new)>(cmp: (T, T) -> int, x: T, a: T, b: T)
    requires IsComparator(cmp)
    requires cmp(x, a) == 0 && cmp(x, b) == 0
    ensures cmp(a, b) <= 0
  {
    assert ComparatorLaws(cmp, x, a, b);
    assert ComparatorLaws(cmp, a, x, b);
  }

  /** Filtering works piecewise over three parts. */
  lemma FilterThree<T(!new)>(p: seq<T>, m: seq<T>, q: seq<T>, keep: T -> bool)
    ensures Filter(p + m + q, keep) == Filter(p, keep) + Filter(m, keep) + Filter(q, keep)
  {
    FilterConcat(p + m, q, keep);
    FilterConcat(p, m, keep);
  }

  /** A pair of which at most one is kept filters alike in either order. */
  lemma FilterPair<T(!new)>(a: T, b: T, keep: T -> bool)
    requires !(keep(a) && keep(b))
    ensures Filter([a, b], keep) == Filter([b, a], keep)
  {
    assert [a, b][1..] == [b] && [b, a][1..] == [a];
    assert [b][1..] == [] && [a][1..] == [];
  }

  /** Filtering `p + [a, b] + q` with `a` and `b` swapped changes nothing
      unless both are kept. */
  lemma FilterSwapPair<T(!new)>(p: seq<T>, a: T, b: T, q: seq<T>, keep: T -> bool)
    requires !(keep(a) && keep(b))
    ensures Filter(p + [a, b] + q, keep) == Filter(p + [b, a] + q, keep)
  {
    FilterThree(p, [a, b], q, keep);
    FilterThree(p, [b, a], q, keep);
    FilterPair(a, b, keep);
  }

  /** Swapping two neighbours that are strictly out of order keeps the
      order within every group of level elements. */
  lemma SwapKeepsTies<T(!new)>(s: seq<T>, j: int, cmp: (T, T) -> int)
    requires IsComparator(cmp)
    requires 0 < j < |s| && cmp(s[j - 1], s[j]) > 0
    ensures SameTieOrder(s[j - 1 := s[j]][j := s[j - 1]], s, cmp)
  {
    var p, q := s[..j - 1], s[j + 1..];
    assert s == p + [s[j - 1], s[j]] + q;
    assert s[j - 1 := s[j]][j := s[j - 1]] == p + [s[j], s[j - 1]] + q;
    forall x
      ensures Filter(s[j - 1 := s[j]][j := s[j - 1]], TiesWith(cmp, x)) == Filter(s, TiesWith(cmp, x))
    {
      if cmp(x, s[j - 1]) == 0 && cmp(x, s[j]) == 0 {
        LevelWithSame(cmp, x, s[j - 1], s[j]);
      }
      FilterSwapPair(p, s[j - 1], s[j], q, TiesWith(cmp, x));
    }
  }

  lemma SwapMultiset<T>(s: seq<T>, i: int, j: int)
    requires 0 <= i < |s| && 0 <= j < |s|
    ensures multiset(s[i := s[j]][j := s[i]]) == multiset(s)
  {
  }

  /** One insertion step: with `a[..i]` in order, moves `a[i]` down past the
      elements that should follow it, so that `a[..i+1]` is in order. */
  method InsertAt<T(!new)>(a: array<T>, i: int, cmp: (T, T) -> int)
    requires IsComparator(cmp)
    requires 0 <= i < a.Length && SortedBy(a[..i], cmp)
    modifies a
    ensures SortedBy(a[..i + 1], cmp)
    ensures multiset(a[..]) == multiset(old(a[..]))
    ensures SameTieOrder(a[..], old(a[..]), cmp)
  {
    InsertStart(a[..], i, cmp);
    var j := i;
    while 0 < j && cmp(a[j - 1], a[j]) > 0
      invariant 0 <= j <= i
      invariant InsertingAt(a[..], i, j, cmp)
      invariant multiset(a[..]) == multiset(old(a[..]))
      invariant SameTieOrder(a[..], old(a[..]), cmp)
    {
      ghost var s := a[..];
      SwapStep(s, i, j, cmp);
      a[j - 1], a[j] := a[j], a[j - 1];
      ghost var swapped := s[j - 1 := s[j]][j := s[j - 1]];
      assert a[..] == swapped;
      SwapMultiset(s, j - 1, j);
      assert multiset(swapped) == multiset(s);
      SwapKeepsTies(s, j, cmp);
      j := j - 1;
    }
    InsertDone(a[..], i, j, cmp);
    assert a[..i + 1] == a[..][..i + 1];
  }

  /** `a.sort(cmp)`: reorders `a` in place into an order consistent with `cmp`. */
  method SortInPlace<T(!new)>(a: array<T>, cmp: (T, T) -> int)
    requires IsComparator(cmp)
    modifies a
    ensures SortedBy(a[..], cmp)
    ensures multiset(a[..]) == multiset(old(a[..]))
    ensures SameTieOrder(a[..], old(a[..]), cmp)
  {
    var i := 0;
    while i < a.Length
      invariant 0 <= i <= a.Length
      invariant SortedBy(a[..i], cmp)
      invariant multiset(a[..]) == multiset(old(a[..]))
      invariant SameTieOrder(a[..], old(a[..]), cmp)
    {
      InsertAt(a, i, cmp);
      i := i + 1;
    }
    assert a[..a.Length] == a[..];
  }
}
