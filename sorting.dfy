/**
 * In-place sorting standing in for Rust's `slice::sort_by` and `slice::sort_unstable`:
 * an insertion sort driven by a "strictly before" relation, plus a reference sort on
 * integer sequences that pins down the one sorted permutation of a list.
 */
module Sorting {

  /** `before(x, y) ==> !before(y, x)`: no two elements each come strictly before the other. */
  ghost predicate Asymmetric<T(!new)>(before: (T, T) -> bool) {
    forall x, y :: before(x, y) ==> !before(y, x)
  }

  /** No neighbour in s[lo..hi] comes strictly before its left neighbour. */
  ghost predicate AdjacentOrdered<T>(s: seq<T>, lo: int, hi: int, before: (T, T) -> bool) {
    forall k :: 0 <= lo <= k && k + 1 < hi <= |s| ==> !before(s[k + 1], s[k])
  }

  /** Exchanges two elements. */
  method Swap<T>(a: array<T>, i: nat, j: nat)
    requires i < a.Length && j < a.Length
    modifies a
    ensures a[..] == old(a[..])[i := old(a[j])][j := old(a[i])]
    ensures multiset(a[..]) == multiset(old(a[..]))
  {
    a[i], a[j] := a[j], a[i];
  }

  /**
   * Sorts `a` in place: the result is a permutation of the input and, when `before` is
   * asymmetric, no element comes strictly before its left neighbour.
   */
  method SortBy<T(!new)>(a: array<T>, before: (T, T) -> bool)
    modifies a
    ensures multiset(a[..]) == multiset(old(a[..]))
    ensures Asymmetric(before) ==> AdjacentOrdered(a[..], 0, a.Length, before)
  {
    for i := 0 to a.Length
      invariant multiset(a[..]) == multiset(old(a[..]))
      invariant Asymmetric(before) ==> AdjacentOrdered(a[..], 0, i, before)
    {
      var j := i;
      while j > 0 && before(a[j], a[j - 1])
        invariant 0 <= j <= i
        invariant multiset(a[..]) == multiset(old(a[..]))
        invariant Inserting(a[..], j, i, before)
        decreases j
      {
        ghost var s := a[..];
        Swap(a, j - 1, j);
        InsertingStep(s, a[..], j, i, before);
        j := j - 1;
      }
      InsertingDone(a[..], j, i, before);
    }
  }

  /**
   * The state of inserting the element at j into the ordered s[..i+1] (only under asymmetry):
   * both sides of j are ordered, the element at j comes before its right neighbour, and
   * its two neighbours are in order with each other.
   */
  ghost predicate Inserting<T(!new)>(s: seq<T>, j: int, i: int, before: (T, T) -> bool)
    requires 0 <= j <= i < |s|
  {
    Asymmetric(before) ==>
      && AdjacentOrdered(s, 0, j, before)
      && AdjacentOrdered(s, j + 1, i + 1, before)
      && (j < i ==> before(s[j], s[j + 1]))
      && (0 < j < i ==> !before(s[j + 1], s[j - 1]))
  }

  lemma InsertingStep<T(!new)>(s: seq<T>, t: seq<T>, j: int, i: int, before: (T, T) -> bool)
    requires 0 < j <= i < |s| && Inserting(s, j, i, before)
    requires before(s[j], s[j - 1])
    requires t == s[j - 1 := s[j]][j := s[j - 1]]
    ensures Inserting(t, j - 1, i, before)
  {
    if Asymmetric(before) {
      forall k | j <= k && k + 1 < i + 1
        ensures !before(t[k + 1], t[k])
      {
        if k == j && j < i {
          assert t[k] == s[j - 1] && t[k + 1] == s[j + 1];
        }
      }
    }
  }

  lemma InsertingDone<T(!new)>(s: seq<T>, j: int, i: int, before: (T, T) -> bool)
    requires 0 <= j <= i < |s| && Inserting(s, j, i, before)
    requires j > 0 ==> !before(s[j], s[j - 1])
    ensures Asymmetric(before) ==> AdjacentOrdered(s, 0, i + 1, before)
  {
    if Asymmetric(before) {
      forall k | 0 <= k && k + 1 < i + 1
        ensures !before(s[k + 1], s[k])
      {
        if k == j - 1 {
        } else if k == j {
          assert before(s[j], s[j + 1]);
        } else if k < j {
        } else {
        }
      }
    }
  }

  /* A reference sort on integers. */

  predicate Sorted(s: seq<int>) {
    forall i, j :: 0 <= i < j < |s| ==> s[i] <= s[j]
  }

  /** `s` with `x` placed before the first element not smaller than it. */
  function Insert(x: int, s: seq<int>): (r: seq<int>)
    ensures multiset(r) == multiset(s) + multiset{x}
    ensures |r| == |s| + 1 && (r[0] == x || (s != [] && r[0] == s[0]))
    ensures Sorted(s) ==> Sorted(r)
  {
    if s == [] || x <= s[0] then [x] + s
    else
      var rest := Insert(x, s[1..]);
      assert s == [s[0]] + s[1..];
      InsertBehind(x, s, rest);
      [s[0]] + rest
  }

  /** Inserting behind a sorted head that is smaller than `x` keeps the list sorted. */
  lemma InsertBehind(x: int, s: seq<int>, rest: seq<int>)
    requires s != [] && x > s[0]
    requires |rest| == |s| && (rest[0] == x || (|s| > 1 && rest[0] == s[1]))
    requires Sorted(s[1..]) ==> Sorted(rest)
    ensures Sorted(s) ==> Sorted([s[0]] + rest)
  {
    if Sorted(s) {
      assert Sorted(s[1..]);
      ConsSorted(s[0], rest);
    }
  }

  lemma ConsSorted(h: int, s: seq<int>)
    requires Sorted(s) && (s != [] ==> h <= s[0])
    ensures Sorted([h] + s)
  {
  }

  /** The integers of `s` in ascending order. */
  function Sort(s: seq<int>): (r: seq<int>)
    ensures Sorted(r) && multiset(r) == multiset(s)
  {
    if s == [] then []
    else
      assert s == [s[0]] + s[1..];
      Insert(s[0], Sort(s[1..]))
  }

  /** Two sorted arrangements of the same integers are the same sequence. */
  lemma {:induction false} SortedUnique(s: seq<int>, t: seq<int>)
    requires Sorted(s) && Sorted(t) && multiset(s) == multiset(t)
    ensures s == t
    decreases |s|
  {
    if s == [] {
      assert |t| == |multiset(t)|;
    } else {
      assert |t| == |multiset(t)|;
      HeadIsLeast(s, t[0]);
      HeadIsLeast(t, s[0]);
      var s', t' := s[1..], t[1..];
      assert s == [s[0]] + s';
      assert t == [t[0]] + t';
      assert multiset(s') == multiset(t') by {
        assert s[0] == t[0];
        assert multiset(s) == multiset{s[0]} + multiset(s');
        assert multiset(t) == multiset{s[0]} + multiset(t');
        MultisetCancel(s[0], multiset(s'), multiset(t'));
      }
      SortedUnique(s', t');
    }
  }

  lemma MultisetCancel<T>(x: T, a: multiset<T>, b: multiset<T>)
    requires multiset{x} + a == multiset{x} + b
    ensures a == b
  {
    forall y ensures a[y] == b[y] {
      assert (multiset{x} + a)[y] == (multiset{x} + b)[y];
    }
  }

  lemma HeadIsLeast(s: seq<int>, x: int)
    requires Sorted(s) && x in multiset(s)
    ensures s[0] <= x
  {
    assert x in s;
  }

  /** `Sort` yields the one sorted arrangement of the input. */
  lemma SortIsUnique(s: seq<int>, t: seq<int>)
    requires Sorted(t) && multiset(t) == multiset(s)
    ensures Sort(s) == t
  {
    SortedUnique(Sort(s), t);
  }

  /** Adjacent pairs in ascending order make the whole sequence ascending. */
  lemma {:induction false} AdjacentSorted(s: seq<int>)
    requires AdjacentOrdered(s, 0, |s|, (x: int, y: int) => x < y)
    ensures Sorted(s)
    decreases |s|
  {
    if |s| > 1 {
      AdjacentSorted(s[1..]);
      assert s[0] <= s[1];
    }
  }

  /** On integers, `SortBy` with `<` computes `Sort`. */
  method SortInts(a: array<int>)
    modifies a
    ensures a[..] == Sort(old(a[..]))
  {
    var before := (x: int, y: int) => x < y;
    SortBy(a, before);
    assert Asymmetric(before);
    AdjacentSorted(a[..]);
    SortedUnique(a[..], Sort(old(a[..])));
  }
}
