/** Sorted sequences of integers, ranks and the standard library's bounds. */
module Sorting {
  import opened Sums

  ghost predicate Sorted(s: seq<int>) {
    forall i, j :: 0 <= i < j < |s| ==> s[i] <= s[j]
  }

  ghost predicate StrictlySorted(s: seq<int>) {
    forall i, j :: 0 <= i < j < |s| ==> s[i] < s[j]
  }

  function Insert(x: int, s: seq<int>): seq<int> {
    if s == [] || x <= s[0] then [x] + s else [s[0]] + Insert(x, s[1..])
  }

  /** `std::sort` */
  function Sort(s: seq<int>): seq<int> {
    if s == [] then [] else Insert(s[0], Sort(s[1..]))
  }

  lemma {:induction false} InsertMultiset(x: int, s: seq<int>)
    ensures multiset(Insert(x, s)) == multiset(s) + multiset{x}
  {
    if s != [] && x > s[0] {
      InsertMultiset(x, s[1..]);
      assert s == [s[0]] + s[1..];
    }
  }

  lemma {:induction false} InsertSorted(x: int, s: seq<int>)
    requires Sorted(s)
    ensures Sorted(Insert(x, s))
  {
    if s != [] && x > s[0] {
      InsertSorted(x, s[1..]);
      InsertMultiset(x, s[1..]);
      var r := Insert(x, s[1..]);
      forall j | 0 <= j < |r| ensures s[0] <= r[j] {
        assert r[j] in multiset(s[1..]) + multiset{x};
      }
    }
  }

  /** Sorting sorts, and permutes. */
  lemma {:induction false} SortSorts(s: seq<int>)
    ensures Sorted(Sort(s)) && multiset(Sort(s)) == multiset(s) && |Sort(s)| == |s|
  {
    if s != [] {
      SortSorts(s[1..]);
      InsertSorted(s[0], Sort(s[1..]));
      InsertMultiset(s[0], Sort(s[1..]));
      assert s == [s[0]] + s[1..];
    }
    assert |multiset(Sort(s))| == |multiset(s)|;
  }

  lemma LeastFirst(s: seq<int>, t: seq<int>)
    requires Sorted(s) && Sorted(t) && multiset(s) == multiset(t) && s != [] && t != []
    ensures s[0] == t[0]
  {
    assert s[0] in multiset(t) && t[0] in multiset(s);
  }

  /** There is one sorted order. */
  lemma {:induction false} SortedUnique(s: seq<int>, t: seq<int>)
    requires Sorted(s) && Sorted(t) && multiset(s) == multiset(t)
    ensures s == t
  {
    assert |multiset(s)| == |multiset(t)|;
    if s != [] {
      LeastFirst(s, t);
      RemoveBoth(s, 0, t, 0);
      assert RemoveAt(s, 0) == s[1..] && RemoveAt(t, 0) == t[1..];
      SortedUnique(s[1..], t[1..]);
    }
  }

  // ---- Bounds ------------------------------------------------------------------------

  /** `std::lower_bound` as an index: the elements before it are smaller than `x`. */
  function LowerBound(s: seq<int>, x: int): (i: nat)
    ensures i <= |s|
    ensures forall j :: 0 <= j < i ==> s[j] < x
    ensures i < |s| ==> s[i] >= x
  {
    if s == [] || s[0] >= x then 0 else 1 + LowerBound(s[1..], x)
  }

  /** `std::upper_bound` as an index. */
  function UpperBound(s: seq<int>, x: int): (i: nat)
    ensures i <= |s|
    ensures forall j :: 0 <= j < i ==> s[j] <= x
    ensures i < |s| ==> s[i] > x
  {
    if s == [] || s[0] > x then 0 else 1 + UpperBound(s[1..], x)
  }

  // ---- Ranks -------------------------------------------------------------------------

  function Below(x: int): int -> int {
    (v: int) => if v < x then 1 else 0
  }

  function Same(x: int): int -> int {
    (v: int) => if v == x then 1 else 0
  }

  /** How many elements are smaller than `x`. */
  function Smaller(s: seq<int>, x: int): int {
    Sum(s, Below(x))
  }

  /** How many elements equal `x`. */
  function Equal(s: seq<int>, x: int): int {
    Sum(s, Same(x))
  }

  lemma {:induction false} SmallerPrefix(s: seq<int>, x: int, i: nat, n: nat)
    requires i <= |s| && n <= |s|
    requires forall j :: 0 <= j < i ==> s[j] < x
    requires forall j :: i <= j < |s| ==> s[j] >= x
    ensures Smaller(s[..n], x) == if n <= i then n else i
  {
    if n > 0 {
      SmallerPrefix(s, x, i, n - 1);
      SumPrefix(s, n - 1, Below(x));
    }
  }

  lemma {:induction false} SameIsDifference(s: seq<int>, x: int)
    ensures Equal(s, x) == Smaller(s, x + 1) - Smaller(s, x)
  {
    if s != [] {
      SameIsDifference(s[..|s| - 1], x);
    }
  }

  /** On sorted data the bounds are ranks. */
  lemma BoundsAreRanks(s: seq<int>, x: int)
    requires Sorted(s)
    ensures Smaller(s, x) == LowerBound(s, x)
    ensures Equal(s, x) == UpperBound(s, x) - LowerBound(s, x)
    ensures LowerBound(s, x) <= UpperBound(s, x)
  {
    SmallerIs(s, x, LowerBound(s, x));
    SmallerIs(s, x + 1, UpperBound(s, x));
    SameIsDifference(s, x);
  }

  lemma SmallerIs(s: seq<int>, x: int, i: nat)
    requires Sorted(s) && i <= |s|
    requires (forall j :: 0 <= j < i ==> s[j] < x) && (i < |s| ==> s[i] >= x)
    ensures Smaller(s, x) == i
  {
    SmallerPrefix(s, x, i, |s|);
    assert s[..|s|] == s;
  }

  /** Where `x` stands relative to the element of rank `k`, counted from 1. */
  lemma RankCompare(t: seq<int>, k: nat, x: int)
    requires Sorted(t) && 1 <= k <= |t|
    ensures Smaller(t, x) >= k <==> t[k - 1] < x
    ensures Smaller(t, x) + Equal(t, x) < k <==> t[k - 1] > x
  {
    BoundsAreRanks(t, x);
  }

  lemma SmallerPermutation(s: seq<int>, t: seq<int>, x: int)
    requires multiset(s) == multiset(t)
    ensures Smaller(s, x) == Smaller(t, x) && Equal(s, x) == Equal(t, x)
  {
    SumPermutation(s, t, Below(x));
    SumPermutation(s, t, Same(x));
  }

  lemma {:induction false} SmallerBounds(s: seq<int>, x: int)
    ensures 0 <= Smaller(s, x) && 0 <= Equal(s, x) && Smaller(s, x) + Equal(s, x) <= |s|
    ensures (forall i :: 0 <= i < |s| ==> s[i] <= x) ==> Smaller(s, x) + Equal(s, x) == |s|
    ensures (forall i :: 0 <= i < |s| ==> s[i] >= x) ==> Smaller(s, x) == 0
  {
    if s != [] {
      SmallerBounds(s[..|s| - 1], x);
    }
  }
}
