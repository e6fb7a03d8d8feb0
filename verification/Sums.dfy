/** Sums over sequences, whatever the order of their elements. */
module Sums {

  function Sum<T>(s: seq<T>, f: T -> int): int {
    if s == [] then 0 else Sum(s[..|s| - 1], f) + f(s[|s| - 1])
  }

  lemma SumAppend<T>(s: seq<T>, x: T, f: T -> int)
    ensures Sum(s + [x], f) == Sum(s, f) + f(x)
  {
    assert (s + [x])[..|s|] == s;
  }

  lemma {:induction false} SumConcat<T>(s: seq<T>, t: seq<T>, f: T -> int)
    ensures Sum(s + t, f) == Sum(s, f) + Sum(t, f)
  {
    if t == [] {
      assert s + t == s;
    } else {
      var t' := t[..|t| - 1];
      SumConcat(s, t', f);
      assert s + t == (s + t') + [t[|t| - 1]];
      SumAppend(s + t', t[|t| - 1], f);
    }
  }

  lemma SumPrefix<T>(s: seq<T>, i: nat, f: T -> int)
    requires i < |s|
    ensures Sum(s[..i + 1], f) == Sum(s[..i], f) + f(s[i])
  {
    assert s[..i + 1] == s[..i] + [s[i]];
    SumAppend(s[..i], s[i], f);
  }

  function RemoveAt<T>(s: seq<T>, k: nat): seq<T>
    requires k < |s|
  {
    s[..k] + s[k + 1..]
  }

  lemma RemoveAtMultiset<T>(s: seq<T>, k: nat)
    requires k < |s|
    ensures multiset(s) == multiset(RemoveAt(s, k)) + multiset{s[k]}
  {
    assert s == s[..k] + [s[k]] + s[k + 1..];
  }

  lemma SumRemove<T>(s: seq<T>, k: nat, f: T -> int)
    requires k < |s|
    ensures Sum(s, f) == Sum(RemoveAt(s, k), f) + f(s[k])
  {
    assert s == s[..k + 1] + s[k + 1..];
    SumConcat(s[..k + 1], s[k + 1..], f);
    SumPrefix(s, k, f);
    SumConcat(s[..k], s[k + 1..], f);
  }

  lemma SumHead<T>(s: seq<T>, f: T -> int)
    requires s != []
    ensures Sum(s, f) == f(s[0]) + Sum(s[1..], f)
  {
    SumRemove(s, 0, f);
    assert RemoveAt(s, 0) == s[1..];
  }

  lemma RemoveBoth<T>(s: seq<T>, j: nat, t: seq<T>, k: nat)
    requires multiset(s) == multiset(t) && j < |s| && k < |t| && s[j] == t[k]
    ensures multiset(RemoveAt(s, j)) == multiset(RemoveAt(t, k))
  {
    RemoveAtMultiset(s, j);
    RemoveAtMultiset(t, k);
    assert multiset(RemoveAt(s, j)) == multiset(s) - multiset{s[j]};
    assert multiset(RemoveAt(t, k)) == multiset(t) - multiset{t[k]};
  }

  lemma {:induction false} SumPermutation<T>(s: seq<T>, t: seq<T>, f: T -> int)
    requires multiset(s) == multiset(t)
    ensures Sum(s, f) == Sum(t, f)
    decreases |s|
  {
    if s == [] {
      assert |multiset(s)| == |multiset(t)|;
    } else {
      assert s[0] in multiset(s);
      var k :| 0 <= k < |t| && t[k] == s[0];
      RemoveBoth(s, 0, t, k);
      SumPermutation(RemoveAt(s, 0), RemoveAt(t, k), f);
      SumRemove(s, 0, f);
      SumRemove(t, k, f);
    }
  }

  lemma {:induction false} SumPointwise<T>(s: seq<T>, f: T -> int, g: T -> int)
    requires forall i :: 0 <= i < |s| ==> f(s[i]) == g(s[i])
    ensures Sum(s, f) == Sum(s, g)
  {
    if s != [] {
      SumPointwise(s[..|s| - 1], f, g);
    }
  }

  lemma SumUpdate<T>(s: seq<T>, k: nat, x: T, f: T -> int)
    requires k < |s|
    ensures Sum(s[k := x], f) == Sum(s, f) - f(s[k]) + f(x)
  {
    SumRemove(s, k, f);
    SumRemove(s[k := x], k, f);
    assert RemoveAt(s[k := x], k) == RemoveAt(s, k);
  }

  lemma {:induction false} SumNonNegative<T>(s: seq<T>, f: T -> int)
    requires forall i :: 0 <= i < |s| ==> f(s[i]) >= 0
    ensures Sum(s, f) >= 0
  {
    if s != [] {
      SumNonNegative(s[..|s| - 1], f);
    }
  }

  lemma SumAtLeast<T>(s: seq<T>, k: nat, f: T -> int)
    requires k < |s| && forall i :: 0 <= i < |s| ==> f(s[i]) >= 0
    ensures Sum(s, f) >= f(s[k])
  {
    SumRemove(s, k, f);
    SumNonNegative(RemoveAt(s, k), f);
  }
}
