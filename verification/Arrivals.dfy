/** Orders in which a number of answers can come back. */
module Arrivals {

  function Indices(n: nat): seq<nat> {
    if n == 0 then [] else Indices(n - 1) + [n - 1]
  }

  lemma {:induction false} IndicesAre(n: nat)
    ensures |Indices(n)| == n && forall i :: 0 <= i < n ==> Indices(n)[i] == i
  {
    if n > 0 {
      IndicesAre(n - 1);
    }
  }

  ghost predicate InRange(order: seq<nat>, n: nat) {
    forall i :: 0 <= i < |order| ==> order[i] < n
  }

  /** `arrival` lists every number below `n` once. */
  ghost predicate Arrival(arrival: seq<nat>, n: nat) {
    multiset(arrival) == multiset(Indices(n))
  }

  lemma ArrivalInRange(arrival: seq<nat>, n: nat)
    requires Arrival(arrival, n)
    ensures |arrival| == n && InRange(arrival, n)
  {
    IndicesAre(n);
    assert |multiset(arrival)| == |multiset(Indices(n))|;
    forall i | 0 <= i < n ensures arrival[i] < n {
      assert arrival[i] in multiset(Indices(n));
    }
  }
}
