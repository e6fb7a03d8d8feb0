/** Cardinalities of sets related by an injective map. */
module Cardinality {

  lemma {:induction false} SameSize<X(!new), Y>(a: set<X>, b: set<Y>, f: X -> Y)
    requires forall x, y :: x in a && y in a && f(x) == f(y) ==> x == y
    requires forall x :: x in a ==> f(x) in b
    requires forall y :: y in b ==> exists x :: x in a && f(x) == y
    ensures |a| == |b|
    decreases a
  {
    if a == {} {
      forall y | y in b ensures false {
      }
      assert b == {};
    } else {
      var x :| x in a;
      var b' := b - {f(x)};
      forall y | y in b' ensures exists x' :: x' in a - {x} && f(x') == y {
        var x' :| x' in a && f(x') == y;
        assert x' in a - {x};
      }
      SameSize(a - {x}, b', f);
    }
  }
}
