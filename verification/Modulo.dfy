/** Remainders of natural numbers by a divisor that is not a constant. */
module Modulo {
  lemma QuotientsAgree(b: nat, q: nat, m: nat, q': nat, m': nat)
    requires m < b && m' < b && b * q + m == b * q' + m'
    ensures q == q'
  {
    if q < q' {
      Gap(b, q, q');
    } else if q' < q {
      Gap(b, q', q);
    }
  }

  lemma {:induction false} Gap(b: nat, q: nat, q': nat)
    requires q < q'
    ensures b * q' >= b * q + b
    decreases q'
  {
    assert b * q' == b * (q' - 1) + b;
    if q < q' - 1 {
      Gap(b, q, q' - 1);
    }
  }

  lemma ModUnique(x: nat, b: nat, q: nat, m: nat)
    requires m < b && x == b * q + m
    ensures x % b == m
  {
    QuotientsAgree(b, q, m, x / b, x % b);
  }

  lemma NextMod(t: nat, b: nat)
    requires b >= 1
    ensures (t + 1) % b == if t % b + 1 >= b then 0 else t % b + 1
  {
    var q, m := t / b, t % b;
    assert t == b * q + m;
    if m + 1 == b {
      assert t + 1 == b * (q + 1) + 0;
      ModUnique(t + 1, b, q + 1, 0);
    } else {
      ModUnique(t + 1, b, q, m + 1);
    }
  }
}
