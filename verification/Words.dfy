/**
 * Unsigned machine words of any width as bit sequences, least significant bit first. The
 * operations drop what leaves the word, as the processor does; the lemmas about Value say
 * which arithmetic each of them performs.
 */
module Words {
  import opened Modulo
  import opened Powers

  type Word = seq<bool>

  function Zero(width: nat): Word {
    seq(width, i => false)
  }

  /** `1 << i` */
  function Mask(width: nat, i: nat): Word {
    seq(width, k => k == i)
  }

  function Or(u: Word, v: Word): Word
    requires |u| == |v|
  {
    seq(|u|, i requires 0 <= i < |u| => u[i] || v[i])
  }

  function And(u: Word, v: Word): Word
    requires |u| == |v|
  {
    seq(|u|, i requires 0 <= i < |u| => u[i] && v[i])
  }

  function Not(u: Word): Word {
    seq(|u|, i requires 0 <= i < |u| => !u[i])
  }

  /** `u >> 1` */
  function ShiftDown(u: Word): Word {
    if u == [] then [] else u[1..] + [false]
  }

  /** `u << 1` */
  function ShiftUp(u: Word): Word {
    if u == [] then [] else [false] + u[..|u| - 1]
  }

  /** `u - 1`, borrowing through the low zeros; all ones from zero. */
  function Decrement(u: Word): (d: Word)
    ensures |d| == |u|
  {
    if u == [] then [] else if u[0] then [false] + u[1..] else [true] + Decrement(u[1..])
  }

  predicate Nonzero(u: Word) {
    true in u
  }

  /** `__builtin_ctz`: the position of the lowest set bit. */
  function Ctz(u: Word): (i: nat)
    requires Nonzero(u)
    ensures i < |u| && u[i]
    ensures forall j :: 0 <= j < i ==> !u[j]
  {
    if u[0] then 0 else 1 + Ctz(u[1..])
  }

  lemma {:induction false} DecrementBits(u: Word, j: nat)
    requires Nonzero(u) && j < |u|
    ensures Decrement(u)[j] == if j < Ctz(u) then true else if j == Ctz(u) then false else u[j]
  {
    if !u[0] && j > 0 {
      DecrementBits(u[1..], j - 1);
    }
  }

  /** `u & (u - 1)` clears the lowest set bit of `u` and leaves every other bit alone. */
  lemma ClearLowest(u: Word)
    requires Nonzero(u)
    ensures And(u, Decrement(u)) == u[Ctz(u) := false]
  {
    forall j | 0 <= j < |u| ensures And(u, Decrement(u))[j] == u[Ctz(u) := false][j] {
      DecrementBits(u, j);
    }
  }

  // ---- The arithmetic the operations perform -----------------------------------------

  function Value(u: Word): nat {
    if u == [] then 0 else (if u[0] then 1 else 0) + 2 * Value(u[1..])
  }

  lemma {:induction false} ValueBound(u: Word)
    ensures Value(u) < Pow2(|u|)
    ensures Nonzero(u) <==> Value(u) != 0
  {
    if u != [] {
      ValueBound(u[1..]);
      assert u == [u[0]] + u[1..];
    }
  }

  lemma {:induction false} ValueDecrement(u: Word)
    ensures Value(Decrement(u)) == if Value(u) == 0 then Pow2(|u|) - 1 else Value(u) - 1
  {
    if u != [] {
      ValueDecrement(u[1..]);
      assert Decrement(u)[1..] == if u[0] then u[1..] else Decrement(u[1..]);
    }
  }

  lemma {:induction false} ValueAppend(u: Word, b: bool)
    ensures Value(u + [b]) == Value(u) + if b then Pow2(|u|) else 0
  {
    if u == [] {
      assert [] + [b] == [b];
    } else {
      ValueAppend(u[1..], b);
      assert (u + [b])[1..] == u[1..] + [b];
    }
  }

  lemma ValueShiftDown(u: Word)
    requires u != []
    ensures Value(ShiftDown(u)) == Value(u) / 2
  {
    ValueAppend(u[1..], false);
  }

  /** Doubling, less the bit that leaves the word: with ValueBound, doubling modulo 2^width. */
  lemma ValueShiftUp(u: Word)
    requires u != []
    ensures Value(ShiftUp(u)) == 2 * Value(u) - if u[|u| - 1] then Pow2(|u|) else 0
  {
    var low, top := u[..|u| - 1], u[|u| - 1];
    assert u == low + [top];
    ValueAppend(low, top);
    assert ShiftUp(u) == [false] + low && ([false] + low)[1..] == low;
  }

  lemma {:induction false} ValueMask(width: nat, i: nat)
    requires i < width
    ensures Value(Mask(width, i)) == Pow2(i)
  {
    var rest := Mask(width, i)[1..];
    if i == 0 {
      assert rest == Zero(width - 1);
      ValueZero(width - 1);
    } else {
      assert rest == Mask(width - 1, i - 1);
      ValueMask(width - 1, i - 1);
    }
  }

  lemma {:induction false} ValueZero(width: nat)
    ensures Value(Zero(width)) == 0
  {
    if width > 0 {
      assert Zero(width)[1..] == Zero(width - 1);
      ValueZero(width - 1);
    }
  }

  lemma {:induction false} ValueNot(u: Word)
    ensures Value(Not(u)) == Pow2(|u|) - 1 - Value(u)
  {
    if u != [] {
      assert Not(u)[1..] == Not(u[1..]);
      ValueNot(u[1..]);
    }
  }

  lemma {:induction false} ValueOrMask(u: Word, i: nat)
    requires i < |u| && !u[i]
    ensures Value(Or(u, Mask(|u|, i))) == Value(u) + Value(Mask(|u|, i))
  {
    var m := Mask(|u|, i);
    assert Or(u, m)[1..] == Or(u[1..], m[1..]);
    if i == 0 {
      assert m[1..] == Zero(|u| - 1);
      ValueZero(|u| - 1);
      assert Or(u[1..], m[1..]) == u[1..];
    } else {
      assert m[1..] == Mask(|u| - 1, i - 1);
      ValueOrMask(u[1..], i - 1);
    }
  }

  /** Twice `x` in a word of that width, for an `x` that fits: the carry leaves the word. */
  function Doubled(x: nat, width: nat): int {
    if 2 * x < Pow2(width) then 2 * x else 2 * x - Pow2(width)
  }

  lemma DoubledIsModulo(x: nat, width: nat)
    requires x < Pow2(width)
    ensures Doubled(x, width) == 2 * x % Pow2(width)
  {
    ModUnique(2 * x, Pow2(width), if 2 * x < Pow2(width) then 0 else 1, Doubled(x, width));
  }

  lemma ShiftUpDoubles(u: Word)
    requires u != []
    ensures Value(ShiftUp(u)) == Doubled(Value(u), |u|)
  {
    ValueShiftUp(u);
    ValueBound(ShiftUp(u));
    ValueBound(u);
  }

  /**
   * The masks of the next row in unsigned arithmetic, for a column free in all three: the
   * queen's bit is added, one diagonal halved, the other doubled modulo 2^width.
   */
  lemma PlacedValues(columns: Word, diagonal: Word, antidiagonal: Word, i: nat)
    requires |columns| == |diagonal| == |antidiagonal| && i < |columns|
    requires !columns[i] && !diagonal[i] && !antidiagonal[i]
    ensures var m := Mask(|columns|, i);
      && Value(Or(columns, m)) == Value(columns) + Pow2(i)
      && Value(ShiftDown(Or(diagonal, m))) == (Value(diagonal) + Pow2(i)) / 2
      && Value(ShiftUp(Or(antidiagonal, m))) == Doubled(Value(antidiagonal) + Pow2(i), |columns|)
  {
    ValueMask(|columns|, i);
    ValueOrMask(columns, i);
    ValueOrMask(antidiagonal, i);
    PlacedDown(diagonal, i);
    ShiftUpDoubles(Or(antidiagonal, Mask(|columns|, i)));
  }

  lemma PlacedDown(u: Word, i: nat)
    requires i < |u| && !u[i]
    ensures Value(ShiftDown(Or(u, Mask(|u|, i)))) == (Value(u) + Pow2(i)) / 2
  {
    ValueMask(|u|, i);
    ValueOrMask(u, i);
    ValueShiftDown(Or(u, Mask(|u|, i)));
  }

  /**
   * The loop's word in unsigned arithmetic: the complement is the difference to all ones, the
   * loop goes on while the word is not zero, and the lowest bit is subtracted.
   */
  lemma AvailableValues(occupied: Word)
    ensures var avail := Not(occupied);
      && Value(avail) == Pow2(|occupied|) - 1 - Value(occupied)
    ensures forall avail: Word :: Nonzero(avail) <==> Value(avail) != 0
    ensures forall avail: Word :: Nonzero(avail) ==>
      && Value(Decrement(avail)) == Value(avail) - 1
      && Value(And(avail, Decrement(avail))) == Value(avail) - Pow2(Ctz(avail))
  {
    ValueNot(occupied);
    forall avail: Word ensures Nonzero(avail) <==> Value(avail) != 0 {
      ValueBound(avail);
    }
    forall avail: Word | Nonzero(avail)
      ensures Value(Decrement(avail)) == Value(avail) - 1
      ensures Value(And(avail, Decrement(avail))) == Value(avail) - Pow2(Ctz(avail))
    {
      LowestSubtracted(avail);
    }
  }

  lemma LowestSubtracted(u: Word)
    requires Nonzero(u)
    ensures Value(Decrement(u)) == Value(u) - 1
    ensures Value(And(u, Decrement(u))) == Value(u) - Pow2(Ctz(u))
  {
    var i := Ctz(u);
    var cleared := u[i := false];
    ValueBound(u);
    ValueDecrement(u);
    ClearLowest(u);
    assert Or(cleared, Mask(|u|, i)) == u;
    ValueOrMask(cleared, i);
    ValueMask(|u|, i);
  }
}
