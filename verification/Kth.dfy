/** The k-th smallest element by bisecting the int64 range (examples/median/kth.h). */
module Kth {
  import opened Powers
  import opened Sorting

  const TWO63: int := 0x8000_0000_0000_0000
  const TWO64: int := 0x1_0000_0000_0000_0000

  type int64 = x: int | -0x8000_0000_0000_0000 <= x < 0x8000_0000_0000_0000

  /** The int64 with the same low 64 bits as `x`. */
  function Wrap(x: int): int64 {
    (x + TWO63) % TWO64 - TWO63
  }

  /** `static_cast<uint64_t>(x)` */
  function Unsigned(x: int64): nat {
    x % TWO64
  }

  /** `min + static_cast<uint64_t>(max - min)/2`, every operation modulo 2^64. */
  function Midpoint(min: int64, max: int64): int64 {
    Wrap(Unsigned(min) + Unsigned(Wrap(max - min)) / 2)
  }

  /** The wrapped midpoint is the true one even when `max - min` does not fit in int64. */
  lemma MidpointExact(min: int64, max: int64)
    requires min <= max
    ensures Midpoint(min, max) == min + (max - min) / 2
    ensures min <= Midpoint(min, max) <= max
  {
    var d := max - min;
    assert Unsigned(Wrap(d)) == d by {
      WrapUnsigned(d);
    }
    var m := min + d / 2;
    WrapShift(if min < 0 then 1 else 0, m);
  }

  lemma WrapUnsigned(d: int)
    requires 0 <= d < TWO64
    ensures Unsigned(Wrap(d)) == d
  {
    if d < TWO63 {
      assert Wrap(d) == d;
    } else {
      assert Wrap(d) == d - TWO64;
    }
  }

  lemma WrapShift(n: int, m: int64)
    requires 0 <= n <= 1
    ensures Wrap(m + n * TWO64) == m
  {
  }

  /** The element of rank `k`, counted from 1, of data in any order. */
  function KthSmallest(data: seq<int64>, k: nat): int
    requires 1 <= k <= |data|
  {
    SortSorts(data);
    Sort(data)[k - 1]
  }

  ghost predicate Extremes(data: seq<int64>, min: int, max: int) {
    && min in data && max in data
    && forall i :: 0 <= i < |data| ==> min <= data[i] <= max
  }

  /** `search` answers how many elements of the data are smaller than and equal to a guess. */
  ghost predicate Ranks(search: int64 -> (int, int), data: seq<int64>) {
    forall g: int64 :: search(g) == (Smaller(data, g), Equal(data, g))
  }

  /** What one probe says about the answer. */
  lemma Probe(data: seq<int64>, k: int, g: int64)
    requires 1 <= k <= |data|
    ensures Smaller(data, g) >= k <==> KthSmallest(data, k) < g
    ensures Smaller(data, g) + Equal(data, g) < k <==> KthSmallest(data, k) > g
  {
    SortSorts(data);
    SmallerPermutation(data, Sort(data), g);
    RankCompare(Sort(data), k, g);
  }

  lemma KthWithin(data: seq<int64>, k: int, min: int, max: int)
    requires 1 <= k <= |data| && Extremes(data, min, max)
    ensures min <= KthSmallest(data, k) <= max
  {
    SortSorts(data);
    assert Sort(data)[k - 1] in multiset(Sort(data));
    assert KthSmallest(data, k) in data;
  }

  /** After the first probe, which is the maximum, every probe halves the range that is left. */
  ghost predicate Narrowed(steps: nat, min: int64, max: int64, guess: int64) {
    && min <= max
    && (steps == 0 ==> guess == max)
    && (steps > 0 ==> guess == min + (max - min) / 2)
    && max - min < if steps == 0 then TWO64 else if steps <= 65 then Pow2(65 - steps) else 1
  }

  lemma Halve(steps: nat, min: int64, max: int64, guess: int64, min': int64, max': int64)
    requires Narrowed(steps, min, max, guess) && min' <= max'
    requires (min' == guess + 1 && max' == max) || (min' == min && max' == guess)
    ensures Narrowed(steps + 1, min', max', Midpoint(min', max'))
    ensures min' <= Midpoint(min', max') <= max'
  {
    MidpointExact(min', max');
    BigPowers();
    if steps == 0 {
      assert Pow2(65) == 2 * Pow2(64);
    } else if steps < 65 {
      assert Pow2(65 - steps) == 2 * Pow2(65 - steps - 1);
    }
  }

  lemma Narrowest(steps: nat, min: int64, max: int64, guess: int64)
    requires Narrowed(steps, min, max, guess) && steps >= 65
    ensures min == guess == max
  {
    assert Pow2(0) == 1;
  }

  lemma WrapSmall(x: int64)
    ensures Wrap(x) == x
  {
  }

  const INT64_MAX: int64 := 0x7fff_ffff_ffff_ffff

  /** What the bisection returns, unless its assertion stops the program. */
  datatype Outcome = Returned(guess: int64, succeed: bool) | AssertionFailed

  /** What one round decides. */
  datatype Verdict = Again(min: int64, max: int64, guess: int64) | Stop(succeed: bool) | Abort

  /** The state of the loop after `steps` rounds, for a rank within the data, below it or above it. */
  ghost predicate Bisecting(data: seq<int64>, k: int, min0: int64, max0: int64,
                            steps: nat, min: int64, max: int64, guess: int64)
  {
    && data != [] && steps <= 100
    && if k > |data| then
         if steps == 0 then min == min0 && max == max0 == guess else max0 == max == INT64_MAX && min <= guess <= max
       else
         && Narrowed(steps, min, max, guess)
         && if k < 1 then min == min0 else min0 <= min <= KthSmallest(data, k) <= max && steps <= 65
  }

  /** What the bisection is to return after so many searches. */
  ghost predicate Answers(data: seq<int64>, k: int, min0: int64, max0: int64, out: Outcome, searches: nat) {
    if k < 1 then out == Returned(min0, false) && searches == 101
    else if k <= |data| then out.Returned? && out.succeed && out.guess == KthSmallest(data, k) && searches <= 66
    else if max0 < INT64_MAX then out == AssertionFailed && searches == 1
    else out.Returned? && !out.succeed && searches == 101
  }

  ghost predicate Decided(v: Verdict, data: seq<int64>, k: int, min0: int64, max0: int64, steps: nat, guess: int64) {
    match v
    case Again(min', max', guess') => Bisecting(data, k, min0, max0, steps, min', max', guess')
    case Stop(succeed) => Answers(data, k, min0, max0, Returned(guess, succeed), steps)
    case Abort => Answers(data, k, min0, max0, AssertionFailed, steps)
  }

  lemma BisectingStarts(data: seq<int64>, k: int, min0: int64, max0: int64)
    requires Extremes(data, min0, max0)
    ensures Bisecting(data, k, min0, max0, 0, min0, max0, max0)
  {
    if 1 <= k <= |data| {
      KthWithin(data, k, min0, max0);
    }
  }

  /** A rank above the data: every probe is too small, and only a wrapped one leaves a range. */
  lemma TooFar(data: seq<int64>, k: int, min0: int64, max0: int64, steps: nat, min: int64, max: int64, guess: int64)
    requires k > |data| && Extremes(data, min0, max0) && Bisecting(data, k, min0, max0, steps, min, max, guess)
    requires steps < 100
    ensures Smaller(data, guess) + Equal(data, guess) < k
    ensures var min' := Wrap(guess + 1);
      var guess' := Midpoint(min', max);
      if min' <= guess' <= max then Bisecting(data, k, min0, max0, steps + 1, min', max, guess')
      else max0 < INT64_MAX && steps == 0
  {
    SmallerBounds(data, guess);
    var min' := Wrap(guess + 1);
    if min' <= max {
      MidpointExact(min', max);
    }
    if guess < INT64_MAX {
      WrapSmall(guess + 1);
    }
    if max0 == INT64_MAX {
      assert min' <= max;
    }
  }

  /** A rank within the data or below it: the range narrows around the answer. */
  lemma Narrower(data: seq<int64>, k: int, min0: int64, max0: int64, steps: nat, min: int64, max: int64, guess: int64)
    requires k <= |data| && Extremes(data, min0, max0) && Bisecting(data, k, min0, max0, steps, min, max, guess)
    requires steps < 100 && !(Smaller(data, guess) < k <= Smaller(data, guess) + Equal(data, guess))
    ensures var below := Smaller(data, guess) + Equal(data, guess) < k;
      var min', max' := if below then Wrap(guess + 1) else min, if below then max else guess;
      && min' <= Midpoint(min', max') <= max'
      && Bisecting(data, k, min0, max0, steps + 1, min', max', Midpoint(min', max'))
  {
    SmallerBounds(data, guess);
    if k >= 1 {
      Probe(data, k, guess);
    }
    if steps >= 65 {
      Narrowest(steps, min, max, guess);
    }
    if Smaller(data, guess) + Equal(data, guess) < k {
      WrapSmall(guess + 1);
      Halve(steps, min, max, guess, Wrap(guess + 1), max);
    } else {
      Halve(steps, min, max, guess, min, guess);
    }
  }

  /** One round, once the search has answered; `steps` counts this round. */
  method Refine(k: int, steps: nat, min: int64, max: int64, guess: int64, smaller: int, same: int,
                ghost data: seq<int64>, ghost min0: int64, ghost max0: int64)
    returns (v: Verdict)
    requires steps >= 1 && Extremes(data, min0, max0) && Bisecting(data, k, min0, max0, steps - 1, min, max, guess)
    requires smaller == Smaller(data, guess) && same == Equal(data, guess)
    ensures Decided(v, data, k, min0, max0, steps, guess)
  {
    if steps > 100 {
      if k < 1 {
        Narrowest(steps - 1, min, max, guess);
      }
      return Stop(false);
    }
    if k <= |data| {
      if k < 1 {
        SmallerBounds(data, guess);
      } else {
        Probe(data, k, guess);
      }
    }
    if smaller < k && smaller + same >= k {
      SmallerBounds(data, guess);
      return Stop(true);
    }
    if k > |data| {
      TooFar(data, k, min0, max0, steps - 1, min, max, guess);
    } else {
      Narrower(data, k, min0, max0, steps - 1, min, max, guess);
    }
    var min', max' := min, max;
    if smaller + same < k {
      min' := Wrap(guess + 1);
    } else if smaller >= k {
      max' := guess;
    } else {
      return Stop(false);
    }
    var guess' := Midpoint(min', max');
    if !(min' <= guess' && guess' <= max') {
      return Abort;
    }
    return Again(min', max', guess');
  }

  /**
   * For a rank within the data the bisection returns the element of that rank, after at most
   * 66 searches, so the guard of 100 steps never stops it. A rank below 1 is never found: the
   * guard ends the search at the minimum. A rank above the count fails the assertion after the
   * first search, unless the maximum is the largest int64: then the range wraps around and the
   * guard ends the search.
   */
  method GetKth(search: int64 -> (int, int), k: int, min0: int64, max0: int64, ghost data: seq<int64>)
    returns (out: Outcome, searches: nat)
    requires Extremes(data, min0, max0) && Ranks(search, data)
    ensures Answers(data, k, min0, max0, out, searches)
  {
    var min: int64, max: int64 := min0, max0;
    var steps := 0;
    var guess, succeed, aborted := max, false, false;
    BisectingStarts(data, k, min0, max0);
    while min <= max
      invariant Bisecting(data, k, min0, max0, steps, min, max, guess) && !aborted && !succeed
      invariant min <= max
      decreases 101 - steps
    {
      var (smaller, same) := search(guess);
      steps := steps + 1;
      var v := Refine(k, steps, min, max, guess, smaller, same, data, min0, max0);
      match v
      case Again(min', max', guess') => min, max, guess := min', max', guess';
      case Stop(found) => succeed := found; break;
      case Abort => aborted := true; break;
    }
    out, searches := if aborted then AssertionFailed else Returned(guess, succeed), steps;
  }

  lemma BigPowers()
    ensures Pow2(65) == 2 * TWO64
  {
    assert Pow2(8) == 256;
    PowSum(8, 8);
    PowSum(16, 16);
    PowSum(32, 32);
  }
}
