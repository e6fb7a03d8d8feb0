/** Choosing the pivots of the shuffle from a histogram (examples/wordfreq/partition.h). */
module Partition {
  import opened Modulo
  import opened Sums
  import opened Sorting
  import opened Histogram
  import ShuffleWorker
  import Shuffle
  import ShuffleTheorems

  // ---- Candidate pivots --------------------------------------------------------------

  /** nPivots */
  function PivotCount(maxKey: nat, slots: nat): (n: nat)
    requires maxKey > 0 && slots > 0
    ensures n > 0
  {
    if maxKey / slots == 0 then maxKey else slots
  }

  function Increment(maxKey: nat, slots: nat): (d: nat)
    requires maxKey > 0 && slots > 0
    ensures d > 0
  {
    if maxKey / slots == 0 then 1 else maxKey / slots
  }

  function Multiples(d: nat, n: nat): seq<int> {
    if n == 0 then [] else Multiples(d, n - 1) + [n * d]
  }

  /** The pivots one attempt pushes: multiples of the increment, then the largest key. */
  function EvenPivots(maxKey: nat, slots: nat): seq<int>
    requires maxKey > 0 && slots > 0
  {
    Multiples(Increment(maxKey, slots), PivotCount(maxKey, slots) - 1) + [maxKey]
  }

  lemma {:induction false} MultiplesAre(d: nat, n: nat)
    requires d > 0
    ensures |Multiples(d, n)| == n
    ensures forall i :: 0 <= i < n ==> Multiples(d, n)[i] == (i + 1) * d <= n * d
  {
    if n > 0 {
      MultiplesAre(d, n - 1);
      assert n * d == (n - 1) * d + d;
    }
  }

  lemma MultiplesSorted(d: nat, n: nat)
    requires d > 0
    ensures StrictlySorted(Multiples(d, n))
  {
    MultiplesAre(d, n);
    forall i, j | 0 <= i < j < n ensures Multiples(d, n)[i] < Multiples(d, n)[j] {
      TimesLess(i + 1, j + 1, d);
    }
  }

  lemma TimesLess(a: nat, b: nat, d: nat)
    requires a < b && d > 0
    ensures a * d < b * d
  {
    assert b * d == a * d + (b - a) * d;
    assert (b - a) * d > 0;
  }

  lemma LastMultiple(maxKey: nat, slots: nat)
    requires maxKey > 0 && slots > 0
    ensures (PivotCount(maxKey, slots) - 1) * Increment(maxKey, slots) < maxKey
  {
    var n, d := PivotCount(maxKey, slots), Increment(maxKey, slots);
    if maxKey / slots == 0 {
      assert (maxKey - 1) * 1 < maxKey;
    } else {
      assert slots * d <= maxKey;
      TimesLess(n - 1, n, d);
    }
  }

  /** Every attempt has the number of pivots it announces, strictly increasing, the last one maxKey. */
  lemma EvenPivotsSorted(maxKey: nat, slots: nat)
    requires maxKey > 0 && slots > 0
    ensures var pivots := EvenPivots(maxKey, slots);
      && |pivots| == PivotCount(maxKey, slots)
      && StrictlySorted(pivots)
      && pivots[|pivots| - 1] == maxKey
  {
    var n, d := PivotCount(maxKey, slots) - 1, Increment(maxKey, slots);
    MultiplesAre(d, n);
    MultiplesSorted(d, n);
    LastMultiple(maxKey, slots);
  }

  // ---- Where the candidates lie ------------------------------------------------------

  /** How many candidates there are: the slots, or one a key value if that is fewer. */
  function Candidates(maxKey: nat, slots: nat): nat {
    if maxKey < slots then maxKey else slots
  }

  /** `c` is at `m` of `n` equal parts of the keys up to `maxKey`, less what is rounded off. */
  predicate AtPart(c: int, m: nat, n: nat, maxKey: nat) {
    0 <= m * maxKey - n * c <= m * (n - 1)
  }

  lemma SmallQuotient(a: nat, b: nat)
    requires b > 0
    ensures a / b == 0 <==> a < b
    ensures b * (a / b) <= a < b * (a / b) + b
  {
    if a < b {
      QuotientsAgree(b, a / b, a % b, 0, a);
    }
  }

  lemma CandidateCount(maxKey: nat, slots: nat)
    requires maxKey > 0 && slots > 0
    ensures PivotCount(maxKey, slots) == Candidates(maxKey, slots)
    ensures 0 <= maxKey - Candidates(maxKey, slots) * Increment(maxKey, slots) <= Candidates(maxKey, slots) - 1
  {
    SmallQuotient(maxKey, slots);
  }

  lemma RoundedPart(m: nat, n: nat, d: nat, maxKey: nat)
    requires 0 <= maxKey - n * d <= n - 1
    ensures AtPart(m * d, m, n, maxKey)
  {
    var r := maxKey - n * d;
    assert m * maxKey - n * (m * d) == m * r;
    assert 0 <= m * r <= m * (n - 1) by {
      TimesMonotone(m, r, n - 1);
    }
  }

  lemma TimesMonotone(m: nat, a: nat, b: nat)
    requires a <= b
    ensures 0 <= m * a <= m * b
  {
    assert m * b == m * a + m * (b - a);
  }

  /** The candidates but the last divide the keys up to maxKey evenly, up to the rounding. */
  lemma PivotsDivideEvenly(maxKey: nat, slots: nat)
    requires maxKey > 0 && slots > 0
    ensures var p, n := EvenPivots(maxKey, slots), Candidates(maxKey, slots);
      |p| == n && p[n - 1] == maxKey && forall i :: 0 <= i < n - 1 ==> AtPart(p[i], i + 1, n, maxKey)
  {
    var p, n, d := EvenPivots(maxKey, slots), Candidates(maxKey, slots), Increment(maxKey, slots);
    CandidateCount(maxKey, slots);
    EvenPivotsSorted(maxKey, slots);
    MultiplesAre(d, n - 1);
    forall i | 0 <= i < n - 1 ensures AtPart(p[i], i + 1, n, maxKey) {
      assert p[i] == Multiples(d, n - 1)[i] == (i + 1) * d;
      RoundedPart(i + 1, n, d, maxKey);
    }
  }

  // ---- Cuts --------------------------------------------------------------------------

  /** How many keys are not above `x`. */
  function AtMost(keys: seq<int>, x: int): int {
    Smaller(keys, x + 1)
  }

  /** `hist` is the histogram of `keys` without the overflow slot. */
  ghost predicate IsHistogram(hist: seq<int>, keys: seq<int>, pivots: seq<int>) {
    |hist| == |pivots| && forall j :: 0 <= j < |pivots| ==> hist[j] == Slot(keys, pivots, j)
  }

  /** `std::partial_sum` */
  ghost predicate IsCumulative(cum: seq<int>, keys: seq<int>, pivots: seq<int>) {
    |cum| == |pivots| && forall j :: 0 <= j < |pivots| ==> cum[j] == AtMost(keys, pivots[j])
  }

  ghost predicate NoSlotAbove(hist: seq<int>, bound: int) {
    forall j :: 0 <= j < |hist| ==> hist[j] <= bound
  }

  lemma {:induction false} RankMonotone(keys: seq<int>, x: int, y: int)
    requires x <= y
    ensures 0 <= AtMost(keys, x) <= AtMost(keys, y) <= |keys|
    ensures (forall i :: 0 <= i < |keys| ==> keys[i] <= y) ==> AtMost(keys, y) == |keys|
  {
    if keys != [] {
      RankMonotone(keys[..|keys| - 1], x, y);
    }
  }

  lemma CumulativeSteps(cum: seq<int>, keys: seq<int>, pivots: seq<int>, hist: seq<int>, j: nat)
    requires Sorted(pivots) && IsCumulative(cum, keys, pivots) && IsHistogram(hist, keys, pivots) && j < |pivots|
    ensures cum[j] == hist[j] + if j == 0 then 0 else cum[j - 1]
  {
    SlotsAreRanks(keys, pivots, j);
    if j > 0 {
      SlotsAreRanks(keys, pivots, j - 1);
    } else {
      assert SlotsBefore(keys, pivots, 0) == 0;
    }
  }

  /** The pivot chosen for cut `i`: the first one with at least `target` keys not above it. */
  ghost predicate IsCut(keys: seq<int>, cut: int, target: int, bound: int) {
    target <= AtMost(keys, cut) <= target + bound
  }

  lemma CutIsClose(cum: seq<int>, keys: seq<int>, pivots: seq<int>, hist: seq<int>, target: nat, bound: nat)
    requires Sorted(pivots) && pivots != []
    requires IsCumulative(cum, keys, pivots) && IsHistogram(hist, keys, pivots) && NoSlotAbove(hist, bound)
    requires target <= cum[|cum| - 1]
    ensures LowerBound(cum, target) < |pivots|
    ensures IsCut(keys, pivots[LowerBound(cum, target)], target, bound)
  {
    var j := LowerBound(cum, target);
    CumulativeSteps(cum, keys, pivots, hist, j);
  }

  // ---- The function ------------------------------------------------------------------

  /** A failed assertion stops the program; otherwise there is one pivot a worker. */
  datatype Outcome = AssertionFailed | Chosen(pivots: seq<int>)

  /** A histogram service for the keys, called with strictly increasing pivots. */
  ghost predicate Serves(getHist: seq<int> -> seq<int>, keys: seq<int>) {
    forall p :: p != [] && StrictlySorted(p) ==> IsHistogram(getHist(p), keys, p)
  }

  const FIRST_SLOTS: nat := 32

  /** No slot of the first attempt holds more than twice the average. */
  ghost predicate FirstAttemptFits(maxKey: nat, keyCount: nat, nWorkers: nat, keys: seq<int>)
    requires maxKey > 0 && nWorkers > 0
  {
    forall j :: 0 <= j < PivotCount(maxKey, FIRST_SLOTS * nWorkers) ==>
      Slot(keys, EvenPivots(maxKey, FIRST_SLOTS * nWorkers), j) <= SlotBound(maxKey, keyCount, nWorkers)
  }

  function SlotBound(maxKey: nat, keyCount: nat, nWorkers: nat): nat
    requires maxKey > 0 && nWorkers > 0
  {
    TwiceAverage(keyCount, PivotCount(maxKey, FIRST_SLOTS * nWorkers))
  }

  function TwiceAverage(keyCount: nat, nPivots: nat): nat
    requires nPivots > 0
  {
    QuotientNonNegative(2 * keyCount, nPivots);
    2 * keyCount / nPivots
  }

  lemma QuotientNonNegative(a: nat, b: nat)
    requires b > 0
    ensures a / b >= 0
  {
  }

  /** maxKey, or at a part of the keys up to it. */
  ghost predicate EvenPoint(c: int, n: nat, maxKey: nat) {
    c == maxKey || exists m: nat :: 1 <= m < n && AtPart(c, m, n, maxKey)
  }

  /** The keys a worker's cut is to have at or below it: `i * perWorker`. */
  function Target(share: nat, i: nat): nat {
    if i == 0 then 0 else Target(share, i - 1) + share
  }

  lemma {:induction false} TargetIsProduct(share: nat, i: nat)
    ensures Target(share, i) == i * share
  {
    if i > 0 {
      TargetIsProduct(share, i - 1);
      assert i * share == (i - 1) * share + share;
    }
  }

  /** The targets of `n` workers are within the number of keys. */
  ghost predicate TargetsFit(share: nat, n: nat, count: nat) {
    forall i :: 0 <= i <= n ==> Target(share, i) <= count
  }

  lemma SharesFit(count: nat, n: nat)
    requires n > 0
    ensures TargetsFit(Share(count, n), n, count)
  {
    var share := Share(count, n);
    forall i | 0 <= i <= n ensures Target(share, i) <= count {
      TargetIsProduct(share, i);
      ProductFits(count, n, i);
    }
  }

  lemma ProductFits(count: nat, n: nat, i: nat)
    requires n > 0 && i <= n
    ensures i * (count / n) <= count
  {
    assert n * (count / n) <= count;
    if i < n {
      assert (n - i) * (count / n) >= 0;
    }
  }

  /** perWorker */
  function Share(keyCount: nat, nWorkers: nat): nat
    requires nWorkers > 0
  {
    QuotientNonNegative(keyCount, nWorkers);
    keyCount / nWorkers
  }

  /** How many keys are not above each candidate. */
  function Cumulative(keys: seq<int>, pivots: seq<int>): (cum: seq<int>)
    ensures IsCumulative(cum, keys, pivots)
  {
    seq(|pivots|, j requires 0 <= j < |pivots| => AtMost(keys, pivots[j]))
  }

  /** The slot a target is reached in. */
  predicate Reached(keys: seq<int>, pivots: seq<int>, j: nat, target: int)
    requires j < |pivots|
  {
    (j == 0 || AtMost(keys, pivots[j - 1]) < target) && target <= AtMost(keys, pivots[j])
  }

  /** The first candidate with `target` keys at or below it. */
  function Candidate(keys: seq<int>, pivots: seq<int>, target: int): int
    requires pivots != []
  {
    var j := LowerBound(Cumulative(keys, pivots), target);
    if j < |pivots| then pivots[j] else pivots[|pivots| - 1]
  }

  /** The candidates for the first `n` targets. */
  function Quantiles(keys: seq<int>, pivots: seq<int>, share: nat, n: nat): (cuts: seq<int>)
    requires pivots != []
    ensures |cuts| == n && forall i :: 0 <= i < n ==> cuts[i] == Candidate(keys, pivots, Target(share, i + 1))
  {
    if n == 0 then [] else Quantiles(keys, pivots, share, n - 1) + [Candidate(keys, pivots, Target(share, n))]
  }

  /**
   * What the function gives: nothing unless the first attempt fits, because a retry fails its
   * size check; otherwise the quantiles among the first attempt's candidates, and maxKey.
   */
  ghost function Choice(maxKey: nat, nWorkers: nat, keys: seq<int>): Outcome
    requires maxKey > 0 && nWorkers > 0
  {
    if FirstAttemptFits(maxKey, |keys|, nWorkers, keys) then
      var pivots := EvenPivots(maxKey, FIRST_SLOTS * nWorkers);
      Chosen(Quantiles(keys, pivots, Share(|keys|, nWorkers), nWorkers - 1) + [maxKey])
    else AssertionFailed
  }

  /** Cut `i` has between i*perWorker and i*perWorker + bound keys at or below it; the last is maxKey. */
  ghost predicate Cuts(result: seq<int>, keys: seq<int>, maxKey: nat, perWorker: nat, n: nat, bound: nat) {
    && |result| == n
    && forall i :: 1 <= i <= n ==> IsCut(keys, result[i - 1], Target(perWorker, i), bound) && result[i - 1] <= maxKey
  }

  ghost predicate Covers(keys: seq<int>, maxKey: int) {
    forall i :: 0 <= i < |keys| ==> keys[i] <= maxKey
  }

  /** One attempt's pivots, pushed after whatever is there already. */
  method PushPivots(maxKey: nat, slots: nat, before: seq<int>) returns (pivots: seq<int>, nPivots: nat)
    requires maxKey > 0 && slots > 0
    ensures pivots == before + EvenPivots(maxKey, slots) && nPivots == PivotCount(maxKey, slots)
    ensures nPivots == Candidates(maxKey, slots) && |pivots| == |before| + nPivots
    ensures forall i :: 0 <= i < nPivots - 1 ==> AtPart(pivots[|before|..][i], i + 1, nPivots, maxKey)
  {
    PivotsDivideEvenly(maxKey, slots);
    CandidateCount(maxKey, slots);
    nPivots := slots;
    var increment := maxKey / nPivots;
    if increment == 0 {
      increment := 1;
      nPivots := maxKey;
    }
    pivots := before;
    for i := 1 to nPivots
      invariant pivots == before + Multiples(increment, i - 1)
    {
      pivots := pivots + [i * increment];
    }
    pivots := pivots + [maxKey];
  }

  method TooFull(histogram: seq<int>, limit: int) returns (retry: bool)
    ensures retry <==> !NoSlotAbove(histogram, limit)
  {
    for i := 0 to |histogram|
      invariant forall j :: 0 <= j < i ==> histogram[j] <= limit
    {
      if histogram[i] > limit {
        return true;
      }
    }
    return false;
  }

  /** One attempt: its size check holds exactly when it starts from no pivots. */
  method Attempt(maxKey: nat, keyCount: nat, slots: nat, before: seq<int>, getHist: seq<int> -> seq<int>,
                 ghost keys: seq<int>)
    returns (ok: bool, pivots: seq<int>, histogram: seq<int>, retry: bool)
    requires maxKey > 0 && slots > 0 && Serves(getHist, keys)
    ensures ok <==> before == []
    ensures pivots != []
    ensures ok ==>
      && pivots == EvenPivots(maxKey, slots) && IsHistogram(histogram, keys, pivots)
      && (retry <==> !NoSlotAbove(histogram, 2 * keyCount / PivotCount(maxKey, slots)))
  {
    var nPivots;
    pivots, nPivots := PushPivots(maxKey, slots, before);
    EvenPivotsSorted(maxKey, slots);
    if |pivots| != nPivots {
      return false, pivots, [], false;
    }
    assert pivots == EvenPivots(maxKey, slots);
    ok, histogram := true, getHist(pivots);
    retry := TooFull(histogram, 2 * keyCount / nPivots);
  }

  lemma FitsByHistogram(maxKey: nat, keyCount: nat, nWorkers: nat, hist: seq<int>, keys: seq<int>)
    requires maxKey > 0 && nWorkers > 0
    requires IsHistogram(hist, keys, EvenPivots(maxKey, FIRST_SLOTS * nWorkers))
    ensures FirstAttemptFits(maxKey, keyCount, nWorkers, keys)
      <==> NoSlotAbove(hist, SlotBound(maxKey, keyCount, nWorkers))
  {
    EvenPivotsSorted(maxKey, FIRST_SLOTS * nWorkers);
  }

  /**
   * The retry pushes the pivots of a second attempt after those of the first, so its size
   * check fails: there is a result exactly when no slot of the first attempt is too full.
   * Then the cut of every worker but the last is within the slot bound of its quantile.
   */
  method Choose(maxKey: nat, keyCount: nat, nWorkers: nat, getHist: seq<int> -> seq<int>, ghost keys: seq<int>)
    returns (out: Outcome)
    requires maxKey > 0 && keyCount > 0 && nWorkers > 0
    requires |keys| == keyCount && Covers(keys, maxKey) && Serves(getHist, keys)
    ensures out == Choice(maxKey, nWorkers, keys)
    ensures out.Chosen? <==> FirstAttemptFits(maxKey, keyCount, nWorkers, keys)
    ensures out.Chosen? ==>
      && |out.pivots| == nWorkers && out.pivots[nWorkers - 1] == maxKey
      && (forall i :: 0 <= i < nWorkers ==> EvenPoint(out.pivots[i], Candidates(maxKey, 32 * nWorkers), maxKey))
      && Cuts(out.pivots[..nWorkers - 1], keys, maxKey, Share(keyCount, nWorkers), nWorkers - 1,
              SlotBound(maxKey, keyCount, nWorkers))
  {
    var slotsPerWorker := FIRST_SLOTS;
    var pivots: seq<int> := [];
    var histogram: seq<int> := [];
    var done := false;
    while !done
      invariant !done && slotsPerWorker == FIRST_SLOTS ==> pivots == []
      invariant !done && slotsPerWorker != FIRST_SLOTS ==>
        pivots != [] && !FirstAttemptFits(maxKey, keyCount, nWorkers, keys)
      invariant slotsPerWorker == FIRST_SLOTS || slotsPerWorker == 2 * FIRST_SLOTS
      invariant done ==>
        && pivots == EvenPivots(maxKey, FIRST_SLOTS * nWorkers) && IsHistogram(histogram, keys, pivots)
        && NoSlotAbove(histogram, SlotBound(maxKey, keyCount, nWorkers))
      decreases if done then 0 else 1, 4 * FIRST_SLOTS - slotsPerWorker
    {
      var ok, retry;
      ok, pivots, histogram, retry := Attempt(maxKey, keyCount, slotsPerWorker * nWorkers, pivots, getHist, keys);
      if !ok {
        return AssertionFailed;
      }
      FitsByHistogram(maxKey, keyCount, nWorkers, histogram, keys);
      if retry && slotsPerWorker <= 1024 {
        slotsPerWorker := slotsPerWorker * 2;
      } else {
        done := true;
      }
    }
    FitsByHistogram(maxKey, keyCount, nWorkers, histogram, keys);
    EvenPivotsSorted(maxKey, FIRST_SLOTS * nWorkers);
    out := Cut(maxKey, keyCount, nWorkers, pivots, histogram, SlotBound(maxKey, keyCount, nWorkers), keys);
    forall i | 0 <= i < nWorkers ensures EvenPoint(out.pivots[i], Candidates(maxKey, 32 * nWorkers), maxKey) {
      ChosenAreEven(maxKey, nWorkers, keys, i);
    }
  }

  method PartialSum(histogram: seq<int>, ghost keys: seq<int>, ghost pivots: seq<int>) returns (cum: seq<int>)
    requires Sorted(pivots) && IsHistogram(histogram, keys, pivots)
    ensures IsCumulative(cum, keys, pivots)
  {
    cum := [];
    for j := 0 to |histogram|
      invariant |cum| == j && forall k :: 0 <= k < j ==> cum[k] == SlotsBefore(keys, pivots, k + 1)
    {
      assert SlotsBefore(keys, pivots, 0) == 0;
      cum := cum + [histogram[j] + if j == 0 then 0 else cum[j - 1]];
    }
    forall j | 0 <= j < |pivots| ensures cum[j] == AtMost(keys, pivots[j]) {
      SlotsAreRanks(keys, pivots, j);
    }
  }

  /** The quantile cuts of an accepted attempt; every assertion on the way holds. */
  method Cut(maxKey: nat, keyCount: nat, nWorkers: nat, pivots: seq<int>, histogram: seq<int>,
             ghost bound: nat, ghost keys: seq<int>)
    returns (out: Outcome)
    requires keyCount > 0 && nWorkers > 0 && |keys| == keyCount && Covers(keys, maxKey)
    requires pivots != [] && StrictlySorted(pivots) && pivots[|pivots| - 1] == maxKey
    requires IsHistogram(histogram, keys, pivots) && NoSlotAbove(histogram, bound)
    ensures out == Chosen(Quantiles(keys, pivots, Share(keyCount, nWorkers), nWorkers - 1) + [maxKey])
    ensures |out.pivots| == nWorkers && out.pivots[nWorkers - 1] == maxKey
    ensures Cuts(out.pivots[..nWorkers - 1], keys, maxKey, Share(keyCount, nWorkers), nWorkers - 1, bound)
  {
    var cum := PartialSum(histogram, keys, pivots);
    RankMonotone(keys, maxKey, maxKey);
    if cum[|cum| - 1] != keyCount {
      return AssertionFailed;
    }
    SharesFit(keyCount, nWorkers);
    out := PickCuts(maxKey, nWorkers, pivots, cum, Share(keyCount, nWorkers), histogram, bound, keys);
  }

  /** The loop over the workers but the last, and the last pivot. */
  method PickCuts(maxKey: nat, nWorkers: nat, pivots: seq<int>, cum: seq<int>, perWorker: nat,
                  ghost histogram: seq<int>, ghost bound: nat, ghost keys: seq<int>)
    returns (out: Outcome)
    requires nWorkers > 0 && Covers(keys, maxKey) && TargetsFit(perWorker, nWorkers, |keys|)
    requires pivots != [] && StrictlySorted(pivots) && pivots[|pivots| - 1] == maxKey
    requires IsHistogram(histogram, keys, pivots) && NoSlotAbove(histogram, bound) && IsCumulative(cum, keys, pivots)
    ensures out == Chosen(Quantiles(keys, pivots, perWorker, nWorkers - 1) + [maxKey])
    ensures |out.pivots| == nWorkers && out.pivots[nWorkers - 1] == maxKey
    ensures Cuts(out.pivots[..nWorkers - 1], keys, maxKey, perWorker, nWorkers - 1, bound)
  {
    var result := [];
    for i := 1 to nWorkers
      invariant result == Quantiles(keys, pivots, perWorker, i - 1)
    {
      var target := i * perWorker;
      TargetIsProduct(perWorker, i);
      CandidateFits(keys, pivots, cum, histogram, bound, target);
      var it := LowerBound(cum, target);
      if it == |cum| {
        return AssertionFailed;
      }
      result := result + [pivots[it]];
    }
    CutsOfQuantiles(keys, pivots, perWorker, histogram, bound, maxKey, nWorkers);
    result := result + [maxKey];
    return Chosen(result);
  }

  lemma CandidateFits(keys: seq<int>, pivots: seq<int>, cum: seq<int>, histogram: seq<int>, bound: nat, target: nat)
    requires pivots != [] && StrictlySorted(pivots) && Covers(keys, pivots[|pivots| - 1])
    requires IsHistogram(histogram, keys, pivots) && NoSlotAbove(histogram, bound) && IsCumulative(cum, keys, pivots)
    requires target <= |keys|
    ensures LowerBound(cum, target) < |pivots| && pivots[LowerBound(cum, target)] == Candidate(keys, pivots, target)
    ensures IsCut(keys, Candidate(keys, pivots, target), target, bound)
    ensures Candidate(keys, pivots, target) <= pivots[|pivots| - 1]
  {
    assert cum == Cumulative(keys, pivots);
    RankMonotone(keys, pivots[|pivots| - 1], pivots[|pivots| - 1]);
    CutIsClose(cum, keys, pivots, histogram, target, bound);
  }

  lemma CutsOfQuantiles(keys: seq<int>, pivots: seq<int>, share: nat, histogram: seq<int>, bound: nat, maxKey: nat,
                        nWorkers: nat)
    requires pivots != [] && StrictlySorted(pivots) && Covers(keys, maxKey) && pivots[|pivots| - 1] == maxKey
    requires IsHistogram(histogram, keys, pivots) && NoSlotAbove(histogram, bound)
    requires nWorkers > 0 && TargetsFit(share, nWorkers, |keys|)
    ensures Cuts((Quantiles(keys, pivots, share, nWorkers - 1) + [maxKey])[..nWorkers - 1], keys, maxKey,
                 share, nWorkers - 1, bound)
  {
    var cuts := Quantiles(keys, pivots, share, nWorkers - 1);
    assert (cuts + [maxKey])[..nWorkers - 1] == cuts;
    forall i | 1 <= i <= nWorkers - 1
      ensures IsCut(keys, cuts[i - 1], Target(share, i), bound) && cuts[i - 1] <= maxKey
    {
      CandidateFits(keys, pivots, Cumulative(keys, pivots), histogram, bound, Target(share, i));
      assert cuts[i - 1] == Candidate(keys, pivots, Target(share, i - 1 + 1));
    }
  }

  // ---- When the retry is taken -------------------------------------------------------

  lemma {:induction false} SlotNonNegative(keys: seq<int>, pivots: seq<int>, j: nat)
    ensures Slot(keys, pivots, j) >= 0
  {
    if keys != [] {
      SlotNonNegative(keys[..|keys| - 1], pivots, j);
    }
  }

  lemma FirstKeyCounts(keys: seq<int>, pivots: seq<int>)
    requires keys != []
    ensures Slot(keys, pivots, LowerBound(pivots, keys[0])) >= 1
  {
    var j := LowerBound(pivots, keys[0]);
    SumRemove(keys, 0, InSlot(pivots, j));
    SlotNonNegative(RemoveAt(keys, 0), pivots, j);
  }

  lemma QuotientZero(a: nat, n: nat)
    requires a < n
    ensures a / n == 0
  {
  }

  /** With fewer than half as many keys as pivots the bound is zero and every input fails. */
  lemma SparseKeysFail(maxKey: nat, nWorkers: nat, keys: seq<int>)
    requires maxKey > 0 && nWorkers > 0 && keys != [] && Covers(keys, maxKey)
    requires 2 * |keys| < PivotCount(maxKey, FIRST_SLOTS * nWorkers)
    ensures !FirstAttemptFits(maxKey, |keys|, nWorkers, keys)
  {
    var slots := FIRST_SLOTS * nWorkers;
    EvenPivotsSorted(maxKey, slots);
    FirstKeyCounts(keys, EvenPivots(maxKey, slots));
    QuotientZero(2 * |keys|, PivotCount(maxKey, slots));
    assert SlotBound(maxKey, |keys|, nWorkers) == 0;
    assert LowerBound(EvenPivots(maxKey, slots), keys[0]) < PivotCount(maxKey, slots);
  }

  /** One worker with the single key 32 is such an input. */
  lemma RetryFailsForOneKey()
    ensures Choice(32, 1, [32]) == AssertionFailed
  {
    SparseKeysFail(32, 1, [32]);
  }

  // ---- What the cuts are good for ----------------------------------------------------

  /** How many keys a worker is to receive: those above its cut's predecessor and not above its cut. */
  function WorkerLoad(pivots: seq<int>, keys: seq<int>, i: nat): int
    requires i < |pivots|
  {
    AtMost(keys, pivots[i]) - if i == 0 then 0 else AtMost(keys, pivots[i - 1])
  }

  ghost predicate GoodChoice(pivots: seq<int>, keys: seq<int>, maxKey: nat, nWorkers: nat, bound: nat)
    requires nWorkers > 0
  {
    && |pivots| == nWorkers && pivots[nWorkers - 1] == maxKey
    && Cuts(pivots[..nWorkers - 1], keys, maxKey, Share(|keys|, nWorkers), nWorkers - 1, bound)
  }

  lemma CutAt(pivots: seq<int>, keys: seq<int>, maxKey: nat, nWorkers: nat, bound: nat, i: nat)
    requires nWorkers > 0 && GoodChoice(pivots, keys, maxKey, nWorkers, bound) && i < nWorkers - 1
    ensures IsCut(keys, pivots[i], Target(Share(|keys|, nWorkers), i + 1), bound) && pivots[i] <= maxKey
  {
    var cuts := pivots[..nWorkers - 1];
    assert cuts[i + 1 - 1] == pivots[i];
  }

  /** The numbers behind the first attempt: 32 slots a worker, and twice the average in a slot. */
  lemma FirstAttemptIs(maxKey: nat, nWorkers: nat, keys: seq<int>)
    requires maxKey > 0 && nWorkers > 0
    ensures var n := Candidates(maxKey, 32 * nWorkers);
      && n > 0
      && SlotBound(maxKey, |keys|, nWorkers) == 2 * |keys| / n
      && Share(|keys|, nWorkers) == |keys| / nWorkers
      && (FirstAttemptFits(maxKey, |keys|, nWorkers, keys) <==>
            forall j :: 0 <= j < n ==> Slot(keys, EvenPivots(maxKey, 32 * nWorkers), j) <= 2 * |keys| / n)
  {
    CandidateCount(maxKey, 32 * nWorkers);
  }

  /** Every pivot chosen is maxKey or one of the points that divide the keys evenly. */
  lemma ChosenAreEven(maxKey: nat, nWorkers: nat, keys: seq<int>, i: nat)
    requires maxKey > 0 && nWorkers > 0 && Choice(maxKey, nWorkers, keys).Chosen?
    requires i < |Choice(maxKey, nWorkers, keys).pivots|
    ensures EvenPoint(Choice(maxKey, nWorkers, keys).pivots[i], Candidates(maxKey, 32 * nWorkers), maxKey)
  {
    var slots := 32 * nWorkers;
    var pivots := EvenPivots(maxKey, slots);
    PivotsDivideEvenly(maxKey, slots);
    if i < nWorkers - 1 {
      CandidateIsPivot(keys, pivots, Target(Share(|keys|, nWorkers), i + 1));
      var j :| 0 <= j < |pivots| && Choice(maxKey, nWorkers, keys).pivots[i] == pivots[j];
      if j < |pivots| - 1 {
        assert AtPart(pivots[j], j + 1, |pivots|, maxKey);
      }
    }
  }

  lemma CandidateIsPivot(keys: seq<int>, pivots: seq<int>, target: int)
    requires pivots != []
    ensures exists j :: 0 <= j < |pivots| && Candidate(keys, pivots, target) == pivots[j]
  {
    var j := LowerBound(Cumulative(keys, pivots), target);
    assert Candidate(keys, pivots, target) == pivots[if j < |pivots| then j else |pivots| - 1];
  }

  /** What the function gives is a good choice. */
  lemma ChoiceIsGood(maxKey: nat, nWorkers: nat, keys: seq<int>)
    requires maxKey > 0 && nWorkers > 0 && keys != [] && Covers(keys, maxKey)
    requires FirstAttemptFits(maxKey, |keys|, nWorkers, keys)
    ensures GoodChoice(Choice(maxKey, nWorkers, keys).pivots, keys, maxKey, nWorkers,
                       SlotBound(maxKey, |keys|, nWorkers))
  {
    var pivots := EvenPivots(maxKey, FIRST_SLOTS * nWorkers);
    var hist := seq(|pivots|, j requires 0 <= j < |pivots| => Slot(keys, pivots, j));
    EvenPivotsSorted(maxKey, FIRST_SLOTS * nWorkers);
    SharesFit(|keys|, nWorkers);
    CutsOfQuantiles(keys, pivots, Share(|keys|, nWorkers), hist, SlotBound(maxKey, |keys|, nWorkers), maxKey, nWorkers);
  }

  /** Every worker but the last receives its share to within the slot bound. */
  lemma LoadsBalanced(maxKey: nat, nWorkers: nat, keys: seq<int>, i: nat)
    requires maxKey > 0 && nWorkers > 0 && keys != [] && Covers(keys, maxKey)
    requires FirstAttemptFits(maxKey, |keys|, nWorkers, keys) && i < nWorkers - 1
    ensures var share, bound := Share(|keys|, nWorkers), SlotBound(maxKey, |keys|, nWorkers);
      share - bound <= WorkerLoad(Choice(maxKey, nWorkers, keys).pivots, keys, i) <= share + bound
  {
    ChoiceIsGood(maxKey, nWorkers, keys);
    var pivots, bound := Choice(maxKey, nWorkers, keys).pivots, SlotBound(maxKey, |keys|, nWorkers);
    assert Target(Share(|keys|, nWorkers), i + 1) == Target(Share(|keys|, nWorkers), i) + Share(|keys|, nWorkers);
    CutAt(pivots, keys, maxKey, nWorkers, bound, i);
    if i > 0 {
      CutAt(pivots, keys, maxKey, nWorkers, bound, i - 1);
      assert Target(Share(|keys|, nWorkers), i - 1 + 1) == Target(Share(|keys|, nWorkers), i);
    }
  }

  /** The load is what the shuffle routes to the worker. */
  lemma {:induction false} LoadIsRouted(c: ShuffleWorker.Config, keys: seq<int>, i: nat)
    requires c.Valid() && i < c.Parts()
    ensures WorkerLoad(c.pivots, keys, i) == ShuffleWorker.Load(c, keys, i)
  {
    if keys != [] {
      LoadIsRouted(c, keys[..|keys| - 1], i);
      ShuffleWorker.PartIsBetween(c, i, keys[|keys| - 1]);
    }
  }

  /**
   * From the histogram to the sorted partitions: in every run of the shuffle with the chosen
   * pivots, once everything is delivered, every worker but the last has its share of all the
   * keys to within the slot bound.
   */
  lemma ReceiversAreBalanced(maxKey: nat, nWorkers: nat, shards: seq<seq<int>>, es: seq<Shuffle.Event>, i: nat)
    requires maxKey > 0 && nWorkers > 0 && i < nWorkers - 1
    requires var keys := ShuffleTheorems.AllKeys(shards);
      keys != [] && Covers(keys, maxKey) && FirstAttemptFits(maxKey, |keys|, nWorkers, keys)
    requires var c := ChosenConfig(maxKey, nWorkers, shards);
      && Shuffle.Shuffleable(c, shards)
      && Shuffle.Run(c, Shuffle.Init(c, shards), es).Some?
      && ShuffleTheorems.Settled(Shuffle.Run(c, Shuffle.Init(c, shards), es).value)
    ensures var c, keys := ChosenConfig(maxKey, nWorkers, shards), ShuffleTheorems.AllKeys(shards);
      var share, bound := Share(|keys|, nWorkers), SlotBound(maxKey, |keys|, nWorkers);
      var receivers := Shuffle.Run(c, Shuffle.Init(c, shards), es).value.receivers;
      |receivers| == nWorkers && share - bound <= |receivers[i].keys| <= share + bound
  {
    var c, keys := ChosenConfig(maxKey, nWorkers, shards), ShuffleTheorems.AllKeys(shards);
    ChoiceIsGood(maxKey, nWorkers, keys);
    ShuffleTheorems.PartitionSize(c, shards, Shuffle.Run(c, Shuffle.Init(c, shards), es).value, i);
    LoadIsRouted(c, keys, i);
    LoadsBalanced(maxKey, nWorkers, keys, i);
  }

  /** The shuffle's configuration for the pivots chosen for all the workers' keys. */
  ghost function ChosenConfig(maxKey: nat, nWorkers: nat, shards: seq<seq<int>>): ShuffleWorker.Config
    requires maxKey > 0 && nWorkers > 0
  {
    var choice := Choice(maxKey, nWorkers, ShuffleTheorems.AllKeys(shards));
    ShuffleWorker.WordfreqConfig(if choice.Chosen? then choice.pivots else [])
  }

  // ---- When the workers accept the choice --------------------------------------------

  /** A target is reached in one slot, which is the one chosen. */
  lemma ReachedExactly(keys: seq<int>, pivots: seq<int>, j: nat, target: int)
    requires Sorted(pivots) && j < |pivots| && target <= AtMost(keys, pivots[|pivots| - 1])
    ensures Reached(keys, pivots, j, target) <==> j == LowerBound(Cumulative(keys, pivots), target)
  {
    var k := LowerBound(Cumulative(keys, pivots), target);
    if k < j {
      RankMonotone(keys, pivots[k], pivots[j - 1]);
    }
  }

  ghost predicate OneSlotReaches(keys: seq<int>, pivots: seq<int>, a: int, b: int) {
    exists j :: 0 <= j < |pivots| && Reached(keys, pivots, j, a) && Reached(keys, pivots, j, b)
  }

  /** The candidates for two targets are the same exactly when one slot reaches both. */
  lemma CandidatesDiffer(keys: seq<int>, pivots: seq<int>, a: int, b: int)
    requires StrictlySorted(pivots) && pivots != [] && a <= b <= AtMost(keys, pivots[|pivots| - 1])
    ensures Candidate(keys, pivots, a) <= Candidate(keys, pivots, b)
    ensures Candidate(keys, pivots, a) < Candidate(keys, pivots, b) <==>
            !OneSlotReaches(keys, pivots, a, b)
  {
    var cum := Cumulative(keys, pivots);
    var i := LowerBound(cum, a);
    ReachedExactly(keys, pivots, i, a);
    ReachedExactly(keys, pivots, i, b);
    forall j | 0 <= j < |pivots| && Reached(keys, pivots, j, a) ensures j == i {
      ReachedExactly(keys, pivots, j, a);
    }
  }

  /** No slot reaches the targets of two neighbours. */
  ghost predicate Apart(keys: seq<int>, pivots: seq<int>, share: nat, i: nat) {
    !OneSlotReaches(keys, pivots, Target(share, i), Target(share, i + 1))
  }

  /** No slot of the first attempt reaches two workers' targets, and the last one reaches none. */
  ghost predicate TargetsApart(keys: seq<int>, pivots: seq<int>, share: nat, nWorkers: nat)
    requires pivots != [] && nWorkers > 0
  {
    && (forall i :: 1 <= i < nWorkers - 1 ==> Apart(keys, pivots, share, i))
    && (nWorkers >= 2 ==> !Reached(keys, pivots, |pivots| - 1, Target(share, nWorkers - 1)))
  }

  /** Two neighbours of the choice are in order exactly when no slot reaches both targets. */
  lemma NeighboursIncrease(keys: seq<int>, pivots: seq<int>, share: nat, n: nat, i: nat)
    requires StrictlySorted(pivots) && pivots != [] && Covers(keys, pivots[|pivots| - 1])
    requires TargetsFit(share, n, |keys|) && 1 <= i < n - 1
    ensures var all := Quantiles(keys, pivots, share, n - 1) + [pivots[|pivots| - 1]];
      all[i - 1] < all[i] <==> Apart(keys, pivots, share, i)
  {
    var all := Quantiles(keys, pivots, share, n - 1) + [pivots[|pivots| - 1]];
    assert all[i - 1] == Candidate(keys, pivots, Target(share, i - 1 + 1));
    assert all[i] == Candidate(keys, pivots, Target(share, i + 1));
    RankMonotone(keys, pivots[|pivots| - 1], pivots[|pivots| - 1]);
    CandidatesDiffer(keys, pivots, Target(share, i), Target(share, i + 1));
  }

  /** The last cut is below maxKey exactly when its target is reached before the last slot. */
  lemma LastCutBelow(keys: seq<int>, pivots: seq<int>, share: nat, n: nat)
    requires StrictlySorted(pivots) && pivots != [] && Covers(keys, pivots[|pivots| - 1])
    requires TargetsFit(share, n, |keys|) && n >= 2
    ensures var all := Quantiles(keys, pivots, share, n - 1) + [pivots[|pivots| - 1]];
      all[n - 2] < all[n - 1] <==> !Reached(keys, pivots, |pivots| - 1, Target(share, n - 1))
  {
    var all := Quantiles(keys, pivots, share, n - 1) + [pivots[|pivots| - 1]];
    assert all[n - 2] == Candidate(keys, pivots, Target(share, n - 2 + 1));
    RankMonotone(keys, pivots[|pivots| - 1], pivots[|pivots| - 1]);
    LastCandidate(keys, pivots, Target(share, n - 1));
  }

  lemma LastCandidate(keys: seq<int>, pivots: seq<int>, target: int)
    requires StrictlySorted(pivots) && pivots != [] && target <= AtMost(keys, pivots[|pivots| - 1])
    ensures Candidate(keys, pivots, target) < pivots[|pivots| - 1] <==> !Reached(keys, pivots, |pivots| - 1, target)
  {
    ReachedExactly(keys, pivots, |pivots| - 1, target);
  }

  lemma OrderedApart(keys: seq<int>, pivots: seq<int>, share: nat, n: nat)
    requires StrictlySorted(pivots) && pivots != [] && Covers(keys, pivots[|pivots| - 1])
    requires TargetsFit(share, n, |keys|) && n > 0
    ensures ShuffleTheorems.AdjacentSorted(Quantiles(keys, pivots, share, n - 1) + [pivots[|pivots| - 1]])
      <==> TargetsApart(keys, pivots, share, n)
  {
    var all := Quantiles(keys, pivots, share, n - 1) + [pivots[|pivots| - 1]];
    forall i | 1 <= i < n - 1 ensures all[i - 1] < all[i] <==> Apart(keys, pivots, share, i) {
      NeighboursIncrease(keys, pivots, share, n, i);
    }
    if n >= 2 {
      LastCutBelow(keys, pivots, share, n);
    }
    AllApart(keys, pivots, share, n, all);
  }

  lemma AllApart(keys: seq<int>, pivots: seq<int>, share: nat, nWorkers: nat, all: seq<int>)
    requires pivots != [] && nWorkers > 0 && |all| == nWorkers
    requires forall i :: 1 <= i < nWorkers - 1 ==> (all[i - 1] < all[i] <==> Apart(keys, pivots, share, i))
    requires nWorkers >= 2 ==> (all[nWorkers - 2] < all[nWorkers - 1] <==>
      !Reached(keys, pivots, |pivots| - 1, Target(share, nWorkers - 1)))
    ensures ShuffleTheorems.AdjacentSorted(all) <==> TargetsApart(keys, pivots, share, nWorkers)
  {
    AdjacentByIndex(all);
    if ShuffleTheorems.AdjacentSorted(all) {
      forall i | 1 <= i < nWorkers - 1 ensures Apart(keys, pivots, share, i) {
        assert all[i - 1] < all[i];
      }
    } else if TargetsApart(keys, pivots, share, nWorkers) {
      forall i | 1 <= i < |all| - 1 ensures all[i - 1] < all[i] {
        assert Apart(keys, pivots, share, i);
      }
      assert false;
    }
  }

  lemma AdjacentByIndex(s: seq<int>)
    ensures ShuffleTheorems.AdjacentSorted(s) <==>
            (forall i :: 1 <= i < |s| - 1 ==> s[i - 1] < s[i]) && (|s| >= 2 ==> s[|s| - 2] < s[|s| - 1])
  {
    if (forall i :: 1 <= i < |s| - 1 ==> s[i - 1] < s[i]) && (|s| >= 2 ==> s[|s| - 2] < s[|s| - 1]) {
      forall j | 0 <= j < |s| - 1 ensures s[j] < s[j + 1] {
        if j < |s| - 2 {
          assert s[j + 1 - 1] < s[j + 1];
        }
      }
    }
    if ShuffleTheorems.AdjacentSorted(s) {
      forall i | 1 <= i < |s| - 1 ensures s[i - 1] < s[i] {
        assert s[i - 1] < s[i - 1 + 1];
      }
    }
  }

  lemma AcceptsIncreasing(chosen: seq<int>, nWorkers: nat, maxKey: nat, shard: seq<int>)
    requires nWorkers > 0 && |chosen| == nWorkers && chosen[nWorkers - 1] == maxKey && Covers(shard, maxKey)
    ensures ShuffleTheorems.AcceptsShuffle(chosen, nWorkers, shard, false) <==> ShuffleTheorems.AdjacentSorted(chosen)
  {
    ShuffleTheorems.MaxKeyBounds(shard, maxKey);
  }

  /**
   * The workers accept the chosen pivots exactly when no slot reaches two workers' targets and
   * the last slot reaches none: equal neighbours are what they refuse.
   */
  lemma ChoiceIsAccepted(maxKey: nat, nWorkers: nat, keys: seq<int>, shard: seq<int>)
    requires maxKey > 0 && nWorkers > 0 && Covers(keys, maxKey) && Covers(shard, maxKey)
    requires FirstAttemptFits(maxKey, |keys|, nWorkers, keys)
    ensures ShuffleTheorems.AcceptsShuffle(Choice(maxKey, nWorkers, keys).pivots, nWorkers, shard, false)
      <==> TargetsApart(keys, EvenPivots(maxKey, FIRST_SLOTS * nWorkers), Share(|keys|, nWorkers), nWorkers)
  {
    EvenPivotsSorted(maxKey, FIRST_SLOTS * nWorkers);
    SharesFit(|keys|, nWorkers);
    AcceptsIncreasing(Choice(maxKey, nWorkers, keys).pivots, nWorkers, maxKey, shard);
    OrderedApart(keys, EvenPivots(maxKey, FIRST_SLOTS * nWorkers), Share(|keys|, nWorkers), nWorkers);
  }

  /** Slots narrower than a share are enough. */
  lemma NarrowSlotsAreAccepted(maxKey: nat, nWorkers: nat, keys: seq<int>, shard: seq<int>)
    requires maxKey > 0 && nWorkers > 0 && Covers(keys, maxKey) && Covers(shard, maxKey)
    requires FirstAttemptFits(maxKey, |keys|, nWorkers, keys)
    requires SlotBound(maxKey, |keys|, nWorkers) < Share(|keys|, nWorkers)
    ensures ShuffleTheorems.AcceptsShuffle(Choice(maxKey, nWorkers, keys).pivots, nWorkers, shard, false)
  {
    EvenPivotsSorted(maxKey, FIRST_SLOTS * nWorkers);
    SharesFit(|keys|, nWorkers);
    NarrowSlotsApart(keys, EvenPivots(maxKey, FIRST_SLOTS * nWorkers), Share(|keys|, nWorkers), nWorkers,
                     SlotBound(maxKey, |keys|, nWorkers));
    ChoiceIsAccepted(maxKey, nWorkers, keys, shard);
  }

  lemma NarrowSlotsApart(keys: seq<int>, pivots: seq<int>, share: nat, n: nat, bound: nat)
    requires pivots != [] && StrictlySorted(pivots) && Covers(keys, pivots[|pivots| - 1])
    requires n > 0 && TargetsFit(share, n, |keys|) && bound < share
    requires forall j :: 0 <= j < |pivots| ==> Slot(keys, pivots, j) <= bound
    ensures TargetsApart(keys, pivots, share, n)
  {
    forall i | 1 <= i < n - 1 ensures Apart(keys, pivots, share, i) {
      forall j | 0 <= j < |pivots| && Reached(keys, pivots, j, Target(share, i))
        ensures !Reached(keys, pivots, j, Target(share, i + 1))
      {
        NarrowSlot(keys, pivots, j, Target(share, i));
      }
    }
    if n >= 2 {
      assert Target(share, n) == Target(share, n - 1) + share;
      RankMonotone(keys, pivots[|pivots| - 1], pivots[|pivots| - 1]);
      if Reached(keys, pivots, |pivots| - 1, Target(share, n - 1)) {
        NarrowSlot(keys, pivots, |pivots| - 1, Target(share, n - 1));
      }
    }
  }

  /** A slot that reaches a target holds no more than its keys beyond it. */
  lemma NarrowSlot(keys: seq<int>, pivots: seq<int>, j: nat, target: nat)
    requires StrictlySorted(pivots) && j < |pivots| && Reached(keys, pivots, j, target)
    ensures AtMost(keys, pivots[j]) <= target + Slot(keys, pivots, j)
  {
    var hist := seq(|pivots|, k requires 0 <= k < |pivots| => Slot(keys, pivots, k));
    CumulativeSteps(Cumulative(keys, pivots), keys, pivots, hist, j);
  }

  lemma OneCandidate(maxKey: nat, slots: nat)
    requires maxKey == 1 && slots >= 2
    ensures EvenPivots(maxKey, slots) == [maxKey] && PivotCount(maxKey, slots) == 1
  {
  }

  lemma {:induction false} SlotWithin(keys: seq<int>, pivots: seq<int>, j: nat)
    ensures Slot(keys, pivots, j) <= |keys|
  {
    if keys != [] {
      SlotWithin(keys[..|keys| - 1], pivots, j);
    }
  }

  /**
   * When 1 is the largest key there is a single candidate: two workers or more get equal cuts,
   * and every worker refuses them.
   */
  lemma SingleCandidateIsRefused(maxKey: nat, nWorkers: nat, keys: seq<int>, shard: seq<int>)
    requires maxKey == 1 && nWorkers >= 2 && Covers(keys, maxKey) && Covers(shard, maxKey)
    ensures Choice(maxKey, nWorkers, keys).Chosen?
    ensures !ShuffleTheorems.AcceptsShuffle(Choice(maxKey, nWorkers, keys).pivots, nWorkers, shard, false)
  {
    var slots := FIRST_SLOTS * nWorkers;
    OneCandidate(maxKey, slots);
    SlotWithin(keys, [maxKey], 0);
    assert SlotBound(maxKey, |keys|, nWorkers) == 2 * |keys|;
    ChoiceIsAccepted(maxKey, nWorkers, keys, shard);
    SharesFit(|keys|, nWorkers);
    RankMonotone(keys, maxKey, maxKey);
    assert Reached(keys, [maxKey], 0, Target(Share(|keys|, nWorkers), nWorkers - 1));
  }

  /** For two workers the keys 1 and 1 are such an input. */
  lemma EqualKeysAreRefused(keys: seq<int>, shard: seq<int>)
    requires keys == [1, 1] && shard == [1]
    ensures Choice(1, 2, keys).Chosen?
    ensures !ShuffleTheorems.AcceptsShuffle(Choice(1, 2, keys).pivots, 2, shard, false)
  {
    SingleCandidateIsRefused(1, 2, keys, shard);
  }
}
