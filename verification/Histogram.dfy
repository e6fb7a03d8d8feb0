/**
 * Histograms of keys over pivots: the worker's, one binary search a key
 * (examples/wordfreq/wordfreq.cc), and the two-pointer one over sorted keys
 * (examples/wordfreq/partition_unittest.cc).
 */
module Histogram {
  import opened Sums
  import opened ShuffleTheorems
  import opened Sorting

  /** Whether a key falls into slot `j`: pivot `j` is the first one not below it. */
  function InSlot(pivots: seq<int>, j: nat): int -> int {
    (key: int) => if LowerBound(pivots, key) == j then 1 else 0
  }

  /** How many keys fall into slot `j`; slot `|pivots|` has those beyond every pivot. */
  function Slot(keys: seq<int>, pivots: seq<int>, j: nat): int {
    Sum(keys, InSlot(pivots, j))
  }

  /** The first `n` slots added up. */
  function SlotsBefore(keys: seq<int>, pivots: seq<int>, n: nat): int {
    if n == 0 then 0 else SlotsBefore(keys, pivots, n - 1) + Slot(keys, pivots, n - 1)
  }

  lemma {:induction false} NoKeys(pivots: seq<int>, n: nat)
    ensures SlotsBefore([], pivots, n) == 0
  {
    if n > 0 {
      NoKeys(pivots, n - 1);
    }
  }

  lemma {:induction false} OneMoreKey(keys: seq<int>, pivots: seq<int>, n: nat)
    requires keys != []
    ensures SlotsBefore(keys, pivots, n) == SlotsBefore(keys[..|keys| - 1], pivots, n)
              + if LowerBound(pivots, keys[|keys| - 1]) < n then 1 else 0
  {
    if n > 0 {
      OneMoreKey(keys, pivots, n - 1);
    }
  }

  /** The slots up to pivot `n` together count the keys that are not above it. */
  lemma {:induction false} SlotsAreRanks(keys: seq<int>, pivots: seq<int>, n: nat)
    requires Sorted(pivots) && n < |pivots|
    ensures SlotsBefore(keys, pivots, n + 1) == Smaller(keys, pivots[n] + 1)
  {
    if keys == [] {
      NoKeys(pivots, n + 1);
    } else {
      OneMoreKey(keys, pivots, n + 1);
      SlotsAreRanks(keys[..|keys| - 1], pivots, n);
    }
  }

  /** The slots and the overflow slot account for every key. */
  lemma {:induction false} SlotsCoverKeys(keys: seq<int>, pivots: seq<int>)
    ensures SlotsBefore(keys, pivots, |pivots| + 1) == |keys|
  {
    if keys == [] {
      NoKeys(pivots, |pivots| + 1);
    } else {
      OneMoreKey(keys, pivots, |pivots| + 1);
      SlotsCoverKeys(keys[..|keys| - 1], pivots);
    }
  }

  /** The histograms of two sets of keys add up to the histogram of both. */
  lemma SlotsAdd(keys: seq<int>, more: seq<int>, pivots: seq<int>, j: nat)
    ensures Slot(keys + more, pivots, j) == Slot(keys, pivots, j) + Slot(more, pivots, j)
  {
    SumConcat(keys, more, InSlot(pivots, j));
  }

  function SlotOf(pivots: seq<int>, j: nat): seq<int> -> int {
    (keys: seq<int>) => Slot(keys, pivots, j)
  }

  /** The histograms of all the workers add up to the histogram of all their keys. */
  lemma {:induction false} ShardSlots(shards: seq<seq<int>>, pivots: seq<int>, j: nat)
    ensures Sum(shards, SlotOf(pivots, j)) == Slot(AllKeys(shards), pivots, j)
  {
    if shards != [] {
      ShardSlots(shards[..|shards| - 1], pivots, j);
      SlotsAdd(AllKeys(shards[..|shards| - 1]), shards[|shards| - 1], pivots, j);
    }
  }

  /** The worker's histogram, over keys in any order. */
  method GetHistogram(keys: seq<int>, pivots: seq<int>) returns (counts: seq<int>)
    requires StrictlySorted(pivots)
    ensures |counts| == |pivots| + 1
    ensures forall j :: 0 <= j <= |pivots| ==> counts[j] == Slot(keys, pivots, j)
  {
    counts := [];
    for i := 0 to |pivots| + 1
      invariant |counts| == i && forall j :: 0 <= j < i ==> counts[j] == 0
    {
      counts := counts + [0];
    }
    for i := 0 to |keys|
      invariant |counts| == |pivots| + 1
      invariant forall j :: 0 <= j <= |pivots| ==> counts[j] == Slot(keys[..i], pivots, j)
    {
      var idx := LowerBound(pivots, keys[i]);
      forall j | 0 <= j <= |pivots|
        ensures Slot(keys[..i + 1], pivots, j) == Slot(keys[..i], pivots, j) + if idx == j then 1 else 0
      {
        SumPrefix(keys, i, InSlot(pivots, j));
      }
      counts := counts[idx := counts[idx] + 1];
    }
    assert keys[..|keys|] == keys;
  }

  lemma AllBelow(pivots: seq<int>, key: int)
    requires forall p :: 0 <= p < |pivots| ==> pivots[p] < key
    ensures LowerBound(pivots, key) == |pivots|
  {
  }

  lemma {:induction false} BeyondEveryPivot(keys: seq<int>, pivots: seq<int>, i: nat, n: nat, j: nat)
    requires i <= n <= |keys| && j < |pivots|
    requires forall k, p :: i <= k < |keys| && 0 <= p < |pivots| ==> pivots[p] < keys[k]
    ensures Slot(keys[..n], pivots, j) == Slot(keys[..i], pivots, j)
  {
    if i < n {
      BeyondEveryPivot(keys, pivots, i, n - 1, j);
      SumPrefix(keys, n - 1, InSlot(pivots, j));
      AllBelow(pivots, keys[n - 1]);
    }
  }

  lemma FirstNotBelow(pivots: seq<int>, key: int, j: nat)
    requires j < |pivots| && key <= pivots[j]
    requires forall p :: 0 <= p < j ==> pivots[p] < key
    ensures LowerBound(pivots, key) == j
  {
  }

  /** The same slots, without the overflow slot, by two indices that only move forward. */
  method GetHistogramFromKey(keys: seq<int>, pivots: seq<int>) returns (result: seq<int>)
    requires Sorted(keys) && Sorted(pivots)
    requires keys != [] ==> pivots != []
    ensures |result| == |pivots|
    ensures forall j :: 0 <= j < |pivots| ==> result[j] == Slot(keys, pivots, j)
  {
    result := seq(|pivots|, i => 0);
    var j := 0;
    for i := 0 to |keys|
      invariant |result| == |pivots| && j <= |pivots|
      invariant i < |keys| ==> j < |pivots|
      invariant forall k, p :: i <= k < |keys| && 0 <= p < j ==> pivots[p] < keys[k]
      invariant forall p :: 0 <= p < |pivots| ==> result[p] == Slot(keys[..i], pivots, p)
    {
      while keys[i] > pivots[j]
        invariant j < |pivots|
        invariant forall k, p :: i <= k < |keys| && 0 <= p < j ==> pivots[p] < keys[k]
        decreases |pivots| - j
      {
        j := j + 1;
        if j >= |pivots| {
          forall p | 0 <= p < |pivots| ensures result[p] == Slot(keys, pivots, p) {
            BeyondEveryPivot(keys, pivots, i, |keys|, p);
            assert keys[..|keys|] == keys;
          }
          return;
        }
      }
      FirstNotBelow(pivots, keys[i], j);
      forall p | 0 <= p < |pivots|
        ensures Slot(keys[..i + 1], pivots, p) == Slot(keys[..i], pivots, p) + if p == j then 1 else 0
      {
        SumPrefix(keys, i, InSlot(pivots, p));
      }
      result := result[j := result[j] + 1];
    }
    assert keys[..|keys|] == keys;
  }
}
