/**
 * The distributed median: sorters that hold a shard each (examples/median/sorter.cc) and the
 * collector that adds up their answers, in any order, and bisects
 * (examples/median/collector.cc).
 */
module Median {
  import opened Options
  import opened Arrivals
  import opened Sums
  import opened Sorting
  import opened Modulo
  import opened Kth

  datatype QueryResponse = QueryResponse(count: nat, min: Option<int64>, max: Option<int64>)

  // ---- One shard ---------------------------------------------------------------------

  /** The values `doGenerate` pushes back, from what the random generator draws. */
  function Generated(min: int64, max: int64, draws: seq<nat>): seq<int64> {
    seq(|draws|, i requires 0 <= i < |draws| => Value(min, max, draws[i]))
  }

  function Value(min: int64, max: int64, draw: nat): int64 {
    var range := Wrap(max - min);
    if range > 1 then Wrap(min + draw % range) else min
  }

  /** The values lie from min up to but without max, if these are apart and not too far apart. */
  lemma ValueInRange(min: int64, max: int64, draw: nat)
    requires min <= max && max - min < TWO63
    ensures var v := Value(min, max, draw);
      if max - min > 1 then min <= v < max && (draw - (v - min)) % (max - min) == 0 else v == min
  {
    var range: int := max - min;
    assert Wrap(range) == range;
    if range > 1 {
      DrawInRange(draw, range, draw % range);
      assert Wrap(min + draw % range) == min + draw % range;
    }
  }

  lemma DrawInRange(draw: nat, range: nat, rest: int)
    requires range > 0 && rest == draw % range
    ensures 0 <= rest < range && (draw - rest) % range == 0
  {
    assert draw - rest == range * (draw / range) + 0;
    ModUnique(draw - rest, range, draw / range, 0);
  }

  class Sorter {
    var data: seq<int64>

    ghost predicate Valid()
      reads this
    {
      Sorted(data)
    }

    constructor ()
      ensures Valid() && data == []
    {
      data := [];
    }

    /** Clears, fills and sorts the shard. */
    method DoGenerate(min: int64, max: int64, draws: seq<nat>)
      modifies this
      ensures Valid() && multiset(data) == multiset(Generated(min, max, draws)) && |data| == |draws|
    {
      data := [];
      for i := 0 to |draws|
        invariant data == Generated(min, max, draws[..i])
      {
        data := data + [Value(min, max, draws[i])];
      }
      assert draws[..|draws|] == draws;
      SortSorts(data);
      data := SortInt64(data);
    }

    method Query() returns (resp: QueryResponse)
      requires Valid()
      ensures resp.count == |data|
      ensures data == [] ==> resp.min == None && resp.max == None
      ensures data != [] ==> resp.min.Some? && resp.max.Some? && Extremes(data, resp.min.value, resp.max.value)
    {
      resp := QueryResponse(|data|, None, None);
      if |data| > 0 {
        resp := QueryResponse(|data|, Some(data[0]), Some(data[|data| - 1]));
      }
    }

    method Search(guess: int64) returns (smaller: nat, same: nat)
      requires Valid()
      ensures smaller == Smaller(data, guess) && same == Equal(data, guess)
    {
      var it := LowerBound(data, guess);
      smaller := it;
      BoundsAreRanks(data, guess);
      same := UpperBound(data, guess) - it;
    }
  }

  function SortInt64(s: seq<int64>): (t: seq<int64>)
    ensures t == Sort(s)
  {
    SortSorts(s);
    assert forall i :: 0 <= i < |Sort(s)| ==> Sort(s)[i] in multiset(Sort(s));
    Sort(s)
  }

  // ---- The union of the shards -------------------------------------------------------

  ghost function Data(sorters: seq<Sorter>): (d: seq<seq<int64>>)
    reads sorters
    ensures |d| == |sorters| && forall i :: 0 <= i < |d| ==> d[i] == sorters[i].data
  {
    if sorters == [] then [] else Data(sorters[..|sorters| - 1]) + [sorters[|sorters| - 1].data]
  }

  /** The shards' data, concatenated in the given order. */
  ghost function Picked(shards: seq<seq<int64>>, order: seq<nat>): seq<int64>
    requires InRange(order, |shards|)
  {
    if order == [] then [] else Picked(shards, order[..|order| - 1]) + shards[order[|order| - 1]]
  }

  /** All the data, shard by shard. */
  ghost function Union(shards: seq<seq<int64>>): seq<int64> {
    IndicesAre(|shards|);
    Picked(shards, Indices(|shards|))
  }

  lemma {:induction false} PickedConcat(shards: seq<seq<int64>>, s: seq<nat>, t: seq<nat>)
    requires InRange(s, |shards|) && InRange(t, |shards|)
    ensures Picked(shards, s + t) == Picked(shards, s) + Picked(shards, t)
  {
    if t == [] {
      assert s + t == s;
    } else {
      var t' := t[..|t| - 1];
      PickedConcat(shards, s, t');
      assert (s + t)[..|s + t| - 1] == s + t';
    }
  }

  lemma PickedNext(shards: seq<seq<int64>>, order: seq<nat>, i: nat)
    requires InRange(order, |shards|) && i < |order|
    ensures Picked(shards, order[..i + 1]) == Picked(shards, order[..i]) + shards[order[i]]
  {
    assert order[..i + 1][..i] == order[..i];
  }

  lemma MiddleOut<T>(a: seq<T>, b: seq<T>, c: seq<T>)
    ensures multiset(a + b + c) == multiset(a + c) + multiset(b)
  {
  }

  lemma PickedRemove(shards: seq<seq<int64>>, s: seq<nat>, k: nat)
    requires InRange(s, |shards|) && k < |s|
    ensures multiset(Picked(shards, s)) == multiset(Picked(shards, RemoveAt(s, k))) + multiset(shards[s[k]])
  {
    assert s[..k + 1] + s[k + 1..] == s;
    PickedConcat(shards, s[..k + 1], s[k + 1..]);
    PickedNext(shards, s, k);
    PickedConcat(shards, s[..k], s[k + 1..]);
    MiddleOut(Picked(shards, s[..k]), shards[s[k]], Picked(shards, s[k + 1..]));
  }

  lemma {:induction false} PickedPermutation(shards: seq<seq<int64>>, s: seq<nat>, t: seq<nat>)
    requires InRange(s, |shards|) && InRange(t, |shards|) && multiset(s) == multiset(t)
    ensures multiset(Picked(shards, s)) == multiset(Picked(shards, t))
    decreases |s|
  {
    assert |multiset(s)| == |multiset(t)|;
    if s != [] {
      assert s[0] in multiset(s);
      var k :| 0 <= k < |t| && t[k] == s[0];
      RemoveBoth(s, 0, t, k);
      PickedPermutation(shards, RemoveAt(s, 0), RemoveAt(t, k));
      PickedRemove(shards, s, 0);
      PickedRemove(shards, t, k);
    }
  }

  /** Taking the shards in any order of arrival gives the same data up to order. */
  lemma ArrivalIsUnion(shards: seq<seq<int64>>, arrival: seq<nat>)
    requires Arrival(arrival, |shards|) && InRange(arrival, |shards|)
    ensures multiset(Picked(shards, arrival)) == multiset(Union(shards))
    ensures |Picked(shards, arrival)| == |Union(shards)|
  {
    IndicesAre(|shards|);
    PickedPermutation(shards, arrival, Indices(|shards|));
    assert |multiset(Picked(shards, arrival))| == |multiset(Union(shards))|;
  }

  // ---- The collector -----------------------------------------------------------------

  datatype Stats = Stats(count: nat, min: int64, max: int64)

  /** The statistics of the data `seen` so far. */
  ghost predicate Describes(stats: Stats, seen: seq<int64>) {
    && stats.count == |seen|
    && if seen == []
       then stats.min == 0x7fff_ffff_ffff_ffff && stats.max == -0x8000_0000_0000_0000
       else Extremes(seen, stats.min, stats.max)
  }

  function Take(stats: Stats, resp: QueryResponse): Stats {
    var s := stats.(count := stats.count + resp.count);
    if resp.count > 0 && resp.min.Some? && resp.max.Some? then
      var s := if resp.min.value < s.min then s.(min := resp.min.value) else s;
      if resp.max.value > s.max then s.(max := resp.max.value) else s
    else s
  }

  lemma TakeDescribes(stats: Stats, seen: seq<int64>, shard: seq<int64>, resp: QueryResponse)
    requires Describes(stats, seen) && resp.count == |shard|
    requires shard != [] ==> resp.min.Some? && resp.max.Some? && Extremes(shard, resp.min.value, resp.max.value)
    ensures Describes(Take(stats, resp), seen + shard)
  {
    var now, all := Take(stats, resp), seen + shard;
    if shard == [] {
      assert all == seen;
    } else {
      var lo, hi := resp.min.value, resp.max.value;
      assert now.min == (if lo < stats.min then lo else stats.min);
      assert now.max == (if hi > stats.max then hi else stats.max);
      assert now.min in all && now.max in all;
      forall i | 0 <= i < |all| ensures now.min <= all[i] <= now.max {
        assert if i < |seen| then all[i] == seen[i] else all[i] == shard[i - |seen|];
      }
    }
  }

  lemma DescribesNext(stats: Stats, shards: seq<seq<int64>>, arrival: seq<nat>, i: nat, resp: QueryResponse)
    requires InRange(arrival, |shards|) && i < |arrival|
    requires Describes(stats, Picked(shards, arrival[..i]))
    requires var shard := shards[arrival[i]];
      && resp.count == |shard|
      && (shard != [] ==> resp.min.Some? && resp.max.Some? && Extremes(shard, resp.min.value, resp.max.value))
    ensures Describes(Take(stats, resp), Picked(shards, arrival[..i + 1]))
  {
    TakeDescribes(stats, Picked(shards, arrival[..i]), shards[arrival[i]], resp);
    PickedNext(shards, arrival, i);
  }

  lemma DescribesAll(stats: Stats, shards: seq<seq<int64>>, arrival: seq<nat>)
    requires Arrival(arrival, |shards|) && InRange(arrival, |shards|)
    requires Describes(stats, Picked(shards, arrival))
    ensures stats.count == |Union(shards)|
    ensures stats.count > 0 ==> Extremes(Union(shards), stats.min, stats.max)
  {
    ArrivalIsUnion(shards, arrival);
    if stats.count > 0 {
      ExtremesPermutation(Picked(shards, arrival), Union(shards), stats.min, stats.max);
    }
  }

  /** The ranks of `guess` in the shards that have answered so far. */
  ghost predicate RanksSoFar(smaller: int, same: int, shards: seq<seq<int64>>, order: seq<nat>, guess: int64) {
    && InRange(order, |shards|)
    && smaller == Smaller(Picked(shards, order), guess)
    && same == Equal(Picked(shards, order), guess)
  }

  lemma RanksNext(smaller: int, same: int, shards: seq<seq<int64>>, arrival: seq<nat>, i: nat, guess: int64)
    requires InRange(arrival, |shards|) && i < |arrival|
    requires RanksSoFar(smaller, same, shards, arrival[..i], guess)
    ensures var shard := shards[arrival[i]];
      RanksSoFar(smaller + Smaller(shard, guess), same + Equal(shard, guess), shards, arrival[..i + 1], guess)
  {
    PickedNext(shards, arrival, i);
    SumConcat<int>(Picked(shards, arrival[..i]), shards[arrival[i]], Below(guess));
    SumConcat<int>(Picked(shards, arrival[..i]), shards[arrival[i]], Same(guess));
  }

  lemma RanksAll(smaller: int, same: int, shards: seq<seq<int64>>, arrival: seq<nat>, guess: int64)
    requires Arrival(arrival, |shards|) && RanksSoFar(smaller, same, shards, arrival, guess)
    ensures smaller == Smaller(Union(shards), guess) && same == Equal(Union(shards), guess)
  {
    ArrivalIsUnion(shards, arrival);
    SmallerPermutation(Picked(shards, arrival), Union(shards), guess);
  }

  lemma ExtremesPermutation(s: seq<int64>, t: seq<int64>, min: int, max: int)
    requires multiset(s) == multiset(t) && Extremes(s, min, max)
    ensures Extremes(t, min, max)
  {
    assert min in multiset(s) && max in multiset(s);
    forall i | 0 <= i < |t| ensures min <= t[i] <= max {
      assert t[i] in multiset(s);
    }
  }

  /** The search oracle of the bisection: what every shard together answers to a guess. */
  ghost function Totals(shards: seq<seq<int64>>): int64 -> (int, int) {
    (g: int64) => (Smaller(Union(shards), g), Equal(Union(shards), g))
  }

  class Collector {
    const sorters: seq<Sorter>

    constructor (sorters: seq<Sorter>)
      ensures this.sorters == sorters
    {
      this.sorters := sorters;
    }

    ghost predicate Valid()
      reads sorters
    {
      forall i :: 0 <= i < |sorters| ==> sorters[i].Valid()
    }

    /** Counts and true extremes of the union, whatever order the answers come back in. */
    method GetStats(arrival: seq<nat>) returns (stats: Stats)
      requires Valid() && Arrival(arrival, |sorters|)
      ensures stats.count == |Union(Data(sorters))|
      ensures stats.count > 0 ==> Extremes(Union(Data(sorters)), stats.min, stats.max)
    {
      ArrivalInRange(arrival, |sorters|);
      ghost var shards := Data(sorters);
      stats := Stats(0, 0x7fff_ffff_ffff_ffff, -0x8000_0000_0000_0000);
      for i := 0 to |arrival|
        invariant Describes(stats, Picked(shards, arrival[..i]))
      {
        var resp := sorters[arrival[i]].Query();
        DescribesNext(stats, shards, arrival, i, resp);
        stats := Take(stats, resp);
      }
      assert arrival[..|arrival|] == arrival;
      DescribesAll(stats, shards, arrival);
    }

    /** The ranks of a guess in the union, whatever order the answers come back in. */
    method Search(guess: int64, arrival: seq<nat>) returns (smaller: nat, same: nat)
      requires Valid() && Arrival(arrival, |sorters|)
      ensures (smaller, same) == Totals(Data(sorters))(guess)
    {
      ArrivalInRange(arrival, |sorters|);
      ghost var shards := Data(sorters);
      smaller, same := 0, 0;
      for i := 0 to |arrival|
        invariant RanksSoFar(smaller, same, shards, arrival[..i], guess)
      {
        var s, e := sorters[arrival[i]].Search(guess);
        RanksNext(smaller, same, shards, arrival, i, guess);
        smaller, same := smaller + s, same + e;
      }
      assert arrival[..|arrival|] == arrival;
      RanksAll(smaller, same, shards, arrival, guess);
    }

    /** The bisection over the sorters; `arrivals` gives the order of the answers to each probe. */
    method GetKth(k: int, min0: int64, max0: int64, arrivals: nat -> seq<nat>)
      returns (out: Outcome, searches: nat)
      requires Valid() && forall i :: Arrival(arrivals(i), |sorters|)
      requires Extremes(Union(Data(sorters)), min0, max0)
      ensures Answers(Union(Data(sorters)), k, min0, max0, out, searches)
    {
      ghost var data := Union(Data(sorters));
      var min: int64, max: int64 := min0, max0;
      var steps := 0;
      var guess, succeed, aborted := max, false, false;
      BisectingStarts(data, k, min0, max0);
      while min <= max
        invariant Bisecting(data, k, min0, max0, steps, min, max, guess) && !aborted && !succeed
        invariant min <= max
        decreases 101 - steps
      {
        var smaller, same := Search(guess, arrivals(steps));
        steps := steps + 1;
        var v := Refine(k, steps, min, max, guess, smaller, same, data, min0, max0);
        match v
        case Again(min', max', guess') => min, max, guess := min', max', guess';
        case Stop(found) => succeed := found; break;
        case Abort => aborted := true; break;
      }
      out, searches := if aborted then AssertionFailed else Returned(guess, succeed), steps;
    }

    /**
     * Nothing for no data; otherwise the element of rank (count+1)/2 of the union, in whatever
     * order the sorters answer the query and each of the probes.
     */
    method Run(arrival: seq<nat>, arrivals: nat -> seq<nat>) returns (median: Option<int64>)
      requires Valid() && Arrival(arrival, |sorters|) && forall i :: Arrival(arrivals(i), |sorters|)
      ensures Union(Data(sorters)) == [] <==> median == None
      ensures median.Some? ==>
        var all := Union(Data(sorters));
        median.value == KthSmallest(all, (|all| + 1) / 2)
    {
      var stats := GetStats(arrival);
      var count := stats.count;
      if count <= 0 {
        return None;
      }
      var k := (count + 1) / 2;
      var out, _ := GetKth(k, stats.min, stats.max, arrivals);
      if out.Returned? && out.succeed {
        return Some(out.guess);
      } else {
        return None;
      }
    }
  }
}
