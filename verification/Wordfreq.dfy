/**
 * The worker as it is written: the handlers that check the pivots, receive and sort, and the
 * loops of the shuffle, each proved against the steps of the state machine.
 */
module Wordfreq {
  import opened Options
  import opened Sorting
  import opened ShuffleWorker
  import opened ShuffleSteps
  import opened Shuffle
  import opened ShuffleTheorems

  // ---- Handlers ----------------------------------------------------------------------

  /** The keys readKeys keeps. */
  function Positive(read: seq<int>): seq<int> {
    if read == [] then []
    else
      var x := read[|read| - 1];
      Positive(read[..|read| - 1]) + if x > 0 then [x] else []
  }

  /** The kept keys are the positive ones, each as often as it is read. */
  lemma {:induction false} PositiveCounts(read: seq<int>, k: int)
    ensures multiset(Positive(read))[k] == if k > 0 then multiset(read)[k] else 0
  {
    if read != [] {
      var init, x := read[..|read| - 1], read[|read| - 1];
      PositiveCounts(init, k);
      assert read == init + [x];
      assert multiset(read)[k] == multiset(init)[k] + if k == x then 1 else 0;
    }
  }

  /** The keys stand in `read` at these positions, one after the other. */
  ghost predicate Picks(keys: seq<int>, read: seq<int>, at: seq<nat>) {
    && |at| == |keys|
    && (forall i :: 0 <= i < |at| ==> at[i] < |read| && read[at[i]] == keys[i])
    && forall i, j :: 0 <= i < j < |at| ==> at[i] < at[j]
  }

  lemma PicksLonger(keys: seq<int>, read: seq<int>, at: seq<nat>, x: int)
    requires Picks(keys, read, at)
    ensures Picks(keys, read + [x], at)
    ensures Picks(keys + [x], read + [x], at + [|read|])
  {
  }

  /** The kept keys are in the order in which they are read. */
  lemma {:induction false} PositivePositions(read: seq<int>) returns (at: seq<nat>)
    ensures Picks(Positive(read), read, at)
  {
    at := [];
    if read != [] {
      var init, x := read[..|read| - 1], read[|read| - 1];
      at := PositivePositions(init);
      PicksLonger(Positive(init), init, at, x);
      assert read == init + [x];
      if x > 0 {
        at := at + [|init|];
      } else {
        assert Positive(read) == Positive(init);
      }
    }
  }

  datatype SortKeyResponse = SortKeyResponse(partition: int, count: nat, minKey: Option<int>, maxKey: Option<int>)

  class WordCounter {
    const peers: nat
    var keys: seq<int>
    var maxKey: int
    var shuffling: bool
    var partition: int
    var partitionKeys: seq<int>

    ghost predicate Valid()
      reads this
    {
      peers > 0 && maxKey == MaxKey(keys)
    }

    ghost function AsReceiver(): Receiver
      reads this
    {
      Receiver(partition, partitionKeys)
    }

    constructor (peers: nat)
      requires peers > 0
      ensures Valid() && this.peers == peers && keys == [] && !shuffling && AsReceiver() == Receiver(-1, [])
    {
      this.peers := peers;
      keys, maxKey, shuffling, partition, partitionKeys := [], 0, false, -1, [];
    }

    /** Keeps the positive keys, all of them and in their order. */
    method ReadKeys(read: seq<int>) returns (ghost at: seq<nat>)
      requires Valid() && keys == []
      modifies this`keys, this`maxKey
      ensures Valid() && keys == Positive(read)
      ensures forall k :: multiset(keys)[k] == if k > 0 then multiset(read)[k] else 0
      ensures Picks(keys, read, at)
    {
      for i := 0 to |read|
        invariant Valid() && keys == Positive(read[..i])
      {
        assert read[..i + 1][..i] == read[..i];
        var key := read[i];
        if key > 0 {
          assert (keys + [key])[..|keys|] == keys;
          keys := keys + [key];
          if key > maxKey {
            maxKey := key;
          }
        }
      }
      assert read[..|read|] == read;
      forall k ensures multiset(keys)[k] == if k > 0 then multiset(read)[k] else 0 {
        PositiveCounts(read, k);
      }
      at := PositivePositions(read);
    }

    /** Starts a shuffle for the pivots the theorems need, and for no others. */
    method ShuffleKey(pivots: seq<int>) returns (error: Option<string>)
      requires Valid()
      modifies this`shuffling
      ensures Valid()
      ensures error.None? <==>
        && |pivots| == peers && !old(shuffling)
        && WordfreqConfig(pivots).Valid() && Covered(WordfreqConfig(pivots), keys) && pivots[|pivots| - 1] >= 0
      ensures shuffling <==> old(shuffling) || error.None?
      ensures error.Some? ==> error.value == if shuffling then "Shuffling" else "Invalid pivots."
    {
      AcceptsExactly(pivots, peers, keys, shuffling);
      var sorted := false;
      if |pivots| == peers && pivots[|pivots| - 1] >= maxKey {
        sorted := IsSorted(pivots);
        if sorted && !shuffling {
          shuffling := true;
          return None;
        }
      }
      error := Some(if shuffling then "Shuffling" else "Invalid pivots.");
    }

    method ShardKey(call: Call)
      modifies this`partition, this`partitionKeys
      ensures AsReceiver() == Received(old(AsReceiver()), call)
      ensures partitionKeys == old(partitionKeys) + call.keys
      ensures partition == if old(partition) == -1 then call.part else old(partition)
    {
      if partition == -1 {
        partition := call.part;
      }
      partitionKeys := partitionKeys + call.keys;
    }

    method SortKey() returns (resp: SortKeyResponse)
      modifies this`partitionKeys
      ensures AsReceiver() == ShuffleTheorems.SortKey(old(AsReceiver()))
      ensures resp.partition == partition && resp.count == |old(partitionKeys)|
      ensures partitionKeys == [] ==> resp.minKey == None && resp.maxKey == None
      ensures partitionKeys != [] ==>
        && resp.minKey.Some? && resp.minKey.value in old(partitionKeys)
        && resp.maxKey.Some? && resp.maxKey.value in old(partitionKeys)
        && forall k :: k in old(partitionKeys) ==> resp.minKey.value <= k <= resp.maxKey.value
    {
      SortSorts(partitionKeys);
      SortedEnds(partitionKeys);
      partitionKeys := Sort(partitionKeys);
      resp := SortKeyResponse(partition, |partitionKeys|, None, None);
      if partitionKeys != [] {
        resp := resp.(minKey := Some(partitionKeys[0]), maxKey := Some(partitionKeys[|partitionKeys| - 1]));
      }
    }
  }

  /** std::adjacent_find with greater_equal finds nothing. */
  method IsSorted(pivots: seq<int>) returns (sorted: bool)
    ensures sorted <==> AdjacentSorted(pivots)
  {
    for i := 0 to |pivots| - if pivots == [] then 0 else 1
      invariant forall j :: 0 <= j < i ==> pivots[j] < pivots[j + 1]
    {
      if pivots[i] >= pivots[i + 1] {
        return false;
      }
    }
    return true;
  }

  lemma SortedEnds(s: seq<int>)
    ensures var t := Sort(s);
      |t| == |s| && (t != [] ==>
        && t[0] in s && t[|t| - 1] in s
        && forall k :: k in s ==> t[0] <= k <= t[|t| - 1])
  {
    SortSorts(s);
    var t := Sort(s);
    if t != [] {
      assert t[0] in multiset(t) && t[|t| - 1] in multiset(t);
      forall k | k in s ensures t[0] <= k <= t[|t| - 1] {
        assert k in multiset(t);
        var i :| 0 <= i < |t| && t[i] == k;
      }
    }
  }

  // ---- The shuffle of one worker -----------------------------------------------------

  /** The events lead the machine, with this worker alone, from its start to `wk`. */
  ghost predicate Reaches(c: Config, keys: seq<int>, es: seq<Event>, wk: Worker) {
    && Shuffleable(c, [keys])
    && Run(c, Init(c, [keys]), es).Some?
    && Run(c, Init(c, [keys]), es).value.workers == [wk]
  }

  lemma Follows(c: Config, keys: seq<int>, es: seq<Event>, wk: Worker, e: Event)
    requires Reaches(c, keys, es, wk) && e.w == 0 && Enabled(c, Run(c, Init(c, [keys]), es).value, e)
    ensures Reaches(c, keys, es + [e], WorkerAfter(c, Run(c, Init(c, [keys]), es).value, e))
  {
    RunConcat(c, Init(c, [keys]), es, Run(c, Init(c, [keys]), es).value, [e]);
    RunOne(c, Run(c, Init(c, [keys]), es).value, e);
  }

  lemma AtStart(c: Config, keys: seq<int>)
    requires c.Valid() && Covered(c, keys)
    ensures Reaches(c, keys, [], Fresh(keys)) && WorkerInv(c, Fresh(keys))
  {
    assert [keys][..0] == [];
    assert Workers([keys]) == [Fresh(keys)];
  }

  /** Something that the rest of the program does to a call in flight. */
  datatype Act = DeliverCall(i: nat) | AckCall(i: nat)

  lemma FollowsBegin(c: Config, keys: seq<int>, es: seq<Event>)
    requires c.Valid() && Reaches(c, keys, es, Fresh(keys)) && WorkerInv(c, Fresh(keys))
    ensures Reaches(c, keys, es + [Begin(0)], Started(c, keys)) && WorkerInv(c, Started(c, keys))
  {
    StartKeeps(c, keys);
    Follows(c, keys, es, Fresh(keys), Begin(0));
  }

  lemma FollowsAppend(c: Config, keys: seq<int>, es: seq<Event>, wk: Worker)
    requires c.Valid() && Reaches(c, keys, es, wk) && WorkerInv(c, wk) && CanAppend(wk)
    ensures var p := Part(c, wk.keys[wk.next]); p < |wk.held| && p < |wk.batch| && wk.held[p].Some?
    ensures Reaches(c, keys, es + [AddNextKey(0)], Append(c, wk)) && WorkerInv(c, Append(c, wk))
  {
    AppendKeeps(c, wk);
    Follows(c, keys, es, wk, AddNextKey(0));
  }

  class ShuffleThread {
    const c: Config
    const keys: seq<int>
    var phase: Phase
    var next: nat
    var held: seq<Option<nat>>
    var batch: seq<seq<int>>
    var free: seq<nat>
    var calls: seq<Call>
    var drained: seq<nat>
    /** The machine's events so far. */
    ghost var es: seq<Event>

    ghost function State(): Worker
      reads this
    {
      Worker(keys, phase, next, held, batch, free, calls, drained)
    }

    /** The fields are what the machine's run has led to. */
    ghost predicate Valid()
      reads this
    {
      c.Valid() && WorkerInv(c, State()) && Reaches(c, keys, es, State())
    }

    constructor (c: Config, keys: seq<int>)
      requires c.Valid() && Covered(c, keys)
      ensures Valid() && State() == Fresh(keys) && this.c == c && es == []
    {
      this.c, this.keys := c, keys;
      phase, next, held, batch, free, calls, drained := Idle, 0, [], [], [], [], [];
      es := [];
      AtStart(c, keys);
    }

    /** One buffer a partition, and the rest of the pool free. */
    method Start()
      requires Valid() && phase.Idle?
      modifies this
      ensures Valid() && State() == Started(c, keys) && es == old(es) + [Begin(0)]
    {
      FollowsBegin(c, keys, es);
      NewRequests();
      FillPool();
      phase := Filling;
      es := es + [Begin(0)];
    }

    method NewRequests()
      requires held == [] && batch == []
      modifies this`held, this`batch
      ensures held == AllHeld(c.Parts()) && |held| == c.Parts() && batch == seq(c.Parts(), j => [])
    {
      for i := 0 to |c.pivots|
        invariant held == AllHeld(i) && |held| == i
        invariant |batch| == i && forall j :: 0 <= j < i ==> batch[j] == []
      {
        held, batch := held + [Some(i)], batch + [[]];
      }
    }

    method FillPool()
      requires free == [] && |held| <= c.pool
      modifies this`free
      ensures free == Ids(|held|, c.pool)
    {
      for i := |held| to c.pool
        invariant free == Ids(|held|, i)
      {
        free := free + [i];
      }
    }

    /** A remote call that gives the buffer back through doneShardKey. */
    method SendBatch(part: nat)
      requires part < |held| && part < |batch| && held[part].Some?
      modifies this`held, this`batch, this`calls
      ensures State() == Send(old(State()), part)
    {
      calls := calls + [Call(held[part].value, part, batch[part], false)];
      held, batch := held[part := None], batch[part := []];
    }

    /** One round of the main loop, up to where it takes a buffer if it has sent one. */
    method AddKey()
      requires Valid() && CanAppend(State())
      modifies this
      ensures Valid() && es == old(es) + [AddNextKey(0)]
      ensures old(next) < |keys| && Part(c, keys[old(next)]) < |old(held)| && Part(c, keys[old(next)]) < |old(batch)|
      ensures old(held)[Part(c, keys[old(next)])].Some?
      ensures State() == Append(c, old(State()))
    {
      FollowsAppend(c, keys, es, State());
      var key := keys[next];
      var part := LowerBound(c.pivots, key);
      next := next + 1;
      batch := batch[part := batch[part] + [key]];
      if |batch[part]| >= c.batch {
        SendBatch(part);
        phase := Waiting(part);
      }
      es := es + [AddNextKey(0)];
    }

    method DeliverOne(i: nat)
      requires Valid() && CanDeliver(State(), i)
      modifies this`calls, this`es
      ensures Valid() && State() == Deliver(old(State()), i) && es == old(es) + [Delivery(0, i)]
    {
      DeliverPays(c, State(), i);
      Follows(c, keys, es, State(), Delivery(0, i));
      calls := calls[i := calls[i].(delivered := true)];
      es := es + [Delivery(0, i)];
    }

    method DoneShardKey(i: nat)
      requires Valid() && CanAck(State(), i)
      modifies this`calls, this`free, this`es
      ensures Valid() && State() == Ack(old(State()), i) && es == old(es) + [Acknowledge(0, i)]
    {
      AckKeeps(c, State(), i);
      Follows(c, keys, es, State(), Acknowledge(0, i));
      free := free + [calls[i].buf];
      calls := calls[..i] + calls[i + 1..];
      es := es + [Acknowledge(0, i)];
    }

    /** Any number of deliveries and acknowledgements, while this thread does nothing: no buffer is lost. */
    method Serve(acts: seq<Act>)
      requires Valid()
      modifies this`calls, this`free, this`es
      ensures Valid() && |free| + |calls| == old(|free| + |calls|) && old(es) <= es
    {
      for k := 0 to |acts|
        invariant Valid() && |free| + |calls| == old(|free| + |calls|) && old(es) <= es
      {
        match acts[k]
        case DeliverCall(i) =>
          if i < |calls| && !calls[i].delivered {
            DeliverOne(i);
          }
        case AckCall(i) =>
          if i < |calls| && calls[i].delivered {
            DoneShardKey(i);
          }
      }
    }

    /** Blocks until some call in flight is acknowledged. */
    method AwaitOne(pick: nat)
      requires Valid() && calls != []
      modifies this`calls, this`free, this`es
      ensures Valid() && free != [] && |free| + |calls| == old(|free| + |calls|) && old(es) <= es
    {
      var i := pick % |calls|;
      if !calls[i].delivered {
        DeliverOne(i);
      }
      DoneShardKey(i);
    }

    /** The rest of the round: a cleared buffer from the pool. */
    method TakeFree()
      requires Valid() && phase.Waiting? && free != []
      modifies this
      ensures Valid() && es == old(es) + [TakeBuffer(0)]
      ensures old(phase.Waiting? && free != [] && phase.part < |held| && phase.part < |batch|)
      ensures State() == Take(old(State()))
    {
      TakeKeeps(c, State());
      Follows(c, keys, es, State(), TakeBuffer(0));
      var part := phase.part;
      held, batch := held[part := Some(free[0])], batch[part := []];
      free, phase := free[1..], Filling;
      es := es + [TakeBuffer(0)];
    }

    method EndFill()
      requires Valid() && CanEndFill(State())
      modifies this`phase, this`es
      ensures Valid() && es == old(es) + [EndKeys(0)] && State() == old(State()).(phase := Flushing(0))
    {
      EndFillKeeps(c, State());
      Follows(c, keys, es, State(), EndKeys(0));
      phase := Flushing(0);
      es := es + [EndKeys(0)];
    }

    /** Sends what is left of one partition; the buffer of an empty batch is not put back. */
    method FlushOne()
      requires Valid() && phase.Flushing?
      modifies this
      ensures Valid() && es == old(es) + [FlushPart(0)]
      ensures old(phase.Flushing? && phase.part < |held| && phase.part < |batch| && held[phase.part].Some?)
      ensures State() == Flush(c, old(State()))
    {
      FlushKeeps(c, State());
      Follows(c, keys, es, State(), FlushPart(0));
      var part := phase.part;
      if batch[part] != [] {
        SendBatch(part);
      }
      phase := if part + 1 >= |c.pivots| then Draining else Flushing(part + 1);
      es := es + [FlushPart(0)];
    }

    method DrainOne()
      requires Valid() && CanDrain(c, State())
      modifies this`free, this`drained, this`es
      ensures Valid() && es == old(es) + [DrainBuffer(0)] && old(free) != [] && State() == Drain(old(State()))
    {
      DrainKeeps(c, State());
      Follows(c, keys, es, State(), DrainBuffer(0));
      free, drained := free[1..], drained + [free[0]];
      es := es + [DrainBuffer(0)];
    }

    method End()
      requires Valid() && CanFinish(c, State())
      modifies this`phase, this`es
      ensures Valid() && es == old(es) + [Finish(0)] && State() == old(State()).(phase := Phase.Done)
    {
      FinishKeeps(c, State());
      Follows(c, keys, es, State(), Finish(0));
      phase := Phase.Done;
      es := es + [Finish(0)];
    }

    /** The main loop: it never blocks for good, for a call is in flight whenever no buffer is free. */
    method AddAll(schedule: nat -> seq<Act>, pick: nat -> nat)
      requires Valid() && phase.Filling?
      modifies this
      ensures Valid() && CanEndFill(State())
    {
      while next < |keys|
        invariant Valid() && phase.Filling?
        decreases |keys| - next
      {
        Serve(schedule(next));
        AddKey();
        if phase.Waiting? {
          NeverStarves(c, State());
          if free == [] {
            AwaitOne(pick(next));
          }
          TakeFree();
        }
      }
    }

    method FlushAll(schedule: nat -> seq<Act>)
      requires Valid() && phase.Flushing? && phase.part == 0
      modifies this
      ensures Valid() && phase.Draining? && drained == []
    {
      while phase.Flushing?
        invariant Valid() && (phase.Flushing? || phase.Draining?) && drained == []
        decreases if phase.Flushing? then |c.pivots| + 1 - phase.part else 0
      {
        Serve(schedule(phase.part));
        FlushOne();
      }
    }

    /** Takes every buffer of the pool, unless there is none left that could come back. */
    method DrainAll(schedule: nat -> seq<Act>, pick: nat -> nat) returns (done: bool)
      requires Valid() && phase.Draining? && drained == []
      modifies this
      ensures Valid() && (done <==> phase.Done?)
      ensures !done ==> phase.Draining? && calls == [] && free == [] && |drained| < c.pool
    {
      for i := 0 to c.pool
        invariant Valid() && phase.Draining? && |drained| == i
      {
        Serve(schedule(i));
        if free == [] {
          if calls == [] {
            return false;
          }
          AwaitOne(pick(i));
        }
        DrainOne();
      }
      End();
      return true;
    }

    /**
     * The whole shuffle, with deliveries and acknowledgements at any point of it and in any
     * order: a run of the machine that completes exactly when no partition's key count is a
     * multiple of the batch, and otherwise blocks in the last loop and nowhere before.
     */
    method Shuffle(adding: nat -> seq<Act>, flushing: nat -> seq<Act>, draining: nat -> seq<Act>, pick: nat -> nat)
      returns (done: bool)
      requires Valid() && phase.Idle?
      modifies this
      ensures Valid() && next == |keys| && calls == []
      ensures done <==> NoEmptyBatch(c, keys)
      ensures if done then phase.Done? else phase.Draining? && free == [] && |drained| < c.pool
    {
      Start();
      AddAll(adding, pick);
      EndFill();
      FlushAll(flushing);
      done := DrainAll(draining, pick);
      if done {
        AllAckedWhenDone(c, State());
      }
      DrainEnds(c, State());
    }
  }
}
