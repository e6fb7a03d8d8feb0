/** What holds of every run of the distributed sort. */
module ShuffleTheorems {
  import opened Options
  import opened Modulo
  import opened Sums
  import opened Sorting
  import opened ShuffleWorker
  import opened ShuffleSteps
  import opened Shuffle

  // ---- The check in ShuffleKey -------------------------------------------------------

  /** isSorted: no adjacent pair is out of strict order. */
  predicate AdjacentSorted(pivots: seq<int>) {
    forall i :: 0 <= i < |pivots| - 1 ==> pivots[i] < pivots[i + 1]
  }

  /** maxKey_, as readKeys keeps it. */
  function MaxKey(keys: seq<int>): int {
    if keys == [] then 0
    else
      var m := MaxKey(keys[..|keys| - 1]);
      if keys[|keys| - 1] > m then keys[|keys| - 1] else m
  }

  predicate AcceptsShuffle(pivots: seq<int>, peers: nat, keys: seq<int>, shuffling: bool)
    requires peers > 0
  {
    |pivots| == peers && pivots[|pivots| - 1] >= MaxKey(keys) && AdjacentSorted(pivots) && !shuffling
  }

  lemma {:induction false} AdjacentIsSorted(pivots: seq<int>, i: nat, j: nat)
    requires AdjacentSorted(pivots) && i < j < |pivots|
    ensures pivots[i] < pivots[j]
    decreases j
  {
    assert pivots[j - 1] < pivots[j - 1 + 1];
    if i < j - 1 {
      AdjacentIsSorted(pivots, i, j - 1);
    }
  }

  lemma {:induction false} MaxKeyBounds(keys: seq<int>, x: int)
    ensures MaxKey(keys) <= x <==> 0 <= x && forall i :: 0 <= i < |keys| ==> keys[i] <= x
  {
    if keys != [] {
      var init := keys[..|keys| - 1];
      MaxKeyBounds(init, x);
      assert forall i :: 0 <= i < |init| ==> init[i] == keys[i];
    }
  }

  /** The check accepts exactly the strictly increasing pivots that cover the worker's keys. */
  lemma AcceptsExactly(pivots: seq<int>, peers: nat, keys: seq<int>, shuffling: bool)
    requires peers > 0
    ensures AcceptsShuffle(pivots, peers, keys, shuffling)
      <==> && |pivots| == peers && !shuffling
           && WordfreqConfig(pivots).Valid()
           && Covered(WordfreqConfig(pivots), keys) && pivots[|pivots| - 1] >= 0
  {
    if |pivots| == peers {
      MaxKeyBounds(keys, pivots[|pivots| - 1]);
      if AdjacentSorted(pivots) {
        forall i, j | 0 <= i < j < |pivots| ensures pivots[i] < pivots[j] {
          AdjacentIsSorted(pivots, i, j);
        }
      }
    }
  }

  /** Pivots that every worker accepts start a run the theorems below speak of. */
  lemma AcceptedStarts(pivots: seq<int>, peers: nat, shards: seq<seq<int>>)
    requires peers > 0 && shards != []
    requires forall w :: 0 <= w < |shards| ==> AcceptsShuffle(pivots, peers, shards[w], false)
    ensures Shuffleable(WordfreqConfig(pivots), shards)
  {
    AcceptsExactly(pivots, peers, shards[0], false);
    forall w | 0 <= w < |shards| ensures Covered(WordfreqConfig(pivots), shards[w]) {
      AcceptsExactly(pivots, peers, shards[w], false);
    }
  }

  // ---- The pool of buffers -----------------------------------------------------------

  lemma {:induction false} HeldBound(held: seq<Option<nat>>)
    ensures 0 <= Sum(held, IsHeld()) <= |held|
    ensures Sum(held, IsHeld()) == |held| <==> forall i :: 0 <= i < |held| ==> held[i].Some?
    ensures Sum(held, IsHeld()) == 0 <==> forall i :: 0 <= i < |held| ==> held[i].None?
  {
    if held != [] {
      var init := held[..|held| - 1];
      HeldBound(init);
      assert forall i :: 0 <= i < |init| ==> init[i] == held[i];
    }
  }

  lemma NeverStarves(c: Config, wk: Worker)
    requires c.Valid() && WorkerInv(c, wk)
    ensures wk.phase.Waiting? ==> wk.free != [] || wk.calls != []
  {
    HeldBound(wk.held);
    if wk.phase.Waiting? {
      assert wk.held[wk.phase.part].None?;
    }
  }

  /**
   * At every point of every run each buffer of a started worker is in exactly one place, there
   * are no more calls in flight than buffers, and a worker that waits for a buffer has one
   * free or a call in flight that will free one.
   */
  lemma PoolIsSafe(c: Config, shards: seq<seq<int>>, es: seq<Event>, w: nat)
    requires Shuffleable(c, shards)
    requires Run(c, Init(c, shards), es).Some?
    requires w < |Run(c, Init(c, shards), es).value.workers|
    ensures var wk := Run(c, Init(c, shards), es).value.workers[w];
      && (!wk.phase.Idle? ==> forall b: nat :: Places(wk, b) == if b < c.pool then 1 else 0)
      && |wk.calls| <= c.pool
      && (wk.phase.Waiting? ==> wk.free != [] || wk.calls != [])
  {
    var wk := Run(c, Init(c, shards), es).value.workers[w];
    HeldBound(wk.held);
    NeverStarves(c, wk);
  }

  // ---- Every run ends ----------------------------------------------------------------

  function CallWork(): Call -> int {
    (call: Call) => if call.delivered then 1 else 2
  }

  function PhaseWork(c: Config, wk: Worker): int {
    var flushing := 3 * c.Parts() + c.pool + 2;
    match wk.phase
    case Idle => flushing + 2
    case Filling => flushing + 1
    case Waiting(_) => flushing + 2
    case Flushing(p) => flushing - 3 * p
    case Draining => c.pool - |wk.drained| + 1
    case Done => 0
  }

  /** An upper bound on the steps a worker can still take, calls included. */
  function Work(c: Config): Worker -> int {
    (wk: Worker) => 4 * (|wk.keys| - wk.next) + PhaseWork(c, wk) + Sum(wk.calls, CallWork())
  }

  lemma {:induction false} CallWorkNonNegative(calls: seq<Call>)
    ensures Sum(calls, CallWork()) >= |calls|
  {
    if calls != [] {
      CallWorkNonNegative(calls[..|calls| - 1]);
    }
  }

  lemma WorkNonNegative(c: Config, wk: Worker)
    requires c.Valid() && WorkerInv(c, wk)
    ensures Work(c)(wk) >= 0
  {
    CallWorkNonNegative(wk.calls);
  }

  lemma AppendWorks(c: Config, wk: Worker)
    requires c.Valid() && WorkerInv(c, wk) && CanAppend(wk)
    requires var p := Part(c, wk.keys[wk.next]); p < |wk.held| && wk.held[p].Some?
    ensures Work(c)(Append(c, wk)) < Work(c)(wk)
  {
    var p := Part(c, wk.keys[wk.next]);
    var call := Call(wk.held[p].value, p, AddKey(c, wk).batch[p], false);
    SumAppend(wk.calls, call, CallWork());
    assert CallWork()(call) == 2;
  }

  lemma FlushWorks(c: Config, wk: Worker)
    requires c.Valid() && WorkerInv(c, wk) && wk.phase.Flushing? && wk.held[wk.phase.part].Some?
    ensures Work(c)(Flush(c, wk)) < Work(c)(wk)
  {
    var p := wk.phase.part;
    var call := Call(wk.held[p].value, p, wk.batch[p], false);
    SumAppend(wk.calls, call, CallWork());
    assert CallWork()(call) == 2;
  }

  lemma CallWorks(c: Config, wk: Worker, i: nat)
    requires i < |wk.calls|
    ensures CanDeliver(wk, i) ==> Work(c)(Deliver(wk, i)) < Work(c)(wk)
    ensures CanAck(wk, i) ==> Work(c)(Ack(wk, i)) < Work(c)(wk)
  {
    SumUpdate(wk.calls, i, wk.calls[i].(delivered := true), CallWork());
    SumRemove(wk.calls, i, CallWork());
  }

  lemma StepWorks(c: Config, s: State, e: Event)
    requires c.Valid() && Inv(c, s) && Enabled(c, s, e)
    ensures Work(c)(WorkerAfter(c, s, e)) < Work(c)(s.workers[e.w])
  {
    var wk := s.workers[e.w];
    match e
    case AddNextKey(_) => AppendKeeps(c, wk); AppendWorks(c, wk);
    case FlushPart(_) => FlushKeeps(c, wk); FlushWorks(c, wk);
    case Delivery(_, i) => CallWorks(c, wk, i);
    case Acknowledge(_, i) => CallWorks(c, wk, i);
    case _ =>
  }

  lemma {:induction false} TotalNonNegative(c: Config, workers: seq<Worker>)
    requires c.Valid() && forall w :: 0 <= w < |workers| ==> WorkerInv(c, workers[w])
    ensures Sum(workers, Work(c)) >= 0
  {
    if workers != [] {
      TotalNonNegative(c, workers[..|workers| - 1]);
      WorkNonNegative(c, workers[|workers| - 1]);
    }
  }

  /** No run is longer than the work there is at its start. */
  lemma {:induction false} RunsEnd(c: Config, s: State, es: seq<Event>)
    requires c.Valid() && Inv(c, s) && Run(c, s, es).Some?
    ensures |es| <= Sum(s.workers, Work(c))
    decreases |es|
  {
    if es == [] {
      TotalNonNegative(c, s.workers);
    } else {
      StepWorks(c, s, es[0]);
      SumUpdate(s.workers, es[0].w, WorkerAfter(c, s, es[0]), Work(c));
      RunsEnd(c, Apply(c, s, es[0]), es[1..]);
    }
  }

  /** Any state can be run until nothing more can happen. */
  lemma {:induction false} CanRunToTheEnd(c: Config, s: State) returns (es: seq<Event>)
    requires c.Valid() && Inv(c, s)
    ensures Run(c, s, es).Some? && Quiescent(c, Run(c, s, es).value)
    decreases if Sum(s.workers, Work(c)) >= 0 then Sum(s.workers, Work(c)) else 0
  {
    TotalNonNegative(c, s.workers);
    if e :| Enabled(c, s, e) {
      var s' := Apply(c, s, e);
      StepWorks(c, s, e);
      SumUpdate(s.workers, e.w, WorkerAfter(c, s, e), Work(c));
      TotalNonNegative(c, s'.workers);
      var rest := CanRunToTheEnd(c, s');
      es := [e] + rest;
      assert es[1..] == rest;
    } else {
      es := [];
    }
  }

  // ---- When the drain completes ------------------------------------------------------

  /** Every partition ends the main loop with a batch that is neither empty nor full. */
  ghost predicate NoEmptyBatch(c: Config, keys: seq<int>)
    requires c.Valid()
  {
    forall r :: 0 <= r < c.Parts() ==> Load(c, keys, r) % c.batch != 0
  }

  /** `done` runs only after every key has been sent, delivered and acknowledged. */
  lemma AllAckedWhenDone(c: Config, wk: Worker)
    requires c.Valid() && WorkerInv(c, wk) && wk.phase.Done?
    ensures wk.next == |wk.keys| && wk.calls == []
    ensures forall r: nat, k: int :: OwedOf(c, r, k)(wk) == 0
    ensures NoEmptyBatch(c, wk.keys)
  {
    HeldBound(wk.held);
    assert wk.calls == [] && Rest(wk) == [];
    forall r | 0 <= r < c.Parts() ensures wk.batch[r] == [] && Load(c, wk.keys, r) % c.batch != 0 {
      assert wk.held[r].None?;
    }
  }

  /** In a state where nothing can happen every worker is done or stuck in the drain. */
  lemma StuckOrDone(c: Config, s: State, w: nat)
    requires c.Valid() && Inv(c, s) && Quiescent(c, s) && w < |s.workers|
    ensures var wk := s.workers[w];
      && wk.calls == []
      && (wk.phase.Done? || (wk.phase.Draining? && wk.free == [] && |wk.drained| < c.pool))
  {
    var wk := s.workers[w];
    assert wk.calls == [] by {
      assert !Enabled(c, s, Delivery(w, 0)) && !Enabled(c, s, Acknowledge(w, 0));
    }
    NeverStarves(c, wk);
    assert !Enabled(c, s, Begin(w)) && !Enabled(c, s, AddNextKey(w)) && !Enabled(c, s, EndKeys(w));
    assert !Enabled(c, s, TakeBuffer(w)) && !Enabled(c, s, FlushPart(w));
    assert !Enabled(c, s, DrainBuffer(w)) && !Enabled(c, s, Finish(w));
  }

  /** The buffers of the partitions that had nothing left to send never come back. */
  lemma DrainEnds(c: Config, wk: Worker)
    requires c.Valid() && WorkerInv(c, wk) && wk.calls == []
    requires wk.phase.Done? || (wk.phase.Draining? && wk.free == [] && |wk.drained| < c.pool)
    ensures wk.phase.Done? <==> NoEmptyBatch(c, wk.keys)
  {
    HeldBound(wk.held);
    if wk.phase.Done? {
      AllAckedWhenDone(c, wk);
    } else if NoEmptyBatch(c, wk.keys) {
      forall r | 0 <= r < c.Parts() ensures wk.held[r].None? {
        assert Load(c, wk.keys, r) % c.batch != 0;
      }
    }
  }

  lemma CompletesExactly(c: Config, s: State, w: nat)
    requires c.Valid() && Inv(c, s) && Quiescent(c, s) && w < |s.workers|
    ensures s.workers[w].phase.Done? <==> NoEmptyBatch(c, s.workers[w].keys)
  {
    StuckOrDone(c, s, w);
    DrainEnds(c, s.workers[w]);
  }

  /**
   * In every run that cannot go on, the workers whose shuffle has completed are exactly those
   * with no partition whose key count, zero included, is a multiple of the batch size.
   */
  lemma DrainCompletesExactly(c: Config, shards: seq<seq<int>>, es: seq<Event>, w: nat)
    requires Shuffleable(c, shards) && w < |shards|
    requires Run(c, Init(c, shards), es).Some?
    requires Quiescent(c, Run(c, Init(c, shards), es).value)
    ensures var end := Run(c, Init(c, shards), es).value;
      |end.workers| == |shards| && (end.workers[w].phase.Done? <==> NoEmptyBatch(c, shards[w]))
  {
    WorkersFresh(shards);
    var end := Run(c, Init(c, shards), es).value;
    CompletesExactly(c, end, w);
    assert end.workers[w].keys == shards[w];
  }

  /** A worker without keys never completes: the empty batches are all its partitions have. */
  lemma NoKeysNeverCompletes(c: Config, shards: seq<seq<int>>, es: seq<Event>, w: nat)
    requires Shuffleable(c, shards) && w < |shards| && shards[w] == []
    requires Run(c, Init(c, shards), es).Some?
    requires Quiescent(c, Run(c, Init(c, shards), es).value)
    ensures var end := Run(c, Init(c, shards), es).value;
      |end.workers| == |shards| && !end.workers[w].phase.Done?
  {
    DrainCompletesExactly(c, shards, es, w);
    assert Load(c, [], 0) == 0;
    ModUnique(0, c.batch, 0, 0);
  }

  /**
   * The program's own configuration has four buffers a peer and sends batches of 8192 keys: a
   * worker with at least one key for every partition, but fewer than that, completes.
   */
  lemma SmallShardsComplete(pivots: seq<int>, shards: seq<seq<int>>, es: seq<Event>, w: nat)
    requires var c := WordfreqConfig(pivots);
      && Shuffleable(c, shards) && w < |shards|
      && Run(c, Init(c, shards), es).Some? && Quiescent(c, Run(c, Init(c, shards), es).value)
      && forall r :: 0 <= r < |pivots| ==> 1 <= Load(c, shards[w], r) <= 8191
    ensures var c := WordfreqConfig(pivots);
      var end := Run(c, Init(c, shards), es).value;
      c.pool == 4 * |pivots| && |end.workers| == |shards| && end.workers[w].phase.Done?
  {
    var c := WordfreqConfig(pivots);
    DrainCompletesExactly(c, shards, es, w);
    forall r | 0 <= r < c.Parts() ensures Load(c, shards[w], r) % 8192 != 0 {
      assert 1 <= Load(c, shards[w], r) <= 8191;
    }
  }

  /** With a full batch for some partition and nothing over it does not. */
  lemma FullBatchNeverCompletes(pivots: seq<int>, shards: seq<seq<int>>, es: seq<Event>, w: nat, r: nat)
    requires var c := WordfreqConfig(pivots);
      && Shuffleable(c, shards) && w < |shards|
      && Run(c, Init(c, shards), es).Some? && Quiescent(c, Run(c, Init(c, shards), es).value)
      && r < |pivots| && Load(c, shards[w], r) == 8192
    ensures var c := WordfreqConfig(pivots);
      var end := Run(c, Init(c, shards), es).value;
      |end.workers| == |shards| && !end.workers[w].phase.Done?
  {
    var c := WordfreqConfig(pivots);
    DrainCompletesExactly(c, shards, es, w);
    assert Load(c, shards[w], r) % c.batch == 0;
  }

  /** One peer, the pivot 5 and no keys: a run that ends with the worker stuck. */
  lemma StuckRun(c: Config, shards: seq<seq<int>>) returns (es: seq<Event>)
    requires c == WordfreqConfig([5]) && shards == [[]]
    ensures Shuffleable(c, shards) && Run(c, Init(c, shards), es).Some?
    ensures var end := Run(c, Init(c, shards), es).value;
      Quiescent(c, end) && |end.workers| == 1 && end.workers[0].phase.Draining?
  {
    es := CanRunToTheEnd(c, Init(c, shards));
    NoKeysNeverCompletes(c, shards, es, 0);
    StuckOrDone(c, Run(c, Init(c, shards), es).value, 0);
  }

  // ---- Global order ------------------------------------------------------------------

  /** Every worker has sent all it had, and every batch has been delivered. */
  ghost predicate Settled(s: State) {
    forall w :: 0 <= w < |s.workers| ==>
      && (s.workers[w].phase.Draining? || s.workers[w].phase.Done?)
      && forall i :: 0 <= i < |s.workers[w].calls| ==> s.workers[w].calls[i].delivered
  }

  lemma QuiescentSettles(c: Config, s: State)
    requires c.Valid() && Inv(c, s) && Quiescent(c, s)
    ensures Settled(s)
  {
    forall w | 0 <= w < |s.workers|
      ensures (s.workers[w].phase.Draining? || s.workers[w].phase.Done?) && s.workers[w].calls == []
    {
      StuckOrDone(c, s, w);
    }
  }

  lemma {:induction false} AllDelivered(calls: seq<Call>, r: nat, k: int)
    requires forall i :: 0 <= i < |calls| ==> calls[i].delivered
    ensures Sum(calls, Undelivered(r, k)) == 0
  {
    if calls != [] {
      AllDelivered(calls[..|calls| - 1], r, k);
    }
  }

  lemma {:induction false} NothingOwed(c: Config, workers: seq<Worker>, r: nat, k: int)
    requires c.Valid()
    requires forall w :: 0 <= w < |workers| ==>
      && WorkerInv(c, workers[w])
      && (workers[w].phase.Draining? || workers[w].phase.Done?)
      && forall i :: 0 <= i < |workers[w].calls| ==> workers[w].calls[i].delivered
    ensures Sum(workers, OwedOf(c, r, k)) == 0
  {
    if workers != [] {
      NothingOwed(c, workers[..|workers| - 1], r, k);
      var wk := workers[|workers| - 1];
      AllDelivered(wk.calls, r, k);
      assert wk.keys[wk.next..] == [];
      assert r < c.Parts() ==> wk.batch[r] == [];
    }
  }

  /** The keys of all workers, shard by shard. */
  function AllKeys(shards: seq<seq<int>>): seq<int> {
    if shards == [] then [] else AllKeys(shards[..|shards| - 1]) + shards[|shards| - 1]
  }

  lemma {:induction false} HasAll(c: Config, workers: seq<Worker>, shards: seq<seq<int>>, r: nat, k: int)
    requires |workers| == |shards| && forall w :: 0 <= w < |shards| ==> workers[w].keys == shards[w]
    ensures Sum(workers, Has(c, r, k)) == if Part(c, k) == r then Equal(AllKeys(shards), k) else 0
  {
    if shards != [] {
      var n := |shards| - 1;
      HasAll(c, workers[..n], shards[..n], r, k);
      SumConcat(AllKeys(shards[..n]), shards[n], Same(k));
    }
  }

  lemma {:induction false} EqualIsMultiplicity(s: seq<int>, k: int)
    ensures Equal(s, k) == multiset(s)[k]
  {
    if s != [] {
      EqualIsMultiplicity(s[..|s| - 1], k);
      assert s == s[..|s| - 1] + [s[|s| - 1]];
    }
  }

  /** Once everything is delivered a partition has exactly the keys between its pivots. */
  lemma PartitionIsExact(c: Config, shards: seq<seq<int>>, s: State, r: nat, k: int)
    requires Shuffleable(c, shards) && Inv(c, s) && Settled(s) && SameShards(Init(c, shards), s)
    requires r < c.Parts()
    ensures multiset(s.receivers[r].keys)[k] == if Between(c, r, k) then multiset(AllKeys(shards))[k] else 0
  {
    WorkersFresh(shards);
    NothingOwed(c, s.workers, r, k);
    HasAll(c, s.workers, shards, r, k);
    EqualIsMultiplicity(s.receivers[r].keys, k);
    EqualIsMultiplicity(AllKeys(shards), k);
    PartIsBetween(c, r, k);
  }

  /** The keys for partition `r`, in their order. */
  function KeysFor(c: Config, keys: seq<int>, r: nat): seq<int> {
    if keys == [] then []
    else
      var key := keys[|keys| - 1];
      KeysFor(c, keys[..|keys| - 1], r) + if Part(c, key) == r then [key] else []
  }

  lemma {:induction false} KeysForLoad(c: Config, keys: seq<int>, r: nat)
    ensures |KeysFor(c, keys, r)| == Load(c, keys, r)
  {
    if keys != [] {
      KeysForLoad(c, keys[..|keys| - 1], r);
    }
  }

  lemma {:induction false} KeysForCounts(c: Config, keys: seq<int>, r: nat, k: int)
    ensures Equal(KeysFor(c, keys, r), k) == if Part(c, k) == r then Equal(keys, k) else 0
  {
    if keys != [] {
      var key := keys[|keys| - 1];
      KeysForCounts(c, keys[..|keys| - 1], r, k);
      var before := KeysFor(c, keys[..|keys| - 1], r);
      if Part(c, key) == r {
        SumAppend(before, key, Same(k));
      } else {
        assert KeysFor(c, keys, r) == before;
      }
    }
  }

  /** Once everything is delivered a partition has as many keys as its load. */
  lemma PartitionSize(c: Config, shards: seq<seq<int>>, s: State, r: nat)
    requires Shuffleable(c, shards) && Inv(c, s) && Settled(s) && SameShards(Init(c, shards), s)
    requires r < c.Parts()
    ensures |s.receivers[r].keys| == Load(c, AllKeys(shards), r)
  {
    var expected := KeysFor(c, AllKeys(shards), r);
    forall k ensures multiset(s.receivers[r].keys)[k] == multiset(expected)[k] {
      PartitionIsExact(c, shards, s, r, k);
      PartIsBetween(c, r, k);
      KeysForCounts(c, AllKeys(shards), r, k);
      EqualIsMultiplicity(expected, k);
      EqualIsMultiplicity(AllKeys(shards), k);
    }
    assert multiset(s.receivers[r].keys) == multiset(expected);
    assert |multiset(s.receivers[r].keys)| == |multiset(expected)|;
    KeysForLoad(c, AllKeys(shards), r);
  }

  /** SortKey */
  function SortKey(r: Receiver): Receiver {
    r.(keys := Sort(r.keys))
  }

  /** The partitions one after the other, each after SortKey. */
  function Output(receivers: seq<Receiver>): seq<int> {
    if receivers == [] then []
    else Output(receivers[..|receivers| - 1]) + SortKey(receivers[|receivers| - 1]).keys
  }

  ghost predicate Exact(c: Config, all: seq<int>, receivers: seq<Receiver>) {
    |receivers| <= c.Parts() && forall r, k :: 0 <= r < |receivers| ==>
      multiset(receivers[r].keys)[k] == if Between(c, r, k) then multiset(all)[k] else 0
  }

  lemma SortedPart(c: Config, all: seq<int>, receivers: seq<Receiver>, r: nat)
    requires c.Valid() && Exact(c, all, receivers) && r < |receivers|
    ensures var part := Sort(receivers[r].keys);
      Sorted(part) && forall i :: 0 <= i < |part| ==> Between(c, r, part[i])
  {
    var part := Sort(receivers[r].keys);
    SortSorts(receivers[r].keys);
    forall i | 0 <= i < |part| ensures Between(c, r, part[i]) {
      assert part[i] in multiset(part);
      assert multiset(receivers[r].keys)[part[i]] > 0;
    }
  }

  lemma SortedConcat(s: seq<int>, t: seq<int>, x: int, y: int)
    requires Sorted(s) && Sorted(t)
    requires forall i :: 0 <= i < |s| ==> s[i] <= x
    requires forall i :: 0 <= i < |t| ==> (s == [] || x < t[i]) && t[i] <= y
    requires s == [] || x <= y
    ensures Sorted(s + t) && forall i :: 0 <= i < |s + t| ==> (s + t)[i] <= y
  {
  }

  lemma {:induction false} OutputSorted(c: Config, all: seq<int>, receivers: seq<Receiver>)
    requires c.Valid() && Exact(c, all, receivers)
    ensures Sorted(Output(receivers))
    ensures receivers != [] ==>
      forall i :: 0 <= i < |Output(receivers)| ==> Output(receivers)[i] <= c.pivots[|receivers| - 1]
  {
    if receivers != [] {
      var n := |receivers| - 1;
      OutputSorted(c, all, receivers[..n]);
      SortedPart(c, all, receivers, n);
      SortedConcat(Output(receivers[..n]), Sort(receivers[n].keys), if n == 0 then 0 else c.pivots[n - 1], c.pivots[n]);
    }
  }

  lemma {:induction false} OutputCounts(c: Config, all: seq<int>, receivers: seq<Receiver>, k: int)
    requires c.Valid() && Exact(c, all, receivers)
    ensures multiset(Output(receivers))[k] == if Part(c, k) < |receivers| then multiset(all)[k] else 0
  {
    if receivers != [] {
      var n := |receivers| - 1;
      PrefixExact(c, all, receivers, n);
      OutputCounts(c, all, receivers[..n], k);
      ExactAt(c, all, receivers, n, k);
      OutputStep(receivers, k);
    }
  }

  lemma OutputStep(receivers: seq<Receiver>, k: int)
    requires receivers != []
    ensures var n := |receivers| - 1;
      multiset(Output(receivers))[k] == multiset(Output(receivers[..n]))[k] + multiset(receivers[n].keys)[k]
  {
    CountsAdd(Output(receivers[..|receivers| - 1]), receivers[|receivers| - 1].keys, k);
  }

  lemma PrefixExact(c: Config, all: seq<int>, receivers: seq<Receiver>, n: nat)
    requires n <= |receivers| && Exact(c, all, receivers)
    ensures Exact(c, all, receivers[..n])
  {
  }

  lemma ExactAt(c: Config, all: seq<int>, receivers: seq<Receiver>, r: nat, k: int)
    requires c.Valid() && Exact(c, all, receivers) && r < |receivers|
    ensures multiset(receivers[r].keys)[k] == if Part(c, k) == r then multiset(all)[k] else 0
  {
    PartIsBetween(c, r, k);
  }

  lemma CountsAdd(s: seq<int>, t: seq<int>, k: int)
    ensures multiset(s + Sort(t))[k] == multiset(s)[k] + multiset(t)[k]
  {
    SortSorts(t);
  }

  lemma {:induction false} AllCovered(c: Config, shards: seq<seq<int>>)
    requires Shuffleable(c, shards)
    ensures Covered(c, AllKeys(shards))
  {
    if shards != [] {
      AllCovered(c, shards[..|shards| - 1]);
      assert Covered(c, shards[|shards| - 1]);
    }
  }

  /**
   * In every run, once everything is delivered the sorted partitions one after the other are
   * the sorted sequence of all the workers' keys.
   */
  lemma GloballySorted(c: Config, shards: seq<seq<int>>, es: seq<Event>)
    requires Shuffleable(c, shards)
    requires Run(c, Init(c, shards), es).Some?
    requires Settled(Run(c, Init(c, shards), es).value)
    ensures Output(Run(c, Init(c, shards), es).value.receivers) == Sort(AllKeys(shards))
  {
    var s := Run(c, Init(c, shards), es).value;
    var all := AllKeys(shards);
    forall r, k | 0 <= r < |s.receivers|
      ensures multiset(s.receivers[r].keys)[k] == if Between(c, r, k) then multiset(all)[k] else 0
    {
      PartitionIsExact(c, shards, s, r, k);
    }
    OutputSorted(c, all, s.receivers);
    AllCovered(c, shards);
    forall k ensures multiset(Output(s.receivers))[k] == multiset(all)[k] {
      OutputCounts(c, all, s.receivers, k);
      if k in multiset(all) {
        PartInRange(c, k);
      }
    }
    assert multiset(Output(s.receivers)) == multiset(all);
    SortSorts(all);
    SortedUnique(Output(s.receivers), Sort(all));
  }
}
