/** Every step of a worker keeps its invariant, and only a delivery pays what it owes. */
module ShuffleSteps {
  import opened Options
  import opened Modulo
  import opened Sums
  import opened Sorting
  import opened ShuffleWorker

  // ---- When a worker can take a step -------------------------------------------------

  predicate CanAppend(wk: Worker) {
    wk.phase.Filling? && wk.next < |wk.keys|
  }

  predicate CanTake(wk: Worker) {
    wk.phase.Waiting? && wk.free != []
  }

  predicate CanEndFill(wk: Worker) {
    wk.phase.Filling? && wk.next == |wk.keys|
  }

  predicate CanDrain(c: Config, wk: Worker) {
    wk.phase.Draining? && |wk.drained| < c.pool && wk.free != []
  }

  predicate CanFinish(c: Config, wk: Worker) {
    wk.phase.Draining? && |wk.drained| == c.pool
  }

  predicate CanDeliver(wk: Worker, i: nat) {
    i < |wk.calls| && !wk.calls[i].delivered
  }

  predicate CanAck(wk: Worker, i: nat) {
    i < |wk.calls| && wk.calls[i].delivered
  }

  /** The two workers owe the same keys to every partition. */
  ghost predicate SameDebt(c: Config, wk: Worker, wk': Worker) {
    forall r: nat, k: int :: OwedOf(c, r, k)(wk') == OwedOf(c, r, k)(wk)
  }

  /** The two workers have the same buffers, in whatever places. */
  ghost predicate SamePool(wk: Worker, wk': Worker) {
    Buffers(wk') == Buffers(wk) && forall b: nat :: Places(wk', b) == Places(wk, b)
  }

  // ---- Sending -----------------------------------------------------------------------

  lemma SendKeepsPool(wk: Worker, p: nat)
    requires p < |wk.held| && p < |wk.batch| && wk.held[p].Some?
    ensures SamePool(wk, Send(wk, p))
  {
    var call := Call(wk.held[p].value, p, wk.batch[p], false);
    SumUpdate(wk.held, p, None, IsHeld());
    forall b: nat ensures Places(Send(wk, p), b) == Places(wk, b) {
      SumAppend(wk.calls, call, IsCallOf(b));
      SumUpdate(wk.held, p, None, IsBuffer(b));
    }
  }

  lemma SendKeepsDebt(c: Config, wk: Worker, p: nat)
    requires p < |wk.held| && p < |wk.batch| && wk.held[p].Some?
    ensures SameDebt(c, wk, Send(wk, p))
  {
    forall r: nat, k: int ensures OwedOf(c, r, k)(Send(wk, p)) == OwedOf(c, r, k)(wk) {
      SendMovesBatch(wk, p, r, k);
    }
  }

  /** What leaves the batch is in the call. */
  lemma SendMovesBatch(wk: Worker, p: nat, r: nat, k: int)
    requires p < |wk.held| && p < |wk.batch| && wk.held[p].Some?
    ensures InBatch(Send(wk, p), r, k) + Sum(Send(wk, p).calls, Undelivered(r, k))
         == InBatch(wk, r, k) + Sum(wk.calls, Undelivered(r, k))
  {
    SumAppend(wk.calls, Call(wk.held[p].value, p, wk.batch[p], false), Undelivered(r, k));
  }

  // ---- Start -------------------------------------------------------------------------

  lemma {:induction false} IdsPlaces(lo: nat, hi: nat, b: nat)
    requires lo <= hi
    ensures Sum(Ids(lo, hi), IsId(b)) == if lo <= b < hi then 1 else 0
    ensures |Ids(lo, hi)| == hi - lo
    decreases hi
  {
    if lo < hi {
      IdsPlaces(lo, hi - 1, b);
      SumAppend<nat>(Ids(lo, hi - 1), hi - 1, IsId(b));
    }
  }

  lemma {:induction false} HeldPlaces(n: nat, b: nat)
    ensures |AllHeld(n)| == n && forall i :: 0 <= i < n ==> AllHeld(n)[i] == Some(i)
    ensures Sum(AllHeld(n), IsBuffer(b)) == if b < n then 1 else 0
    ensures Sum(AllHeld(n), IsHeld()) == n
  {
    if n > 0 {
      HeldPlaces(n - 1, b);
      SumAppend(AllHeld(n - 1), Some(n - 1), IsBuffer(b));
      SumAppend(AllHeld(n - 1), Some(n - 1), IsHeld());
    }
  }

  lemma StartPool(c: Config, keys: seq<int>)
    requires c.Valid()
    ensures PoolInv(c, Started(c, keys))
  {
    forall b: nat ensures Places(Started(c, keys), b) == if b < c.pool then 1 else 0 {
      HeldPlaces(c.Parts(), b);
      IdsPlaces(c.Parts(), c.pool, b);
    }
    HeldPlaces(c.Parts(), 0);
    IdsPlaces(c.Parts(), c.pool, 0);
  }

  lemma NothingTaken(c: Config, keys: seq<int>)
    requires c.Valid()
    ensures forall r: nat :: Taken(c, Started(c, keys), r) % c.batch == 0
  {
    forall r: nat ensures Taken(c, Started(c, keys), r) == 0 {
      assert keys[..0] == [];
    }
    ModUnique(0, c.batch, 0, 0);
  }

  lemma StartParts(c: Config, keys: seq<int>)
    requires c.Valid()
    ensures var wk := Started(c, keys);
      |wk.held| == |wk.batch| == c.Parts() && PhaseInv(c, wk) && PartInv(c, wk)
  {
    var wk := Started(c, keys);
    HeldPlaces(c.Parts(), 0);
    NothingTaken(c, keys);
    forall r | 0 <= r < c.Parts()
      ensures |wk.batch[r]| == BatchSize(c, wk, r) && (wk.held[r].None? <==> Released(c, wk, r))
    {
      assert wk.held[r] == Some(r);
    }
  }

  lemma StartKeeps(c: Config, keys: seq<int>)
    requires c.Valid() && WorkerInv(c, Fresh(keys))
    ensures WorkerInv(c, Started(c, keys)) && SameDebt(c, Fresh(keys), Started(c, keys))
  {
    StartPool(c, keys);
    StartParts(c, keys);
  }

  // ---- Append ------------------------------------------------------------------------

  /** The next key in its batch, whether or not the batch is now full. */
  function AddKey(c: Config, wk: Worker): Worker
    requires wk.next < |wk.keys| && Part(c, wk.keys[wk.next]) < |wk.batch|
  {
    var p := Part(c, wk.keys[wk.next]);
    wk.(next := wk.next + 1, batch := wk.batch[p := wk.batch[p] + [wk.keys[wk.next]]])
  }

  lemma RestNext(keys: seq<int>, n: nat, k: int)
    requires n < |keys|
    ensures Equal(keys[n..], k) == Same(k)(keys[n]) + Equal(keys[n + 1..], k)
  {
    assert keys[n..] == [keys[n]] + keys[n + 1..];
    SumConcat([keys[n]], keys[n + 1..], Same(k));
    SumAppend([], keys[n], Same(k));
    assert [] + [keys[n]] == [keys[n]];
  }

  lemma AddKeepsDebt(c: Config, wk: Worker)
    requires wk.next < |wk.keys| && Part(c, wk.keys[wk.next]) < |wk.batch|
    ensures SameDebt(c, wk, AddKey(c, wk))
  {
    var key := wk.keys[wk.next];
    forall r: nat, k: int ensures OwedOf(c, r, k)(AddKey(c, wk)) == OwedOf(c, r, k)(wk) {
      RestNext(wk.keys, wk.next, k);
      if r == Part(c, key) {
        SumAppend(wk.batch[r], key, Same(k));
      }
    }
  }

  lemma TakenNext(c: Config, wk: Worker, r: nat)
    requires c.Valid() && wk.next < |wk.keys| && Part(c, wk.keys[wk.next]) < |wk.batch|
    ensures var t, t' := Taken(c, wk, r) % c.batch, Taken(c, AddKey(c, wk), r) % c.batch;
      t' == if Part(c, wk.keys[wk.next]) != r then t else if t + 1 >= c.batch then 0 else t + 1
  {
    SumPrefix(wk.keys, wk.next, GoesTo(c, r));
    NextMod(Taken(c, wk, r), c.batch);
  }

  lemma AppendKeepsParts(c: Config, wk: Worker)
    requires c.Valid() && WorkerInv(c, wk) && CanAppend(wk)
    requires var p := Part(c, wk.keys[wk.next]); p < c.Parts() && wk.held[p].Some?
    ensures PhaseInv(c, Append(c, wk)) && PartInv(c, Append(c, wk))
  {
    var p := Part(c, wk.keys[wk.next]);
    var now := Append(c, wk);
    forall r | 0 <= r < c.Parts()
      ensures |now.batch[r]| == BatchSize(c, now, r)
    {
      TakenNext(c, wk, r);
    }
    TakenNext(c, wk, p);
  }

  lemma AppendKeeps(c: Config, wk: Worker)
    requires c.Valid() && WorkerInv(c, wk) && CanAppend(wk)
    ensures var p := Part(c, wk.keys[wk.next]); p < |wk.held| && wk.held[p].Some?
    ensures WorkerInv(c, Append(c, wk)) && SameDebt(c, wk, Append(c, wk))
  {
    var p := Part(c, wk.keys[wk.next]);
    PartInRange(c, wk.keys[wk.next]);
    var added, now := AddKey(c, wk), Append(c, wk);
    AppendKeepsParts(c, wk);
    AddKeepsDebt(c, wk);
    SendKeepsDebt(c, added, p);
    SendKeepsPool(added, p);
    SamePoolTrans(wk, added, Send(added, p), now.phase);
    SameDebtTrans(c, wk, added, now);
  }

  lemma SamePoolTrans(a: Worker, b: Worker, d: Worker, phase: Phase)
    requires SamePool(a, b.(batch := a.batch, next := a.next)) && SamePool(b, d)
    ensures SamePool(a, b) && SamePool(a, b.(phase := phase)) && SamePool(a, d.(phase := phase))
  {
  }

  lemma SameDebtTrans(c: Config, a: Worker, b: Worker, d: Worker)
    requires SameDebt(c, a, b)
    requires forall r: nat, k: int :: OwedOf(c, r, k)(d) == OwedOf(c, r, k)(b)
    ensures SameDebt(c, a, d)
  {
  }

  // ---- Take --------------------------------------------------------------------------

  lemma TakeKeepsPool(wk: Worker)
    requires CanTake(wk) && wk.phase.part < |wk.held| && wk.phase.part < |wk.batch|
    requires wk.held[wk.phase.part].None?
    ensures SamePool(wk, Take(wk))
  {
    var p := wk.phase.part;
    SumUpdate(wk.held, p, Some(wk.free[0]), IsHeld());
    forall b: nat ensures Places(Take(wk), b) == Places(wk, b) {
      SumUpdate(wk.held, p, Some(wk.free[0]), IsBuffer(b));
      SumHead<nat>(wk.free, IsId(b));
    }
  }

  lemma TakeKeeps(c: Config, wk: Worker)
    requires c.Valid() && WorkerInv(c, wk) && CanTake(wk)
    ensures WorkerInv(c, Take(wk)) && SameDebt(c, wk, Take(wk))
  {
    var p := wk.phase.part;
    assert wk.batch[p] == [];
    assert Take(wk).batch == wk.batch;
    TakeKeepsPool(wk);
  }

  // ---- The end of the main loop ------------------------------------------------------

  lemma EndFillKeeps(c: Config, wk: Worker)
    requires c.Valid() && WorkerInv(c, wk) && CanEndFill(wk)
    ensures var now := wk.(phase := Flushing(0)); WorkerInv(c, now) && SameDebt(c, wk, now)
  {
    assert wk.keys[..wk.next] == wk.keys;
    assert SamePool(wk, wk.(phase := Flushing(0)));
  }

  lemma FlushKeeps(c: Config, wk: Worker)
    requires c.Valid() && WorkerInv(c, wk) && wk.phase.Flushing?
    ensures wk.held[wk.phase.part].Some?
    ensures WorkerInv(c, Flush(c, wk)) && SameDebt(c, wk, Flush(c, wk))
  {
    var p := wk.phase.part;
    var now := Flush(c, wk);
    assert wk.held[p].Some?;
    SendKeepsPool(wk, p);
    SendKeepsDebt(c, wk, p);
    SamePoolTrans(wk, wk, if wk.batch[p] != [] then Send(wk, p) else wk, now.phase);
    FlushKeepsParts(c, wk);
  }

  lemma FlushKeepsParts(c: Config, wk: Worker)
    requires c.Valid() && WorkerInv(c, wk) && wk.phase.Flushing? && wk.held[wk.phase.part].Some?
    ensures PhaseInv(c, Flush(c, wk)) && PartInv(c, Flush(c, wk)) && CallsInv(c, Flush(c, wk))
  {
    var p, now := wk.phase.part, Flush(c, wk);
    forall r | 0 <= r < c.Parts()
      ensures |now.batch[r]| == BatchSize(c, now, r) && (now.held[r].None? <==> Released(c, now, r))
    {
      assert |wk.batch[r]| == BatchSize(c, wk, r) && (wk.held[r].None? <==> Released(c, wk, r));
    }
  }

  lemma DrainKeeps(c: Config, wk: Worker)
    requires c.Valid() && WorkerInv(c, wk) && CanDrain(c, wk)
    ensures WorkerInv(c, Drain(wk)) && SameDebt(c, wk, Drain(wk))
  {
    forall b: nat ensures Places(Drain(wk), b) == Places(wk, b) {
      SumHead<nat>(wk.free, IsId(b));
      SumAppend(wk.drained, wk.free[0], IsId(b));
    }
    assert SamePool(wk, Drain(wk));
  }

  lemma FinishKeeps(c: Config, wk: Worker)
    requires c.Valid() && WorkerInv(c, wk) && CanFinish(c, wk)
    ensures WorkerInv(c, wk.(phase := Done)) && SameDebt(c, wk, wk.(phase := Done))
  {
    assert SamePool(wk, wk.(phase := Done));
  }

  // ---- Calls -------------------------------------------------------------------------

  /** A delivery pays exactly the keys of the call, to the partition of the call. */
  lemma DeliverPays(c: Config, wk: Worker, i: nat)
    requires c.Valid() && WorkerInv(c, wk) && CanDeliver(wk, i)
    ensures WorkerInv(c, Deliver(wk, i))
    ensures forall r: nat, k: int :: OwedOf(c, r, k)(wk) == OwedOf(c, r, k)(Deliver(wk, i))
              + if r == wk.calls[i].part then Equal(wk.calls[i].keys, k) else 0
  {
    var now := Deliver(wk, i);
    var call := wk.calls[i].(delivered := true);
    forall b: nat ensures Places(now, b) == Places(wk, b) {
      SumUpdate(wk.calls, i, call, IsCallOf(b));
    }
    assert SamePool(wk, now);
    forall r: nat, k: int ensures OwedOf(c, r, k)(wk) == OwedOf(c, r, k)(now)
                            + if r == wk.calls[i].part then Equal(wk.calls[i].keys, k) else 0
    {
      SumUpdate(wk.calls, i, call, Undelivered(r, k));
    }
  }

  lemma AckKeeps(c: Config, wk: Worker, i: nat)
    requires c.Valid() && WorkerInv(c, wk) && CanAck(wk, i)
    ensures WorkerInv(c, Ack(wk, i)) && SameDebt(c, wk, Ack(wk, i))
  {
    var now := Ack(wk, i);
    forall b: nat ensures Places(now, b) == Places(wk, b) {
      SumRemove(wk.calls, i, IsCallOf(b));
      SumAppend(wk.free, wk.calls[i].buf, IsId(b));
    }
    assert SamePool(wk, now);
    forall r: nat, k: int ensures OwedOf(c, r, k)(now) == OwedOf(c, r, k)(wk) {
      SumRemove(wk.calls, i, Undelivered(r, k));
    }
  }
}
