/**
 * The distributed sort as a whole (examples/wordfreq/wordfreq.cc): any number of workers
 * shuffle to the same peers with the same pivots; their steps, the deliveries and the
 * acknowledgements interleave in any order.
 */
module Shuffle {
  import opened Options
  import opened Sums
  import opened Sorting
  import opened ShuffleWorker
  import opened ShuffleSteps

  // ---- The system --------------------------------------------------------------------

  /** A peer as receiver: partition_ and partitionKeys_. */
  datatype Receiver = Receiver(partition: int, keys: seq<int>)

  datatype State = State(workers: seq<Worker>, receivers: seq<Receiver>)

  datatype Event =
    | Begin(w: nat)
    | AddNextKey(w: nat)
    | TakeBuffer(w: nat)
    | EndKeys(w: nat)
    | FlushPart(w: nat)
    | DrainBuffer(w: nat)
    | Finish(w: nat)
    | Delivery(w: nat, call: nat)
    | Acknowledge(w: nat, call: nat)

  function Workers(shards: seq<seq<int>>): seq<Worker> {
    if shards == [] then [] else Workers(shards[..|shards| - 1]) + [Fresh(shards[|shards| - 1])]
  }

  function Peers(n: nat): seq<Receiver> {
    if n == 0 then [] else Peers(n - 1) + [Receiver(-1, [])]
  }

  function Init(c: Config, shards: seq<seq<int>>): (s: State)
    requires Shuffleable(c, shards)
    ensures Inv(c, s)
  {
    InitInv(c, shards);
    State(Workers(shards), Peers(c.Parts()))
  }

  predicate Enabled(c: Config, s: State, e: Event) {
    e.w < |s.workers| &&
    var wk := s.workers[e.w];
    match e
    case Begin(_) => wk.phase.Idle?
    case AddNextKey(_) => CanAppend(wk)
    case TakeBuffer(_) => CanTake(wk)
    case EndKeys(_) => CanEndFill(wk)
    case FlushPart(_) => wk.phase.Flushing?
    case DrainBuffer(_) => CanDrain(c, wk)
    case Finish(_) => CanFinish(c, wk)
    case Delivery(_, i) => CanDeliver(wk, i)
    case Acknowledge(_, i) => CanAck(wk, i)
  }

  /** What the step does to the worker. */
  function WorkerAfter(c: Config, s: State, e: Event): (wk': Worker)
    requires c.Valid() && Inv(c, s) && Enabled(c, s, e)
    ensures WorkerInv(c, wk') && wk'.keys == s.workers[e.w].keys
    ensures !e.Delivery? ==> SameDebt(c, s.workers[e.w], wk')
  {
    var wk := s.workers[e.w];
    match e
    case Begin(_) => StartKeeps(c, wk.keys); Started(c, wk.keys)
    case AddNextKey(_) => AppendKeeps(c, wk); Append(c, wk)
    case TakeBuffer(_) => TakeKeeps(c, wk); Take(wk)
    case EndKeys(_) => EndFillKeeps(c, wk); wk.(phase := Flushing(0))
    case FlushPart(_) => FlushKeeps(c, wk); Flush(c, wk)
    case DrainBuffer(_) => DrainKeeps(c, wk); Drain(wk)
    case Finish(_) => FinishKeeps(c, wk); wk.(phase := Done)
    case Delivery(_, i) => DeliverPays(c, wk, i); Deliver(wk, i)
    case Acknowledge(_, i) => AckKeeps(c, wk, i); Ack(wk, i)
  }

  /** ShardKey: the first batch says which partition the peer is; the keys are appended. */
  function Received(r: Receiver, call: Call): Receiver {
    Receiver(if r.partition == -1 then call.part else r.partition, r.keys + call.keys)
  }

  function ReceiversAfter(c: Config, s: State, e: Event): seq<Receiver>
    requires c.Valid() && Inv(c, s) && Enabled(c, s, e)
  {
    match e
    case Delivery(w, i) =>
      var call := s.workers[w].calls[i];
      s.receivers[call.part := Received(s.receivers[call.part], call)]
    case _ => s.receivers
  }

  function Apply(c: Config, s: State, e: Event): (s': State)
    requires c.Valid() && Inv(c, s) && Enabled(c, s, e)
    ensures Inv(c, s') && SameShards(s, s')
  {
    var s' := State(s.workers[e.w := WorkerAfter(c, s, e)], ReceiversAfter(c, s, e));
    StepConserves(c, s, e);
    s'
  }

  // ---- The invariant -----------------------------------------------------------------

  function Has(c: Config, r: nat, k: int): Worker -> int {
    (wk: Worker) => if Part(c, k) == r then Equal(wk.keys, k) else 0
  }

  /** Every key is either at its partition or owed to it by some worker. */
  ghost predicate Conserved(c: Config, workers: seq<Worker>, receivers: seq<Receiver>) {
    forall r: nat, k: int :: r < |receivers| ==>
      Equal(receivers[r].keys, k) + Sum(workers, OwedOf(c, r, k)) == Sum(workers, Has(c, r, k))
  }

  /** No peer ever hears of a second partition, and none has keys before it knows its own. */
  ghost predicate ReceiversInv(receivers: seq<Receiver>) {
    forall r :: 0 <= r < |receivers| ==>
      if receivers[r].partition == -1 then receivers[r].keys == [] else receivers[r].partition == r
  }

  ghost predicate Inv(c: Config, s: State)
    requires c.Valid()
  {
    && |s.receivers| == c.Parts()
    && (forall w :: 0 <= w < |s.workers| ==> WorkerInv(c, s.workers[w]))
    && ReceiversInv(s.receivers)
    && Conserved(c, s.workers, s.receivers)
  }

  ghost predicate SameShards(s: State, s': State) {
    |s'.workers| == |s.workers|
    && forall w :: 0 <= w < |s.workers| ==> s'.workers[w].keys == s.workers[w].keys
  }

  lemma StepConserves(c: Config, s: State, e: Event)
    requires c.Valid() && Inv(c, s) && Enabled(c, s, e)
    ensures Conserved(c, s.workers[e.w := WorkerAfter(c, s, e)], ReceiversAfter(c, s, e))
  {
    var wk, wk' := s.workers[e.w], WorkerAfter(c, s, e);
    var workers', receivers' := s.workers[e.w := wk'], ReceiversAfter(c, s, e);
    if e.Delivery? {
      DeliverPays(c, wk, e.call);
    }
    forall r: nat, k: int | r < |receivers'|
      ensures Equal(receivers'[r].keys, k) + Sum(workers', OwedOf(c, r, k)) == Sum(workers', Has(c, r, k))
    {
      SumUpdate(s.workers, e.w, wk', OwedOf(c, r, k));
      SumUpdate(s.workers, e.w, wk', Has(c, r, k));
      if e.Delivery? && r == wk.calls[e.call].part {
        SumConcat(s.receivers[r].keys, wk.calls[e.call].keys, Same(k));
      }
    }
  }

  lemma {:induction false} WorkersFresh(shards: seq<seq<int>>)
    ensures |Workers(shards)| == |shards|
    ensures forall w :: 0 <= w < |shards| ==> Workers(shards)[w] == Fresh(shards[w])
  {
    if shards != [] {
      WorkersFresh(shards[..|shards| - 1]);
    }
  }

  lemma {:induction false} PeersAre(n: nat)
    ensures |Peers(n)| == n && forall r :: 0 <= r < n ==> Peers(n)[r] == Receiver(-1, [])
  {
    if n > 0 {
      PeersAre(n - 1);
    }
  }

  /** Every shard is within the pivots, as ShuffleKey checks. */
  ghost predicate Shuffleable(c: Config, shards: seq<seq<int>>) {
    c.Valid() && forall w :: 0 <= w < |shards| ==> Covered(c, shards[w])
  }

  lemma InitInv(c: Config, shards: seq<seq<int>>)
    requires Shuffleable(c, shards)
    ensures Inv(c, State(Workers(shards), Peers(c.Parts())))
  {
    var s := State(Workers(shards), Peers(c.Parts()));
    WorkersFresh(shards);
    PeersAre(c.Parts());
    forall r: nat, k: int | r < |s.receivers|
      ensures Equal(s.receivers[r].keys, k) + Sum(s.workers, OwedOf(c, r, k)) == Sum(s.workers, Has(c, r, k))
    {
      forall w | 0 <= w < |s.workers| ensures OwedOf(c, r, k)(s.workers[w]) == Has(c, r, k)(s.workers[w]) {
        assert shards[w][0..] == shards[w];
      }
      SumPointwise(s.workers, OwedOf(c, r, k), Has(c, r, k));
    }
  }

  // ---- Runs --------------------------------------------------------------------------

  /** The state after the events `es`, if each of them is enabled in its turn. */
  function Run(c: Config, s: State, es: seq<Event>): (end: Option<State>)
    requires c.Valid() && Inv(c, s)
    ensures end.Some? ==> Inv(c, end.value) && SameShards(s, end.value)
    decreases |es|
  {
    if es == [] then Some(s)
    else if Enabled(c, s, es[0]) then Run(c, Apply(c, s, es[0]), es[1..])
    else None
  }

  ghost predicate Quiescent(c: Config, s: State) {
    forall e :: !Enabled(c, s, e)
  }

  lemma RunFirst(c: Config, s: State, es: seq<Event>)
    requires c.Valid() && Inv(c, s) && es != [] && Enabled(c, s, es[0])
    ensures Run(c, s, es) == Run(c, Apply(c, s, es[0]), es[1..])
  {
  }

  lemma HeadOfConcat<T>(u: seq<T>, v: seq<T>)
    requires u != []
    ensures (u + v)[0] == u[0] && (u + v)[1..] == u[1..] + v
  {
  }

  /** Running in two stages. */
  lemma {:induction false} RunConcat(c: Config, s: State, es: seq<Event>, end: State, more: seq<Event>)
    requires c.Valid() && Inv(c, s) && Run(c, s, es) == Some(end)
    ensures Inv(c, end) && Run(c, s, es + more) == Run(c, end, more)
    decreases |es|
  {
    if es == [] {
      assert es + more == more;
    } else {
      var s' := Apply(c, s, es[0]);
      RunConcat(c, s', es[1..], end, more);
      RunLonger(c, s, es, more, Run(c, end, more));
    }
  }

  lemma RunLonger(c: Config, s: State, es: seq<Event>, more: seq<Event>, r: Option<State>)
    requires c.Valid() && Inv(c, s) && es != [] && Enabled(c, s, es[0])
    requires Run(c, Apply(c, s, es[0]), es[1..] + more) == r
    ensures Run(c, s, es + more) == r
  {
    HeadOfConcat(es, more);
    RunFirst(c, s, es + more);
  }

  lemma RunOne(c: Config, s: State, e: Event)
    requires c.Valid() && Inv(c, s) && Enabled(c, s, e)
    ensures Run(c, s, [e]) == Some(Apply(c, s, e))
  {
    RunFirst(c, s, [e]);
    assert [e][1..] == [];
  }
}
