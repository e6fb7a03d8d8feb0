/**
 * One worker of the distributed sort, as a state machine (examples/wordfreq/wordfreq.cc): it
 * routes its keys by the pivots into one batch a partition, sends a batch when it is full,
 * takes another buffer from the pool, sends what is left at the end, and then waits for every
 * buffer of the pool to come back.
 */
module ShuffleWorker {
  import opened Options
  import opened Sums
  import opened Sorting

  // ---- Configuration -----------------------------------------------------------------

  /** `batch` is kBatch, `pool` is concurrentRequests_. */
  datatype Config = Config(pivots: seq<int>, batch: nat, pool: nat) {
    function Parts(): nat {
      |pivots|
    }

    ghost predicate Valid() {
      pivots != [] && StrictlySorted(pivots) && batch >= 1 && pool >= |pivots|
    }
  }

  const K_CONCURRENCY: nat := 4
  const K_BATCH: nat := 8192

  /** The configuration every worker uses for the given pivots, one a peer. */
  function WordfreqConfig(pivots: seq<int>): Config {
    Config(pivots, K_BATCH, |pivots| * K_CONCURRENCY)
  }

  /** The partition a key is routed to. */
  function Part(c: Config, key: int): nat {
    LowerBound(c.pivots, key)
  }

  /** No key is beyond the last pivot. */
  ghost predicate Covered(c: Config, keys: seq<int>)
    requires c.pivots != []
  {
    forall i :: 0 <= i < |keys| ==> keys[i] <= c.pivots[|c.pivots| - 1]
  }

  /** The keys that partition `r` is to receive: those above pivot `r - 1` and not above pivot `r`. */
  predicate Between(c: Config, r: nat, key: int)
    requires r < c.Parts()
  {
    (r == 0 || c.pivots[r - 1] < key) && key <= c.pivots[r]
  }

  lemma PartIsBetween(c: Config, r: nat, key: int)
    requires c.Valid() && r < c.Parts()
    ensures Part(c, key) == r <==> Between(c, r, key)
  {
  }

  lemma PartInRange(c: Config, key: int)
    requires c.Valid() && key <= c.pivots[|c.pivots| - 1]
    ensures Part(c, key) < c.Parts()
  {
  }

  // ---- State -------------------------------------------------------------------------

  datatype Phase = Idle | Filling | Waiting(part: nat) | Flushing(part: nat) | Draining | Done

  /** An RPC to a peer: the buffer it was made from, and its own serialized copy of the keys. */
  datatype Call = Call(buf: nat, part: nat, keys: seq<int>, delivered: bool)

  /**
   * `held` and `batch` are shardRequests: the buffer of each partition and its keys; a buffer
   * that has been sent is held by the call until doneShardKey puts it in `free`, which is
   * freeShards_. `drained` are the buffers the last loop has taken and deleted.
   */
  datatype Worker = Worker(
    keys: seq<int>,
    phase: Phase,
    next: nat,
    held: seq<Option<nat>>,
    batch: seq<seq<int>>,
    free: seq<nat>,
    calls: seq<Call>,
    drained: seq<nat>)

  function Fresh(keys: seq<int>): Worker {
    Worker(keys, Idle, 0, [], [], [], [], [])
  }

  function AllHeld(n: nat): seq<Option<nat>> {
    if n == 0 then [] else AllHeld(n - 1) + [Some(n - 1)]
  }

  function Ids(from: nat, upto: nat): seq<nat>
    requires from <= upto
    decreases upto
  {
    if from == upto then [] else Ids(from, upto - 1) + [upto - 1]
  }

  function Started(c: Config, keys: seq<int>): Worker
    requires c.Parts() <= c.pool
  {
    Worker(keys, Filling, 0, AllHeld(c.Parts()), seq(c.Parts(), i => []), Ids(c.Parts(), c.pool), [], [])
  }

  // ---- Steps -------------------------------------------------------------------------

  /** `peers_[part].shardKey(shardReq, ...)` */
  function Send(wk: Worker, p: nat): Worker
    requires p < |wk.held| && p < |wk.batch| && wk.held[p].Some?
  {
    wk.(calls := wk.calls + [Call(wk.held[p].value, p, wk.batch[p], false)],
        held := wk.held[p := None],
        batch := wk.batch[p := []])
  }

  /** Adds the next key to its batch; a full batch is sent, and a buffer is wanted. */
  function Append(c: Config, wk: Worker): Worker
    requires wk.next < |wk.keys|
    requires var p := Part(c, wk.keys[wk.next]); p < |wk.held| && p < |wk.batch| && wk.held[p].Some?
  {
    var key := wk.keys[wk.next];
    var p := Part(c, key);
    var added := wk.(next := wk.next + 1, batch := wk.batch[p := wk.batch[p] + [key]]);
    if |added.batch[p]| >= c.batch then Send(added, p).(phase := Waiting(p)) else added
  }

  /** `freeShards_.take()` in the main loop, and Clear. */
  function Take(wk: Worker): Worker
    requires wk.phase.Waiting? && wk.free != []
    requires wk.phase.part < |wk.held| && wk.phase.part < |wk.batch|
  {
    var p := wk.phase.part;
    wk.(held := wk.held[p := Some(wk.free[0])], batch := wk.batch[p := []], free := wk.free[1..], phase := Filling)
  }

  /** Sends what is left of one partition; an empty buffer stays where it is. */
  function Flush(c: Config, wk: Worker): Worker
    requires wk.phase.Flushing? && wk.phase.part < |wk.held| && wk.phase.part < |wk.batch|
    requires wk.held[wk.phase.part].Some?
  {
    var p := wk.phase.part;
    var sent := if wk.batch[p] != [] then Send(wk, p) else wk;
    sent.(phase := if p + 1 >= c.Parts() then Draining else Flushing(p + 1))
  }

  /** `freeShards_.take()` in the last loop, and delete. */
  function Drain(wk: Worker): Worker
    requires wk.free != []
  {
    wk.(free := wk.free[1..], drained := wk.drained + [wk.free[0]])
  }

  function Deliver(wk: Worker, i: nat): Worker
    requires i < |wk.calls|
  {
    wk.(calls := wk.calls[i := wk.calls[i].(delivered := true)])
  }

  /** doneShardKey */
  function Ack(wk: Worker, i: nat): Worker
    requires i < |wk.calls|
  {
    wk.(calls := RemoveAt(wk.calls, i), free := wk.free + [wk.calls[i].buf])
  }

  // ---- What a worker has and owes ----------------------------------------------------

  function IsId(b: nat): nat -> int {
    (id: nat) => if id == b then 1 else 0
  }

  function IsBuffer(b: nat): Option<nat> -> int {
    (held: Option<nat>) => if held == Some(b) then 1 else 0
  }

  function IsCallOf(b: nat): Call -> int {
    (call: Call) => if call.buf == b then 1 else 0
  }

  function IsHeld(): Option<nat> -> int {
    (held: Option<nat>) => if held.Some? then 1 else 0
  }

  /** In how many places buffer `b` is: held by a partition, in flight, free or deleted. */
  function Places(wk: Worker, b: nat): int {
    Sum(wk.held, IsBuffer(b)) + Sum(wk.free, IsId(b)) + Sum(wk.calls, IsCallOf(b)) + Sum(wk.drained, IsId(b))
  }

  /** How many buffers there are in all places. */
  function Buffers(wk: Worker): int {
    Sum(wk.held, IsHeld()) + |wk.free| + |wk.calls| + |wk.drained|
  }

  function GoesTo(c: Config, r: nat): int -> int {
    (key: int) => if Part(c, key) == r then 1 else 0
  }

  function Undelivered(r: nat, k: int): Call -> int {
    (call: Call) => if call.part == r && !call.delivered then Equal(call.keys, k) else 0
  }

  function InBatch(wk: Worker, r: nat, k: int): int {
    if r < |wk.batch| then Equal(wk.batch[r], k) else 0
  }

  function Rest(wk: Worker): seq<int> {
    if wk.next <= |wk.keys| then wk.keys[wk.next..] else []
  }

  function ToCome(c: Config, wk: Worker, r: nat, k: int): int {
    if Part(c, k) == r then Equal(Rest(wk), k) else 0
  }

  /** How many keys equal to `k` a worker has still to get to partition `r`. */
  function OwedOf(c: Config, r: nat, k: int): Worker -> int {
    (wk: Worker) => InBatch(wk, r, k) + Sum(wk.calls, Undelivered(r, k)) + ToCome(c, wk, r, k)
  }

  /** How many of the keys are for partition `r`. */
  function Load(c: Config, keys: seq<int>, r: nat): nat {
    CountNonNegative(c, keys, r);
    Sum(keys, GoesTo(c, r))
  }

  /** How many of them a worker has taken up. */
  function Taken(c: Config, wk: Worker, r: nat): nat
    requires wk.next <= |wk.keys|
  {
    Load(c, wk.keys[..wk.next], r)
  }

  lemma {:induction false} CountNonNegative(c: Config, keys: seq<int>, r: nat)
    ensures Sum(keys, GoesTo(c, r)) >= 0
  {
    if keys != [] {
      CountNonNegative(c, keys[..|keys| - 1], r);
    }
  }

  // ---- The invariant -----------------------------------------------------------------

  /** Partition `r` has given up its buffer. */
  ghost predicate Released(c: Config, wk: Worker, r: nat)
    requires c.Valid()
  {
    match wk.phase
    case Idle => true
    case Filling => false
    case Waiting(p) => r == p
    case Flushing(p) => r < p && Load(c, wk.keys, r) % c.batch != 0
    case _ => Load(c, wk.keys, r) % c.batch != 0
  }

  ghost function BatchSize(c: Config, wk: Worker, r: nat): nat
    requires c.Valid() && wk.next <= |wk.keys|
  {
    match wk.phase
    case Flushing(p) => if r < p then 0 else Load(c, wk.keys, r) % c.batch
    case Draining => 0
    case Done => 0
    case _ => Taken(c, wk, r) % c.batch
  }

  ghost predicate PhaseInv(c: Config, wk: Worker)
    requires c.Valid() && wk.next <= |wk.keys|
  {
    && (wk.phase.Waiting? ==> wk.phase.part < c.Parts() && Taken(c, wk, wk.phase.part) % c.batch == 0)
    && (wk.phase.Flushing? ==> wk.phase.part < c.Parts())
    && (wk.phase.Flushing? || wk.phase.Draining? || wk.phase.Done? ==> wk.next == |wk.keys|)
    && (wk.phase.Draining? || wk.phase.Done? || wk.drained == [])
    && |wk.drained| <= c.pool
    && (wk.phase.Done? ==> |wk.drained| == c.pool)
  }

  ghost predicate PartInv(c: Config, wk: Worker)
    requires c.Valid() && wk.next <= |wk.keys| && |wk.held| == |wk.batch| == c.Parts()
  {
    forall r :: 0 <= r < c.Parts() ==>
      && |wk.batch[r]| == BatchSize(c, wk, r)
      && (wk.held[r].None? <==> Released(c, wk, r))
  }

  /** Every buffer of the pool is in exactly one place. */
  ghost predicate PoolInv(c: Config, wk: Worker) {
    && Buffers(wk) == c.pool
    && forall b: nat :: Places(wk, b) == if b < c.pool then 1 else 0
  }

  ghost predicate CallsInv(c: Config, wk: Worker)
    requires c.Valid()
  {
    forall i :: 0 <= i < |wk.calls| ==> wk.calls[i].part < c.Parts() && wk.calls[i].keys != []
  }

  ghost predicate WorkerInv(c: Config, wk: Worker)
    requires c.Valid()
  {
    && Covered(c, wk.keys)
    && wk.next <= |wk.keys|
    && CallsInv(c, wk)
    && if wk.phase.Idle? then wk == Fresh(wk.keys) else
         && |wk.held| == |wk.batch| == c.Parts()
         && PoolInv(c, wk)
         && PhaseInv(c, wk)
         && PartInv(c, wk)
  }
}
