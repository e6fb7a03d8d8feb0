/** What holds of every run of the balancer. */
module BalancerRuns {
  import opened Options
  import opened Sums
  import opened Balancer

  // ---- Runs --------------------------------------------------------------------------

  function Run(s: State, es: seq<Event>): (end: Option<State>)
    requires Inv(s)
    ensures end.Some? ==> Inv(end.value)
    decreases |es|
  {
    if es == [] then Some(s)
    else if Enabled(s, es[0]) then
      StepKeeps(s, es[0]);
      Run(Apply(s, es[0]), es[1..])
    else None
  }

  function Start(clients: nat, backends: nat): (s: State)
    ensures Inv(s)
  {
    InitInv(clients, backends);
    Init(clients, backends)
  }

  predicate AllOutstanding(b: Backend, fs: seq<Flight>) {
    forall i :: 0 <= i < |fs| ==> fs[i].msg.id in b.outstanding
  }

  /** In every run every id on a backend's wire is outstanding, and no lookup ever misses. */
  lemma NeverPanics(clients: nat, backends: nat, es: seq<Event>, s: State)
    requires Run(Start(clients, backends), es) == Some(s)
    ensures !s.panicked
    ensures forall b :: 0 <= b < |s.backends| ==>
      AllOutstanding(s.backends[b], s.backends[b].wire) && AllOutstanding(s.backends[b], s.backends[b].replies)
  {
    forall b | 0 <= b < |s.backends|
      ensures AllOutstanding(s.backends[b], s.backends[b].wire) && AllOutstanding(s.backends[b], s.backends[b].replies)
    {
      assert BackendInv(s.arrived, s.answers, s.backends[b]);
    }
  }

  /** What a backend has been sent is the body of a request that has arrived, for every id on its wire. */
  lemma BackendsSeeTheRequests(clients: nat, backends: nat, es: seq<Event>, s: State, b: nat, i: nat)
    requires Run(Start(clients, backends), es) == Some(s)
    requires b < |s.backends| && i < |s.backends[b].wire|
    ensures var f := s.backends[b].wire[i];
      Known(s.arrived, f.request) && f.msg.body == f.request.msg.body
  {
    assert BackendInv(s.arrived, s.answers, s.backends[b]);
    assert FlightOk(s.backends[b].outstanding, s.arrived, s.backends[b].wire[i]);
  }

  /**
   * In every run every message written to a client replies to a request of that very client,
   * under the id it was asked with, and carries the body that a backend has answered to it.
   */
  lemma DeliveriesAreRight(clients: nat, backends: nat, es: seq<Event>, s: State, c: nat, i: nat)
    requires Run(Start(clients, backends), es) == Some(s)
    requires c < |s.outputs| && i < |s.outputs[c]|
    ensures DeliveryOk(s.arrived, s.answers, c, s.outputs[c][i])
  {
  }

  lemma CountsNonNegative(s: State, k: nat)
    ensures Sum(s.requests, IsRequest(k)) >= 0 && Delivered(s, k) >= 0
    ensures Sum(s.backends, Waiting(k)) >= 0 && Sum(s.backends, Replying(k)) >= 0
  {
    SumNonNegative(s.requests, IsRequest(k));
    forall b | 0 <= b < |s.backends| ensures Waiting(k)(s.backends[b]) >= 0 && Replying(k)(s.backends[b]) >= 0 {
      SumNonNegative(s.backends[b].queue, IsRequest(k));
      SumNonNegative(s.backends[b].sending, IsFlight(k));
      SumNonNegative(s.backends[b].wire, IsFlight(k));
      SumNonNegative(s.backends[b].replies, IsFlight(k));
    }
    SumNonNegative(s.backends, Waiting(k));
    SumNonNegative(s.backends, Replying(k));
    forall c | 0 <= c < |s.outputs| ensures DeliveredIn(k)(s.outputs[c]) >= 0 {
      SumNonNegative(s.outputs[c], IsDelivery(k));
    }
    SumNonNegative(s.outputs, DeliveredIn(k));
  }

  /** All the replies to a request are at the client that asked it. */
  lemma DeliveredToAsker(s: State, k: nat)
    requires Local(s) && k < |s.arrived|
    ensures s.arrived[k].output < |s.outputs|
    ensures Delivered(s, k) == Sum(s.outputs[s.arrived[k].output], IsDelivery(k))
  {
    var c := s.arrived[k].output;
    SumRemove(s.outputs, c, DeliveredIn(k));
    var others: seq<seq<Delivery>> := RemoveAt(s.outputs, c);
    forall d: nat, i: nat | d < |others| && i < |others[d]| ensures others[d][i].number != k {
      var e := if d < c then d else d + 1;
      assert DeliveryOk(s.arrived, s.answers, e, s.outputs[e][i]);
    }
    NothingDelivered(others, k);
  }

  ghost predicate Idle(s: State) {
    && s.requests == []
    && forall b :: 0 <= b < |s.backends| ==> HasNothing(s.backends[b])
  }

  /**
   * In every run each request is answered at most once and its client gets no more replies to
   * it than that, whatever ids and bodies the clients use and whatever the backends answer; no
   * other client gets one; and once nothing is in flight the client has got exactly one.
   */
  lemma RepliesReachTheirClient(clients: nat, backends: nat, es: seq<Event>, s: State, k: nat)
    requires Run(Start(clients, backends), es) == Some(s) && k < |s.arrived|
    ensures s.arrived[k].number == k && s.arrived[k].output < |s.outputs|
    ensures var replies := Sum(s.outputs[s.arrived[k].output], IsDelivery(k));
      Delivered(s, k) == replies <= Sum(s.answers, IsGiven(k)) <= 1 && (Idle(s) ==> replies == 1)
  {
    DeliveredToAsker(s, k);
    CountsNonNegative(s, k);
    if Idle(s) {
      NothingAt(s.backends, k);
    }
  }

  // ---- Requests and answers are those of the events ----------------------------------

  function Question(e: Event): seq<(nat, Msg)> {
    if e.Ask? then [(e.client, e.msg)] else []
  }

  /** Who has asked what, in order. */
  function Asked(es: seq<Event>): seq<(nat, Msg)> {
    if es == [] then [] else Question(es[0]) + Asked(es[1..])
  }

  function Questions(arrived: seq<Request>): seq<(nat, Msg)> {
    seq(|arrived|, k requires 0 <= k < |arrived| => (arrived[k].output, arrived[k].msg))
  }

  function Reply(e: Event): seq<Body> {
    if e.Answer? then [e.body] else []
  }

  /** What the backends have answered, in order. */
  function Answered(es: seq<Event>): seq<Body> {
    if es == [] then [] else Reply(es[0]) + Answered(es[1..])
  }

  function Bodies(answers: seq<Given>): seq<Body> {
    seq(|answers|, k requires 0 <= k < |answers| => answers[k].body)
  }

  lemma Regroup<T>(u: seq<T>, v: seq<T>, w: seq<T>)
    ensures (u + v) + w == u + (v + w)
  {
  }

  lemma StepRecords(s: State, e: Event)
    requires Inv(s) && Enabled(s, e)
    ensures Questions(Apply(s, e).arrived) == Questions(s.arrived) + Question(e)
    ensures Bodies(Apply(s, e).answers) == Bodies(s.answers) + Reply(e)
  {
  }

  lemma FirstStep(s: State, es: seq<Event>) returns (s': State)
    requires Inv(s) && es != [] && Run(s, es).Some?
    ensures Enabled(s, es[0]) && s' == Apply(s, es[0]) && Inv(s') && Run(s', es[1..]) == Run(s, es)
  {
    s' := Apply(s, es[0]);
    StepKeeps(s, es[0]);
  }

  lemma {:induction false} RunRecords(s: State, es: seq<Event>)
    requires Inv(s) && Run(s, es).Some?
    ensures Questions(Run(s, es).value.arrived) == Questions(s.arrived) + Asked(es)
    ensures Bodies(Run(s, es).value.answers) == Bodies(s.answers) + Answered(es)
    decreases |es|
  {
    if es == [] {
      assert Questions(s.arrived) + [] == Questions(s.arrived);
      assert Bodies(s.answers) + [] == Bodies(s.answers);
    } else {
      var s' := FirstStep(s, es);
      StepRecords(s, es[0]);
      RunRecords(s', es[1..]);
      Regroup(Questions(s.arrived), Question(es[0]), Asked(es[1..]));
      Regroup(Bodies(s.answers), Reply(es[0]), Answered(es[1..]));
    }
  }

  /**
   * In every run the requests are those that the clients have sent, in order, and the recorded
   * answers are what the backends have answered, in order.
   */
  lemma RecordsAreEvents(clients: nat, backends: nat, es: seq<Event>, s: State)
    requires Run(Start(clients, backends), es) == Some(s)
    ensures Questions(s.arrived) == Asked(es) && Bodies(s.answers) == Answered(es)
  {
    var start := Start(clients, backends);
    RunRecords(start, es);
    assert Questions(start.arrived) == [] && Bodies(start.answers) == [];
  }

  // ---- Client by client and message by message ---------------------------------------

  /** A reply to one of the first `n` requests, asked with message `q`. */
  function RepliesTo(arrived: seq<Request>, q: Msg, n: nat): Delivery -> int {
    (d: Delivery) => if d.number < n && d.number < |arrived| && arrived[d.number].msg == q then 1 else 0
  }

  function AskedBy(c: nat, q: Msg): Request -> int {
    (r: Request) => if r.output == c && r.msg == q then 1 else 0
  }

  lemma {:induction false} OneMoreRequest(ds: seq<Delivery>, arrived: seq<Request>, q: Msg, n: nat)
    requires n < |arrived|
    ensures Sum(ds, RepliesTo(arrived, q, n + 1))
         == Sum(ds, RepliesTo(arrived, q, n)) + if arrived[n].msg == q then Sum(ds, IsDelivery(n)) else 0
  {
    if ds != [] {
      OneMoreRequest(ds[..|ds| - 1], arrived, q, n);
    }
  }

  lemma {:induction false} NoRequestYet(ds: seq<Delivery>, arrived: seq<Request>, q: Msg)
    ensures Sum(ds, RepliesTo(arrived, q, 0)) == 0
  {
    if ds != [] {
      NoRequestYet(ds[..|ds| - 1], arrived, q);
    }
  }

  lemma RepliesAt(s: State, c: nat, k: nat)
    requires Local(s) && Conserved(s) && c < |s.outputs| && k < |s.arrived|
    ensures var replies := Sum(s.outputs[c], IsDelivery(k));
      if s.arrived[k].output == c then replies <= 1 && (Idle(s) ==> replies == 1) else replies == 0
  {
    if s.arrived[k].output == c {
      DeliveredToAsker(s, k);
      CountsNonNegative(s, k);
      assert Unanswered(s, k) + Replied(s, k) == 1;
      if Idle(s) {
        NothingAt(s.backends, k);
      }
    } else {
      forall i | 0 <= i < |s.outputs[c]| ensures s.outputs[c][i].number != k {
        assert DeliveryOk(s.arrived, s.answers, c, s.outputs[c][i]);
      }
      NotDelivered(s.outputs[c], k);
    }
  }

  lemma {:induction false} RepliesByMessage(s: State, c: nat, q: Msg, n: nat)
    requires Local(s) && Conserved(s) && c < |s.outputs| && n <= |s.arrived|
    ensures Sum(s.outputs[c], RepliesTo(s.arrived, q, n)) <= Sum(s.arrived[..n], AskedBy(c, q))
    ensures Idle(s) ==> Sum(s.outputs[c], RepliesTo(s.arrived, q, n)) == Sum(s.arrived[..n], AskedBy(c, q))
  {
    if n == 0 {
      NoRequestYet(s.outputs[c], s.arrived, q);
    } else {
      RepliesByMessage(s, c, q, n - 1);
      OneMoreRequest(s.outputs[c], s.arrived, q, n - 1);
      SumPrefix(s.arrived, n - 1, AskedBy(c, q));
      RepliesAt(s, c, n - 1);
    }
  }

  /**
   * In every run a client gets no more replies to a message than it has asked with it, and
   * once nothing is in flight exactly as many.
   */
  lemma ClientsGetWhatTheyAsk(clients: nat, backends: nat, es: seq<Event>, s: State, c: nat, q: Msg)
    requires Run(Start(clients, backends), es) == Some(s) && c < |s.outputs|
    ensures var replies := Sum(s.outputs[c], RepliesTo(s.arrived, q, |s.arrived|));
      replies <= Sum(s.arrived, AskedBy(c, q)) && (Idle(s) ==> replies == Sum(s.arrived, AskedBy(c, q)))
  {
    RepliesByMessage(s, c, q, |s.arrived|);
    assert s.arrived[..|s.arrived|] == s.arrived;
  }

  /**
   * In every run backend `b` of `n` has been given exactly the requests that reached the
   * dispatcher at the positions `b` modulo `n`, in their order.
   */
  lemma DispatchIsRoundRobin(clients: nat, backends: nat, es: seq<Event>, s: State, b: nat)
    requires Run(Start(clients, backends), es) == Some(s) && b < |s.backends|
    ensures s.arrived == s.dispatched + s.requests
    ensures s.backends[b].entered == EveryNth(s.dispatched, b, |s.backends|) && QueueIsEnd(s.backends[b])
  {
    assert RoundRobin(s);
  }

  /** While a reply is owed somewhere, some goroutine or backend can take a step. */
  lemma Progress(s: State) returns (e: Event)
    requires Inv(s) && s.backends != [] && !Idle(s)
    ensures !e.Ask? && Enabled(s, e)
  {
    if s.requests != [] {
      return Dispatch;
    }
    var b :| 0 <= b < |s.backends| && !HasNothing(s.backends[b]);
    var backend := s.backends[b];
    if backend.sending != [] {
      return Write(b);
    } else if backend.queue != [] {
      return Insert(b);
    } else if backend.wire != [] {
      return Answer(b, 0, []);
    } else {
      return Receive(b);
    }
  }

  // ---- Every reply arrives -----------------------------------------------------------

  function BackendWork(): Backend -> int {
    (b: Backend) => 4 * |b.queue| + 3 * |b.sending| + 2 * |b.wire| + |b.replies|
  }

  /** An upper bound on the steps that can be taken before the next request is read. */
  function Work(s: State): int {
    5 * |s.requests| + Sum(s.backends, BackendWork())
  }

  lemma StepWorks(s: State, e: Event)
    requires Inv(s) && Enabled(s, e)
    ensures var s' := Apply(s, e);
      if e.Ask? then Work(s') == Work(s) + 5 else Work(s') < Work(s)
  {
    match e
    case Ask(_, _) =>
    case Dispatch => SumUpdate(s.backends, s.idx, Enter(s.backends[s.idx], s.requests[0]), BackendWork());
    case Insert(b) => SumUpdate(s.backends, b, InsertFirst(s.backends[b]), BackendWork());
    case Write(b) => SumUpdate(s.backends, b, WriteOut(s.backends[b]), BackendWork());
    case Answer(b, i, body) => SumUpdate(s.backends, b, AnswerOne(s.backends[b], i, body), BackendWork());
    case Receive(b) =>
      Routed(s, b);
      SumUpdate(s.backends, b, ReadReply(s.backends[b]), BackendWork());
  }

  lemma WorkNonNegative(s: State)
    ensures Work(s) >= 0
  {
    SumNonNegative(s.backends, BackendWork());
  }

  function IsAsk(): Event -> int {
    (e: Event) => if e.Ask? then 1 else 0
  }

  /** No run is longer than the work at its start and six steps for each request it reads. */
  lemma {:induction false} RunsEnd(s: State, es: seq<Event>)
    requires Inv(s) && Run(s, es).Some?
    ensures |es| <= Work(s) + 6 * Sum(es, IsAsk())
    decreases |es|
  {
    if es == [] {
      WorkNonNegative(s);
    } else {
      StepKeeps(s, es[0]);
      StepWorks(s, es[0]);
      RunsEnd(Apply(s, es[0]), es[1..]);
      SumHead(es, IsAsk());
    }
  }

  ghost predicate NoAsk(es: seq<Event>) {
    forall i :: 0 <= i < |es| ==> !es[i].Ask?
  }

  lemma BackendsKept(s: State, e: Event)
    requires Enabled(s, e)
    ensures |Apply(s, e).backends| == |s.backends|
  {
  }

  lemma IdleStep(s: State) returns (e: Event)
    requires Inv(s) && s.backends != [] && !Idle(s)
    ensures !e.Ask? && Enabled(s, e) && Inv(Apply(s, e)) && Apply(s, e).backends != []
    ensures Work(Apply(s, e)) < Work(s)
  {
    e := Progress(s);
    StepKeeps(s, e);
    StepWorks(s, e);
    BackendsKept(s, e);
  }

  /** From every state the balancer and the backends can go on until nothing is in flight. */
  lemma {:induction false} CanRunUntilIdle(s: State) returns (es: seq<Event>)
    requires Inv(s) && s.backends != []
    ensures NoAsk(es) && Run(s, es).Some? && Idle(Run(s, es).value)
    decreases if Work(s) >= 0 then Work(s) else 0
  {
    WorkNonNegative(s);
    if Idle(s) {
      es := [];
    } else {
      var e := IdleStep(s);
      WorkNonNegative(Apply(s, e));
      var rest := CanRunUntilIdle(Apply(s, e));
      es := [e] + rest;
      RunFirst(s, e, rest);
    }
  }

  lemma RunFirst(s: State, e: Event, es: seq<Event>)
    requires Inv(s) && Enabled(s, e) && Inv(Apply(s, e))
    ensures Run(s, [e] + es) == Run(Apply(s, e), es)
  {
    assert ([e] + es)[1..] == es;
  }

  /** A run after which only new requests could come has replied to every request, exactly once. */
  lemma EveryReplyArrives(clients: nat, backends: nat, es: seq<Event>, s: State, k: nat)
    requires backends > 0 && Run(Start(clients, backends), es) == Some(s)
    requires forall e: Event :: Enabled(s, e) ==> e.Ask?
    requires k < |s.arrived|
    ensures s.arrived[k].output < |s.outputs| && Sum(s.outputs[s.arrived[k].output], IsDelivery(k)) == 1
  {
    BackendsStay(Start(clients, backends), es);
    if !Idle(s) {
      var _ := Progress(s);
    }
    RepliesReachTheirClient(clients, backends, es, s, k);
  }

  lemma {:induction false} BackendsStay(s: State, es: seq<Event>)
    requires Inv(s) && Run(s, es).Some?
    ensures |Run(s, es).value.backends| == |s.backends|
    decreases |es|
  {
    if es != [] {
      StepKeeps(s, es[0]);
      BackendsKept(s, es[0]);
      BackendsStay(Apply(s, es[0]), es[1..]);
    }
  }
}
