/**
 * The Go RPC balancer (go/balancer/main.go): clients share the connections to the backends, so
 * the balancer renumbers requests on the way out and restores the ids on the way back. Steps
 * of all its goroutines interleave in any order and backends answer in any order, with
 * whatever they like.
 */
module Balancer {
  import opened Options
  import opened Sums
  import opened Modulo

  // ---- State -------------------------------------------------------------------------

  type Body = seq<nat>

  datatype Msg = Msg(id: nat, body: Body)

  /**
   * A client's message with the channel its reply must go to. `number` records the request's
   * position among all that arrive; the balancer does not see it.
   */
  datatype Request = Request(msg: Msg, output: nat, number: nat)

  /** What `outstanding` remembers. */
  datatype Response = Response(origId: nat, output: nat)

  /**
   * A message on a backend's wire. `request` records which request it stands for; the
   * balancer does not see it.
   */
  datatype Flight = Flight(msg: Msg, request: Request)

  /** A message written to a client. `number` records which request it replies to. */
  datatype Delivery = Delivery(msg: Msg, number: nat)

  /** A record that a backend has answered a request, and with what. */
  datatype Given = Given(number: nat, body: Body)

  /**
   * `entered` are all the requests that have been put into the backend's request channel and
   * `queue` those still in it, `sending` what run() has inserted but not yet
   * written, `wire` the requests the backend has not answered, `replies` its answers.
   */
  datatype Backend = Backend(
    entered: seq<Request>,
    queue: seq<Request>,
    nextId: nat,
    outstanding: map<nat, Response>,
    sending: seq<Flight>,
    wire: seq<Flight>,
    replies: seq<Flight>)

  /**
   * `arrived` are the requests in the order in which they reach the dispatcher, `dispatched`
   * those it has passed on and `requests` the others; `answers` is what the backends have
   * answered, `outputs` what has been written to each client.
   */
  datatype State = State(
    arrived: seq<Request>,
    answers: seq<Given>,
    outputs: seq<seq<Delivery>>,
    requests: seq<Request>,
    idx: nat,
    dispatched: seq<Request>,
    backends: seq<Backend>,
    panicked: bool)

  const FIRST_ID: nat := 100

  function Repeat<T>(x: T, n: nat): (s: seq<T>)
    ensures |s| == n && forall i :: 0 <= i < n ==> s[i] == x
  {
    if n == 0 then [] else Repeat(x, n - 1) + [x]
  }

  function Init(clients: nat, backends: nat): State {
    State([], [], Repeat([], clients), [], 0, [], Repeat(Backend([], [], FIRST_ID, map[], [], [], []), backends), false)
  }

  datatype Event =
    | Ask(client: nat, msg: Msg)
    | Dispatch
    | Insert(b: nat)
    | Write(b: nat)
    | Answer(b: nat, i: nat, body: Body)
    | Receive(b: nat)

  predicate Enabled(s: State, e: Event) {
    match e
    case Ask(c, _) => c < |s.outputs|
    case Dispatch => s.requests != [] && s.idx < |s.backends|
    case Insert(b) => b < |s.backends| && s.backends[b].queue != [] && s.backends[b].sending == []
    case Write(b) => b < |s.backends| && s.backends[b].sending != []
    case Answer(b, i, _) => b < |s.backends| && i < |s.backends[b].wire|
    case Receive(b) => b < |s.backends| && s.backends[b].replies != []
  }

  // ---- Steps -------------------------------------------------------------------------

  function Enter(b: Backend, r: Request): Backend {
    b.(entered := b.entered + [r], queue := b.queue + [r])
  }

  function InsertFirst(b: Backend): Backend
    requires b.queue != []
  {
    var r := b.queue[0];
    b.(queue := b.queue[1..],
       nextId := b.nextId + 1,
       outstanding := b.outstanding[b.nextId := Response(r.msg.id, r.output)],
       sending := [Flight(Msg(b.nextId, r.msg.body), r)])
  }

  function WriteOut(b: Backend): Backend {
    b.(wire := b.wire + b.sending, sending := [])
  }

  /** The backend answers the message it sees, at any place in its wire, with any body. */
  function AnswerOne(b: Backend, i: nat, body: Body): Backend
    requires i < |b.wire|
  {
    b.(wire := RemoveAt(b.wire, i), replies := b.replies + [b.wire[i].(msg := b.wire[i].msg.(body := body))])
  }

  function ReadReply(b: Backend): Backend
    requires b.replies != []
  {
    b.(outstanding := b.outstanding - {b.replies[0].msg.id}, replies := b.replies[1..])
  }

  function WithBackend(s: State, b: nat, backend: Backend): State
    requires b < |s.backends|
  {
    s.(backends := s.backends[b := backend])
  }

  function AfterAsk(s: State, c: nat, msg: Msg): State {
    var r := Request(msg, c, |s.arrived|);
    s.(arrived := s.arrived + [r], requests := s.requests + [r])
  }

  function AfterAnswer(s: State, b: nat, i: nat, body: Body): State
    requires b < |s.backends| && i < |s.backends[b].wire|
  {
    WithBackend(s, b, AnswerOne(s.backends[b], i, body))
      .(answers := s.answers + [Given(s.backends[b].wire[i].request.number, body)])
  }

  function Deliver(s: State, c: nat, d: Delivery): State
    requires c < |s.outputs|
  {
    s.(outputs := s.outputs[c := s.outputs[c] + [d]])
  }

  function Apply(s: State, e: Event): State
    requires Enabled(s, e)
  {
    match e
    case Ask(c, msg) => AfterAsk(s, c, msg)
    case Dispatch =>
      WithBackend(s, s.idx, Enter(s.backends[s.idx], s.requests[0]))
        .(requests := s.requests[1..],
          dispatched := s.dispatched + [s.requests[0]],
          idx := if s.idx + 1 >= |s.backends| then 0 else s.idx + 1)
    case Insert(b) => WithBackend(s, b, InsertFirst(s.backends[b]))
    case Write(b) => WithBackend(s, b, WriteOut(s.backends[b]))
    case Answer(b, i, body) => AfterAnswer(s, b, i, body)
    case Receive(b) =>
      var reply := s.backends[b].replies[0];
      if reply.msg.id !in s.backends[b].outstanding then s.(panicked := true)
      else
        var r := s.backends[b].outstanding[reply.msg.id];
        var s' := WithBackend(s, b, ReadReply(s.backends[b]));
        if r.output < |s.outputs|
        then Deliver(s', r.output, Delivery(Msg(r.origId, reply.msg.body), reply.request.number))
        else s'
  }

  // ---- Where a request is ------------------------------------------------------------

  function IsRequest(k: nat): Request -> int {
    (r: Request) => if r.number == k then 1 else 0
  }

  function IsFlight(k: nat): Flight -> int {
    (f: Flight) => if f.request.number == k then 1 else 0
  }

  function IsDelivery(k: nat): Delivery -> int {
    (d: Delivery) => if d.number == k then 1 else 0
  }

  function DeliveredIn(k: nat): seq<Delivery> -> int {
    (ds: seq<Delivery>) => Sum(ds, IsDelivery(k))
  }

  function IsGiven(k: nat): Given -> int {
    (g: Given) => if g.number == k then 1 else 0
  }

  /** In how many places before its answer request `k` is at a backend. */
  function Waiting(k: nat): Backend -> int {
    (b: Backend) => Sum(b.queue, IsRequest(k)) + Sum(b.sending, IsFlight(k)) + Sum(b.wire, IsFlight(k))
  }

  /** How many answers to request `k` are on their way from a backend. */
  function Replying(k: nat): Backend -> int {
    (b: Backend) => Sum(b.replies, IsFlight(k))
  }

  /** In how many places request `k` is that has not been answered. */
  function Unanswered(s: State, k: nat): int {
    Sum(s.requests, IsRequest(k)) + Sum(s.backends, Waiting(k))
  }

  /** How often request `k` has been replied to, all clients taken together. */
  function Delivered(s: State, k: nat): int {
    Sum(s.outputs, DeliveredIn(k))
  }

  /** How many answers to request `k` there are, under way or delivered. */
  function Replied(s: State, k: nat): int {
    Sum(s.backends, Replying(k)) + Delivered(s, k)
  }

  // ---- The invariant -----------------------------------------------------------------

  function HasId(id: nat): Flight -> int {
    (f: Flight) => if f.msg.id == id then 1 else 0
  }

  /** How often `id` is on the wire of a backend, either way. */
  function OnWire(b: Backend, id: nat): int {
    Sum(b.sending, HasId(id)) + Sum(b.wire, HasId(id)) + Sum(b.replies, HasId(id))
  }

  /** A request that has arrived, wherever it has got to. */
  predicate Known(arrived: seq<Request>, r: Request) {
    r.number < |arrived| && arrived[r.number] == r
  }

  ghost predicate AllKnown(arrived: seq<Request>, rs: seq<Request>) {
    forall i :: 0 <= i < |rs| ==> Known(arrived, rs[i])
  }

  /** The table remembers the request that the flight stands for. */
  ghost predicate FlightOk(outstanding: map<nat, Response>, arrived: seq<Request>, f: Flight) {
    && f.msg.id in outstanding
    && outstanding[f.msg.id] == Response(f.request.msg.id, f.request.output)
    && Known(arrived, f.request)
  }

  ghost predicate AllOk(outstanding: map<nat, Response>, arrived: seq<Request>, fs: seq<Flight>) {
    forall i :: 0 <= i < |fs| ==> FlightOk(outstanding, arrived, fs[i])
  }

  /** A message to a backend carries the body of its request. */
  ghost predicate AsAsked(fs: seq<Flight>) {
    forall i :: 0 <= i < |fs| ==> fs[i].msg.body == fs[i].request.msg.body
  }

  /** A message from a backend carries what the backend has answered to its request. */
  ghost predicate AsGiven(answers: seq<Given>, fs: seq<Flight>) {
    forall i :: 0 <= i < |fs| ==> Given(fs[i].request.number, fs[i].msg.body) in answers
  }

  ghost predicate FlightsInv(arrived: seq<Request>, answers: seq<Given>, b: Backend) {
    && AllOk(b.outstanding, arrived, b.sending)
    && AllOk(b.outstanding, arrived, b.wire)
    && AllOk(b.outstanding, arrived, b.replies)
    && AsAsked(b.sending) && AsAsked(b.wire) && AsGiven(answers, b.replies)
  }

  ghost predicate IdsInv(b: Backend) {
    && (forall id :: id in b.outstanding ==> id < b.nextId)
    && (forall id: nat :: OnWire(b, id) == if id in b.outstanding then 1 else 0)
  }

  /** Every id on the wire is in `outstanding`, once, with the request it stands for. */
  ghost predicate BackendInv(arrived: seq<Request>, answers: seq<Given>, b: Backend) {
    IdsInv(b) && AllKnown(arrived, b.queue) && FlightsInv(arrived, answers, b)
  }

  /** Client `c` asked the request that this replies to, under this id, and this was the answer. */
  ghost predicate DeliveryOk(arrived: seq<Request>, answers: seq<Given>, c: nat, d: Delivery) {
    && d.number < |arrived|
    && arrived[d.number].output == c
    && d.msg.id == arrived[d.number].msg.id
    && Given(d.number, d.msg.body) in answers
  }

  ghost predicate OutputsOk(arrived: seq<Request>, answers: seq<Given>, outputs: seq<seq<Delivery>>) {
    forall c, i :: 0 <= c < |outputs| && 0 <= i < |outputs[c]| ==> DeliveryOk(arrived, answers, c, outputs[c][i])
  }

  ghost predicate ArrivedOk(arrived: seq<Request>, clients: nat) {
    forall k :: 0 <= k < |arrived| ==> arrived[k].number == k && arrived[k].output < clients
  }

  /** Every request is in exactly one place, and has been answered exactly if it is a reply by now. */
  ghost predicate Conserved(s: State) {
    forall k: nat ::
      && Unanswered(s, k) + Replied(s, k) == (if k < |s.arrived| then 1 else 0)
      && Replied(s, k) == Sum(s.answers, IsGiven(k))
  }

  /** Of a sequence, the elements at the positions that are `i` modulo `n`. */
  function EveryNth<T>(rs: seq<T>, i: nat, n: nat): seq<T>
    requires n > 0
  {
    if rs == [] then []
    else EveryNth(rs[..|rs| - 1], i, n) + if (|rs| - 1) % n == i then [rs[|rs| - 1]] else []
  }

  /** The queue is the end of what has entered it, and the others have the ids from 100 on. */
  predicate QueueIsEnd(b: Backend) {
    && |b.queue| <= |b.entered| && b.queue == b.entered[|b.entered| - |b.queue|..]
    && b.nextId == 100 + |b.entered| - |b.queue|
  }

  /** The dispatcher keeps the order of arrival and deals the requests out in turn. */
  ghost predicate RoundRobin(s: State) {
    && s.arrived == s.dispatched + s.requests
    && (s.backends == [] ==> s.dispatched == [])
    && (s.backends != [] ==> s.idx == |s.dispatched| % |s.backends|)
    && forall b :: 0 <= b < |s.backends| ==>
         && QueueIsEnd(s.backends[b])
         && s.backends[b].entered == EveryNth(s.dispatched, b, |s.backends|)
  }

  ghost predicate Local(s: State) {
    && !s.panicked
    && ArrivedOk(s.arrived, |s.outputs|)
    && AllKnown(s.arrived, s.requests)
    && (forall b :: 0 <= b < |s.backends| ==> BackendInv(s.arrived, s.answers, s.backends[b]))
    && OutputsOk(s.arrived, s.answers, s.outputs)
  }

  ghost predicate Inv(s: State) {
    Local(s) && Conserved(s) && RoundRobin(s)
  }

  // ---- Each step at one backend ------------------------------------------------------

  lemma NotThere(fs: seq<Flight>, id: nat)
    requires Sum(fs, HasId(id)) <= 0
    ensures forall i :: 0 <= i < |fs| ==> fs[i].msg.id != id
  {
    forall i | 0 <= i < |fs| ensures fs[i].msg.id != id {
      if fs[i].msg.id == id {
        SumAtLeast(fs, i, HasId(id));
      }
    }
  }

  lemma NotOnWire(b: Backend, id: nat)
    requires OnWire(b, id) <= 0
    ensures forall i :: 0 <= i < |b.sending| ==> b.sending[i].msg.id != id
    ensures forall i :: 0 <= i < |b.wire| ==> b.wire[i].msg.id != id
    ensures forall i :: 0 <= i < |b.replies| ==> b.replies[i].msg.id != id
  {
    SumNonNegative(b.sending, HasId(id));
    SumNonNegative(b.wire, HasId(id));
    SumNonNegative(b.replies, HasId(id));
    NotThere(b.sending, id);
    NotThere(b.wire, id);
    NotThere(b.replies, id);
  }

  lemma One<T>(x: T, f: T -> int)
    ensures Sum([x], f) == f(x)
  {
    SumAppend([], x, f);
    assert [] + [x] == [x];
  }

  lemma InsertIds(b: Backend, id: nat)
    requires b.queue != [] && b.sending == []
    ensures OnWire(InsertFirst(b), id) == OnWire(b, id) + if id == b.nextId then 1 else 0
  {
    One(InsertFirst(b).sending[0], HasId(id));
  }

  lemma InsertKeeps(arrived: seq<Request>, answers: seq<Given>, b: Backend)
    requires BackendInv(arrived, answers, b) && b.queue != [] && b.sending == []
    ensures BackendInv(arrived, answers, InsertFirst(b))
  {
    var now := InsertFirst(b);
    assert Known(arrived, b.queue[0]);
    forall id: nat ensures OnWire(now, id) == if id in now.outstanding then 1 else 0 {
      InsertIds(b, id);
    }
  }

  lemma WriteKeeps(arrived: seq<Request>, answers: seq<Given>, b: Backend)
    requires BackendInv(arrived, answers, b)
    ensures BackendInv(arrived, answers, WriteOut(b))
  {
    forall id: nat ensures OnWire(WriteOut(b), id) == OnWire(b, id) {
      SumConcat(b.wire, b.sending, HasId(id));
    }
  }

  lemma AnswerIds(b: Backend, i: nat, body: Body)
    requires i < |b.wire|
    ensures forall id: nat :: OnWire(AnswerOne(b, i, body), id) == OnWire(b, id)
  {
    var now := AnswerOne(b, i, body);
    forall id: nat ensures OnWire(now, id) == OnWire(b, id) {
      SumRemove(b.wire, i, HasId(id));
      SumAppend(b.replies, now.replies[|b.replies|], HasId(id));
    }
  }

  lemma AnswerFlights(arrived: seq<Request>, answers: seq<Given>, b: Backend, i: nat, body: Body)
    requires FlightsInv(arrived, answers, b) && i < |b.wire|
    ensures FlightsInv(arrived, answers + [Given(b.wire[i].request.number, body)], AnswerOne(b, i, body))
  {
    var now := AnswerOne(b, i, body);
    forall k | 0 <= k < |now.wire|
      ensures FlightOk(b.outstanding, arrived, now.wire[k]) && now.wire[k].msg.body == now.wire[k].request.msg.body
    {
      assert now.wire[k] == b.wire[if k < i then k else k + 1];
    }
    assert FlightOk(b.outstanding, arrived, b.wire[i]);
  }

  lemma AnswerKeeps(arrived: seq<Request>, answers: seq<Given>, b: Backend, i: nat, body: Body)
    requires BackendInv(arrived, answers, b) && i < |b.wire|
    ensures BackendInv(arrived, answers + [Given(b.wire[i].request.number, body)], AnswerOne(b, i, body))
  {
    AnswerIds(b, i, body);
    AnswerFlights(arrived, answers, b, i, body);
  }

  lemma ReceiveIds(b: Backend)
    requires b.replies != []
    requires forall id: nat :: OnWire(b, id) <= 1
    ensures var now, gone := ReadReply(b), b.replies[0].msg.id;
      && (forall id: nat :: OnWire(now, id) == OnWire(b, id) - if id == gone then 1 else 0)
      && (forall i :: 0 <= i < |now.sending| ==> now.sending[i].msg.id != gone)
      && (forall i :: 0 <= i < |now.wire| ==> now.wire[i].msg.id != gone)
      && (forall i :: 0 <= i < |now.replies| ==> now.replies[i].msg.id != gone)
  {
    var now, gone := ReadReply(b), b.replies[0].msg.id;
    forall id: nat ensures OnWire(now, id) == OnWire(b, id) - if id == gone then 1 else 0 {
      SumHead(b.replies, HasId(id));
    }
    assert OnWire(now, gone) <= 0;
    NotOnWire(now, gone);
  }

  lemma OkWithout(outstanding: map<nat, Response>, arrived: seq<Request>, fs: seq<Flight>, gone: nat)
    requires AllOk(outstanding, arrived, fs) && forall i :: 0 <= i < |fs| ==> fs[i].msg.id != gone
    ensures AllOk(outstanding - {gone}, arrived, fs)
  {
    forall i | 0 <= i < |fs| ensures FlightOk(outstanding - {gone}, arrived, fs[i]) {
      assert FlightOk(outstanding, arrived, fs[i]);
    }
  }

  /** Reading a reply forgets its id and nothing else. */
  lemma ReceiveKeeps(arrived: seq<Request>, answers: seq<Given>, b: Backend)
    requires BackendInv(arrived, answers, b) && b.replies != []
    ensures BackendInv(arrived, answers, ReadReply(b))
  {
    var now, gone := ReadReply(b), b.replies[0].msg.id;
    ReceiveIds(b);
    OkWithout(b.outstanding, arrived, now.sending, gone);
    OkWithout(b.outstanding, arrived, now.wire, gone);
    OkWithout(b.outstanding, arrived, now.replies, gone);
  }

  /** What arrives or is answered later disturbs nothing. */
  lemma Later(arrived: seq<Request>, answers: seq<Given>, b: Backend, more: seq<Request>, given: seq<Given>)
    requires BackendInv(arrived, answers, b)
    ensures BackendInv(arrived + more, answers + given, b)
  {
    LaterOk(b.outstanding, arrived, b.sending, more);
    LaterOk(b.outstanding, arrived, b.wire, more);
    LaterOk(b.outstanding, arrived, b.replies, more);
  }

  lemma LaterOk(outstanding: map<nat, Response>, arrived: seq<Request>, fs: seq<Flight>, more: seq<Request>)
    requires AllOk(outstanding, arrived, fs)
    ensures AllOk(outstanding, arrived + more, fs)
  {
    forall i | 0 <= i < |fs| ensures FlightOk(outstanding, arrived + more, fs[i]) {
      assert FlightOk(outstanding, arrived, fs[i]);
    }
  }

  lemma LaterOutputs(arrived: seq<Request>, answers: seq<Given>, outputs: seq<seq<Delivery>>, more: seq<Request>,
                     given: seq<Given>)
    requires OutputsOk(arrived, answers, outputs)
    ensures OutputsOk(arrived + more, answers + given, outputs)
  {
    forall c, i | 0 <= c < |outputs| && 0 <= i < |outputs[c]|
      ensures DeliveryOk(arrived + more, answers + given, c, outputs[c][i])
    {
      assert DeliveryOk(arrived, answers, c, outputs[c][i]);
    }
  }

  // ---- Where each step takes a request -----------------------------------------------

  lemma InsertMoves(b: Backend, k: nat)
    requires b.queue != [] && b.sending == []
    ensures Waiting(k)(InsertFirst(b)) == Waiting(k)(b) && Replying(k)(InsertFirst(b)) == Replying(k)(b)
  {
    SumHead(b.queue, IsRequest(k));
    One(InsertFirst(b).sending[0], IsFlight(k));
  }

  lemma WriteMoves(b: Backend, k: nat)
    ensures Waiting(k)(WriteOut(b)) == Waiting(k)(b) && Replying(k)(WriteOut(b)) == Replying(k)(b)
  {
    SumConcat(b.wire, b.sending, IsFlight(k));
  }

  lemma AnswerMoves(b: Backend, i: nat, body: Body, k: nat)
    requires i < |b.wire|
    ensures var own := if b.wire[i].request.number == k then 1 else 0;
      && Waiting(k)(AnswerOne(b, i, body)) == Waiting(k)(b) - own
      && Replying(k)(AnswerOne(b, i, body)) == Replying(k)(b) + own
  {
    SumRemove(b.wire, i, IsFlight(k));
    SumAppend(b.replies, AnswerOne(b, i, body).replies[|b.replies|], IsFlight(k));
  }

  lemma ReceiveMoves(b: Backend, k: nat)
    requires b.replies != []
    ensures Waiting(k)(ReadReply(b)) == Waiting(k)(b)
    ensures Replying(k)(ReadReply(b)) == Replying(k)(b) - if b.replies[0].request.number == k then 1 else 0
  {
    SumHead(b.replies, IsFlight(k));
  }

  lemma EnterMoves(b: Backend, r: Request, k: nat)
    ensures Waiting(k)(Enter(b, r)) == Waiting(k)(b) + if r.number == k then 1 else 0
    ensures Replying(k)(Enter(b, r)) == Replying(k)(b)
  {
    SumAppend(b.queue, r, IsRequest(k));
  }

  lemma AtBackends(bs: seq<Backend>, b: nat, backend: Backend, k: nat)
    requires b < |bs|
    ensures Sum(bs[b := backend], Waiting(k)) == Sum(bs, Waiting(k)) - Waiting(k)(bs[b]) + Waiting(k)(backend)
    ensures Sum(bs[b := backend], Replying(k)) == Sum(bs, Replying(k)) - Replying(k)(bs[b]) + Replying(k)(backend)
  {
    SumUpdate(bs, b, backend, Waiting(k));
    SumUpdate(bs, b, backend, Replying(k));
  }

  lemma DeliverMoves(s: State, c: nat, d: Delivery, k: nat)
    requires c < |s.outputs|
    ensures Delivered(Deliver(s, c, d), k) == Delivered(s, k) + if d.number == k then 1 else 0
  {
    SumUpdate(s.outputs, c, s.outputs[c] + [d], DeliveredIn(k));
    SumAppend(s.outputs[c], d, IsDelivery(k));
  }

  /** What one step does to the two counts of request `k`. */
  lemma Moves(s: State, e: Event, k: nat)
    requires Local(s) && Enabled(s, e)
    ensures var s' := Apply(s, e);
      match e
      case Ask(_, _) =>
        && Unanswered(s', k) == Unanswered(s, k) + (if k == |s.arrived| then 1 else 0)
        && Replied(s', k) == Replied(s, k)
      case Answer(b, i, _) =>
        var own := if s.backends[b].wire[i].request.number == k then 1 else 0;
        Unanswered(s', k) == Unanswered(s, k) - own && Replied(s', k) == Replied(s, k) + own
      case _ => Unanswered(s', k) == Unanswered(s, k) && Replied(s', k) == Replied(s, k)
  {
    match e
    case Ask(c, msg) => SumAppend(s.requests, Request(msg, c, |s.arrived|), IsRequest(k));
    case Dispatch => DispatchMovesOn(s, k);
    case Insert(b) =>
      InsertMoves(s.backends[b], k);
      AtBackends(s.backends, b, InsertFirst(s.backends[b]), k);
    case Write(b) =>
      WriteMoves(s.backends[b], k);
      AtBackends(s.backends, b, WriteOut(s.backends[b]), k);
    case Answer(b, i, body) => AnswerMovesOn(s, b, i, body, k);
    case Receive(b) => ReceiveMovesOn(s, b, k);
  }

  lemma DispatchMovesOn(s: State, k: nat)
    requires Enabled(s, Dispatch)
    ensures Unanswered(Apply(s, Dispatch), k) == Unanswered(s, k)
    ensures Replied(Apply(s, Dispatch), k) == Replied(s, k)
  {
    SumHead(s.requests, IsRequest(k));
    EnterMoves(s.backends[s.idx], s.requests[0], k);
    AtBackends(s.backends, s.idx, Enter(s.backends[s.idx], s.requests[0]), k);
  }

  lemma AnswerMovesOn(s: State, b: nat, i: nat, body: Body, k: nat)
    requires b < |s.backends| && i < |s.backends[b].wire|
    ensures var own := if s.backends[b].wire[i].request.number == k then 1 else 0;
      && Unanswered(AfterAnswer(s, b, i, body), k) == Unanswered(s, k) - own
      && Replied(AfterAnswer(s, b, i, body), k) == Replied(s, k) + own
  {
    AnswerMoves(s.backends[b], i, body, k);
    AtBackends(s.backends, b, AnswerOne(s.backends[b], i, body), k);
  }

  lemma ReceiveMovesOn(s: State, b: nat, k: nat)
    requires Local(s) && Enabled(s, Receive(b))
    ensures Unanswered(Apply(s, Receive(b)), k) == Unanswered(s, k)
    ensures Replied(Apply(s, Receive(b)), k) == Replied(s, k)
  {
    var reply := s.backends[b].replies[0];
    Routed(s, b);
    ReceiveMoves(s.backends[b], k);
    AtBackends(s.backends, b, ReadReply(s.backends[b]), k);
    DeliverMoves(WithBackend(s, b, ReadReply(s.backends[b])), reply.request.output,
                 Delivery(Msg(reply.request.msg.id, reply.msg.body), reply.request.number), k);
  }

  lemma ConservedKept(s: State, e: Event)
    requires Local(s) && Conserved(s) && Enabled(s, e)
    ensures Conserved(Apply(s, e))
  {
    var s' := Apply(s, e);
    forall k: nat
      ensures Unanswered(s', k) + Replied(s', k) == if k < |s'.arrived| then 1 else 0
      ensures Replied(s', k) == Sum(s'.answers, IsGiven(k))
    {
      Moves(s, e, k);
      LogMoves(s, e, k);
    }
  }

  lemma LogMoves(s: State, e: Event, k: nat)
    requires Local(s) && Enabled(s, e)
    ensures var s' := Apply(s, e);
      && |s'.arrived| == |s.arrived| + (if e.Ask? then 1 else 0)
      && Sum(s'.answers, IsGiven(k)) == Sum(s.answers, IsGiven(k))
           + if e.Answer? && s.backends[e.b].wire[e.i].request.number == k then 1 else 0
  {
    match e
    case Answer(b, i, body) => SumAppend(s.answers, Given(s.backends[b].wire[i].request.number, body), IsGiven(k));
    case Receive(b) => Routed(s, b);
    case _ =>
  }

  // ---- Each step of the whole --------------------------------------------------------

  /** The reply goes to the client that asked, under the id it asked with. */
  lemma Routed(s: State, b: nat)
    requires Local(s) && Enabled(s, Receive(b))
    ensures var reply := s.backends[b].replies[0];
      && Known(s.arrived, reply.request) && reply.request.output < |s.outputs|
      && Apply(s, Receive(b)) == Deliver(WithBackend(s, b, ReadReply(s.backends[b])), reply.request.output,
                                         Delivery(Msg(reply.request.msg.id, reply.msg.body), reply.request.number))
  {
    assert FlightOk(s.backends[b].outstanding, s.arrived, s.backends[b].replies[0]);
  }

  lemma BackendKeeps(s: State, b: nat, backend: Backend)
    requires Local(s) && b < |s.backends| && BackendInv(s.arrived, s.answers, backend)
    ensures Local(WithBackend(s, b, backend))
  {
  }

  lemma AskKeeps(s: State, c: nat, msg: Msg)
    requires Local(s) && c < |s.outputs|
    ensures Local(AfterAsk(s, c, msg))
  {
    var r := Request(msg, c, |s.arrived|);
    forall b | 0 <= b < |s.backends| ensures BackendInv(s.arrived + [r], s.answers, s.backends[b]) {
      Later(s.arrived, s.answers, s.backends[b], [r], []);
      assert s.answers + [] == s.answers;
    }
    LaterOutputs(s.arrived, s.answers, s.outputs, [r], []);
    assert s.answers + [] == s.answers;
  }

  lemma DispatchKeeps(s: State)
    requires Local(s) && Enabled(s, Dispatch)
    ensures Local(Apply(s, Dispatch))
  {
    var b, r := s.backends[s.idx], s.requests[0];
    assert Known(s.arrived, r);
    forall id: nat ensures OnWire(Enter(b, r), id) == OnWire(b, id) {
    }
    assert BackendInv(s.arrived, s.answers, Enter(b, r));
    BackendKeeps(s, s.idx, Enter(b, r));
  }

  lemma AnswerStep(s: State, b: nat, i: nat, body: Body)
    requires Local(s) && b < |s.backends| && i < |s.backends[b].wire|
    ensures Local(AfterAnswer(s, b, i, body))
  {
    var given := Given(s.backends[b].wire[i].request.number, body);
    var s' := AfterAnswer(s, b, i, body);
    AnswerKeeps(s.arrived, s.answers, s.backends[b], i, body);
    forall c | 0 <= c < |s.backends| ensures BackendInv(s.arrived, s'.answers, s'.backends[c]) {
      Later(s.arrived, s.answers, s.backends[c], [], [given]);
      assert s.arrived + [] == s.arrived;
    }
    LaterOutputs(s.arrived, s.answers, s.outputs, [], [given]);
    assert s.arrived + [] == s.arrived;
  }

  lemma DeliverKeeps(s: State, c: nat, d: Delivery)
    requires Local(s) && c < |s.outputs| && DeliveryOk(s.arrived, s.answers, c, d)
    ensures Local(Deliver(s, c, d))
  {
  }

  lemma ReceiveStep(s: State, b: nat)
    requires Local(s) && Enabled(s, Receive(b))
    ensures Local(Apply(s, Receive(b)))
  {
    var reply := s.backends[b].replies[0];
    Routed(s, b);
    ReceiveKeeps(s.arrived, s.answers, s.backends[b]);
    BackendKeeps(s, b, ReadReply(s.backends[b]));
    DeliverKeeps(WithBackend(s, b, ReadReply(s.backends[b])), reply.request.output,
                 Delivery(Msg(reply.request.msg.id, reply.msg.body), reply.request.number));
  }

  lemma LocalKept(s: State, e: Event)
    requires Local(s) && Enabled(s, e)
    ensures Local(Apply(s, e))
  {
    match e
    case Ask(c, msg) => AskKeeps(s, c, msg);
    case Dispatch => DispatchKeeps(s);
    case Insert(b) =>
      InsertKeeps(s.arrived, s.answers, s.backends[b]);
      BackendKeeps(s, b, InsertFirst(s.backends[b]));
    case Write(b) =>
      WriteKeeps(s.arrived, s.answers, s.backends[b]);
      BackendKeeps(s, b, WriteOut(s.backends[b]));
    case Answer(b, i, body) => AnswerStep(s, b, i, body);
    case Receive(b) => ReceiveStep(s, b);
  }

  lemma EveryNthNext<T>(rs: seq<T>, r: T, i: nat, n: nat)
    requires n > 0
    ensures EveryNth(rs + [r], i, n) == EveryNth(rs, i, n) + if |rs| % n == i then [r] else []
  {
    assert (rs + [r])[..|rs|] == rs;
  }

  lemma DispatchInTurn(s: State)
    requires RoundRobin(s) && Enabled(s, Dispatch)
    ensures RoundRobin(Apply(s, Dispatch))
  {
    var n := |s.backends|;
    var s' := Apply(s, Dispatch);
    NextMod(|s.dispatched|, n);
    assert s'.arrived == s'.dispatched + s'.requests;
    forall b | 0 <= b < n
      ensures QueueIsEnd(s'.backends[b]) && s'.backends[b].entered == EveryNth(s'.dispatched, b, n)
    {
      EveryNthNext(s.dispatched, s.requests[0], b, n);
      assert QueueIsEnd(s.backends[b]);
    }
  }

  lemma LocalKeepsTurns(s: State, b: nat, backend: Backend)
    requires RoundRobin(s) && b < |s.backends|
    requires backend.entered == s.backends[b].entered && QueueIsEnd(backend)
    ensures RoundRobin(WithBackend(s, b, backend))
  {
  }

  lemma InsertKeepsEnd(b: Backend)
    requires QueueIsEnd(b) && b.queue != []
    ensures QueueIsEnd(InsertFirst(b))
  {
  }

  lemma RoundRobinKept(s: State, e: Event)
    requires RoundRobin(s) && Enabled(s, e)
    ensures RoundRobin(Apply(s, e))
  {
    match e
    case Ask(_, _) =>
    case Dispatch => DispatchInTurn(s);
    case Insert(b) =>
      InsertKeepsEnd(s.backends[b]);
      LocalKeepsTurns(s, b, InsertFirst(s.backends[b]));
    case Write(b) => LocalKeepsTurns(s, b, WriteOut(s.backends[b]));
    case Answer(b, i, body) => AnswerInTurn(s, b, i, body);
    case Receive(b) => ReceiveInTurn(s, b);
  }

  lemma ReceiveInTurn(s: State, b: nat)
    requires RoundRobin(s) && Enabled(s, Receive(b))
    ensures RoundRobin(Apply(s, Receive(b)))
  {
    LocalKeepsTurns(s, b, ReadReply(s.backends[b]));
  }

  lemma AnswerInTurn(s: State, b: nat, i: nat, body: Body)
    requires RoundRobin(s) && b < |s.backends| && i < |s.backends[b].wire|
    ensures RoundRobin(AfterAnswer(s, b, i, body))
  {
    LocalKeepsTurns(s, b, AnswerOne(s.backends[b], i, body));
  }

  lemma StepKeeps(s: State, e: Event)
    requires Inv(s) && Enabled(s, e)
    ensures Inv(Apply(s, e))
  {
    LocalKept(s, e);
    ConservedKept(s, e);
    RoundRobinKept(s, e);
  }

  predicate HasNothing(b: Backend) {
    b.queue == [] && b.sending == [] && b.wire == [] && b.replies == []
  }

  lemma {:induction false} NothingAt(bs: seq<Backend>, k: nat)
    requires forall b :: 0 <= b < |bs| ==> HasNothing(bs[b])
    ensures Sum(bs, Waiting(k)) == 0 && Sum(bs, Replying(k)) == 0
  {
    if bs != [] {
      NothingAt(bs[..|bs| - 1], k);
    }
  }

  lemma {:induction false} NothingDelivered(outputs: seq<seq<Delivery>>, k: nat)
    requires forall c, i :: 0 <= c < |outputs| && 0 <= i < |outputs[c]| ==> outputs[c][i].number != k
    ensures Sum(outputs, DeliveredIn(k)) == 0
  {
    if outputs != [] {
      NothingDelivered(outputs[..|outputs| - 1], k);
      NotDelivered(outputs[|outputs| - 1], k);
    }
  }

  lemma {:induction false} NotDelivered(ds: seq<Delivery>, k: nat)
    requires forall i :: 0 <= i < |ds| ==> ds[i].number != k
    ensures Sum(ds, IsDelivery(k)) == 0
  {
    if ds != [] {
      NotDelivered(ds[..|ds| - 1], k);
    }
  }

  lemma InitInv(clients: nat, backends: nat)
    ensures Inv(Init(clients, backends))
  {
    var s := Init(clients, backends);
    forall k: nat
      ensures Unanswered(s, k) + Replied(s, k) == 0 && Replied(s, k) == Sum(s.answers, IsGiven(k))
    {
      NothingAt(s.backends, k);
      NothingDelivered(s.outputs, k);
    }
  }
}
