/**
 * Remote calls over one connection (muduo/protorpc2/RpcChannel.cc): a client channel called
 * from any number of threads, the connection, which keeps order each way, and a server
 * channel whose services call `done` whenever and as often as they like.
 */
module RpcChannel {
  import opened Options
  import opened Sums

  type Body = seq<nat>

  // ---- State -------------------------------------------------------------------------

  datatype RpcMessage = Request(id: nat, proc: nat, body: Body) | Response(id: nat, body: Body)

  /** How far a call has come. */
  datatype Stage = Numbered | Registered | Sent | Invoked | Dropped

  /**
   * What has become of a call: what was asked, what its service has passed to `done`, in
   * order, and how many of those the client has read. Call `k` has id `k + 1`.
   */
  datatype Call = Call(proc: nat, body: Body, stage: Stage, dones: seq<Body>, read: nat)

  /** A callback that has run: whose, and with what response. */
  datatype Callback = Callback(call: nat, response: Body)

  /**
   * `lastId` is id_, `outstandings` maps an id to the call whose callback it holds, `up` and
   * `down` are the two directions of the connection, `invoked` the requests that have been
   * handed to a service, `ran` the callbacks in the order they ran.
   */
  datatype State = State(
    lastId: nat,
    outstandings: map<nat, nat>,
    up: seq<RpcMessage>,
    down: seq<RpcMessage>,
    invoked: seq<RpcMessage>,
    calls: seq<Call>,
    ran: seq<Callback>)

  const INIT: State := State(0, map[], [], [], [], [], [])

  /** The three steps of CallMethod, the server's two, and the client reading a response. */
  datatype Event =
    | NextId(proc: nat, body: Body)
    | Register(call: nat)
    | Send(call: nat)
    | OnRequest
    | Done(invocation: nat, response: Body)
    | OnResponse

  predicate Enabled(s: State, e: Event) {
    match e
    case NextId(_, _) => true
    case Register(k) => k < |s.calls| && s.calls[k].stage.Numbered?
    case Send(k) => k < |s.calls| && s.calls[k].stage.Registered?
    case OnRequest => s.up != []
    case Done(i, _) => i < |s.invoked|
    case OnResponse => s.down != []
  }

  function SetCall(s: State, k: nat, call: Call): State
    requires k < |s.calls|
  {
    s.(calls := s.calls[k := call])
  }

  function SetStage(s: State, k: nat, stage: Stage): State
    requires k < |s.calls|
  {
    SetCall(s, k, s.calls[k].(stage := stage))
  }

  function AfterNextId(s: State, proc: nat, body: Body): State {
    s.(lastId := s.lastId + 1, calls := s.calls + [Call(proc, body, Numbered, [], 0)])
  }

  function AfterRegister(s: State, k: nat): State
    requires k < |s.calls|
  {
    SetStage(s, k, Registered).(outstandings := s.outstandings[k + 1 := k])
  }

  function AfterSend(s: State, k: nat): State
    requires k < |s.calls|
  {
    SetStage(s, k, Sent).(up := s.up + [Request(k + 1, s.calls[k].proc, s.calls[k].body)])
  }

  /** callServiceMethod: a request for a method nobody has is dropped. */
  function AfterRequest(s: State, known: bool): State
    requires s.up != [] && 1 <= s.up[0].id <= |s.calls|
  {
    var k := s.up[0].id - 1;
    SetStage(s, k, if known then Invoked else Dropped)
      .(up := s.up[1..], invoked := if known then s.invoked + [s.up[0]] else s.invoked)
  }

  /** doneCallback */
  function AfterDone(s: State, id: nat, response: Body): State
    requires 1 <= id <= |s.calls|
  {
    var c := s.calls[id - 1];
    SetCall(s, id - 1, c.(dones := c.dones + [response])).(down := s.down + [Response(id, response)])
  }

  function AfterRead(calls: seq<Call>, k: nat): seq<Call>
    requires k < |calls|
  {
    calls[k := calls[k].(read := calls[k].read + 1)]
  }

  /** onRpcMessage: an id that is not outstanding is an unknown response. */
  function AfterResponse(s: State): State
    requires s.down != [] && 1 <= s.down[0].id <= |s.calls|
  {
    var m := s.down[0];
    var known := m.id in s.outstandings;
    s.(calls := AfterRead(s.calls, m.id - 1),
       down := s.down[1..],
       outstandings := if known then s.outstandings - {m.id} else s.outstandings,
       ran := if known then s.ran + [Callback(s.outstandings[m.id], m.body)] else s.ran)
  }

  /** `known` says which methods the server's services have. */
  function Apply(known: nat -> bool, s: State, e: Event): State
    requires Enabled(s, e) && Inv(s)
  {
    match e
    case NextId(proc, body) => AfterNextId(s, proc, body)
    case Register(k) => AfterRegister(s, k)
    case Send(k) => AfterSend(s, k)
    case OnRequest => OnRequestKeeps(s, known(s.up[0].proc)); AfterRequest(s, known(s.up[0].proc))
    case Done(i, response) => DoneKeeps(s, i, response); AfterDone(s, s.invoked[i].id, response)
    case OnResponse => OnResponseKeeps(s); AfterResponse(s)
  }

  // ---- The invariant -----------------------------------------------------------------

  function HasId(id: nat): RpcMessage -> int {
    (m: RpcMessage) => if m.id == id then 1 else 0
  }

  function IsFor(k: nat): Callback -> int {
    (c: Callback) => if c.call == k then 1 else 0
  }

  /** How often the callback of call `k` has run. */
  function TimesRun(s: State, k: nat): int {
    Sum(s.ran, IsFor(k))
  }

  /** One call: how many of its messages are where, and whether its callback has run. */
  ghost predicate CallInv(s: State, k: nat)
    requires k < |s.calls|
  {
    && (k + 1 in s.outstandings ==> s.outstandings[k + 1] == k)
    && CallFacts(s.calls[k], k + 1 in s.outstandings, Sum(s.up, HasId(k + 1)), Sum(s.invoked, HasId(k + 1)),
                 Sum(s.down, HasId(k + 1)), TimesRun(s, k))
  }

  predicate CallFacts(c: Call, outstanding: bool, up: int, invoked: int, down: int, ran: int) {
    && c.read <= |c.dones|
    && (outstanding <==> !c.stage.Numbered? && c.read == 0)
    && up == (if c.stage.Sent? then 1 else 0)
    && invoked == (if c.stage.Invoked? then 1 else 0)
    && down == |c.dones| - c.read
    && (c.dones != [] ==> c.stage.Invoked?)
    && ran == if c.read > 0 then 1 else 0
  }

  /** A request on its way or at a service carries the body of its call. */
  ghost predicate RequestOk(calls: seq<Call>, m: RpcMessage) {
    m.Request? && 1 <= m.id <= |calls| && m.proc == calls[m.id - 1].proc && m.body == calls[m.id - 1].body
  }

  ghost predicate RequestsOk(calls: seq<Call>, ms: seq<RpcMessage>) {
    forall i :: 0 <= i < |ms| ==> RequestOk(calls, ms[i])
  }

  /** The responses of a call come down in the order in which `done` was called. */
  ghost predicate ResponseOk(calls: seq<Call>, m: RpcMessage, earlier: int) {
    && 1 <= m.id <= |calls|
    && var c := calls[m.id - 1];
      0 <= c.read + earlier < |c.dones| && m.body == c.dones[c.read + earlier]
  }

  ghost predicate ResponsesOk(calls: seq<Call>, ms: seq<RpcMessage>) {
    forall i :: 0 <= i < |ms| ==> ResponseOk(calls, ms[i], Sum(ms[..i], HasId(ms[i].id)))
  }

  /** A callback ran with the first response of its own call. */
  ghost predicate CallbackOk(calls: seq<Call>, c: Callback) {
    c.call < |calls| && calls[c.call].dones != [] && c.response == calls[c.call].dones[0]
  }

  ghost predicate CallbacksOk(calls: seq<Call>, ran: seq<Callback>) {
    forall i :: 0 <= i < |ran| ==> CallbackOk(calls, ran[i])
  }

  ghost predicate MessagesInv(s: State) {
    && RequestsOk(s.calls, s.up) && RequestsOk(s.calls, s.invoked)
    && ResponsesOk(s.calls, s.down)
    && CallbacksOk(s.calls, s.ran)
  }

  ghost predicate CallsInv(s: State) {
    && (forall id :: id in s.outstandings ==> 1 <= id <= |s.calls|)
    && forall k :: 0 <= k < |s.calls| ==> CallInv(s, k)
  }

  ghost predicate Inv(s: State) {
    s.lastId == |s.calls| && MessagesInv(s) && CallsInv(s)
  }

  // ---- Sequences of messages ---------------------------------------------------------

  lemma {:induction false} NotThere(ms: seq<RpcMessage>, id: nat)
    requires forall i :: 0 <= i < |ms| ==> ms[i].id != id
    ensures Sum(ms, HasId(id)) == 0
  {
    if ms != [] {
      NotThere(ms[..|ms| - 1], id);
    }
  }

  lemma {:induction false} NeverRan(ran: seq<Callback>, k: nat)
    requires forall i :: 0 <= i < |ran| ==> ran[i].call != k
    ensures Sum(ran, IsFor(k)) == 0
  {
    if ran != [] {
      NeverRan(ran[..|ran| - 1], k);
    }
  }

  lemma There(ms: seq<RpcMessage>, i: nat)
    requires i < |ms|
    ensures Sum(ms, HasId(ms[i].id)) >= 1
  {
    SumAtLeast(ms, i, HasId(ms[i].id));
  }

  // ---- What a step does to one call --------------------------------------------------

  lemma RegisterCall(s: State, c: nat, k: nat)
    requires c < |s.calls| && s.calls[c].stage.Numbered? && k < |s.calls| && CallInv(s, k)
    ensures CallInv(AfterRegister(s, c), k)
  {
  }

  lemma SendCall(s: State, c: nat, k: nat)
    requires c < |s.calls| && s.calls[c].stage.Registered? && k < |s.calls| && CallInv(s, k)
    ensures CallInv(AfterSend(s, c), k)
  {
    SumAppend(s.up, Request(c + 1, s.calls[c].proc, s.calls[c].body), HasId(k + 1));
  }

  lemma OnRequestCall(s: State, known: bool, k: nat)
    requires s.up != [] && 1 <= s.up[0].id <= |s.calls| && k < |s.calls| && CallInv(s, k)
    ensures CallInv(AfterRequest(s, known), k)
  {
    HeadRead(s.up, k + 1);
    if known {
      SumAppend(s.invoked, s.up[0], HasId(k + 1));
    }
  }

  /** Reading the head: the messages left with an id are one fewer if the head had it. */
  lemma HeadRead(ms: seq<RpcMessage>, id: nat)
    requires ms != []
    ensures Sum(ms[1..], HasId(id)) == Sum(ms, HasId(id)) - (if ms[0].id == id then 1 else 0)
    ensures Sum(ms[1..], HasId(id)) >= 0
  {
    SumHead(ms, HasId(id));
    SumNonNegative(ms[1..], HasId(id));
  }

  lemma DoneCall(s: State, id: nat, response: Body, k: nat)
    requires 1 <= id <= |s.calls| && s.calls[id - 1].stage.Invoked? && k < |s.calls| && CallInv(s, k)
    ensures CallInv(AfterDone(s, id, response), k)
  {
    SumAppend(s.down, Response(id, response), HasId(k + 1));
  }

  /** The first response runs the callback of its call; every later one is unknown. */
  lemma OnResponseCall(s: State, k: nat)
    requires s.down != [] && 1 <= s.down[0].id <= |s.calls| && k < |s.calls|
    requires CallInv(s, k) && CallInv(s, s.down[0].id - 1)
    ensures CallInv(AfterResponse(s), k)
  {
    HeadRead(s.down, k + 1);
    ResponseRuns(s, k);
    var own := s.down[0].id == k + 1;
    ResponseTakes(s, k);
    ReadFacts(s.calls[k], k + 1 in s.outstandings, Sum(s.up, HasId(k + 1)), Sum(s.invoked, HasId(k + 1)),
              Sum(s.down, HasId(k + 1)), TimesRun(s, k), own);
  }

  lemma ResponseTakes(s: State, k: nat)
    requires s.down != [] && 1 <= s.down[0].id <= |s.calls| && k < |s.calls|
    ensures var s', own := AfterResponse(s), s.down[0].id == k + 1;
      && s'.calls[k] == (if own then s.calls[k].(read := s.calls[k].read + 1) else s.calls[k])
      && (k + 1 in s'.outstandings <==> k + 1 in s.outstandings && !own)
      && (k + 1 in s'.outstandings ==> s'.outstandings[k + 1] == s.outstandings[k + 1])
  {
  }

  lemma ReadFacts(c: Call, outstanding: bool, up: int, invoked: int, down: int, ran: int, own: bool)
    requires CallFacts(c, outstanding, up, invoked, down, ran) && (own ==> down > 0)
    ensures CallFacts(if own then c.(read := c.read + 1) else c, outstanding && !own, up, invoked,
                      down - if own then 1 else 0, ran + if own && outstanding then 1 else 0)
  {
  }

  lemma ResponseRuns(s: State, k: nat)
    requires s.down != [] && 1 <= s.down[0].id <= |s.calls|
    requires s.down[0].id in s.outstandings ==> s.outstandings[s.down[0].id] == s.down[0].id - 1
    ensures var id := s.down[0].id;
      TimesRun(AfterResponse(s), k) == TimesRun(s, k) + if id in s.outstandings && id == k + 1 then 1 else 0
  {
    SumAppend(s.ran, Callback(s.down[0].id - 1, s.down[0].body), IsFor(k));
  }

  // ---- What a step does to the messages ----------------------------------------------

  /** The calls keep what the messages say about them, or add a response at the end. */
  ghost predicate Extends(calls: seq<Call>, calls': seq<Call>) {
    && |calls| <= |calls'|
    && forall k :: 0 <= k < |calls| ==>
         && calls'[k].proc == calls[k].proc && calls'[k].body == calls[k].body
         && calls'[k].read == calls[k].read && calls[k].dones <= calls'[k].dones
  }

  lemma MessagesKeep(calls: seq<Call>, calls': seq<Call>, requests: seq<RpcMessage>, responses: seq<RpcMessage>,
                     ran: seq<Callback>)
    requires Extends(calls, calls')
    ensures RequestsOk(calls, requests) ==> RequestsOk(calls', requests)
    ensures ResponsesOk(calls, responses) ==> ResponsesOk(calls', responses)
    ensures CallbacksOk(calls, ran) ==> CallbacksOk(calls', ran)
  {
    if RequestsOk(calls, requests) {
      forall i | 0 <= i < |requests| ensures RequestOk(calls', requests[i]) {
        assert RequestOk(calls, requests[i]);
      }
    }
    if ResponsesOk(calls, responses) {
      forall i | 0 <= i < |responses|
        ensures ResponseOk(calls', responses[i], Sum(responses[..i], HasId(responses[i].id)))
      {
        assert ResponseOk(calls, responses[i], Sum(responses[..i], HasId(responses[i].id)));
      }
    }
    if CallbacksOk(calls, ran) {
      forall i | 0 <= i < |ran| ensures CallbackOk(calls', ran[i]) {
        assert CallbackOk(calls, ran[i]);
      }
    }
  }

  lemma ResponseAppended(calls: seq<Call>, ms: seq<RpcMessage>, m: RpcMessage)
    requires ResponsesOk(calls, ms) && ResponseOk(calls, m, Sum(ms, HasId(m.id)))
    ensures ResponsesOk(calls, ms + [m])
  {
    forall i | 0 <= i < |ms + [m]|
      ensures ResponseOk(calls, (ms + [m])[i], Sum((ms + [m])[..i], HasId((ms + [m])[i].id)))
    {
      if i < |ms| {
        assert (ms + [m])[..i] == ms[..i];
        assert ResponseOk(calls, ms[i], Sum(ms[..i], HasId(ms[i].id)));
      } else {
        assert (ms + [m])[..i] == ms;
      }
    }
  }

  /** Reading the head moves every later response of that call one place forward. */
  lemma ResponseRead(calls: seq<Call>, ms: seq<RpcMessage>, calls': seq<Call>, rest: seq<RpcMessage>)
    requires ms != [] && ResponsesOk(calls, ms) && 1 <= ms[0].id <= |calls|
    requires calls' == AfterRead(calls, ms[0].id - 1) && rest == ms[1..]
    ensures ResponsesOk(calls', rest)
  {
    forall i | 0 <= i < |rest| ensures ResponseOk(calls', rest[i], Sum(rest[..i], HasId(rest[i].id))) {
      assert ResponseOk(calls, ms[i + 1], Sum(ms[..i + 1], HasId(ms[i + 1].id)));
      EarlierRead(ms, i, rest[i].id);
      var m, earlier := rest[i], Sum(rest[..i], HasId(rest[i].id));
      ResponseMoves(calls, ms[0].id - 1, m, earlier);
    }
  }

  lemma EarlierRead(ms: seq<RpcMessage>, i: nat, id: nat)
    requires i < |ms|
    ensures Sum(ms[..i + 1], HasId(id)) == Sum(ms[1..][..i], HasId(id)) + if ms[0].id == id then 1 else 0
    ensures Sum(ms[1..][..i], HasId(id)) >= 0
  {
    SumHead(ms[..i + 1], HasId(id));
    assert ms[..i + 1][1..] == ms[1..][..i];
    SumNonNegative(ms[1..][..i], HasId(id));
  }

  lemma ResponseMoves(calls: seq<Call>, k: nat, m: RpcMessage, earlier: int)
    requires k < |calls| && earlier >= 0
    requires ResponseOk(calls, m, earlier + if k + 1 == m.id then 1 else 0)
    ensures ResponseOk(AfterRead(calls, k), m, earlier)
  {
  }

  // ---- Steps -------------------------------------------------------------------------

  /** No message carries an id that has not been given out. */
  lemma IdIsNew(s: State)
    requires Inv(s)
    ensures var n := |s.calls|;
      && Sum(s.up, HasId(n + 1)) == Sum(s.down, HasId(n + 1)) == Sum(s.invoked, HasId(n + 1)) == 0
      && TimesRun(s, n) == 0
  {
    var n := |s.calls|;
    forall i | 0 <= i < |s.up| ensures s.up[i].id != n + 1 { assert RequestOk(s.calls, s.up[i]); }
    forall i | 0 <= i < |s.invoked| ensures s.invoked[i].id != n + 1 { assert RequestOk(s.calls, s.invoked[i]); }
    forall i | 0 <= i < |s.down| ensures s.down[i].id != n + 1 {
      assert ResponseOk(s.calls, s.down[i], Sum(s.down[..i], HasId(s.down[i].id)));
    }
    forall i | 0 <= i < |s.ran| ensures s.ran[i].call != n { assert CallbackOk(s.calls, s.ran[i]); }
    NotThere(s.up, n + 1);
    NotThere(s.down, n + 1);
    NotThere(s.invoked, n + 1);
    NeverRan(s.ran, n);
  }

  lemma NextIdKeeps(s: State, proc: nat, body: Body)
    requires Inv(s)
    ensures Inv(AfterNextId(s, proc, body))
  {
    var s' := AfterNextId(s, proc, body);
    IdIsNew(s);
    NextIdCalls(s, proc, body);
    MessagesKeep(s.calls, s'.calls, s.up, s.down, s.ran);
    MessagesKeep(s.calls, s'.calls, s.invoked, s.down, s.ran);
  }

  lemma NextIdCalls(s: State, proc: nat, body: Body)
    requires CallsInv(s)
    requires var n := |s.calls|;
      && Sum(s.up, HasId(n + 1)) == Sum(s.down, HasId(n + 1)) == Sum(s.invoked, HasId(n + 1)) == 0
      && TimesRun(s, n) == 0
    ensures CallsInv(AfterNextId(s, proc, body))
  {
    var s' := AfterNextId(s, proc, body);
    forall k | 0 <= k < |s'.calls| ensures CallInv(s', k) {
      if k < |s.calls| {
        assert CallInv(s, k);
      } else {
        assert s'.calls[k] == Call(proc, body, Numbered, [], 0);
      }
    }
  }

  lemma RegisterKeeps(s: State, c: nat)
    requires Inv(s) && c < |s.calls| && s.calls[c].stage.Numbered?
    ensures Inv(AfterRegister(s, c))
  {
    var s' := AfterRegister(s, c);
    MessagesKeep(s.calls, s'.calls, s.up, s.down, s.ran);
    MessagesKeep(s.calls, s'.calls, s.invoked, s.down, s.ran);
    forall k | 0 <= k < |s.calls| ensures CallInv(s', k) {
      RegisterCall(s, c, k);
    }
  }

  lemma SendKeeps(s: State, c: nat)
    requires Inv(s) && c < |s.calls| && s.calls[c].stage.Registered?
    ensures Inv(AfterSend(s, c))
  {
    var s' := AfterSend(s, c);
    MessagesKeep(s.calls, s'.calls, s.up, s.down, s.ran);
    MessagesKeep(s.calls, s'.calls, s.invoked, s.down, s.ran);
    assert RequestsOk(s'.calls, s'.up);
    forall k | 0 <= k < |s.calls| ensures CallInv(s', k) {
      SendCall(s, c, k);
    }
  }

  lemma OnRequestKeeps(s: State, known: bool)
    requires Inv(s) && s.up != []
    ensures RequestOk(s.calls, s.up[0])
    ensures Inv(AfterRequest(s, known))
  {
    assert RequestOk(s.calls, s.up[0]);
    var s' := AfterRequest(s, known);
    MessagesKeep(s.calls, s'.calls, s.up, s.down, s.ran);
    MessagesKeep(s.calls, s'.calls, s.invoked, s.down, s.ran);
    assert RequestsOk(s'.calls, s'.up) && RequestsOk(s'.calls, s'.invoked);
    forall k | 0 <= k < |s.calls| ensures CallInv(s', k) {
      OnRequestCall(s, known, k);
    }
  }

  lemma InvokedStage(s: State, i: nat)
    requires Inv(s) && i < |s.invoked|
    ensures RequestOk(s.calls, s.invoked[i]) && s.calls[s.invoked[i].id - 1].stage.Invoked?
    ensures Sum(s.invoked, HasId(s.invoked[i].id)) == 1
  {
    assert RequestOk(s.calls, s.invoked[i]);
    assert CallInv(s, s.invoked[i].id - 1);
    There(s.invoked, i);
  }

  lemma DoneMessages(s: State, id: nat, response: Body)
    requires MessagesInv(s) && 1 <= id <= |s.calls| && CallInv(s, id - 1)
    ensures MessagesInv(AfterDone(s, id, response))
  {
    var s' := AfterDone(s, id, response);
    MessagesKeep(s.calls, s'.calls, s.up, s.down, s.ran);
    MessagesKeep(s.calls, s'.calls, s.invoked, s.down, s.ran);
    ResponseAppended(s'.calls, s.down, Response(id, response));
  }

  lemma DoneCalls(s: State, id: nat, response: Body)
    requires CallsInv(s) && 1 <= id <= |s.calls| && s.calls[id - 1].stage.Invoked?
    ensures CallsInv(AfterDone(s, id, response))
  {
    forall k | 0 <= k < |s.calls| ensures CallInv(AfterDone(s, id, response), k) {
      DoneCall(s, id, response, k);
    }
  }

  lemma DoneKeeps(s: State, i: nat, response: Body)
    requires Inv(s) && i < |s.invoked|
    ensures RequestOk(s.calls, s.invoked[i])
    ensures Inv(AfterDone(s, s.invoked[i].id, response))
  {
    InvokedStage(s, i);
    assert CallInv(s, s.invoked[i].id - 1);
    DoneMessages(s, s.invoked[i].id, response);
    DoneCalls(s, s.invoked[i].id, response);
  }

  /** The head of the way down is the next response its call has not read. */
  lemma HeadIsNext(calls: seq<Call>, ms: seq<RpcMessage>)
    requires ms != [] && ResponsesOk(calls, ms)
    ensures 1 <= ms[0].id <= |calls|
    ensures var c := calls[ms[0].id - 1]; c.read < |c.dones| && ms[0].body == c.dones[c.read]
  {
    assert ResponseOk(calls, ms[0], Sum(ms[..0], HasId(ms[0].id)));
  }

  /** The callback of a call that has been sent is there until its first response is read. */
  lemma OutstandingUnread(s: State, k: nat)
    requires Inv(s) && k < |s.calls| && s.calls[k].dones != []
    ensures k + 1 in s.outstandings <==> s.calls[k].read == 0
    ensures k + 1 in s.outstandings ==> s.outstandings[k + 1] == k
  {
    assert CallInv(s, k);
  }

  lemma CallbacksSurvive(calls: seq<Call>, calls': seq<Call>, ran: seq<Callback>)
    requires CallbacksOk(calls, ran) && |calls'| == |calls|
    requires forall k :: 0 <= k < |calls| ==> calls'[k].dones == calls[k].dones
    ensures CallbacksOk(calls', ran)
  {
    forall i | 0 <= i < |ran| ensures CallbackOk(calls', ran[i]) {
      assert CallbackOk(calls, ran[i]);
    }
  }

  lemma ResponseCallbacks(s: State)
    requires s.down != [] && ResponsesOk(s.calls, s.down) && CallbacksOk(s.calls, s.ran)
    requires 1 <= s.down[0].id <= |s.calls| && CallInv(s, s.down[0].id - 1)
    ensures CallbacksOk(AfterResponse(s).calls, AfterResponse(s).ran)
  {
    HeadIsNext(s.calls, s.down);
    CallbacksSurvive(s.calls, AfterResponse(s).calls, s.ran);
  }

  lemma ResponseDown(s: State)
    requires s.down != [] && ResponsesOk(s.calls, s.down) && 1 <= s.down[0].id <= |s.calls|
    ensures ResponsesOk(AfterResponse(s).calls, AfterResponse(s).down)
  {
    ResponseRead(s.calls, s.down, AfterResponse(s).calls, AfterResponse(s).down);
  }

  lemma ResponseRequests(s: State)
    requires s.down != [] && 1 <= s.down[0].id <= |s.calls|
    requires RequestsOk(s.calls, s.up) && RequestsOk(s.calls, s.invoked)
    ensures RequestsOk(AfterResponse(s).calls, AfterResponse(s).up)
    ensures RequestsOk(AfterResponse(s).calls, AfterResponse(s).invoked)
  {
    RequestsSurvive(s.calls, AfterResponse(s).calls, s.up);
    RequestsSurvive(s.calls, AfterResponse(s).calls, s.invoked);
  }

  lemma ResponseMessages(s: State)
    requires MessagesInv(s) && s.down != []
    requires 1 <= s.down[0].id <= |s.calls| && CallInv(s, s.down[0].id - 1)
    ensures MessagesInv(AfterResponse(s))
  {
    ResponseCallbacks(s);
    ResponseDown(s);
    ResponseRequests(s);
  }

  lemma ResponseCalls(s: State)
    requires CallsInv(s) && s.down != [] && 1 <= s.down[0].id <= |s.calls|
    ensures CallsInv(AfterResponse(s))
  {
    assert CallInv(s, s.down[0].id - 1);
    forall k | 0 <= k < |s.calls| ensures CallInv(AfterResponse(s), k) {
      OnResponseCall(s, k);
    }
  }

  lemma OnResponseKeeps(s: State)
    requires Inv(s) && s.down != []
    ensures 1 <= s.down[0].id <= |s.calls|
    ensures Inv(AfterResponse(s))
  {
    HeadIsNext(s.calls, s.down);
    assert CallInv(s, s.down[0].id - 1);
    ResponseMessages(s);
    ResponseCalls(s);
  }

  lemma RequestsSurvive(calls: seq<Call>, calls': seq<Call>, ms: seq<RpcMessage>)
    requires RequestsOk(calls, ms) && |calls'| == |calls|
    requires forall k :: 0 <= k < |calls| ==> calls'[k].proc == calls[k].proc && calls'[k].body == calls[k].body
    ensures RequestsOk(calls', ms)
  {
    forall i | 0 <= i < |ms| ensures RequestOk(calls', ms[i]) {
      assert RequestOk(calls, ms[i]);
    }
  }

  lemma StepKeeps(known: nat -> bool, s: State, e: Event)
    requires Inv(s) && Enabled(s, e)
    ensures Inv(Apply(known, s, e))
  {
    match e
    case NextId(proc, body) => NextIdKeeps(s, proc, body);
    case Register(k) => RegisterKeeps(s, k);
    case Send(k) => SendKeeps(s, k);
    case OnRequest => OnRequestKeeps(s, known(s.up[0].proc));
    case Done(i, response) => DoneKeeps(s, i, response);
    case OnResponse => OnResponseKeeps(s);
  }

  // ---- Runs --------------------------------------------------------------------------

  function Run(known: nat -> bool, s: State, es: seq<Event>): (end: Option<State>)
    requires Inv(s)
    ensures end.Some? ==> Inv(end.value)
    decreases |es|
  {
    if es == [] then Some(s)
    else if Enabled(s, es[0]) then
      StepKeeps(known, s, es[0]);
      Run(known, Apply(known, s, es[0]), es[1..])
    else None
  }

  /**
   * In every run the callback of a call runs at most once, and every callback that runs gets
   * the first response its service has passed to `done` for that very call, however often and
   * in whatever order the services call `done`.
   */
  lemma CallbackAtMostOnce(known: nat -> bool, es: seq<Event>, k: nat)
    requires Run(known, INIT, es).Some? && k < |Run(known, INIT, es).value.calls|
    ensures var s := Run(known, INIT, es).value;
      && TimesRun(s, k) <= 1
      && forall i :: 0 <= i < |s.ran| && s.ran[i].call == k ==>
           s.calls[k].dones != [] && s.ran[i].response == s.calls[k].dones[0]
  {
    var s := Run(known, INIT, es).value;
    assert CallInv(s, k);
    forall i | 0 <= i < |s.ran| && s.ran[i].call == k
      ensures s.calls[k].dones != [] && s.ran[i].response == s.calls[k].dones[0]
    {
      assert CallbackOk(s.calls, s.ran[i]);
    }
  }

  /** Once every response has been read, exactly the answered calls have been called back. */
  lemma AnsweredCallsAreCalledBack(known: nat -> bool, es: seq<Event>, k: nat)
    requires Run(known, INIT, es).Some? && k < |Run(known, INIT, es).value.calls|
    requires Run(known, INIT, es).value.down == []
    ensures var s := Run(known, INIT, es).value;
      TimesRun(s, k) == if s.calls[k].dones == [] then 0 else 1
  {
    assert CallInv(Run(known, INIT, es).value, k);
  }

  /** A service is handed each request at most once, with the body of the call it belongs to. */
  lemma ServiceSeesItsRequest(known: nat -> bool, es: seq<Event>, i: nat)
    requires Run(known, INIT, es).Some? && i < |Run(known, INIT, es).value.invoked|
    ensures var s := Run(known, INIT, es).value;
      var m := s.invoked[i];
      RequestOk(s.calls, m) && Sum(s.invoked, HasId(m.id)) == 1
  {
    InvokedStage(Run(known, INIT, es).value, i);
  }
}
