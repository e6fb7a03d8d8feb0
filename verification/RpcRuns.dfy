/** What the runs of the RPC channel do with each call, told from their events. */
module RpcRuns {
  import opened Options
  import opened Sums
  import opened RpcChannel

  lemma FirstStep(known: nat -> bool, s: State, es: seq<Event>) returns (s': State)
    requires Inv(s) && es != [] && Run(known, s, es).Some?
    ensures Enabled(s, es[0]) && s' == Apply(known, s, es[0])
    ensures Inv(s') && Run(known, s', es[1..]) == Run(known, s, es)
  {
    s' := Apply(known, s, es[0]);
    StepKeeps(known, s, es[0]);
  }

  // ---- Which requests reach a service ------------------------------------------------

  /** A request has been handed to a service if and only if there is one for its method. */
  ghost predicate Handled(known: nat -> bool, s: State) {
    forall k :: 0 <= k < |s.calls| ==>
      && (s.calls[k].stage.Invoked? ==> known(s.calls[k].proc))
      && (s.calls[k].stage.Dropped? ==> !known(s.calls[k].proc))
  }

  lemma StepHandles(known: nat -> bool, s: State, e: Event)
    requires Inv(s) && Enabled(s, e) && Handled(known, s)
    ensures Handled(known, Apply(known, s, e))
  {
    match e
    case NextId(_, _) =>
    case Register(_) =>
    case Send(_) =>
    case OnRequest => OnRequestKeeps(s, known(s.up[0].proc));
    case Done(i, _) => InvokedStage(s, i);
    case OnResponse => OnResponseKeeps(s);
  }

  lemma {:induction false} RunHandles(known: nat -> bool, s: State, es: seq<Event>)
    requires Inv(s) && Handled(known, s) && Run(known, s, es).Some?
    ensures Handled(known, Run(known, s, es).value)
    decreases |es|
  {
    if es != [] {
      var s' := FirstStep(known, s, es);
      StepHandles(known, s, es[0]);
      RunHandles(known, s', es[1..]);
    }
  }

  predicate HasBeenSent(stage: Stage) {
    !stage.Numbered? && !stage.Registered?
  }

  lemma StepSends(known: nat -> bool, s: State, e: Event, k: nat)
    requires Inv(s) && Enabled(s, e)
    ensures var s' := Apply(known, s, e);
      && |s.calls| <= |s'.calls|
      && (k < |s.calls| && (e == Send(k) || HasBeenSent(s.calls[k].stage)) ==> HasBeenSent(s'.calls[k].stage))
      && (e == Send(k) ==> k < |s.calls|)
  {
    match e
    case OnRequest => OnRequestKeeps(s, known(s.up[0].proc));
    case Done(i, _) => InvokedStage(s, i);
    case OnResponse => OnResponseKeeps(s);
    case _ =>
  }

  lemma {:induction false} RunSends(known: nat -> bool, s: State, es: seq<Event>, k: nat)
    requires Inv(s) && Run(known, s, es).Some?
    requires Send(k) in es || (k < |s.calls| && HasBeenSent(s.calls[k].stage))
    ensures var end := Run(known, s, es).value; k < |end.calls| && HasBeenSent(end.calls[k].stage)
    decreases |es|
  {
    if es != [] {
      var s' := FirstStep(known, s, es);
      StepSends(known, s, es[0], k);
      RunSends(known, s', es[1..], k);
    }
  }

  /**
   * In every run, once the connection to the server is drained, a call that has been sent has
   * been handed to a service once if the server has its method, and never if it has not.
   */
  lemma RequestsReachTheirService(known: nat -> bool, es: seq<Event>, s: State, k: nat)
    requires Run(known, INIT, es) == Some(s) && Send(k) in es && s.up == []
    ensures k < |s.calls|
    ensures Sum(s.invoked, HasId(k + 1)) == if known(s.calls[k].proc) then 1 else 0
  {
    RunHandles(known, INIT, es);
    RunSends(known, INIT, es, k);
    assert CallInv(s, k);
  }

  // ---- Every call can be carried through ---------------------------------------------

  /** An upper bound on the steps that call `k` needs, with the messages before its own. */
  function Ahead(s: State, k: nat): nat
    requires k < |s.calls|
  {
    |s.up| + |s.down| +
    match s.calls[k].stage
    case Numbered => 5
    case Registered => 4
    case Sent => 2
    case Invoked => if s.calls[k].dones == [] then 2 else 0
    case Dropped => 0
  }

  lemma SomeInvocation(s: State, k: nat) returns (i: nat)
    requires Sum(s.invoked, HasId(k + 1)) >= 1
    ensures i < |s.invoked| && s.invoked[i].id == k + 1
  {
    if forall j :: 0 <= j < |s.invoked| ==> s.invoked[j].id != k + 1 {
      NotThere(s.invoked, k + 1);
    }
    i :| 0 <= i < |s.invoked| && s.invoked[i].id == k + 1;
  }

  /** The step brings call `k` on: its own, or that of the message before it. */
  ghost predicate Advances(known: nat -> bool, s: State, e: Event, k: nat)
    requires Inv(s) && k < |s.calls|
  {
    && Enabled(s, e) && !e.NextId?
    && var s' := Apply(known, s, e);
      k < |s'.calls| && s'.calls[k].proc == s.calls[k].proc && Ahead(s', k) < Ahead(s, k)
  }

  lemma ReadAdvances(known: nat -> bool, s: State, k: nat)
    requires Inv(s) && Handled(known, s) && k < |s.calls| && known(s.calls[k].proc) && s.calls[k].stage.Sent?
    ensures Advances(known, s, OnRequest, k)
  {
    RequestIsUp(s, k);
    assert RequestOk(s.calls, s.up[0]);
    ReadsAhead(s, known(s.up[0].proc), k);
  }

  lemma RequestIsUp(s: State, k: nat)
    requires Inv(s) && k < |s.calls| && s.calls[k].stage.Sent?
    ensures s.up != [] && s.calls[k].dones == []
  {
    assert CallInv(s, k);
  }

  lemma ReadsAhead(s: State, known: bool, k: nat)
    requires s.up != [] && RequestOk(s.calls, s.up[0]) && k < |s.calls| && s.calls[k].stage.Sent?
    requires s.up[0].id == k + 1 ==> known
    requires s.calls[k].dones == []
    ensures Ahead(AfterRequest(s, known), k) < Ahead(s, k)
    ensures AfterRequest(s, known).calls[k].proc == s.calls[k].proc
  {
  }

  lemma ResponseAdvances(known: nat -> bool, s: State, k: nat)
    requires Inv(s) && k < |s.calls| && s.calls[k].stage.Invoked? && s.calls[k].dones != [] && s.calls[k].read == 0
    ensures Advances(known, s, OnResponse, k)
  {
    ResponseIsDown(s, k);
    HeadIsNext(s.calls, s.down);
    ResponseAhead(s, k);
  }

  lemma ResponseIsDown(s: State, k: nat)
    requires Inv(s) && k < |s.calls| && s.calls[k].dones != [] && s.calls[k].read == 0
    ensures s.down != []
  {
    assert CallInv(s, k);
  }

  lemma ResponseAhead(s: State, k: nat)
    requires s.down != [] && 1 <= s.down[0].id <= |s.calls| && k < |s.calls|
    ensures Ahead(AfterResponse(s), k) < Ahead(s, k)
    ensures AfterResponse(s).calls[k].proc == s.calls[k].proc
  {
  }

  lemma DoneAdvances(known: nat -> bool, s: State, k: nat) returns (e: Event)
    requires Inv(s) && k < |s.calls| && s.calls[k].stage.Invoked? && s.calls[k].dones == []
    ensures Advances(known, s, e, k)
  {
    assert CallInv(s, k);
    var i := SomeInvocation(s, k);
    InvokedStage(s, i);
    e := Done(i, []);
  }

  lemma NextStep(known: nat -> bool, s: State, k: nat) returns (e: Event)
    requires Inv(s) && Handled(known, s) && k < |s.calls| && known(s.calls[k].proc) && s.calls[k].read == 0
    ensures Advances(known, s, e, k)
  {
    match s.calls[k].stage
    case Numbered => e := Register(k);
    case Registered => e := Send(k);
    case Sent =>
      e := OnRequest;
      ReadAdvances(known, s, k);
    case Invoked =>
      if s.calls[k].dones == [] {
        e := DoneAdvances(known, s, k);
      } else {
        e := OnResponse;
        ResponseAdvances(known, s, k);
      }
  }

  lemma RunFirst(known: nat -> bool, s: State, e: Event, es: seq<Event>)
    requires Inv(s) && Enabled(s, e) && Inv(Apply(known, s, e))
    ensures Run(known, s, [e] + es) == Run(known, Apply(known, s, e), es)
  {
    assert ([e] + es)[1..] == es;
  }

  /** From every state a call to a method the server has can be carried on to its callback. */
  lemma {:induction false} CarryOn(known: nat -> bool, s: State, k: nat) returns (es: seq<Event>)
    requires Inv(s) && Handled(known, s) && k < |s.calls| && known(s.calls[k].proc)
    ensures Run(known, s, es).Some?
    ensures TimesRun(Run(known, s, es).value, k) == 1
    ensures forall i :: 0 <= i < |es| ==> !es[i].NextId?
    decreases Ahead(s, k)
  {
    if s.calls[k].read > 0 {
      es := [];
      assert CallInv(s, k);
    } else {
      var e := NextStep(known, s, k);
      StepKeeps(known, s, e);
      StepHandles(known, s, e);
      var rest := CarryOn(known, Apply(known, s, e), k);
      es := [e] + rest;
      RunFirst(known, s, e, rest);
    }
  }

  /**
   * Whatever has happened, a call to a method the server has can still be answered, without
   * any further call, so that its callback has run exactly once.
   */
  lemma EveryCallCanBeAnswered(known: nat -> bool, es: seq<Event>, s: State, k: nat) returns (more: seq<Event>)
    requires Run(known, INIT, es) == Some(s) && k < |s.calls| && known(s.calls[k].proc)
    ensures Run(known, s, more).Some? && TimesRun(Run(known, s, more).value, k) == 1
    ensures forall i :: 0 <= i < |more| ==> !more[i].NextId?
  {
    RunHandles(known, INIT, es);
    more := CarryOn(known, s, k);
  }

  // ---- Calls and responses are those of the events -----------------------------------

  /** What was asked, in the order in which ids were taken. */
  function Asked(es: seq<Event>): seq<(nat, Body)> {
    if es == [] then [] else Question(es[0]) + Asked(es[1..])
  }

  function Question(e: Event): seq<(nat, Body)> {
    if e.NextId? then [(e.proc, e.body)] else []
  }

  function Questions(calls: seq<Call>): seq<(nat, Body)> {
    seq(|calls|, k requires 0 <= k < |calls| => (calls[k].proc, calls[k].body))
  }

  /** What was passed to `done` for the request with this id, in order. */
  function Said(es: seq<Event>, invoked: seq<RpcMessage>, id: nat): seq<Body> {
    if es == [] then [] else Word(es[0], invoked, id) + Said(es[1..], invoked, id)
  }

  function Word(e: Event, invoked: seq<RpcMessage>, id: nat): seq<Body> {
    if e.Done? && e.invocation < |invoked| && invoked[e.invocation].id == id then [e.response] else []
  }

  lemma Regroup<T>(u: seq<T>, v: seq<T>, w: seq<T>)
    ensures (u + v) + w == u + (v + w)
  {
  }

  lemma StepAsks(known: nat -> bool, s: State, e: Event)
    requires Inv(s) && Enabled(s, e)
    ensures Questions(Apply(known, s, e).calls) == Questions(s.calls) + Question(e)
  {
    match e
    case OnRequest => OnRequestKeeps(s, known(s.up[0].proc));
    case Done(i, _) => InvokedStage(s, i);
    case OnResponse => OnResponseKeeps(s);
    case _ =>
  }

  lemma {:induction false} RunAsks(known: nat -> bool, s: State, es: seq<Event>)
    requires Inv(s) && Run(known, s, es).Some?
    ensures Questions(Run(known, s, es).value.calls) == Questions(s.calls) + Asked(es)
    decreases |es|
  {
    if es == [] {
      assert Questions(s.calls) + [] == Questions(s.calls);
    } else {
      var s' := FirstStep(known, s, es);
      StepAsks(known, s, es[0]);
      RunAsks(known, s', es[1..]);
      Regroup(Questions(s.calls), Question(es[0]), Asked(es[1..]));
    }
  }

  function DonesOf(s: State, k: nat): seq<Body> {
    if k < |s.calls| then s.calls[k].dones else []
  }

  lemma StepSays(known: nat -> bool, s: State, e: Event, k: nat)
    requires Inv(s) && Enabled(s, e)
    ensures var s' := Apply(known, s, e);
      && s.invoked <= s'.invoked
      && DonesOf(s', k) == DonesOf(s, k) + Word(e, s.invoked, k + 1)
  {
    match e
    case OnRequest => OnRequestKeeps(s, known(s.up[0].proc));
    case Done(i, _) => InvokedStage(s, i);
    case OnResponse => OnResponseKeeps(s);
    case _ =>
  }

  lemma {:induction false} RunSays(known: nat -> bool, s: State, es: seq<Event>, k: nat)
    requires Inv(s) && Run(known, s, es).Some?
    ensures var end := Run(known, s, es).value;
      s.invoked <= end.invoked && DonesOf(end, k) == DonesOf(s, k) + Said(es, end.invoked, k + 1)
    decreases |es|
  {
    if es == [] {
      assert DonesOf(s, k) + [] == DonesOf(s, k);
    } else {
      var s' := FirstStep(known, s, es);
      StepSays(known, s, es[0], k);
      RunSays(known, s', es[1..], k);
      var invoked := Run(known, s, es).value.invoked;
      assert Word(es[0], invoked, k + 1) == Word(es[0], s.invoked, k + 1);
      Regroup(DonesOf(s, k), Word(es[0], invoked, k + 1), Said(es[1..], invoked, k + 1));
    }
  }

  /**
   * In every run the calls are those that were made, in order, and what counts as the answers
   * to a call is what was passed to `done` for its own request.
   */
  lemma CallsAreThoseMade(known: nat -> bool, es: seq<Event>, s: State)
    requires Run(known, INIT, es) == Some(s)
    ensures |s.calls| == |Asked(es)|
    ensures forall k :: 0 <= k < |s.calls| ==> (s.calls[k].proc, s.calls[k].body) == Asked(es)[k]
    ensures forall k: nat :: k < |s.calls| ==> s.calls[k].dones == Said(es, s.invoked, k + 1)
  {
    RunAsks(known, INIT, es);
    assert Questions(s.calls) == Asked(es);
    forall k | 0 <= k < |s.calls| ensures (s.calls[k].proc, s.calls[k].body) == Asked(es)[k] {
      assert Questions(s.calls)[k] == Asked(es)[k];
    }
    forall k: nat | k < |s.calls| ensures s.calls[k].dones == Said(es, s.invoked, k + 1) {
      RunSays(known, INIT, es, k);
    }
  }

  /** A callback that has run has been given the first thing its service said to its request. */
  lemma CallbackGetsFirstAnswer(known: nat -> bool, es: seq<Event>, s: State, i: nat)
    requires Run(known, INIT, es) == Some(s) && i < |s.ran|
    ensures var said := Said(es, s.invoked, s.ran[i].call + 1);
      said != [] && s.ran[i].response == said[0]
  {
    assert CallbackOk(s.calls, s.ran[i]);
    CallsAreThoseMade(known, es, s);
  }
}
