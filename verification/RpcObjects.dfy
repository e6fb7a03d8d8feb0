/**
 * The objects behind the RPC state machines, field by field: each method, applied to an object
 * that agrees with a state, leaves it agreeing with the state after the step.
 */
module RpcObjects {
  import opened Options
  import RpcChannel
  import Balancer
  import Modulo

  // ---- muduo/protorpc2/RpcChannel.cc -------------------------------------------------

  class Channel {
    var id: nat
    /** From an id to the call whose callback it holds. */
    var outstandings: map<nat, nat>

    ghost predicate Agrees(s: RpcChannel.State)
      reads this
    {
      RpcChannel.Inv(s) && id == s.lastId && outstandings == s.outstandings
    }

    constructor ()
      ensures Agrees(RpcChannel.INIT)
    {
      id, outstandings := 0, map[];
    }

    /** `id_.incrementAndGet()` */
    method NextId(ghost s: RpcChannel.State, proc: nat, body: RpcChannel.Body) returns (newId: nat)
      requires Agrees(s)
      modifies this`id
      ensures Agrees(RpcChannel.AfterNextId(s, proc, body))
      ensures newId !in outstandings && newId == |s.calls| + 1
    {
      RpcChannel.NextIdKeeps(s, proc, body);
      id := id + 1;
      newId := id;
    }

    /** The insertion under the lock. */
    method Register(ghost s: RpcChannel.State, newId: nat, call: nat)
      requires Agrees(s) && call < |s.calls| && s.calls[call].stage.Numbered? && newId == call + 1
      modifies this`outstandings
      ensures Agrees(RpcChannel.AfterRegister(s, call))
    {
      RpcChannel.RegisterKeeps(s, call);
      outstandings := outstandings[newId := call];
    }

    /** CallMethod, when no other thread comes in between. */
    method CallMethod(ghost s: RpcChannel.State, call: nat, proc: nat, body: RpcChannel.Body)
      returns (message: RpcChannel.RpcMessage, ghost s': RpcChannel.State)
      requires Agrees(s) && call == |s.calls|
      modifies this
      ensures Agrees(s') && s'.up == s.up + [message] && message == RpcChannel.Request(call + 1, proc, body)
      ensures s'.outstandings == s.outstandings[call + 1 := call] && s'.ran == s.ran && s'.down == s.down
    {
      var newId := NextId(s, proc, body);
      ghost var s1 := RpcChannel.AfterNextId(s, proc, body);
      Register(s1, newId, call);
      ghost var s2 := RpcChannel.AfterRegister(s1, call);
      RpcChannel.SendKeeps(s2, call);
      s' := RpcChannel.AfterSend(s2, call);
      message := RpcChannel.Request(newId, proc, body);
    }

    /** onRpcMessage with a response: the callback to run, or none for an unknown id. */
    method OnResponse(ghost s: RpcChannel.State, message: RpcChannel.RpcMessage)
      returns (run: Option<RpcChannel.Callback>)
      requires Agrees(s) && s.down != [] && message == s.down[0]
      modifies this`outstandings
      ensures 1 <= message.id <= |s.calls|
      ensures Agrees(RpcChannel.AfterResponse(s))
      ensures RpcChannel.AfterResponse(s).ran == s.ran + if run.Some? then [run.value] else []
      ensures run.Some? <==> s.calls[message.id - 1].read == 0
      ensures run.Some? ==> run.value == RpcChannel.Callback(message.id - 1, s.calls[message.id - 1].dones[0])
    {
      RpcChannel.OnResponseKeeps(s);
      RpcChannel.HeadIsNext(s.calls, s.down);
      RpcChannel.OutstandingUnread(s, message.id - 1);
      if message.id in outstandings {
        run := Some(RpcChannel.Callback(outstandings[message.id], message.body));
        outstandings := outstandings - {message.id};
      } else {
        run := None;
      }
    }
  }

  // ---- go/balancer/main.go -----------------------------------------------------------

  class BackendConn {
    var nextId: nat
    var outstanding: map<nat, Balancer.Response>

    ghost predicate Agrees(b: Balancer.Backend)
      reads this
    {
      nextId == b.nextId && outstanding == b.outstanding
    }

    constructor ()
      ensures Agrees(Balancer.Backend([], [], Balancer.FIRST_ID, map[], [], [], []))
    {
      nextId, outstanding := Balancer.FIRST_ID, map[];
    }

    /** One round of run()'s loop: the message to send, registered before it is sent. */
    method Renumber(ghost b: Balancer.Backend, r: Balancer.Request) returns (sent: Balancer.Msg)
      requires Agrees(b) && b.queue != [] && r == b.queue[0]
      modifies this
      ensures Agrees(Balancer.InsertFirst(b))
      ensures Balancer.InsertFirst(b).sending == [Balancer.Flight(sent, r)]
      ensures sent.id in outstanding && sent.body == r.msg.body
    {
      var resp := Balancer.Response(r.msg.id, r.output);
      var newId := nextId;
      nextId := nextId + 1;
      outstanding := outstanding[newId := resp];
      sent := Balancer.Msg(newId, r.msg.body);
    }

    /** One round of the reader: where the reply goes and with which id; None is the panic. */
    method OnReply(ghost arrived: seq<Balancer.Request>, ghost answers: seq<Balancer.Given>, ghost b: Balancer.Backend,
                   resp: Balancer.Msg)
      returns (out: Option<(nat, Balancer.Msg)>)
      requires Agrees(b) && Balancer.BackendInv(arrived, answers, b) && b.replies != [] && resp == b.replies[0].msg
      modifies this`outstanding
      ensures Agrees(Balancer.ReadReply(b))
      ensures var asked := b.replies[0].request;
        out == Some((asked.output, Balancer.Msg(asked.msg.id, resp.body)))
    {
      assert Balancer.FlightOk(b.outstanding, arrived, b.replies[0]);
      if resp.id !in outstanding {
        return None;
      }
      var r := outstanding[resp.id];
      outstanding := outstanding - {resp.id};
      out := Some((r.output, Balancer.Msg(r.origId, resp.body)));
    }
  }

  /** dispatch(): request `k` goes to backend `k` modulo their number, in order. */
  method DispatchAll(requests: seq<Balancer.Request>, backends: nat) returns (chosen: seq<nat>)
    requires backends > 0
    ensures |chosen| == |requests| && forall k :: 0 <= k < |chosen| ==> chosen[k] == k % backends
  {
    var idx := 0;
    chosen := [];
    for k := 0 to |requests|
      invariant |chosen| == k && forall j :: 0 <= j < k ==> chosen[j] == j % backends
      invariant idx == k % backends
    {
      chosen := chosen + [idx];
      Modulo.NextMod(k, backends);
      idx := idx + 1;
      if idx >= backends {
        idx := 0;
      }
    }
  }
}
