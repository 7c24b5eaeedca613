/** What can happen to a call that cannot be admitted: there are runs of the composed system in which it is told so.
    With `WsScenario` this shows that what the theorems of `WsEndToEnd` allow does occur. */
module WsRefusals {
  import opened Options
  import opened WsFrames
  import opened WsSession
  import opened WsDialogue
  import opened WsEndToEnd
  import opened WsScenario
  import S = WsServer
  import C = WsClient

  /** The open frame read by a server that refuses it: the refusal `f` queued, written, or on its way to the call. */
  function Refusing(call: Call, open: InFrame, queued: seq<OutFrame>, written: seq<OutFrame>, f: OutFrame): Sys {
    var tag := S.Tagged(S.ByReader, f);
    Opening(call, open, false).(
      up := [],
      server := S.Init().(
        input := [open],
        out := S.Outbox(if queued == [] then [] else [tag], false, [tag], if queued == [] then [tag] else [],
                        if queued == [] then [f] else [])),
      down := written)
  }

  /** The server about to write the refusal. */
  function AboutToRefuse(call: Call, open: InFrame, reply: S.Reply): Sys {
    Opening(call, open, false).(up := [], server := S.Init().(input := [open], reader := S.Replying(reply)))
  }

  lemma OpenRead(net: Net, call: Call, open: InFrame) returns (reply: S.Reply)
    requires open == Open(ID, call.procedure, call.shape.Name())
    requires call.procedure !in net.cfg.handlers || net.cfg.handlers[call.procedure] != call.shape
             || net.cfg.maxInflight == 0
    ensures Leads(net, Opening(call, open, false), AboutToRefuse(call, open, reply))
    ensures S.ReplyFrame(net.cfg, reply) == ErrorFrame(ID, RefusalDetail(net.cfg, open))
  {
    if call.procedure in net.cfg.handlers && net.cfg.handlers[call.procedure].Name() == call.shape.Name() {
      ShapeNamesDistinct(net.cfg.handlers[call.procedure], call.shape);
    }
    reply := S.HandleOpen(net.cfg, S.Init().(input := [open]), open, 0).reader.reply;
    var s, t := Opening(call, open, false), AboutToRefuse(call, open, reply);
    assert S.Next(net.cfg, s.server, S.ByTheReader(S.ReadFrame(open))) == t.server;
    Via(net, s, ServerReads, t);
  }

  lemma RefusalQueued(net: Net, call: Call, open: InFrame, reply: S.Reply)
    ensures var f := S.ReplyFrame(net.cfg, reply);
            Leads(net, AboutToRefuse(call, open, reply), Refusing(call, open, [f], [], f))
  {
    var f := S.ReplyFrame(net.cfg, reply);
    var s, t := AboutToRefuse(call, open, reply), Refusing(call, open, [f], [], f);
    assert S.Next(net.cfg, s.server, S.ByTheReader(S.ReplyEnqueued)) == t.server;
    Via(net, s, ServerReader(S.ReplyEnqueued), t);
  }

  lemma ServerRefuses(net: Net, call: Call, open: InFrame)
    requires open == Open(ID, call.procedure, call.shape.Name())
    requires call.procedure !in net.cfg.handlers || net.cfg.handlers[call.procedure] != call.shape
             || net.cfg.maxInflight == 0
    ensures var f := ErrorFrame(ID, RefusalDetail(net.cfg, open));
            Leads(net, Opening(call, open, false), Refusing(call, open, [f], [], f))
  {
    var reply := OpenRead(net, call, open);
    RefusalQueued(net, call, open, reply);
    var f := ErrorFrame(ID, RefusalDetail(net.cfg, open));
    LeadsOn(net, Opening(call, open, false), AboutToRefuse(call, open, reply), Refusing(call, open, [f], [], f));
  }

  /** The refusal in the call's channel, and what the client has queued since. */
  function Delivered(call: Call, open: InFrame, f: OutFrame, more: seq<InFrame>, pc: CallPc): Sys {
    var s := Refusing(call, open, [], [], f);
    var c := s.client;
    s.(client := c.(read := [f], chans := [c.chans[0].(buf := [f])], writeCh := more, sent := [open] + more),
       calls := [call.(pc := pc)])
  }

  lemma RefusalTravels(net: Net, call: Call, open: InFrame, f: OutFrame)
    requires f.id == ID
    ensures Leads(net, Refusing(call, open, [f], [], f),
                  Delivered(call, open, f, [], if call.shape.OneShot() then SendingMessage else Streaming))
  {
    var s, t := Refusing(call, open, [f], [], f), Refusing(call, open, [], [f], f);
    assert S.Next(net.cfg, s.server, S.ByTheWriter(S.WriteOk)) == t.server;
    Via(net, s, ServerWrites, t);
    RefusalArrives(net, call, open, f);
    LeadsOn(net, s, t, Delivered(call, open, f, [], if call.shape.OneShot() then SendingMessage else Streaming));
  }

  lemma RefusalArrives(net: Net, call: Call, open: InFrame, f: OutFrame)
    requires f.id == ID
    ensures Leads(net, Refusing(call, open, [], [f], f),
                  Delivered(call, open, f, [], if call.shape.OneShot() then SendingMessage else Streaming))
  {
    var s := Refusing(call, open, [], [f], f);
    var u := Delivered(call, open, f, [], if call.shape.OneShot() then SendingMessage else Streaming);
    var t := s.(client := s.client.(read := [f], reader := C.Routing(0, f)), down := []);
    assert C.Next(s.client, C.ReadFrame(f)) == t.client;
    Via(net, s, ClientReads, t);
    var x := t.client.chans[0];
    assert [] + [f] == [f] && t.client.chans[0 := x.(buf := [f])] == u.client.chans;
    assert C.Next(t.client, C.Route) == u.client;
    Via(net, t, ClientRoutes, u);
    LeadsOn(net, s, t, u);
  }

  /** A unary or server-stream call queues its request before it looks at its channel. */
  lemma MoreQueued(net: Net, call: Call, open: InFrame, f: OutFrame, more: seq<InFrame>, m: InFrame, a: CallAct,
                   pc: CallPc, pc': CallPc)
    requires (a == SendMessage && pc == SendingMessage && m == Message(ID, call.request) && pc' == SendingClose)
             || (a == SendClose && pc == SendingClose && m == CloseSend(ID) && pc' == Receiving)
    requires |more| < 64
    ensures Leads(net, Delivered(call, open, f, more, pc), Delivered(call, open, f, more + [m], pc'))
  {
    var s, t := Delivered(call, open, f, more, pc), Delivered(call, open, f, more + [m], pc');
    assert [open] + more + [m] == [open] + (more + [m]);
    assert C.Next(s.client, C.Send(m)) == t.client;
    assert CallNext(net, s, 0, a) == t;
    Via(net, s, ByCall(0, a), t);
  }

  lemma RequestQueued(net: Net, call: Call, open: InFrame, f: OutFrame)
    ensures Leads(net, Delivered(call, open, f, [], SendingMessage),
                  Delivered(call, open, f, [Message(ID, call.request), CloseSend(ID)], Receiving))
  {
    var m, e := Message(ID, call.request), CloseSend(ID);
    MoreQueued(net, call, open, f, [], m, SendMessage, SendingMessage, SendingClose);
    assert [] + [m] == [m] && [m] + [e] == [m, e];
    MoreQueued(net, call, open, f, [m], e, SendClose, SendingClose, Receiving);
    LeadsOn(net, Delivered(call, open, f, [], SendingMessage), Delivered(call, open, f, [m], SendingClose),
            Delivered(call, open, f, [m, e], Receiving));
  }

  /** The call is told why it was refused. */
  ghost predicate ToldWhy(net: Net, s: Sys, call: Call) {
    var d := RefusalDetail(net.cfg, Open(ID, call.procedure, call.shape.Name()));
    s.calls == [call.(pc := Returned(Error(StatusError(Status(d.code, d.message, d.retryable), None))))]
  }

  lemma RefusalTaken(net: Net, call: Call, more: seq<InFrame>, pc: CallPc) returns (t: Sys)
    requires pc.Receiving? || pc.Streaming?
    ensures var open := Open(ID, call.procedure, call.shape.Name());
            Leads(net, Delivered(call, open, ErrorFrame(ID, RefusalDetail(net.cfg, open)), more, pc), t)
    ensures ToldWhy(net, t, call)
  {
    var open := Open(ID, call.procedure, call.shape.Name());
    var f := ErrorFrame(ID, RefusalDetail(net.cfg, open));
    var s := Delivered(call, open, f, more, pc);
    RefusalIsError(net.cfg, open, f);
    t := CallNext(net, s, 0, Receive);
    Via(net, s, ByCall(0, Receive), t);
  }

  /** A call that cannot be admitted, because its procedure is unknown or of another shape or the server takes no
      sessions, can be told so: there is a run of the composed system in which it is. */
  lemma EveryRefusalCanHappen(net: Net, shape: Shape, procedure: string, request: Payload)
    requires procedure !in net.cfg.handlers || net.cfg.handlers[procedure] != shape || net.cfg.maxInflight == 0
    ensures exists s :: Reachable(net, s) && ToldWhy(net, s, Call(shape, procedure, request, Starting))
  {
    var call := Call(shape, procedure, request, Starting);
    var open := Open(ID, procedure, shape.Name());
    var f := ErrorFrame(ID, RefusalDetail(net.cfg, open));
    var more, pc := [], Streaming;
    var s := Delivered(call, open, f, [], if shape.OneShot() then SendingMessage else Streaming);
    RefusalComes(net, call);
    if shape.OneShot() {
      more, pc := [Message(ID, request), CloseSend(ID)], Receiving;
      RequestQueued(net, call, open, f);
      LeadsOn(net, Init(), s, Delivered(call, open, f, more, pc));
    }
    var t := RefusalTaken(net, call, more, pc);
    LeadsOn(net, Init(), Delivered(call, open, f, more, pc), t);
    var ls := StepsOf(net, Init(), t);
    assert Reachable(net, t);
  }

  lemma RefusalComes(net: Net, call: Call)
    requires call.pc.Starting?
    requires call.procedure !in net.cfg.handlers || net.cfg.handlers[call.procedure] != call.shape
             || net.cfg.maxInflight == 0
    ensures var open := Open(ID, call.procedure, call.shape.Name());
            var f := ErrorFrame(ID, RefusalDetail(net.cfg, open));
            Leads(net, Init(), Delivered(call, open, f, [], if call.shape.OneShot() then SendingMessage else Streaming))
  {
    var open := Open(ID, call.procedure, call.shape.Name());
    var f := ErrorFrame(ID, RefusalDetail(net.cfg, open));
    Registers(net, call);
    OpenQueued(net, call);
    LeadsOn(net, Init(), Registered(call), Opening(call, open, true));
    OpenWritten(net, call, open);
    LeadsOn(net, Init(), Opening(call, open, true), Opening(call, open, false));
    ServerRefuses(net, call, open);
    LeadsOn(net, Init(), Opening(call, open, false), Refusing(call, open, [f], [], f));
    RefusalTravels(net, call, open, f);
    LeadsOn(net, Init(), Refusing(call, open, [f], [], f),
            Delivered(call, open, f, [], if call.shape.OneShot() then SendingMessage else Streaming));
  }
}
