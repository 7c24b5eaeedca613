/** What can happen: for a call of any shape there are runs of the composed system in which its handler hears all that
    the caller says, sends what it likes and returns what it likes, and the caller gets exactly that. The theorems of
    `WsEndToEnd` say that nothing else can. */
module WsScenario {
  import opened Options
  import opened WsFrames
  import opened WsSession
  import opened WsEndToEnd
  import S = WsServer
  import C = WsClient

  /** The first session's id. */
  const ID: Id := C.IdOf(0)

  /** One call and its run, between two exchanges: nothing is buffered, queued or on a link. */
  datatype Scene = Scene(call: Call, conv: seq<InFrame>, run: Run, tags: seq<S.Tagged>, taken: seq<OutFrame>)

  function ClientOf(sc: Scene): C.Client {
    C.Client([C.Chan(ID, C.Registered, [], false, sc.taken, false, 0, None)], map[ID := 0], C.Reading, true, false,
             C.NotYet, [], sc.taken, sc.conv, sc.conv, false)
  }

  function ServerOf(sc: Scene): S.Server {
    S.Server(S.Reading, S.Table(map[ID := 0], 1), [sc.run], false,
             S.Outbox([], false, sc.tags, sc.tags, sc.taken), S.Looping, sc.conv, false)
  }

  function StateOf(sc: Scene): Sys { Sys(ClientOf(sc), [sc.call], [], ServerOf(sc), []) }

  /** The steps `ls` lead from `s` to `t`. The wrapping `d` keeps the steps folded where only their existence
      matters. */
  ghost predicate Along(net: Net, s: Sys, ls: seq<Label>, t: Sys, d: nat)
    decreases d
  {
    if d == 0 then Steps(net, s, ls, t) else Along(net, s, ls, t, d - 1)
  }

  lemma {:induction false} AlongIs(net: Net, s: Sys, ls: seq<Label>, t: Sys, d: nat)
    ensures Along(net, s, ls, t, d) <==> Steps(net, s, ls, t)
    decreases d
  {
    if d > 0 {
      AlongIs(net, s, ls, t, d - 1);
    }
  }

  ghost predicate Leads(net: Net, s: Sys, t: Sys) {
    exists ls, d: nat :: d > 0 && Along(net, s, ls, t, d)
  }

  lemma LeadsBy(net: Net, s: Sys, ls: seq<Label>, t: Sys)
    requires Steps(net, s, ls, t)
    ensures Leads(net, s, t)
  {
    AlongIs(net, s, ls, t, 1);
  }

  lemma StepsOf(net: Net, s: Sys, t: Sys) returns (ls: seq<Label>)
    requires Leads(net, s, t)
    ensures Steps(net, s, ls, t)
  {
    var d: nat;
    ls, d :| d > 0 && Along(net, s, ls, t, d);
    AlongIs(net, s, ls, t, d);
  }

  lemma {:induction false} StepsConcat(net: Net, s: Sys, ls: seq<Label>, t: Sys, ms: seq<Label>, u: Sys)
    requires Steps(net, s, ls, t) && Steps(net, t, ms, u)
    ensures Steps(net, s, ls + ms, u)
    decreases |ls|
  {
    if ls == [] {
      assert ls + ms == ms;
    } else {
      StepsConcat(net, Next(net, s, ls[0]), ls[1..], t, ms, u);
      assert (ls + ms)[1..] == ls[1..] + ms;
    }
  }

  lemma LeadsOn(net: Net, s: Sys, t: Sys, u: Sys)
    requires Leads(net, s, t) && Leads(net, t, u)
    ensures Leads(net, s, u)
  {
    var ls := StepsOf(net, s, t);
    var ms := StepsOf(net, t, u);
    StepsConcat(net, s, ls, t, ms, u);
    LeadsBy(net, s, ls + ms, u);
  }

  lemma Via(net: Net, s: Sys, l: Label, t: Sys)
    requires Enabled(s, l) && Next(net, s, l) == t
    ensures Leads(net, s, t)
  {
    assert Steps(net, t, [], t);
    assert [l][1..] == [];
    LeadsBy(net, s, [l], t);
  }

  // ---- the caller says something -----------------------------------------------------------------------------

  /** The scene with a frame of the caller's in the write channel. */
  function Queued(sc: Scene, pc: CallPc, f: InFrame): Sys {
    Sys(ClientOf(sc).(writeCh := [f], sent := sc.conv + [f]), [sc.call.(pc := pc)], [], ServerOf(sc), [])
  }

  /** The scene with a frame of the caller's on its way to the server. */
  function OnTheWay(sc: Scene, pc: CallPc, f: InFrame): Sys {
    Sys(ClientOf(sc).(sent := sc.conv + [f], wire := sc.conv + [f]), [sc.call.(pc := pc)], [f], ServerOf(sc), [])
  }

  /** The scene with a frame of the caller's read by the server. */
  function Read(sc: Scene, pc: CallPc, f: InFrame, reader: S.Reader, run: Run): Sys {
    Sys(ClientOf(sc).(sent := sc.conv + [f], wire := sc.conv + [f]), [sc.call.(pc := pc)], [],
        ServerOf(sc).(reader := reader, input := sc.conv + [f], runs := [run]), [])
  }

  lemma Says(net: Net, sc: Scene, a: CallAct)
    requires Sends(a) && CallEnabled(StateOf(sc), 0, a)
    ensures Leads(net, StateOf(sc),
                  OnTheWay(sc, AfterCall(net, StateOf(sc), 0, a), ClientLabel(StateOf(sc), 0, a).outgoing))
  {
    var s, pc, f := StateOf(sc), AfterCall(net, StateOf(sc), 0, a), ClientLabel(StateOf(sc), 0, a).outgoing;
    CallEffect(s, 0, a);
    assert CallNext(net, s, 0, a) == Queued(sc, pc, f);
    Via(net, s, ByCall(0, a), Queued(sc, pc, f));
    Written(net, sc, pc, f);
    LeadsOn(net, s, Queued(sc, pc, f), OnTheWay(sc, pc, f));
  }

  lemma Written(net: Net, sc: Scene, pc: CallPc, f: InFrame)
    ensures Leads(net, Queued(sc, pc, f), OnTheWay(sc, pc, f))
  {
    var s := Queued(sc, pc, f);
    assert C.Enabled(s.client, C.WriteOk);
    assert C.Next(s.client, C.WriteOk) == OnTheWay(sc, pc, f).client;
    Via(net, s, ClientWrites, OnTheWay(sc, pc, f));
  }

  /** A message reaches the session's channel. */
  lemma Arrives(net: Net, sc: Scene, pc: CallPc, p: Payload)
    requires !sc.run.entry.closed && !sc.run.inbox.closed
    ensures Leads(net, OnTheWay(sc, pc, Message(ID, p)),
                  StateOf(sc.(call := sc.call.(pc := pc), conv := sc.conv + [Message(ID, p)],
                              run := Arrive(sc.run, p))))
  {
    var f := Message(ID, p);
    var s, t := OnTheWay(sc, pc, f), Read(sc, pc, f, S.Delivering(0, p), sc.run);
    var u := StateOf(sc.(call := sc.call.(pc := pc), conv := sc.conv + [f], run := Arrive(sc.run, p)));
    assert S.Next(net.cfg, s.server, S.ByTheReader(S.ReadFrame(f))) == t.server;
    Via(net, s, ServerReads, t);
    assert S.Next(net.cfg, t.server, S.ByTheReader(S.Deliver)) == u.server;
    Via(net, t, ServerReader(S.Deliver), u);
    LeadsOn(net, s, t, u);
  }

  /** A close frame closes it. */
  lemma Closes(net: Net, sc: Scene, pc: CallPc)
    ensures Leads(net, OnTheWay(sc, pc, CloseSend(ID)),
                  StateOf(sc.(call := sc.call.(pc := pc), conv := sc.conv + [CloseSend(ID)],
                              run := CloseChannel(MarkClosed(sc.run, |sc.conv|)))))
  {
    var f := CloseSend(ID);
    var r := MarkClosed(sc.run, |sc.conv|);
    var s, t := OnTheWay(sc, pc, f), Read(sc, pc, f, S.ClosingChannel(0), r);
    var u := StateOf(sc.(call := sc.call.(pc := pc), conv := sc.conv + [f], run := CloseChannel(r)));
    assert S.Next(net.cfg, s.server, S.ByTheReader(S.ReadFrame(f))) == t.server;
    Via(net, s, ServerReads, t);
    assert S.Next(net.cfg, t.server, S.ByTheReader(S.CloseChan)) == u.server;
    Via(net, t, ServerReader(S.CloseChan), u);
    LeadsOn(net, s, t, u);
  }

  // ---- the handler acts ----------------------------------------------------------------------------------------

  /** The handler does something that writes no frame. */
  lemma Acts(net: Net, sc: Scene, a: Act)
    requires CanAct(sc.run, a) && (a.TakeMessage? || a.SeeEof? || a.UserSend? || a.UserSendFailed? || a.UserReturn?)
    ensures Leads(net, StateOf(sc), StateOf(sc.(run := Perform(net.cfg, sc.run, a, |sc.conv|))))
  {
    var s, t := StateOf(sc), StateOf(sc.(run := Perform(net.cfg, sc.run, a, |sc.conv|)));
    assert S.Next(net.cfg, s.server, S.ByHandler(0, a)) == t.server;
    Via(net, s, ServerHandler(0, a), t);
  }

  /** The scene with a frame of the handler's in the server's write channel. */
  function Issued(sc: Scene, f: OutFrame): Sys {
    var tags := sc.tags + [S.Tagged(S.ByRun(0), f)];
    StateOf(sc).(server := ServerOf(sc).(out := S.Outbox([S.Tagged(S.ByRun(0), f)], false, tags, sc.tags, sc.taken)))
  }

  /** The scene with a frame of the handler's on its way to the client. */
  function Returning(sc: Scene, f: OutFrame): Sys {
    var tags := sc.tags + [S.Tagged(S.ByRun(0), f)];
    StateOf(sc).(server := ServerOf(sc).(out := S.Outbox([], false, tags, tags, sc.taken + [f])), down := [f])
  }

  /** The scene with a frame of the handler's read by the client, and in the channel of the call once it is routed. */
  function Incoming(sc: Scene, f: OutFrame, routed: bool): Sys {
    var c := ClientOf(sc);
    Returning(sc, f).(
      down := [],
      client := c.(read := sc.taken + [f], reader := if routed then C.Reading else C.Routing(0, f),
                   chans := [c.chans[0].(buf := if routed then [f] else [])]))
  }

  /** A frame that the handler writes reaches the call's channel. */
  lemma Travels(net: Net, sc: Scene, f: OutFrame)
    requires f.id == ID
    ensures Leads(net, Issued(sc, f), Incoming(sc, f, true))
  {
    var s, t, u := Issued(sc, f), Returning(sc, f), Incoming(sc, f, true);
    assert S.Next(net.cfg, s.server, S.ByTheWriter(S.WriteOk)) == t.server;
    Via(net, s, ServerWrites, t);
    Arrived(net, sc, f);
    Routed(net, sc, f);
    LeadsOn(net, t, Incoming(sc, f, false), u);
    LeadsOn(net, s, t, u);
  }

  lemma Arrived(net: Net, sc: Scene, f: OutFrame)
    requires f.id == ID
    ensures Leads(net, Returning(sc, f), Incoming(sc, f, false))
  {
    var s, t := Returning(sc, f), Incoming(sc, f, false);
    assert C.Next(s.client, C.ReadFrame(f)) == t.client;
    Via(net, s, ClientReads, t);
  }

  lemma Routed(net: Net, sc: Scene, f: OutFrame)
    ensures Leads(net, Incoming(sc, f, false), Incoming(sc, f, true))
  {
    var t, u := Incoming(sc, f, false), Incoming(sc, f, true);
    var x := t.client.chans[0];
    assert [] + [f] == [f] && t.client.chans[0 := x.(buf := [f])] == u.client.chans;
    assert C.Next(t.client, C.Route) == u.client;
    Via(net, t, ClientRoutes, u);
  }

  /** The scene after the handler has written the frame at hand and the caller has taken it. */
  function AfterEmit(net: Net, sc: Scene): Scene
    requires sc.run.thread.pc.Emitting? && sc.run.thread.pc.frames != []
  {
    var f := sc.run.thread.pc.frames[0];
    var o := Ending(net, sc.call.procedure, sc.call.shape, f);
    Scene(if o.Some? then sc.call.(pc := Returned(o.value)) else sc.call, sc.conv,
          Perform(net.cfg, sc.run, IssueEnqueued, |sc.conv|),
          sc.tags + [S.Tagged(S.ByRun(0), f)], sc.taken + [f])
  }

  lemma Emits(net: Net, sc: Scene)
    requires sc.run.thread.pc.Emitting? && sc.run.thread.pc.frames != [] && sc.run.thread.pc.frames[0].id == ID
    requires sc.call.pc.Receiving? || sc.call.pc.Streaming?
    ensures Leads(net, StateOf(sc), StateOf(AfterEmit(net, sc)))
  {
    var f := sc.run.thread.pc.frames[0];
    var mid := sc.(run := Perform(net.cfg, sc.run, IssueEnqueued, |sc.conv|));
    var s, t, u, v := StateOf(sc), Issued(mid, f), Incoming(mid, f, true), StateOf(AfterEmit(net, sc));
    assert S.Next(net.cfg, s.server, S.ByHandler(0, IssueEnqueued)) == t.server;
    Via(net, s, ServerHandler(0, IssueEnqueued), t);
    Travels(net, mid, f);
    Taken(net, mid, f);
    LeadsOn(net, s, t, u);
    LeadsOn(net, s, u, v);
  }

  /** The caller takes the frame from its channel. */
  lemma Taken(net: Net, sc: Scene, f: OutFrame)
    requires sc.call.pc.Receiving? || sc.call.pc.Streaming?
    ensures var o := Ending(net, sc.call.procedure, sc.call.shape, f);
            Leads(net, Incoming(sc, f, true),
                  StateOf(sc.(call := if o.Some? then sc.call.(pc := Returned(o.value)) else sc.call,
                              tags := sc.tags + [S.Tagged(S.ByRun(0), f)], taken := sc.taken + [f])))
  {
    var o := Ending(net, sc.call.procedure, sc.call.shape, f);
    var s := Incoming(sc, f, true);
    var t := StateOf(sc.(call := if o.Some? then sc.call.(pc := Returned(o.value)) else sc.call,
                         tags := sc.tags + [S.Tagged(S.ByRun(0), f)], taken := sc.taken + [f]));
    var x := s.client.chans[0];
    assert x.buf[1..] == [];
    assert s.client.chans[0 := x.(buf := [], taken := sc.taken + [f])] == t.client.chans;
    assert C.Next(s.client, C.Take(0)) == t.client;
    assert CallNext(net, s, 0, Receive) == t;
    Via(net, s, ByCall(0, Receive), t);
  }

  // ---- opening -------------------------------------------------------------------------------------------------

  /** The client with its first session, before anything was said. */
  function Fresh(phase: C.Phase, sessions: map<Id, nat>): C.Client {
    C.Init().(chans := [C.Chan(ID, phase, [], false, [], false, 0, None)], sessions := sessions)
  }

  /** The scene when the session has just started. */
  function Start(call: Call, open: InFrame, budget: nat): Scene {
    Scene(call.(pc := if call.shape.OneShot() then SendingMessage else Streaming), [open],
          NewRun(ID, call.procedure, call.shape, budget, 0), [], [])
  }

  /** The call registered with the client. */
  function Registered(call: Call): Sys {
    Sys(Fresh(C.Registered, map[ID := 0]), [call.(pc := SendingOpen)], [], S.Init(), [])
  }

  lemma Registers(net: Net, call: Call)
    requires call.pc.Starting?
    ensures Leads(net, Init(), Registered(call))
  {
    var s, t := Sys(Fresh(C.Fresh, map[]), [call], [], S.Init(), []), Registered(call);
    assert NewCallNext(Init(), call) == s;
    Via(net, Init(), NewCall(call.shape, call.procedure, call.request), s);
    assert C.Next(s.client, C.Register(0)) == t.client;
    assert CallNext(net, s, 0, Register) == t;
    Via(net, s, ByCall(0, Register), t);
    LeadsOn(net, Init(), s, t);
  }

  /** The open frame on its way. */
  function Opening(call: Call, open: InFrame, queued: bool): Sys {
    var c := Fresh(C.Registered, map[ID := 0]);
    var after := call.(pc := if call.shape.OneShot() then SendingMessage else Streaming);
    if queued then Sys(c.(writeCh := [open], sent := [open]), [after], [], S.Init(), [])
    else Sys(c.(sent := [open], wire := [open]), [after], [open], S.Init(), [])
  }

  lemma OpenQueued(net: Net, call: Call)
    requires call.pc.Starting?
    ensures var open := Open(ID, call.procedure, call.shape.Name());
            Leads(net, Registered(call), Opening(call, open, true))
  {
    var open := Open(ID, call.procedure, call.shape.Name());
    var s, t := Registered(call), Opening(call, open, true);
    assert C.Next(s.client, C.Send(open)) == t.client;
    assert CallNext(net, s, 0, SendOpen) == t;
    Via(net, s, ByCall(0, SendOpen), t);
  }

  lemma OpenWritten(net: Net, call: Call, open: InFrame)
    ensures Leads(net, Opening(call, open, true), Opening(call, open, false))
  {
    var t, u := Opening(call, open, true), Opening(call, open, false);
    assert C.Next(t.client, C.WriteOk) == u.client;
    Via(net, t, ClientWrites, u);
  }

  /** The open frame read by the server, and its token taken. */
  function Acquired(call: Call, open: InFrame): Sys {
    var sv := S.Server(S.Acquired(ID, call.procedure, call.shape, 0), S.Table(map[], 1), [], false,
                       S.Outbox([], false, [], [], []), S.Looping, [open], false);
    Opening(call, open, false).(server := sv, up := [])
  }

  lemma TakesToken(net: Net, call: Call)
    requires call.procedure in net.cfg.handlers && net.cfg.handlers[call.procedure] == call.shape
    requires net.cfg.maxInflight > 0
    ensures var open := Open(ID, call.procedure, call.shape.Name());
            Leads(net, Opening(call, open, false), Acquired(call, open))
  {
    var open := Open(ID, call.procedure, call.shape.Name());
    var s, t := Opening(call, open, false), Acquired(call, open);
    assert S.HandleOpen(net.cfg, s.server.(input := [open]), open, 0) == t.server;
    assert S.Next(net.cfg, s.server, S.ByTheReader(S.ReadFrame(open))) == t.server;
    Via(net, s, ServerReads, t);
  }

  lemma StartsSession(net: Net, call: Call, open: InFrame, budget: nat)
    ensures Leads(net, Acquired(call, open), StateOf(Start(call, open, budget)))
  {
    var t, u := Acquired(call, open), StateOf(Start(call, open, budget));
    assert S.Next(net.cfg, t.server, S.ByTheReader(S.StartSession(budget))) == u.server;
    Via(net, t, ServerReader(S.StartSession(budget)), u);
  }

  lemma Opens(net: Net, call: Call, budget: nat)
    requires call.pc.Starting?
    requires call.procedure in net.cfg.handlers && net.cfg.handlers[call.procedure] == call.shape
    requires net.cfg.maxInflight > 0
    ensures Leads(net, Init(), StateOf(Start(call, Open(ID, call.procedure, call.shape.Name()), budget)))
  {
    var open := Open(ID, call.procedure, call.shape.Name());
    Registers(net, call);
    OpenQueued(net, call);
    LeadsOn(net, Init(), Registered(call), Opening(call, open, true));
    OpenWritten(net, call, open);
    LeadsOn(net, Init(), Opening(call, open, true), Opening(call, open, false));
    TakesToken(net, call);
    LeadsOn(net, Init(), Opening(call, open, false), Acquired(call, open));
    StartsSession(net, call, open, budget);
    LeadsOn(net, Init(), Acquired(call, open), StateOf(Start(call, open, budget)));
  }

  // ---- the conversation -----------------------------------------------------------------------------------------

  /** The call's own run is in user code, with at least `budget` actions left, and has taken and sent as stated. */
  ghost predicate Running(sc: Scene, call: Call, consumed: seq<Payload>, sends: seq<Payload>, budget: nat) {
    && sc.call.shape == call.shape && sc.call.procedure == call.procedure && sc.call.request == call.request
    && sc.run.id == ID && sc.run.procedure == call.procedure && sc.run.shape == call.shape
    && sc.run.inbox.buf == [] && sc.run.inbox.consumed == consumed
    && sc.run.inbox.closed == sc.run.entry.closed == sc.run.inbox.eof
    && var t := sc.run.thread;
       && t.pc == InUser && t.budget >= budget && t.verdict == Pending && t.sends == sends
       && t.invocations == [if call.shape.OneShot() then Some(call.request) else None]
       && sc.taken == MessageFrames(ID, sends)
  }

  /** Two transitions in a row, given as scenes. */
  lemma ThenLeads(net: Net, s: Sys, sc: Scene, sc': Scene)
    requires Leads(net, s, StateOf(sc)) && Leads(net, StateOf(sc), StateOf(sc'))
    ensures Leads(net, s, StateOf(sc'))
  {
    LeadsOn(net, s, StateOf(sc), StateOf(sc'));
  }

  /** The scene after the request has arrived. */
  function Asked(sc: Scene): Scene {
    sc.(call := sc.call.(pc := SendingClose), conv := sc.conv + [Message(ID, sc.call.request)],
        run := Arrive(sc.run, sc.call.request))
  }

  lemma Asks(net: Net, sc: Scene)
    requires sc.call.pc == SendingMessage && !sc.run.entry.closed && !sc.run.inbox.closed
    ensures Leads(net, StateOf(sc), StateOf(Asked(sc)))
  {
    Says(net, sc, SendMessage);
    Arrives(net, sc, SendingClose, sc.call.request);
    LeadsOn(net, StateOf(sc), OnTheWay(sc, SendingClose, Message(ID, sc.call.request)), StateOf(Asked(sc)));
  }

  /** The scene after the end of the request. */
  function AskedAll(sc: Scene): Scene {
    sc.(call := sc.call.(pc := Receiving), conv := sc.conv + [CloseSend(ID)],
        run := CloseChannel(MarkClosed(sc.run, |sc.conv|)))
  }

  lemma EndsAsking(net: Net, sc: Scene)
    requires sc.call.pc == SendingClose
    ensures Leads(net, StateOf(sc), StateOf(AskedAll(sc)))
  {
    Says(net, sc, SendClose);
    Closes(net, sc, Receiving);
    LeadsOn(net, StateOf(sc), OnTheWay(sc, Receiving, CloseSend(ID)), StateOf(AskedAll(sc)));
  }

  /** A unary or server-stream handler is handed its request. */
  lemma RequestReachesUser(net: Net, call: Call, budget: nat) returns (sc: Scene)
    requires call.pc.Starting? && call.shape.OneShot() && net.cfg.decode(call.procedure, call.request).None?
    ensures var start := Start(call, Open(ID, call.procedure, call.shape.Name()), budget);
            Leads(net, StateOf(start), StateOf(sc))
    ensures Running(sc, call, [call.request], [], budget) && sc.call.pc == Receiving && sc.run.inbox.closed
  {
    var start := Start(call, Open(ID, call.procedure, call.shape.Name()), budget);
    Asks(net, start);
    EndsAsking(net, Asked(start));
    ThenLeads(net, StateOf(start), Asked(start), AskedAll(Asked(start)));
    sc := RequestAdmitted(net, AskedAll(Asked(start)), call, budget);
    ThenLeads(net, StateOf(start), AskedAll(Asked(start)), sc);
  }

  lemma RequestAdmitted(net: Net, b: Scene, call: Call, budget: nat) returns (sc: Scene)
    requires call.shape.OneShot() && net.cfg.decode(call.procedure, call.request).None?
    requires b.call == call.(pc := Receiving) && b.taken == []
    requires |b.conv| > 0
    requires b.run == CloseChannel(MarkClosed(Arrive(NewRun(ID, call.procedure, call.shape, budget, 0), call.request),
                                              |b.conv| - 1))
    ensures Leads(net, StateOf(b), StateOf(sc))
    ensures Running(sc, call, [call.request], [], budget) && sc.call.pc == Receiving && sc.run.inbox.closed
  {
    Acts(net, b, TakeMessage);
    var c := b.(run := Perform(net.cfg, b.run, TakeMessage, |b.conv|));
    Acts(net, c, SeeEof);
    sc := c.(run := Perform(net.cfg, c.run, SeeEof, |c.conv|));
    ThenLeads(net, StateOf(b), c, sc);
  }

  /** A client-stream or bidi handler takes all that its caller says, message by message. */
  lemma {:induction false} Listens(net: Net, sc: Scene, call: Call, consumed: seq<Payload>, said: seq<Payload>,
                                   budget: nat)
    returns (sc': Scene)
    requires Running(sc, call, consumed, [], |said| + budget) && !call.shape.OneShot() && sc.call.pc == Streaming
    requires !sc.run.inbox.closed
    ensures Leads(net, StateOf(sc), StateOf(sc'))
    ensures Running(sc', call, consumed + said, [], budget) && sc'.call.pc == Streaming && !sc'.run.inbox.closed
    decreases |said|
  {
    if said == [] {
      sc' := sc;
      Stays(net, StateOf(sc));
      assert consumed + said == consumed;
    } else {
      var mid := HearsOne(net, sc, call, consumed, said[0], |said| - 1 + budget);
      sc' := Listens(net, mid, call, consumed + [said[0]], said[1..], budget);
      ThenLeads(net, StateOf(sc), mid, sc');
      assert consumed + [said[0]] + said[1..] == consumed + said;
    }
  }

  lemma Stays(net: Net, s: Sys)
    ensures Leads(net, s, s)
  {
    assert Steps(net, s, [], s);
    LeadsBy(net, s, [], s);
  }

  lemma HearsOne(net: Net, sc: Scene, call: Call, consumed: seq<Payload>, p: Payload, budget: nat) returns (sc': Scene)
    requires Running(sc, call, consumed, [], budget + 1) && !call.shape.OneShot() && sc.call.pc == Streaming
    requires !sc.run.inbox.closed
    ensures Leads(net, StateOf(sc), StateOf(sc'))
    ensures Running(sc', call, consumed + [p], [], budget) && sc'.call.pc == Streaming && !sc'.run.inbox.closed
  {
    var m := Message(ID, p);
    var a := sc.(call := sc.call.(pc := Streaming), conv := sc.conv + [m], run := Arrive(sc.run, p));
    Says(net, sc, StreamSend(p));
    Arrives(net, sc, Streaming, p);
    LeadsOn(net, StateOf(sc), OnTheWay(sc, Streaming, m), StateOf(a));
    Acts(net, a, TakeMessage);
    sc' := a.(run := Perform(net.cfg, a.run, TakeMessage, |a.conv|));
    ThenLeads(net, StateOf(sc), a, sc');
  }

  /** It sees the end when the caller closes. */
  lemma HearsEnd(net: Net, sc: Scene, call: Call, said: seq<Payload>, budget: nat) returns (sc': Scene)
    requires Running(sc, call, said, [], budget + 1) && !call.shape.OneShot() && sc.call.pc == Streaming
    requires !sc.run.inbox.closed
    ensures Leads(net, StateOf(sc), StateOf(sc'))
    ensures Running(sc', call, said, [], budget) && sc'.call.pc == Streaming && sc'.run.inbox.closed
  {
    var a := sc.(call := sc.call.(pc := Streaming), conv := sc.conv + [CloseSend(ID)],
                 run := CloseChannel(MarkClosed(sc.run, |sc.conv|)));
    Says(net, sc, StreamClose);
    Closes(net, sc, Streaming);
    LeadsOn(net, StateOf(sc), OnTheWay(sc, Streaming, CloseSend(ID)), StateOf(a));
    Acts(net, a, SeeEof);
    sc' := a.(run := Perform(net.cfg, a.run, SeeEof, |a.conv|));
    ThenLeads(net, StateOf(sc), a, sc');
  }

  /** A handler that sends gets each message through. */
  lemma SendsOne(net: Net, sc: Scene, call: Call, consumed: seq<Payload>, sends: seq<Payload>, d: Payload, budget: nat)
    returns (sc': Scene)
    requires Running(sc, call, consumed, sends, budget + 1) && call.shape.Sends() && sc.run.inbox.closed
    requires sc.call.pc == Receiving || sc.call.pc == Streaming
    requires net.response(call.procedure, d).None?
    ensures Leads(net, StateOf(sc), StateOf(sc'))
    ensures Running(sc', call, consumed, sends + [d], budget) && sc'.call.pc == sc.call.pc && sc'.run.inbox.closed
  {
    Acts(net, sc, UserSend(d));
    var a := sc.(run := Perform(net.cfg, sc.run, UserSend(d), |sc.conv|));
    Emits(net, a);
    sc' := AfterEmit(net, a);
    ThenLeads(net, StateOf(sc), a, sc');
    assert MessageFrames(ID, sends + [d]) == MessageFrames(ID, sends) + [MessageFrame(ID, d)];
  }

  /** A send whose message does not marshal writes nothing. */
  lemma FailsToSend(net: Net, sc: Scene, call: Call, consumed: seq<Payload>, sends: seq<Payload>, budget: nat)
    returns (sc': Scene)
    requires Running(sc, call, consumed, sends, budget + 1) && call.shape.Sends() && sc.run.inbox.closed
    ensures Leads(net, StateOf(sc), StateOf(sc'))
    ensures Running(sc', call, consumed, sends, budget) && sc'.call.pc == sc.call.pc && sc'.run.inbox.closed
  {
    Acts(net, sc, UserSendFailed);
    sc' := sc.(run := Perform(net.cfg, sc.run, UserSendFailed, |sc.conv|));
  }

  /** The messages that marshal, of those that a handler tries to send. */
  function Marshalled(tries: seq<Option<Payload>>): seq<Payload> {
    if tries == [] then []
    else (if tries[0].Some? then [tries[0].value] else []) + Marshalled(tries[1..])
  }

  lemma {:induction false} MarshalledSplit(sent: seq<Payload>, tries: seq<Option<Payload>>)
    requires tries != []
    ensures sent + Marshalled([tries[0]]) + Marshalled(tries[1..]) == sent + Marshalled(tries)
  {
    var first, rest := if tries[0].Some? then [tries[0].value] else [], Marshalled(tries[1..]);
    assert Marshalled([tries[0]]) == first by {
      assert [tries[0]][1..] == [] && first + [] == first;
    }
    assert sent + first + rest == sent + (first + rest);
  }

  lemma Tries(net: Net, sc: Scene, call: Call, consumed: seq<Payload>, sent: seq<Payload>, d: Option<Payload>,
              budget: nat)
    returns (sc': Scene)
    requires Running(sc, call, consumed, sent, budget + 1) && call.shape.Sends() && sc.run.inbox.closed
    requires sc.call.pc == Receiving || sc.call.pc == Streaming
    requires d.Some? ==> net.response(call.procedure, d.value).None?
    ensures Leads(net, StateOf(sc), StateOf(sc'))
    ensures Running(sc', call, consumed, sent + Marshalled([d]), budget)
    ensures sc'.call.pc == sc.call.pc && sc'.run.inbox.closed
  {
    assert [d][1..] == [];
    if d.Some? {
      sc' := SendsOne(net, sc, call, consumed, sent, d.value, budget);
      assert Marshalled([d]) == [d.value];
    } else {
      sc' := FailsToSend(net, sc, call, consumed, sent, budget);
      assert Marshalled([d]) == [] && sent + [] == sent;
    }
  }

  lemma {:induction false} Speaks(net: Net, sc: Scene, call: Call, consumed: seq<Payload>, sent: seq<Payload>,
                                  tries: seq<Option<Payload>>, budget: nat)
    returns (sc': Scene)
    requires Running(sc, call, consumed, sent, |tries| + budget) && sc.run.inbox.closed
    requires tries != [] ==> call.shape.Sends()
    requires sc.call.pc == Receiving || sc.call.pc == Streaming
    requires forall d <- tries :: d.Some? ==> net.response(call.procedure, d.value).None?
    ensures Leads(net, StateOf(sc), StateOf(sc'))
    ensures Running(sc', call, consumed, sent + Marshalled(tries), budget)
    ensures sc'.call.pc == sc.call.pc && sc'.run.inbox.closed
    decreases |tries|
  {
    if tries == [] {
      sc' := sc;
      Stays(net, StateOf(sc));
      assert sent + [] == sent;
    } else {
      var rest, sent' := tries[1..], sent + Marshalled([tries[0]]);
      var mid := Tries(net, sc, call, consumed, sent, tries[0], |rest| + budget);
      sc' := Speaks(net, mid, call, consumed, sent', rest, budget);
      assert Leads(net, StateOf(sc), StateOf(sc')) by {
        ThenLeads(net, StateOf(sc), mid, sc');
      }
      MarshalledSplit(sent, tries);
    }
  }

  /** It returns, and the caller gets the result. */
  lemma Returns(net: Net, sc: Scene, call: Call, consumed: seq<Payload>, sends: seq<Payload>, res: UserResult)
    returns (sc': Scene)
    requires Running(sc, call, consumed, sends, 0) && sc.run.inbox.closed && ResultFits(call.shape, res)
    requires sc.call.pc == Receiving || sc.call.pc == Streaming
    ensures Leads(net, StateOf(sc), StateOf(sc')) && Concluded(net, sc', call, consumed, sends, res)
  {
    Acts(net, sc, UserReturn(res));
    var a := sc.(run := Perform(net.cfg, sc.run, UserReturn(res), |sc.conv|));
    VerdictOutcome(net, call.procedure, call.shape, ID, Answered(res));
    Emits(net, a);
    sc' := AfterEmit(net, a);
    ThenLeads(net, StateOf(sc), a, sc');
  }

  /** The call has returned with what its handler returned; the handler was invoked once, took all that the caller said
      and the end, and sent what it sent; and the caller has taken that and the first frame of the result. */
  ghost predicate Concluded(net: Net, sc: Scene, call: Call, consumed: seq<Payload>, sends: seq<Payload>,
                            res: UserResult)
  {
    && sc.call == call.(pc := Returned(RunResult(net, call.procedure, Answered(res))))
    && sc.run.procedure == call.procedure && sc.run.shape == call.shape
    && sc.run.inbox.consumed == consumed && sc.run.inbox.eof
    && var t := sc.run.thread;
       && t.invocations == [if call.shape.OneShot() then Some(call.request) else None]
       && t.sends == sends && t.verdict == Answered(res)
       && MessageFrames(ID, sends) <= sc.taken && |sc.taken| == |sends| + 1
  }

  /** All that the caller says. */
  function SaidBy(call: Call, said: seq<Payload>): seq<Payload> {
    if call.shape.OneShot() then [call.request] else said
  }

  lemma Heard(net: Net, call: Call, said: seq<Payload>, budget: nat, start: Scene) returns (sc: Scene)
    requires call.pc.Starting? && (call.shape.OneShot() ==> net.cfg.decode(call.procedure, call.request).None?)
    requires start == Start(call, Open(ID, call.procedure, call.shape.Name()), |said| + 1 + budget)
    ensures Leads(net, StateOf(start), StateOf(sc))
    ensures Running(sc, call, SaidBy(call, said), [], budget) && sc.run.inbox.closed
    ensures sc.call.pc == Receiving || sc.call.pc == Streaming
  {
    var n := |said| + 1 + budget;
    if call.shape.OneShot() {
      sc := RequestReachesUser(net, call, n);
    } else {
      var mid := Listens(net, start, call, [], said, budget + 1);
      assert [] + said == said;
      sc := HearsEnd(net, mid, call, said, budget);
      ThenLeads(net, StateOf(start), mid, sc);
    }
  }

  lemma Begins(net: Net, call: Call, said: seq<Payload>, budget: nat) returns (sc: Scene)
    requires call.procedure in net.cfg.handlers && net.cfg.handlers[call.procedure] == call.shape
    requires net.cfg.maxInflight > 0 && call.pc.Starting?
    requires call.shape.OneShot() ==> net.cfg.decode(call.procedure, call.request).None?
    ensures Leads(net, Init(), StateOf(sc))
    ensures Running(sc, call, SaidBy(call, said), [], budget) && sc.run.inbox.closed
    ensures sc.call.pc == Receiving || sc.call.pc == Streaming
  {
    var start := Start(call, Open(ID, call.procedure, call.shape.Name()), |said| + 1 + budget);
    sc := Heard(net, call, said, budget, start);
    assert Leads(net, Init(), StateOf(sc)) by {
      Opens(net, call, |said| + 1 + budget);
      ThenLeads(net, Init(), start, sc);
    }
  }

  lemma Concludes(net: Net, a: Scene, call: Call, consumed: seq<Payload>, tries: seq<Option<Payload>>,
                  res: UserResult)
    returns (sc: Scene)
    requires Running(a, call, consumed, [], |tries|) && a.run.inbox.closed
    requires a.call.pc == Receiving || a.call.pc == Streaming
    requires tries != [] ==> call.shape.Sends()
    requires forall d <- tries :: d.Some? ==> net.response(call.procedure, d.value).None?
    requires ResultFits(call.shape, res)
    ensures Leads(net, StateOf(a), StateOf(sc)) && Concluded(net, sc, call, consumed, Marshalled(tries), res)
  {
    var b := Speaks(net, a, call, consumed, [], tries, 0);
    assert [] + Marshalled(tries) == Marshalled(tries);
    sc := Returns(net, b, call, consumed, Marshalled(tries), res);
    ThenLeads(net, StateOf(a), b, sc);
  }

  /** Everything a handler may do can happen: for a registered procedure of any shape, any request that decodes, any
      messages said by the caller of a client-stream or bidi call, any messages its handler may send, marshallable or
      not, and any result that fits the shape, there is a run of the composed system in which the handler gets exactly
      that, and the caller too. */
  lemma EveryCallCanHappen(net: Net, shape: Shape, procedure: string, request: Payload, said: seq<Payload>,
                           tries: seq<Option<Payload>>, res: UserResult)
    requires procedure in net.cfg.handlers && net.cfg.handlers[procedure] == shape && net.cfg.maxInflight > 0
    requires shape.Unary? || shape.ServerStream? ==> net.cfg.decode(procedure, request).None?
    requires tries != [] ==> shape.ServerStream? || shape.Bidi?
    requires forall d <- tries :: d.Some? ==> net.response(procedure, d.value).None?
    requires res.Failed? || (res.Finished? <==> shape.ServerStream? || shape.Bidi?)
    ensures exists sc :: Reachable(net, StateOf(sc))
              && Concluded(net, sc, Call(shape, procedure, request, Starting),
                           if shape.Unary? || shape.ServerStream? then [request] else said, Marshalled(tries), res)
  {
    var call := Call(shape, procedure, request, Starting);
    var a := Begins(net, call, said, |tries|);
    var sc := Concludes(net, a, call, SaidBy(call, said), tries, res);
    ThenLeads(net, Init(), a, sc);
    var ls := StepsOf(net, Init(), StateOf(sc));
    assert Reachable(net, StateOf(sc));
  }
}
