/** Client, two FIFO links and server composed: one `Conn` whose calls (`transport/ws/call.go`) run concurrently
    against a server that has no other peer, without cancel frames or disconnects. Calls of all four shapes take part;
    the theorems are about what their handlers get from them, what they get back, and what becomes of one that could
    not marshal its request. */
module WsEndToEnd {
  import opened Options
  import opened WsFrames
  import opened WsSession
  import opened WsDialogue
  import S = WsServer
  import Safety = WsServerSafety
  import Theorems = WsServerTheorems
  import C = WsClient

  // ---- calls --------------------------------------------------------------------------------

  /** The server's configuration, and the error of `unmarshalResponse`, if any, for a procedure's response. */
  datatype Net = Net(cfg: Config, response: (string, Payload) -> Option<GoError>)

  /** What `receiveResponse` returns. */
  datatype Outcome = Data(payload: Payload) | Eof | Error(err: GoError)

  /** One turn of the loop in `receiveResponse`: `None` means that the frame is skipped. */
  function Interpret(net: Net, procedure: string, f: OutFrame): Option<Outcome> {
    if f.error.Some? then Some(Error(ToStatusError(f.error.value)))
    else if f.kind.CloseType? then Some(Eof)
    else if !f.kind.MessageType? then None
    else if net.response(procedure, f.payload).Some? then Some(Error(net.response(procedure, f.payload).value))
    else Some(Data(f.payload))
  }

  /** The outcome, if it ends the call: the first one for a single response, the first end or error for a stream of
      them. */
  function Ending(net: Net, procedure: string, shape: Shape, f: OutFrame): Option<Outcome> {
    var o := Interpret(net, procedure, f);
    if o.Some? && o.value.Data? && shape.Sends() then None else o
  }

  datatype CallPc =
    | Starting                 // newSession: the id is drawn
    | SendingOpen              // the session is registered
    | SendingMessage
    | SendingClose
    | Streaming                // a client-stream or bidi stream in the caller's hands
    | Receiving                // receiveResponse
    | Returned(res: Outcome)   // before the deferred removeSession
    | Removed(res: Outcome)
    | Unsent                   // the request did not marshal, after the open frame was sent; before removeSession
    | Abandoned                // and after it

  /** Call `k` owns the client's session `k`. */
  datatype Call = Call(shape: Shape, procedure: string, request: Payload, pc: CallPc)

  datatype CallAct =
    | Register | SendOpen | SendMessage | SendClose
    | StreamSend(p: Payload) | StreamClose
    | Receive | Remove

  datatype Sys = Sys(client: C.Client, calls: seq<Call>, up: seq<InFrame>, server: S.Server, down: seq<OutFrame>)

  function Init(): Sys { Sys(C.Init(), [], [], S.Init(), []) }

  datatype Label =
    | NewCall(shape: Shape, procedure: string, request: Payload)
    | ByCall(k: nat, act: CallAct)
    | MarshalFails(k: nat)     // sendRequest returns the error of marshalProto
    | ClientReads
    | ClientRoutes
    | ClientWrites
    | ServerReads
    | ServerReader(step: S.ReaderAct)
    | ServerHandler(sid: nat, move: Act)
    | ServerWrites

  /** The reader's steps within `readLoop`, but for reading the next frame. */
  predicate WithinReadLoop(step: S.ReaderAct) {
    step.StartSession? || step.GiveBackToken? || step.Deliver? || step.CloseChan? || step.CancelSession?
      || step.ReplyEnqueued?
  }

  // ---- steps ------------------------------------------------------------------------------------

  /** The client operation a call's action performs. */
  function ClientLabel(s: Sys, k: nat, a: CallAct): C.Label
    requires k < |s.calls| && k < |s.client.chans|
  {
    var call := s.calls[k];
    var id := s.client.chans[k].id;
    match a
    case Register => C.Register(k)
    case SendOpen => C.Send(Open(id, call.procedure, call.shape.Name()))
    case SendMessage => C.Send(Message(id, call.request))
    case SendClose => C.Send(CloseSend(id))
    case StreamSend(p) => C.Send(Message(id, p))
    case StreamClose => C.Send(CloseSend(id))
    case Receive => C.Take(k)
    case Remove => C.Remove(k)
  }

  predicate CallEnabled(s: Sys, k: nat, a: CallAct) {
    && k < |s.calls| && k < |s.client.chans|
    && C.Enabled(s.client, ClientLabel(s, k, a))
    && var pc := s.calls[k].pc;
       match a
       case Register => pc.Starting?
       case SendOpen => pc.SendingOpen?
       case SendMessage => pc.SendingMessage?
       case SendClose => pc.SendingClose?
       case StreamSend(_) => pc.Streaming?
       case StreamClose => pc.Streaming?
       case Receive => pc.Receiving? || pc.Streaming?
       case Remove => pc.Returned? || pc.Unsent?
  }

  function AfterCall(net: Net, s: Sys, k: nat, a: CallAct): CallPc
    requires CallEnabled(s, k, a)
  {
    var call := s.calls[k];
    match a
    case Register => SendingOpen
    case SendOpen => if call.shape.OneShot() then SendingMessage else Streaming
    case SendMessage => SendingClose
    case SendClose => Receiving
    case StreamSend(_) => Streaming
    case StreamClose => Streaming
    case Receive =>
      var o := Ending(net, call.procedure, call.shape, s.client.chans[k].buf[0]);
      if o.Some? then Returned(o.value) else call.pc
    case Remove => if call.pc.Unsent? then Abandoned else Removed(call.pc.res)
  }

  predicate Enabled(s: Sys, l: Label) {
    match l
    case NewCall(_, _, _) => C.Enabled(s.client, C.Allocate)
    case ByCall(k, a) => CallEnabled(s, k, a)
    case MarshalFails(k) => k < |s.calls| && s.calls[k].pc.SendingMessage?
    case ClientReads => s.down != [] && C.Enabled(s.client, C.ReadFrame(s.down[0]))
    case ClientRoutes => C.Enabled(s.client, C.Route)
    case ClientWrites => C.Enabled(s.client, C.WriteOk)
    case ServerReads => s.up != [] && S.Enabled(s.server, S.ByTheReader(S.ReadFrame(s.up[0])))
    case ServerReader(step) => WithinReadLoop(step) && S.Enabled(s.server, S.ByTheReader(step))
    case ServerHandler(sid, a) => S.Enabled(s.server, S.ByHandler(sid, a))
    case ServerWrites => S.Enabled(s.server, S.ByTheWriter(S.WriteOk))
  }

  function CallNext(net: Net, s: Sys, k: nat, a: CallAct): Sys
    requires CallEnabled(s, k, a)
  {
    s.(client := C.Next(s.client, ClientLabel(s, k, a)),
       calls := s.calls[k := s.calls[k].(pc := AfterCall(net, s, k, a))])
  }

  function NewCallNext(s: Sys, call: Call): Sys
    requires C.Enabled(s.client, C.Allocate)
  {
    s.(client := C.Next(s.client, C.Allocate), calls := s.calls + [call])
  }

  function UnsentNext(s: Sys, k: nat): Sys
    requires k < |s.calls|
  {
    s.(calls := s.calls[k := s.calls[k].(pc := Unsent)])
  }

  function Next(net: Net, s: Sys, l: Label): Sys
    requires Enabled(s, l)
  {
    match l
    case NewCall(shape, procedure, request) => NewCallNext(s, Call(shape, procedure, request, Starting))
    case ByCall(k, a) => CallNext(net, s, k, a)
    case MarshalFails(k) => UnsentNext(s, k)
    case ClientReads => s.(client := C.Next(s.client, C.ReadFrame(s.down[0])), down := s.down[1..])
    case ClientRoutes => s.(client := C.Next(s.client, C.Route))
    case ClientWrites => s.(client := C.Next(s.client, C.WriteOk), up := s.up + [s.client.writeCh[0]])
    case ServerReads => s.(server := S.Next(net.cfg, s.server, S.ByTheReader(S.ReadFrame(s.up[0]))), up := s.up[1..])
    case ServerReader(step) => s.(server := S.Next(net.cfg, s.server, S.ByTheReader(step)))
    case ServerHandler(sid, a) => s.(server := S.Next(net.cfg, s.server, S.ByHandler(sid, a)))
    case ServerWrites =>
      s.(server := S.Next(net.cfg, s.server, S.ByTheWriter(S.WriteOk)), down := s.down + [s.server.out.queue[0].frame])
  }

  ghost predicate Steps(net: Net, s0: Sys, ls: seq<Label>, s: Sys)
    decreases |ls|
  {
    if ls == [] then s == s0
    else Enabled(s0, ls[0]) && Steps(net, Next(net, s0, ls[0]), ls[1..], s)
  }

  ghost predicate Reachable(net: Net, s: Sys) {
    exists ls :: Steps(net, Init(), ls, s)
  }

  // ---- invariant ------------------------------------------------------------------------------

  /** The connection is up: no goroutine of either side has stopped, and no context has ended. */
  ghost predicate UpInv(net: Net, s: Sys) {
    && Safety.Inv(net.cfg, s.server) && s.server.reader.Active() && !s.server.ctxDone && s.server.writer.Looping?
    && !(s.server.reader.Replying? && s.server.reader.reply.DuplicateSession?)
    && C.Inv(s.client) && !s.client.reader.Stopped? && s.client.teardown.NotYet?
  }

  /** The links lose, reorder and invent nothing. */
  ghost predicate LinkInv(s: Sys) {
    && s.client.wire == s.server.input + s.up
    && s.server.out.wire == s.client.read + s.down
  }

  /** What call `k` has sent so far. */
  ghost predicate Sent(call: Call, id: Id, conv: seq<InFrame>) {
    var open := Open(id, call.procedure, call.shape.Name());
    if !call.shape.OneShot() && !call.pc.Starting? && !call.pc.SendingOpen?
    then conv != [] && conv[0] == open && OpenedOnce(conv)
         && (call.pc.Streaming? || call.pc.Returned? || call.pc.Removed?)
    else match call.pc
    case Starting => conv == []
    case SendingOpen => conv == []
    case SendingMessage => conv == [open]
    case SendingClose => conv == [open, Message(id, call.request)]
    case Streaming => false
    case Unsent => conv == [open]
    case Abandoned => conv == [open]
    case _ => conv == RequestFrames(id, call.procedure, call.shape, call.request)
  }

  ghost predicate HasSent(calls: seq<Call>, c: C.Client, k: nat)
    requires k < |calls| && k < |c.chans|
  {
    Sent(calls[k], c.chans[k].id, ForId(c.sent, c.chans[k].id))
  }

  ghost predicate Owned(c: C.Client, f: InFrame) {
    !f.Junk? && exists k :: 0 <= k < |c.chans| && c.chans[k].id == f.id
  }

  /** Everything that was sent, some call has sent. */
  ghost predicate CallsInv(s: Sys) {
    && |s.calls| == |s.client.chans|
    && (forall k :: 0 <= k < |s.calls| ==> HasSent(s.calls, s.client, k))
    && (forall f <- s.client.sent :: Owned(s.client, f))
  }

  /** The phase of a call's session; a call that has returned did so on the first frame that ends it. */
  ghost predicate CallPhase(net: Net, call: Call, x: C.Chan) {
    && (call.pc.Starting? <==> x.phase.Fresh?)
    && (call.pc.Removed? || call.pc.Abandoned? <==> x.phase.Gone?)
    && (call.pc.Starting? || call.pc.SendingOpen? || call.pc.SendingMessage? || call.pc.SendingClose? ==> x.taken == [])
    && (if call.pc.Returned? || call.pc.Removed?
        then
          && x.taken != [] && Ending(net, call.procedure, call.shape, x.taken[|x.taken| - 1]) == Some(call.pc.res)
          && forall i :: 0 <= i < |x.taken| - 1 ==> Ending(net, call.procedure, call.shape, x.taken[i]).None?
        else forall f <- x.taken :: Ending(net, call.procedure, call.shape, f).None?)
  }

  ghost predicate PhaseInv(net: Net, s: Sys) {
    && |s.calls| == |s.client.chans|
    && forall k :: 0 <= k < |s.calls| ==> CallPhase(net, s.calls[k], s.client.chans[k])
  }

  /** No frame for a session is read before the session is registered. */
  ghost predicate NotEarly(s: Sys) {
    forall k :: 0 <= k < |s.client.chans| ==>
      var x := s.client.chans[k];
      x.from <= |s.client.read| && FramesFor(s.client.read[..x.from], x.id) == []
  }

  ghost predicate DialogueInv(net: Net, s: Sys) {
    forall id :: Dialogue(net.cfg, s.server, id)
  }

  ghost predicate Inv(net: Net, s: Sys) {
    UpInv(net, s) && LinkInv(s) && CallsInv(s) && PhaseInv(net, s) && NotEarly(s) && DialogueInv(net, s)
  }

  // ---- preservation: client and calls ---------------------------------------------------------

  lemma LinkSlices(s: Sys)
    requires LinkInv(s) && C.Inv(s.client) && Safety.QueueInv(s.server) && s.server.writer.Looping?
    ensures s.server.input <= s.client.sent
    ensures s.client.read <= Safety.Frames(s.server.out.sent)
  {
    var o := s.server.out;
    assert Safety.Frames(o.sent)[..|o.dequeued|] == Safety.Frames(o.dequeued);
  }

  lemma {:induction false} FramesForPrefix(fs: seq<OutFrame>, gs: seq<OutFrame>, id: Id)
    requires fs <= gs
    ensures FramesFor(fs, id) <= FramesFor(gs, id)
  {
    if |fs| < |gs| {
      FramesForPrefix(fs, gs[..|gs| - 1], id);
    } else {
      assert fs == gs;
    }
  }

  lemma {:induction false} ForIdAbsent(fs: seq<InFrame>, id: Id)
    requires forall f <- fs :: !IsFor(f, id)
    ensures ForId(fs, id) == []
  {
    if fs != [] {
      ForIdAbsent(fs[..|fs| - 1], id);
    }
  }

  /** Every id is opened at most once, and first: the hypothesis of the server's dialogue. */
  lemma AllOpenedOnce(s: Sys, id: Id)
    requires CallsInv(s)
    ensures OpenedOnce(ForId(s.client.sent, id))
  {
    if k :| 0 <= k < |s.client.chans| && s.client.chans[k].id == id {
      assert HasSent(s.calls, s.client, k);
    } else {
      forall f <- s.client.sent
        ensures !IsFor(f, id)
      {
        assert Owned(s.client, f);
      }
      ForIdAbsent(s.client.sent, id);
    }
  }

  /** Before a call has sent its open frame, nothing for its id has been read. */
  lemma NothingReadYet(net: Net, s: Sys, k: nat)
    requires Inv(net, s) && k < |s.calls| && s.calls[k].pc.Starting?
    ensures FramesFor(s.client.read, s.client.chans[k].id) == []
  {
    var id := s.client.chans[k].id;
    LinkSlices(s);
    ForIdPrefix(s.server.input, s.client.sent, id);
    assert HasSent(s.calls, s.client, k);
    assert Dialogue(net.cfg, s.server, id);
    FramesForPrefix(s.client.read, Safety.Frames(s.server.out.sent), id);
  }

  /** Starting a call draws an id that nothing was sent for. */
  lemma NewCallKeepsCalls(s: Sys, call: Call)
    requires CallsInv(s) && C.Enabled(s.client, C.Allocate) && call.pc.Starting?
             && C.UniqueInv(NewCallNext(s, call).client)
    ensures CallsInv(NewCallNext(s, call))
  {
    var s' := NewCallNext(s, call);
    var n := |s.calls|;
    var id := s'.client.chans[n].id;
    assert forall k :: 0 <= k < n ==> s'.client.chans[k] == s.client.chans[k];
    forall f <- s.client.sent
      ensures !IsFor(f, id) && Owned(s'.client, f)
    {
      assert Owned(s.client, f);
      var k :| 0 <= k < n && s.client.chans[k].id == f.id;
      assert s'.client.chans[k].id == f.id;
    }
    ForIdAbsent(s.client.sent, id);
    forall k | 0 <= k < |s'.calls|
      ensures HasSent(s'.calls, s'.client, k)
    {
      if k < n {
        assert HasSent(s.calls, s.client, k);
      }
    }
  }

  lemma NewCallKeepsRest(net: Net, s: Sys, call: Call)
    requires PhaseInv(net, s) && NotEarly(s) && LinkInv(s) && C.Enabled(s.client, C.Allocate) && call.pc.Starting?
    ensures PhaseInv(net, NewCallNext(s, call)) && NotEarly(NewCallNext(s, call)) && LinkInv(NewCallNext(s, call))
  {
    assert s.client.read[..0] == [];
  }

  lemma NewCallKeeps(net: Net, s: Sys, call: Call)
    requires Inv(net, s) && C.Enabled(s.client, C.Allocate) && call.pc.Starting? && |s.calls| < C.ID_SPACE
    ensures Inv(net, NewCallNext(s, call))
  {
    C.NextKeepsInv(s.client, C.Allocate);
    NewCallKeepsCalls(s, call);
    NewCallKeepsRest(net, s, call);
  }

  predicate Sends(a: CallAct) { a.SendOpen? || a.SendMessage? || a.SendClose? || a.StreamSend? || a.StreamClose? }

  /** What a call's action does to the client. */
  lemma CallEffect(s: Sys, k: nat, a: CallAct)
    requires CallEnabled(s, k, a) && s.client.teardown.NotYet?
    ensures var c, c' := s.client, C.Next(s.client, ClientLabel(s, k, a)); var x' := c'.chans[k];
            && |c'.chans| == |c.chans| && (forall j :: 0 <= j < |c.chans| && j != k ==> c'.chans[j] == c.chans[j])
            && x'.id == c.chans[k].id && c'.read == c.read && c'.wire == c.wire && c'.reader == c.reader
               && c'.teardown == c.teardown
            && x'.taken == c.chans[k].taken + (if a.Receive? then [c.chans[k].buf[0]] else [])
            && x'.from == (if a.Register? then |c.read| else c.chans[k].from)
            && x'.phase == (if a.Register? then C.Registered else if a.Remove? then C.Gone else c.chans[k].phase)
            && c'.sent == c.sent + (if Sends(a) then [ClientLabel(s, k, a).outgoing] else [])
  {
  }

  lemma SendExtends(call: Call, id: Id, conv: seq<InFrame>, a: CallAct, f: InFrame, pc: CallPc)
    requires Sent(call, id, conv) && Sends(a)
    requires match a
             case SendOpen =>
               call.pc.SendingOpen? && f == Open(id, call.procedure, call.shape.Name())
               && pc == (if call.shape.OneShot() then SendingMessage else Streaming)
             case SendMessage => call.pc.SendingMessage? && f == Message(id, call.request) && pc == SendingClose
             case SendClose => call.pc.SendingClose? && f == CloseSend(id) && pc == Receiving
             case StreamSend(p) => call.pc.Streaming? && f == Message(id, p) && pc == Streaming
             case _ => call.pc.Streaming? && f == CloseSend(id) && pc == Streaming
    ensures Sent(call.(pc := pc), id, conv + [f])
  {
  }

  lemma OtherSent(s: Sys, k: nat, a: CallAct, j: nat)
    requires C.UniqueInv(s.client) && s.client.teardown.NotYet? && CallEnabled(s, k, a) && j < |s.client.chans|
             && j != k
    ensures var c' := C.Next(s.client, ClientLabel(s, k, a)); var id := s.client.chans[j].id;
            |c'.chans| == |s.client.chans| && c'.chans[j].id == id && ForId(c'.sent, id) == ForId(s.client.sent, id)
  {
    CallEffect(s, k, a);
    if Sends(a) {
      ForIdSnoc(s.client.sent, ClientLabel(s, k, a).outgoing, s.client.chans[j].id);
    }
  }

  lemma OwnSent(net: Net, s: Sys, k: nat, a: CallAct)
    requires s.client.teardown.NotYet? && CallEnabled(s, k, a) && HasSent(s.calls, s.client, k)
    ensures var s' := CallNext(net, s, k, a); |s'.client.chans| == |s.client.chans| && HasSent(s'.calls, s'.client, k)
  {
    var id := s.client.chans[k].id;
    var conv := ForId(s.client.sent, id);
    CallEffect(s, k, a);
    if Sends(a) {
      var f := ClientLabel(s, k, a).outgoing;
      ForIdSnoc(s.client.sent, f, id);
      SendExtends(s.calls[k], id, conv, a, f, AfterCall(net, s, k, a));
    } else {
      assert Sent(s.calls[k].(pc := AfterCall(net, s, k, a)), id, conv);
    }
  }

  lemma CallKeepsCalls(net: Net, s: Sys, k: nat, a: CallAct)
    requires CallsInv(s) && C.UniqueInv(s.client) && s.client.teardown.NotYet? && CallEnabled(s, k, a)
    ensures CallsInv(CallNext(net, s, k, a))
  {
    var s' := CallNext(net, s, k, a);
    assert HasSent(s.calls, s.client, k);
    forall j | 0 <= j < |s.calls|
      ensures HasSent(s'.calls, s'.client, j)
    {
      assert HasSent(s.calls, s.client, j);
      if j == k {
        OwnSent(net, s, k, a);
      } else {
        OtherSent(s, k, a, j);
      }
    }
    CallEffect(s, k, a);
    forall f <- s'.client.sent
      ensures Owned(s'.client, f)
    {
      if f in s.client.sent {
        assert Owned(s.client, f);
        var j :| 0 <= j < |s.client.chans| && s.client.chans[j].id == f.id;
        assert s'.client.chans[j].id == f.id;
      } else {
        assert s'.client.chans[k].id == f.id;
      }
    }
  }

  lemma CallKeepsPhases(net: Net, s: Sys, k: nat, a: CallAct)
    requires PhaseInv(net, s) && CallEnabled(s, k, a) && HasSent(s.calls, s.client, k) && s.client.teardown.NotYet?
    ensures PhaseInv(net, CallNext(net, s, k, a))
  {
    CallEffect(s, k, a);
    assert CallPhase(net, s.calls[k], s.client.chans[k]);
    if a.Receive? {
      TakeKeepsPhase(net, s.calls[k], s.client.chans[k], C.Next(s.client, C.Take(k)).chans[k]);
    }
  }

  lemma TakeKeepsPhase(net: Net, call: Call, x: C.Chan, x': C.Chan)
    requires CallPhase(net, call, x) && (call.pc.Receiving? || call.pc.Streaming?) && x.buf != []
    requires x'.taken == x.taken + [x.buf[0]] && x'.phase == x.phase
    ensures var o := Ending(net, call.procedure, call.shape, x.buf[0]);
            CallPhase(net, call.(pc := if o.Some? then Returned(o.value) else call.pc), x')
  {
    forall i | 0 <= i < |x.taken|
      ensures Ending(net, call.procedure, call.shape, x'.taken[i]).None?
    {
      assert x'.taken[i] == x.taken[i] && x.taken[i] in x.taken;
    }
  }

  lemma CallKeepsEarly(net: Net, s: Sys, k: nat, a: CallAct)
    requires NotEarly(s) && s.client.teardown.NotYet? && CallEnabled(s, k, a) && LinkInv(s)
    requires a.Register? ==> FramesFor(s.client.read, s.client.chans[k].id) == []
    ensures NotEarly(CallNext(net, s, k, a)) && LinkInv(CallNext(net, s, k, a))
  {
    CallEffect(s, k, a);
    assert s.client.read[..|s.client.read|] == s.client.read;
  }

  lemma CallKeeps(net: Net, s: Sys, k: nat, a: CallAct)
    requires Inv(net, s) && CallEnabled(s, k, a)
    ensures Inv(net, CallNext(net, s, k, a))
  {
    assert HasSent(s.calls, s.client, k);
    C.NextKeepsInv(s.client, ClientLabel(s, k, a)) by { CallEffect(s, k, a); }
    CallEffect(s, k, a);
    if a.Register? {
      NothingReadYet(net, s, k);
    }
    CallKeepsCalls(net, s, k, a);
    CallKeepsPhases(net, s, k, a);
    CallKeepsEarly(net, s, k, a);
  }

  lemma UnsentKeeps(net: Net, s: Sys, k: nat)
    requires Inv(net, s) && k < |s.calls| && s.calls[k].pc.SendingMessage?
    ensures Inv(net, UnsentNext(s, k))
  {
    var s' := UnsentNext(s, k);
    forall j | 0 <= j < |s.calls|
      ensures HasSent(s'.calls, s'.client, j) && CallPhase(net, s'.calls[j], s'.client.chans[j])
    {
      assert HasSent(s.calls, s.client, j) && CallPhase(net, s.calls[j], s.client.chans[j]);
    }
  }

  // ---- preservation: the links ----------------------------------------------------------------

  /** Steps of the client's own goroutines leave the calls and what they have seen alone. */
  lemma CallsFrame(net: Net, s: Sys, s': Sys)
    requires CallsInv(s) && PhaseInv(net, s) && NotEarly(s)
    requires s'.calls == s.calls && s'.client.sent == s.client.sent && |s'.client.chans| == |s.client.chans|
    requires s.client.read <= s'.client.read
    requires forall k :: 0 <= k < |s.client.chans| ==>
               var x, x' := s.client.chans[k], s'.client.chans[k];
               x'.id == x.id && x'.phase == x.phase && x'.taken == x.taken && x'.from == x.from
    ensures CallsInv(s') && PhaseInv(net, s') && NotEarly(s')
  {
    forall k | 0 <= k < |s.calls|
      ensures HasSent(s'.calls, s'.client, k) && CallPhase(net, s'.calls[k], s'.client.chans[k])
      ensures s'.client.chans[k].from <= |s'.client.read|
      ensures FramesFor(s'.client.read[..s'.client.chans[k].from], s'.client.chans[k].id) == []
    {
      assert HasSent(s.calls, s.client, k) && CallPhase(net, s.calls[k], s.client.chans[k]);
      var from := s.client.chans[k].from;
      assert s'.client.read[..from] == s.client.read[..from];
    }
    forall f <- s'.client.sent
      ensures Owned(s'.client, f)
    {
      assert Owned(s.client, f);
      var j :| 0 <= j < |s.client.chans| && s.client.chans[j].id == f.id;
      assert s'.client.chans[j].id == f.id;
    }
  }

  lemma ClientGoroutines(c: C.Client, l: C.Label)
    requires C.Enabled(c, l) && (l.ReadFrame? || l.Route? || l.WriteOk?) && !c.crashed && !c.reader.Stopped?
             && (l.Route? ==> !c.chans[c.reader.k].closed)
    ensures var c' := C.Next(c, l);
            && c'.sent == c.sent && |c'.chans| == |c.chans| && c'.teardown == c.teardown && !c'.reader.Stopped?
            && c'.read == c.read + (if l.ReadFrame? then [l.frame] else [])
            && c'.wire == c.wire + (if l.WriteOk? then [c.writeCh[0]] else [])
            && forall k :: 0 <= k < |c.chans| ==>
                 var x, x' := c.chans[k], c'.chans[k];
                 x'.id == x.id && x'.phase == x.phase && x'.taken == x.taken && x'.from == x.from
  {
  }

  predicate IsClientStep(l: Label) { l.ClientReads? || l.ClientRoutes? || l.ClientWrites? }

  function ClientStep(s: Sys, l: Label): C.Label
    requires IsClientStep(l) && (l.ClientReads? ==> s.down != [])
  {
    match l
    case ClientReads => C.ReadFrame(s.down[0])
    case ClientRoutes => C.Route
    case ClientWrites => C.WriteOk
  }

  predicate ClientEnabled(s: Sys, l: Label) {
    IsClientStep(l) && (l.ClientReads? ==> s.down != []) && C.Enabled(s.client, ClientStep(s, l))
  }

  function ClientNext(s: Sys, l: Label): Sys
    requires ClientEnabled(s, l)
  {
    s.(client := C.Next(s.client, ClientStep(s, l)),
       up := if l.ClientWrites? then s.up + [s.client.writeCh[0]] else s.up,
       down := if l.ClientReads? then s.down[1..] else s.down)
  }

  lemma ClientNextIsNext(net: Net, s: Sys, l: Label)
    requires Enabled(s, l) && IsClientStep(l)
    ensures ClientEnabled(s, l) && Next(net, s, l) == ClientNext(s, l)
  {
  }

  lemma ClientKeeps(net: Net, s: Sys, l: Label)
    requires Inv(net, s) && ClientEnabled(s, l)
    ensures Inv(net, ClientNext(s, l))
  {
    var cl := ClientStep(s, l);
    OpenTarget(s.client, cl);
    ClientGoroutines(s.client, cl);
    C.NextKeepsInv(s.client, cl);
    CallsFrame(net, s, ClientNext(s, l));
    ClientKeepsLinks(s, l);
  }

  /** While the connection is up, the channel a frame is routed to is open. */
  lemma OpenTarget(c: C.Client, l: C.Label)
    requires C.Inv(c) && c.teardown.NotYet? && C.Enabled(c, l)
    ensures !c.crashed && (l.Route? ==> !c.chans[c.reader.k].closed)
  {
    if l.Route? {
      assert c.chans[c.reader.k] in c.chans;
    }
  }

  lemma ClientKeepsLinks(s: Sys, l: Label)
    requires LinkInv(s) && ClientEnabled(s, l) && !s.client.reader.Stopped?
             && (l.ClientRoutes? ==> !s.client.chans[s.client.reader.k].closed)
    ensures LinkInv(ClientNext(s, l))
  {
    ClientGoroutines(s.client, ClientStep(s, l));
    if l.ClientReads? {
      assert s.client.read + s.down == (s.client.read + [s.down[0]]) + s.down[1..];
    }
  }

  // ---- preservation: the server ---------------------------------------------------------------

  predicate IsServerStep(l: Label) { l.ServerReads? || l.ServerReader? || l.ServerHandler? || l.ServerWrites? }

  function ServerStep(s: Sys, l: Label): S.Label
    requires IsServerStep(l) && (l.ServerReads? ==> s.up != [])
  {
    match l
    case ServerReads => S.ByTheReader(S.ReadFrame(s.up[0]))
    case ServerReader(step) => S.ByTheReader(step)
    case ServerHandler(sid, a) => S.ByHandler(sid, a)
    case ServerWrites => S.ByTheWriter(S.WriteOk)
  }

  predicate ServerEnabled(s: Sys, l: Label) {
    && IsServerStep(l) && (l.ServerReads? ==> s.up != []) && (l.ServerReader? ==> WithinReadLoop(l.step))
    && S.Enabled(s.server, ServerStep(s, l))
  }

  lemma ServerReaderStays(cfg: Config, sv: S.Server, step: S.ReaderAct)
    requires Safety.DrainInv(sv) && Safety.ChannelInv(sv) && S.KnownSids(sv) && S.ReaderEnabled(sv, step)
             && sv.reader.Active()
    requires (step.ReadFrame? || WithinReadLoop(step)) && !sv.reader.Duplicate?
    requires !(sv.reader.Replying? && sv.reader.reply.DuplicateSession?)
    ensures var sv' := S.ReaderNext(cfg, sv, step);
            && sv'.reader.Active() && sv'.ctxDone == sv.ctxDone && sv'.writer == sv.writer
               && sv'.out.wire == sv.out.wire
            && sv'.input == (if step.ReadFrame? then sv.input + [step.frame] else sv.input)
            && !(sv'.reader.Replying? && sv'.reader.reply.DuplicateSession?)
  {
  }

  lemma ServerGoroutines(cfg: Config, sv: S.Server, l: S.Label)
    requires Safety.DrainInv(sv) && Safety.ChannelInv(sv) && S.Enabled(sv, l) && sv.reader.Active()
             && !sv.reader.Duplicate?
    requires l.ByHandler? || (l.ByTheWriter? && l.move.WriteOk?)
             || (l.ByTheReader? && (l.step.ReadFrame? || WithinReadLoop(l.step)))
    requires !(sv.reader.Replying? && sv.reader.reply.DuplicateSession?)
    ensures var sv' := S.Next(cfg, sv, l);
            && sv'.reader.Active() && sv'.ctxDone == sv.ctxDone && sv'.writer == sv.writer
            && !(sv'.reader.Replying? && sv'.reader.reply.DuplicateSession?)
            && sv'.input == sv.input + (if l.ByTheReader? && l.step.ReadFrame? then [l.step.frame] else [])
            && sv'.out.wire == sv.out.wire + (if l.ByTheWriter? then [sv.out.queue[0].frame] else [])
  {
    if l.ByTheReader? {
      ServerReaderStays(cfg, sv, l.step);
    } else if l.ByHandler? {
      Safety.HandlerFrame(cfg, sv, l.sid, l.act);
    }
  }

  lemma ServerKeepsDialogues(net: Net, s: Sys, l: S.Label)
    requires Inv(net, s) && S.Enabled(s.server, l) && !l.ParentCancelled?
    requires S.Next(net.cfg, s.server, l).input <= s.client.sent
    ensures forall id :: Dialogue(net.cfg, S.Next(net.cfg, s.server, l), id)
  {
    forall id
      ensures Dialogue(net.cfg, S.Next(net.cfg, s.server, l), id)
    {
      AllOpenedOnce(s, id);
      ForIdPrefix(S.Next(net.cfg, s.server, l).input, s.client.sent, id);
      assert Dialogue(net.cfg, s.server, id);
      NextDialogue(net.cfg, s.server, l, id);
    }
  }

  lemma NotDuplicateOf(net: Net, s: Sys, id: Id)
    requires DialogueInv(net, s)
    ensures !(s.server.reader.Duplicate? && s.server.reader.id == id)
  {
    assert Dialogue(net.cfg, s.server, id);
  }

  /** The server never finds an id in use. */
  lemma NeverDuplicate(net: Net, s: Sys)
    requires DialogueInv(net, s)
    ensures !s.server.reader.Duplicate?
  {
    NotDuplicateOf(net, s, if s.server.reader.Duplicate? then s.server.reader.id else "");
  }

  lemma ServerKeepsUp(net: Net, s: Sys, l: S.Label)
    requires UpInv(net, s) && !s.server.reader.Duplicate? && S.Enabled(s.server, l)
    requires l.ByHandler? || (l.ByTheWriter? && l.move.WriteOk?)
             || (l.ByTheReader? && (l.step.ReadFrame? || WithinReadLoop(l.step)))
    ensures UpInv(net, s.(server := S.Next(net.cfg, s.server, l)))
  {
    Safety.NextKeepsInv(net.cfg, s.server, l);
    ServerGoroutines(net.cfg, s.server, l);
  }

  function ServerNext(net: Net, s: Sys, l: Label): Sys
    requires ServerEnabled(s, l)
  {
    s.(server := S.Next(net.cfg, s.server, ServerStep(s, l)),
       up := if l.ServerReads? then s.up[1..] else s.up,
       down := if l.ServerWrites? then s.down + [s.server.out.queue[0].frame] else s.down)
  }

  lemma LinksAfter(s: Sys, sv': S.Server, received: bool, written: seq<OutFrame>)
    requires LinkInv(s) && s.client.wire <= s.client.sent && (received ==> s.up != [])
    requires sv'.input == s.server.input + (if received then [s.up[0]] else [])
             && sv'.out.wire == s.server.out.wire + written
    ensures LinkInv(s.(server := sv', up := if received then s.up[1..] else s.up, down := s.down + written))
    ensures sv'.input <= s.client.sent
  {
    if received {
      assert s.server.input + s.up == (s.server.input + [s.up[0]]) + s.up[1..];
    }
    assert sv'.input <= s.client.wire;
  }

  lemma ServerKeepsLinks(net: Net, s: Sys, l: Label)
    requires UpInv(net, s) && LinkInv(s) && !s.server.reader.Duplicate? && ServerEnabled(s, l)
    ensures LinkInv(ServerNext(net, s, l)) && ServerNext(net, s, l).server.input <= s.client.sent
  {
    var sl := ServerStep(s, l);
    var sv' := S.Next(net.cfg, s.server, sl);
    var written := if l.ServerWrites? then [s.server.out.queue[0].frame] else [];
    assert sv'.input == s.server.input + (if l.ServerReads? then [s.up[0]] else [])
           && sv'.out.wire == s.server.out.wire + written by {
      ServerGoroutines(net.cfg, s.server, sl);
    }
    LinksAfter(s, sv', l.ServerReads?, written);
    assert s.down + [] == s.down;
  }

  lemma ServerKeeps(net: Net, s: Sys, l: Label)
    requires Inv(net, s) && ServerEnabled(s, l)
    ensures Inv(net, ServerNext(net, s, l))
  {
    NeverDuplicate(net, s);
    ServerKeepsUp(net, s, ServerStep(s, l));
    ServerKeepsLinks(net, s, l);
    ServerKeepsDialogues(net, s, ServerStep(s, l));
    CallsFrame(net, s, ServerNext(net, s, l));
  }

  lemma ServerNextIsNext(net: Net, s: Sys, l: Label)
    requires Enabled(s, l) && IsServerStep(l)
    ensures ServerEnabled(s, l) && Next(net, s, l) == ServerNext(net, s, l)
  {
  }

  // ---- the invariant --------------------------------------------------------------------------

  lemma InitDialogue(cfg: Config, id: Id)
    ensures Dialogue(cfg, S.Init(), id)
  {
  }

  lemma InitUp(net: Net)
    ensures UpInv(net, Init())
  {
    Safety.InitInv(net.cfg);
    C.InitInv();
  }

  lemma InitInv(net: Net)
    ensures Inv(net, Init())
  {
    InitUp(net);
    forall id
      ensures Dialogue(net.cfg, S.Init(), id)
    {
      InitDialogue(net.cfg, id);
    }
  }

  lemma NextKeepsInv(net: Net, s: Sys, l: Label)
    requires Inv(net, s) && Enabled(s, l) && |Next(net, s, l).calls| <= C.ID_SPACE
    ensures Inv(net, Next(net, s, l))
  {
    if l.NewCall? {
      NewCallKeeps(net, s, Call(l.shape, l.procedure, l.request, Starting));
    } else if l.ByCall? {
      CallKeeps(net, s, l.k, l.act);
    } else if l.MarshalFails? {
      UnsentKeeps(net, s, l.k);
    } else if IsClientStep(l) {
      ClientNextIsNext(net, s, l);
      ClientKeeps(net, s, l);
    } else {
      ServerNextIsNext(net, s, l);
      ServerKeeps(net, s, l);
    }
  }

  lemma CallsGrow(net: Net, s: Sys, l: Label)
    requires Enabled(s, l)
    ensures |s.calls| <= |Next(net, s, l).calls|
  {
  }

  lemma {:induction false} StepsGrow(net: Net, s0: Sys, ls: seq<Label>, s: Sys)
    requires Steps(net, s0, ls, s)
    ensures |s0.calls| <= |s.calls|
    decreases |ls|
  {
    if ls != [] {
      CallsGrow(net, s0, ls[0]);
      StepsGrow(net, Next(net, s0, ls[0]), ls[1..], s);
    }
  }

  lemma {:induction false} StepsKeepInv(net: Net, s0: Sys, ls: seq<Label>, s: Sys)
    requires Inv(net, s0) && Steps(net, s0, ls, s) && |s.calls| <= C.ID_SPACE
    ensures Inv(net, s)
    decreases |ls|
  {
    if ls != [] {
      StepsGrow(net, Next(net, s0, ls[0]), ls[1..], s);
      NextKeepsInv(net, s0, ls[0]);
      StepsKeepInv(net, Next(net, s0, ls[0]), ls[1..], s);
    }
  }

  lemma ReachableInv(net: Net, s: Sys)
    requires Reachable(net, s) && |s.calls| <= C.ID_SPACE
    ensures Inv(net, s)
  {
    var ls :| Steps(net, Init(), ls, s);
    InitInv(net);
    StepsKeepInv(net, Init(), ls, s);
  }

  // ---- theorems -------------------------------------------------------------------------------

  /** The server never raises `already_exists`: it is never in the branch that replies with it, and every id has the
      dialogue of an id that is opened once. */
  lemma NeverAlreadyExists(net: Net, s: Sys)
    requires Reachable(net, s) && |s.calls| <= C.ID_SPACE
    ensures !s.server.reader.Duplicate? && !(s.server.reader.Replying? && s.server.reader.reply.DuplicateSession?)
    ensures forall id :: Dialogue(net.cfg, s.server, id)
  {
    ReachableInv(net, s);
    NeverDuplicate(net, s);
  }

  /** Nothing is lost, duplicated or reordered on the way: the frames the server has queued for a call's session are,
      in order, those the caller has taken, those in its channel, the one being routed, those on the link, and those
      still in the queue. */
  lemma DeliveryConservation(net: Net, s: Sys, k: nat)
    requires Reachable(net, s) && |s.calls| <= C.ID_SPACE && k < |s.client.chans| && s.client.chans[k].phase.Registered?
    ensures var x := s.client.chans[k];
            FramesFor(Safety.Frames(s.server.out.sent), x.id)
            == x.taken + x.buf + C.InFlight(s.client, k) + FramesFor(s.down, x.id)
               + FramesFor(Safety.Frames(s.server.out.queue), x.id)
  {
    ReachableInv(net, s);
    ReadForCall(s, k);
    QueuedFrames(s.server.out, s.client.read, s.down, s.client.chans[k].id);
  }

  lemma QueuedFrames(o: S.Outbox, read: seq<OutFrame>, down: seq<OutFrame>, id: Id)
    requires o.sent == o.dequeued + o.queue && Safety.Frames(o.dequeued) == read + down
    ensures FramesFor(Safety.Frames(o.sent), id)
            == FramesFor(read, id) + FramesFor(down, id) + FramesFor(Safety.Frames(o.queue), id)
  {
    assert Safety.Frames(o.sent) == Safety.Frames(o.dequeued) + Safety.Frames(o.queue);
    FramesForConcat(Safety.Frames(o.dequeued), Safety.Frames(o.queue), id);
    FramesForConcat(read, down, id);
  }

  lemma {:induction false} FramesForConcat(a: seq<OutFrame>, b: seq<OutFrame>, id: Id)
    ensures FramesFor(a + b, id) == FramesFor(a, id) + FramesFor(b, id)
  {
    if b == [] {
      assert a + b == a;
    } else {
      FramesForConcat(a, b[..|b| - 1], id);
      assert (a + b)[..|a + b| - 1] == a + b[..|b| - 1];
    }
  }

  /** A registered session has been given every frame read for its id. */
  lemma ReadForCall(s: Sys, k: nat)
    requires C.RouteInv(s.client) && NotEarly(s) && k < |s.client.chans| && !s.client.chans[k].phase.Fresh?
    ensures var x := s.client.chans[k]; var end := C.WindowEnd(s.client, x);
            && end <= |s.client.read|
            && FramesFor(s.client.read[..end], x.id) == x.taken + x.buf + C.InFlight(s.client, k)
            && (x.phase.Registered? ==> s.client.read[..end] == s.client.read)
  {
    var x := s.client.chans[k];
    var end := C.WindowEnd(s.client, x);
    assert C.RoutedInv(s.client, k);
    assert s.client.read[..end] == s.client.read[..x.from] + s.client.read[x.from..end];
    FramesForConcat(s.client.read[..x.from], s.client.read[x.from..end], x.id);
  }

  /** What a caller has taken is a prefix of what the server has queued for its id. */
  lemma TakenFromServer(net: Net, s: Sys, k: nat)
    requires Inv(net, s) && k < |s.calls| && !s.client.chans[k].phase.Fresh?
    ensures s.client.chans[k].taken <= Written(net.cfg, s.server, s.client.chans[k].id)
  {
    LinkSlices(s);
    TakenOfSent(s, k);
  }

  lemma TakenOfSent(s: Sys, k: nat)
    requires C.RouteInv(s.client) && NotEarly(s) && k < |s.client.chans| && !s.client.chans[k].phase.Fresh?
    requires s.client.read <= Safety.Frames(s.server.out.sent)
    ensures s.client.chans[k].taken <= FramesFor(Safety.Frames(s.server.out.sent), s.client.chans[k].id)
  {
    var x := s.client.chans[k];
    ReadForCall(s, k);
    var end := C.WindowEnd(s.client, x);
    FramesForPrefix(s.client.read[..end], s.client.read, x.id);
    FramesForPrefix(s.client.read, Safety.Frames(s.server.out.sent), x.id);
  }

  lemma TerminalEnds(net: Net, procedure: string, shape: Shape, f: OutFrame)
    requires Terminal(f)
    ensures Ending(net, procedure, shape, f) == Some(if f.error.Some? then Error(ToStatusError(f.error.value)) else Eof)
  {
  }

  /** Whatever the shape of a call, the caller only ever takes frames of its own run, or the refusal of its own open
      frame; never a "session not found", which the server may write for the frames that follow. */
  ghost predicate OwnFrames(net: Net, s: Sys, call: Call, x: C.Chan) {
    var open := Open(x.id, call.procedure, call.shape.Name());
    || (NoRun(s.server, x.id) && |x.taken| == 1 && IsRefusal(net.cfg, open, x.taken[0]))
    || exists i: nat :: Admitted(net.cfg, s.server, x.id, open, i) && x.taken <= s.server.runs[i].thread.issued
  }

  lemma RefusalIsError(cfg: Config, open: InFrame, f: OutFrame)
    requires open.Open? && IsRefusal(cfg, open, f)
    ensures f.kind.ErrorType? && f.error.Some? && f.id == open.id
  {
  }

  lemma TakenStopsAtTerminal(net: Net, call: Call, x: C.Chan, i: nat)
    requires CallPhase(net, call, x) && i < |x.taken| && Terminal(x.taken[i])
    ensures i == |x.taken| - 1
  {
    TerminalEnds(net, call.procedure, call.shape, x.taken[i]);
    assert x.taken[i] in x.taken;
  }

  lemma TakenFromRun(net: Net, s: Sys, call: Call, x: C.Chan, i: nat)
    requires Safety.RunsInv(net.cfg, s.server) && CallPhase(net, call, x)
    requires Admitted(net.cfg, s.server, x.id, Open(x.id, call.procedure, call.shape.Name()), i)
    requires x.taken <= Written(net.cfg, s.server, x.id)
    ensures x.taken <= s.server.runs[i].thread.issued
  {
    var r := s.server.runs[i];
    if |x.taken| > |r.thread.issued| {
      CompletedOutputGrammar(net.cfg, r);
      TakenStopsAtTerminal(net, call, x, |r.thread.issued| - 1);
    }
  }

  lemma OwnDialogue(net: Net, s: Sys, call: Call, x: C.Chan)
    requires Safety.RunsInv(net.cfg, s.server) && CallPhase(net, call, x) && x.taken != []
    requires x.taken <= Written(net.cfg, s.server, x.id) && Dialogue(net.cfg, s.server, x.id)
    requires var conv := ForId(s.server.input, x.id); conv != [] ==>
             conv[0] == Open(x.id, call.procedure, call.shape.Name())
    ensures OwnFrames(net, s, call, x)
  {
    var open := Open(x.id, call.procedure, call.shape.Name());
    if Refused(net.cfg, s.server, x.id, open) {
      RefusalIsError(net.cfg, open, x.taken[0]);
      TakenStopsAtTerminal(net, call, x, 0);
    } else {
      var i: nat :| Admitted(net.cfg, s.server, x.id, open, i);
      TakenFromRun(net, s, call, x, i);
    }
  }

  lemma OpensFirst(net: Net, s: Sys, k: nat)
    requires Inv(net, s) && k < |s.calls|
    ensures var conv := ForId(s.server.input, s.client.chans[k].id);
            && conv <= ForId(s.client.sent, s.client.chans[k].id)
            && (conv != [] ==> conv[0] == Open(s.client.chans[k].id, s.calls[k].procedure, s.calls[k].shape.Name()))
  {
    LinkSlices(s);
    assert HasSent(s.calls, s.client, k);
    SentOpensFirst(s.calls[k], s.client.chans[k].id, s.server.input, s.client.sent);
  }

  lemma SentOpensFirst(call: Call, id: Id, received: seq<InFrame>, sent: seq<InFrame>)
    requires received <= sent && Sent(call, id, ForId(sent, id))
    ensures ForId(received, id) <= ForId(sent, id)
    ensures ForId(received, id) != [] ==> ForId(received, id)[0] == Open(id, call.procedure, call.shape.Name())
  {
    ForIdPrefix(received, sent, id);
  }

  lemma OwnFramesTaken(net: Net, s: Sys, k: nat)
    requires Inv(net, s) && k < |s.calls| && s.client.chans[k].taken != []
    ensures OwnFrames(net, s, s.calls[k], s.client.chans[k])
  {
    assert CallPhase(net, s.calls[k], s.client.chans[k]);
    TakenFromServer(net, s, k);
    OpensFirst(net, s, k);
    OwnDialogue(net, s, s.calls[k], s.client.chans[k]);
  }

  /** Whatever the shape of a call, its caller only takes frames of its own run, or the refusal of its own open. */
  lemma TakenOwnFrames(net: Net, s: Sys, k: nat)
    requires Reachable(net, s) && |s.calls| <= C.ID_SPACE && k < |s.calls|
    ensures |s.client.chans| == |s.calls|
    ensures s.client.chans[k].taken != [] ==> OwnFrames(net, s, s.calls[k], s.client.chans[k])
  {
    ReachableInv(net, s);
    if s.client.chans[k].taken != [] {
      OwnFramesTaken(net, s, k);
    }
  }

  // ---- what handlers get ------------------------------------------------------------------------

  /** What call `k` has sent before its first close frame. */
  function Spoken(s: Sys, id: Id): seq<Payload> { BeforeClose(ForId(s.client.sent, id)) }

  /** What a run heard of its caller: the messages reach its channel in the order in which they were sent, from the
      first one on and without gaps; if the channel is closed, the caller has closed its side, and all that it sent
      before has arrived. The channel loses a message only when 64 are buffered, and the handler sees the end only
      after the last one it kept. */
  ghost predicate Heard(s: Sys, id: Id, x: Inbox) {
    && Payloads(x.arrivals) <= Spoken(s, id)
    && (x.closed ==> CloseSend(id) in ForId(s.client.sent, id) && Payloads(x.arrivals) == Spoken(s, id))
    && Theorems.InboxConserves(x)
  }

  lemma RunHeard(net: Net, s: Sys, i: nat)
    requires Inv(net, s) && i < |s.server.runs|
    ensures Heard(s, s.server.runs[i].id, s.server.runs[i].inbox)
  {
    var id := s.server.runs[i].id;
    LinkSlices(s);
    AllOpenedOnce(s, id);
    ForIdPrefix(s.server.input, s.client.sent, id);
    ArrivalsFollowConversation(s.server, i, ForId(s.client.sent, id));
    Theorems.InboxConservation(s.server.runs[i].inbox);
  }

  /** Run `i` is the only one with the id of a call, of the call's own procedure and shape. */
  ghost predicate OwnRun(s: Sys, call: Call, id: Id, i: nat) {
    OnlyRun(s.server, id, i) && s.server.runs[i].procedure == call.procedure && s.server.runs[i].shape == call.shape
  }

  lemma RunWasAdmitted(net: Net, s: Sys, k: nat, i: nat)
    requires Inv(net, s) && k < |s.calls| && i < |s.server.runs| && s.server.runs[i].id == s.client.chans[k].id
    ensures OwnRun(s, s.calls[k], s.client.chans[k].id, i)
  {
    var id := s.client.chans[k].id;
    OpensFirst(net, s, k);
    assert Dialogue(net.cfg, s.server, id) && !NoRun(s.server, id);
    var j: nat :| Admitted(net.cfg, s.server, id, ForId(s.server.input, id)[0], j);
    ShapeNamesDistinct(s.server.runs[i].shape, s.calls[k].shape);
  }

  lemma RunHasCall(net: Net, s: Sys, i: nat)
    requires Inv(net, s) && i < |s.server.runs|
    ensures exists k :: 0 <= k < |s.calls| && OwnRun(s, s.calls[k], s.client.chans[k].id, i)
  {
    var r := s.server.runs[i];
    assert Safety.RouteRunInv(s.server, i);
    LinkSlices(s);
    assert s.server.input[r.openedAt] in s.client.sent;
    assert Owned(s.client, s.server.input[r.openedAt]);
    var k :| 0 <= k < |s.client.chans| && s.client.chans[k].id == r.id;
    RunWasAdmitted(net, s, k, i);
  }

  /** Inbound delivery, end to end, for calls of all shapes: every run belongs to one call and hears what that call
      sent. */
  lemma CallsAreHeard(net: Net, s: Sys, i: nat)
    requires Reachable(net, s) && |s.calls| <= C.ID_SPACE && i < |s.server.runs|
    ensures |s.client.chans| == |s.calls|
    ensures exists k :: 0 <= k < |s.calls| && OwnRun(s, s.calls[k], s.client.chans[k].id, i)
    ensures Heard(s, s.server.runs[i].id, s.server.runs[i].inbox)
  {
    ReachableInv(net, s);
    RunHeard(net, s, i);
    RunHasCall(net, s, i);
  }

  // ---- calls that could not marshal their request -------------------------------------------------

  /** The session of a handler that waits for a request: it holds its entry in the map, and with it its token. */
  ghost predicate Waits(s: S.Server, i: nat)
    requires i < |s.runs|
  {
    var r := s.runs[i];
    && r.thread.pc.AwaitFirst? && r.thread.invocations == [] && r.thread.issued == [] && !r.inbox.closed
       && r.inbox.arrivals == []
    && r.id in s.table.sessions && s.table.sessions[r.id] == i
  }

  lemma SilentRunWaits(cfg: Config, sv: S.Server, i: nat)
    requires i < |sv.runs| && RunInv(cfg, sv.runs[i]) && Safety.MapInv(sv.table.sessions, sv.runs)
    requires sv.runs[i].shape.OneShot() && !sv.runs[i].inbox.closed && sv.runs[i].inbox.arrivals == []
    ensures Waits(sv, i)
  {
    var r := sv.runs[i];
    assert Accepted(r.inbox.arrivals) == [];
    assert r.thread.pc.AwaitFirst?;
    assert Output(r.thread) == MessageFrames(r.id, []) + [];
  }

  lemma OnlyOpenHeard(s: Sys, id: Id, x: Inbox, open: InFrame)
    requires Heard(s, id, x) && ForId(s.client.sent, id) == [open] && open.Open?
    ensures x.arrivals == [] && !x.closed
  {
    assert BeforeClose([open]) == [];
    assert Payloads(x.arrivals) == [];
  }

  lemma UnsentConversation(s: Sys, k: nat)
    requires CallsInv(s) && k < |s.calls| && (s.calls[k].pc.Unsent? || s.calls[k].pc.Abandoned?)
    ensures s.calls[k].shape.OneShot()
    ensures var id := s.client.chans[k].id;
            ForId(s.client.sent, id) == [Open(id, s.calls[k].procedure, s.calls[k].shape.Name())]
  {
    assert HasSent(s.calls, s.client, k);
  }

  lemma UnsentRunWaits(net: Net, s: Sys, k: nat, i: nat)
    requires Inv(net, s) && k < |s.calls| && (s.calls[k].pc.Unsent? || s.calls[k].pc.Abandoned?)
    requires i < |s.server.runs| && s.server.runs[i].id == s.client.chans[k].id
    ensures Waits(s.server, i)
  {
    var r := s.server.runs[i];
    UnsentConversation(s, k);
    RunWasAdmitted(net, s, k, i);
    RunHeard(net, s, i);
    OnlyOpenHeard(s, r.id, r.inbox, ForId(s.client.sent, r.id)[0]);
    SilentRunWaits(net.cfg, s.server, i);
  }

  /** A unary or server-stream call whose request did not marshal leaves its session behind: if its open frame was
      admitted, the run never gets a message or the end of its channel, so it waits, with its token, for as long as
      the connection is up. */
  lemma UnsentCallWaits(net: Net, s: Sys, k: nat)
    requires Reachable(net, s) && |s.calls| <= C.ID_SPACE && k < |s.calls|
    requires s.calls[k].pc.Unsent? || s.calls[k].pc.Abandoned?
    ensures |s.client.chans| == |s.calls|
    ensures forall i :: 0 <= i < |s.server.runs| && s.server.runs[i].id == s.client.chans[k].id ==> Waits(s.server, i)
  {
    ReachableInv(net, s);
    forall i | 0 <= i < |s.server.runs| && s.server.runs[i].id == s.client.chans[k].id
      ensures Waits(s.server, i)
    {
      UnsentRunWaits(net, s, k, i);
    }
  }

  /** A call's request may always fail to marshal, and a call that is over can always leave; its id is then free. */
  lemma CallsCanLeave(net: Net, s: Sys, k: nat)
    requires Reachable(net, s) && |s.calls| <= C.ID_SPACE && k < |s.calls|
    ensures |s.client.chans| == |s.calls|
    ensures s.calls[k].pc.SendingMessage? ==>
              Enabled(s, MarshalFails(k)) && Next(net, s, MarshalFails(k)).calls[k].pc == Unsent
    ensures s.calls[k].pc.Returned? || s.calls[k].pc.Unsent? ==>
              && Enabled(s, ByCall(k, Remove))
              && var s' := Next(net, s, ByCall(k, Remove));
                 && s.client.chans[k].id !in s'.client.sessions
                 && s'.calls[k].pc == if s.calls[k].pc.Unsent? then Abandoned else Removed(s.calls[k].pc.res)
  {
    ReachableInv(net, s);
    assert CallPhase(net, s.calls[k], s.client.chans[k]);
  }

  // ---- what callers get -------------------------------------------------------------------------

  /** The status that a caller is shown of a verdict other than a response. */
  ghost function ShownOf(net: Net, v: Verdict): Status
    requires v.Rejected? || (v.Answered? && !v.res.Replied? && !v.res.Finished?)
  {
    if v.Rejected? then Shown(v.err, net.cfg.mapper)
    else
      match v.res
      case Failed(e) => Shown(e, net.cfg.mapper)
      case NilResponse => Status("internal", "handler returned nil response", false)
      case Unmarshalable(e) => Status("internal", Text(e), false)
  }

  /** The outcome that a client derives from what a handler returned. */
  ghost function RunResult(net: Net, procedure: string, v: Verdict): Outcome
    requires !v.Pending?
  {
    if v.Answered? && v.res.Replied? then
      var bad := net.response(procedure, v.res.data);
      if bad.Some? then Error(bad.value) else Data(v.res.data)
    else if v.Answered? && v.res.Finished? then Eof
    else Error(StatusError(ShownOf(net, v), None))
  }

  /** What a decided run was decided on: the request of a unary or server-stream call, which is handed to user code once
      if it decodes and rejected with its decoding error if not; the other shapes enter user code at once. */
  ghost predicate DecidedOn(net: Net, call: Call, t: Thread) {
    if call.shape.Unary? || call.shape.ServerStream? then
      match net.cfg.decode(call.procedure, call.request)
      case None => t.invocations == [Some(call.request)] && !t.verdict.Rejected?
      case Some(e) => t.invocations == [] && t.verdict == Rejected(e)
    else t.invocations == [None] && !t.verdict.Rejected?
  }

  /** A call that has ended, with its outcome. */
  predicate Ended(pc: CallPc) { pc.Returned? || pc.Removed? }

  /** The call's open frame was refused, and the outcome is that refusal. */
  ghost predicate CallRefused(net: Net, s: Sys, call: Call, id: Id, res: Outcome) {
    && NoRun(s.server, id)
    && var d := RefusalDetail(net.cfg, Open(id, call.procedure, call.shape.Name()));
       res == Error(StatusError(Status(d.code, d.message, d.retryable), None))
  }

  /** The caller has taken the first frames of run `i`, which is its own. */
  ghost predicate TookFrom(s: Sys, call: Call, x: C.Chan, i: nat) {
    OwnRun(s, call, x.id, i) && x.taken <= s.server.runs[i].thread.issued
  }

  lemma RefusalEnds(net: Net, s: Sys, call: Call, x: C.Chan, f: OutFrame)
    requires CallPhase(net, call, x) && Ended(call.pc) && x.taken == [f] && NoRun(s.server, x.id)
    requires IsRefusal(net.cfg, Open(x.id, call.procedure, call.shape.Name()), f)
    ensures CallRefused(net, s, call, x.id, call.pc.res)
  {
    RefusalIsError(net.cfg, Open(x.id, call.procedure, call.shape.Name()), f);
  }

  /** A call that has ended was refused, or was answered by its own run. */
  lemma CallOutcome(net: Net, s: Sys, k: nat)
    requires Inv(net, s) && k < |s.calls| && Ended(s.calls[k].pc)
    ensures CallPhase(net, s.calls[k], s.client.chans[k])
    ensures CallRefused(net, s, s.calls[k], s.client.chans[k].id, s.calls[k].pc.res)
            || exists i: nat :: TookFrom(s, s.calls[k], s.client.chans[k], i)
  {
    var call, x := s.calls[k], s.client.chans[k];
    assert CallPhase(net, call, x);
    OwnFramesTaken(net, s, k);
    OwnFramesOutcome(net, s, call, x);
  }

  lemma OwnFramesOutcome(net: Net, s: Sys, call: Call, x: C.Chan)
    requires CallPhase(net, call, x) && Ended(call.pc) && OwnFrames(net, s, call, x)
    ensures CallRefused(net, s, call, x.id, call.pc.res) || exists i: nat :: TookFrom(s, call, x, i)
  {
    var open := Open(x.id, call.procedure, call.shape.Name());
    if NoRun(s.server, x.id) && |x.taken| == 1 && IsRefusal(net.cfg, open, x.taken[0]) {
      RefusalEnds(net, s, call, x, x.taken[0]);
    } else {
      var i: nat :| Admitted(net.cfg, s.server, x.id, open, i) && x.taken <= s.server.runs[i].thread.issued;
      ShapeNamesDistinct(s.server.runs[i].shape, call.shape);
      assert TookFrom(s, call, x, i);
    }
  }

  /** What became of a unary call: either its open frame was refused and the outcome is that refusal; or exactly one
      run has its id, of its own procedure, which was invoked once, with the call's own request (or not at all, if the
      request does not decode), and the outcome is that of this run. */
  ghost predicate UnaryAnswered(net: Net, s: Sys, call: Call, id: Id, res: Outcome) {
    || CallRefused(net, s, call, id, res)
    || exists i: nat ::
         && OwnRun(s, call, id, i)
         && var t := s.server.runs[i].thread;
            DecidedOn(net, call, t) && !t.verdict.Pending? && res == RunResult(net, call.procedure, t.verdict)
  }

  /** The first frame that follows from a verdict ends the call, with the outcome derived from the verdict. */
  lemma VerdictOutcome(net: Net, procedure: string, shape: Shape, id: Id, v: Verdict)
    requires !v.Pending? && (v.Answered? ==> ResultFits(shape, v.res))
    ensures VerdictFrames(net.cfg, id, v) != []
    ensures Ending(net, procedure, shape, VerdictFrames(net.cfg, id, v)[0]) == Some(RunResult(net, procedure, v))
  {
    var mapper := net.cfg.mapper;
    if v.Rejected? {
      StatusPreserved(id, v.err, mapper);
    } else if v.res.Failed? {
      StatusPreserved(id, v.res.err, mapper);
    } else if !v.res.Replied? && !v.res.Finished? {
      var s := ShownOf(net, v);
      OwnStatusShown(s, None, mapper);
      StatusPreserved(id, StatusError(s, None), mapper);
    }
  }

  /** The first frame of a unary run ends the call, with the result of the run. */
  lemma UnaryFirstFrame(net: Net, r: Run)
    requires RunInv(net.cfg, r) && r.shape.Unary? && r.thread.issued != []
    ensures !r.thread.verdict.Pending?
    ensures Ending(net, r.procedure, Unary, r.thread.issued[0])
            == Some(RunResult(net, r.procedure, r.thread.verdict))
  {
    var t := r.thread;
    assert Output(t) == MessageFrames(r.id, []) + VerdictFrames(net.cfg, r.id, t.verdict);
    assert Output(t)[0] == t.issued[0];
    VerdictOutcome(net, r.procedure, Unary, r.id, t.verdict);
  }

  /** The run of a unary or server-stream call that has sent its whole request was decided on that request. */
  lemma OneShotRequest(net: Net, s: Sys, k: nat, i: nat)
    requires Inv(net, s) && k < |s.calls| && s.calls[k].shape.OneShot() && Ended(s.calls[k].pc)
    requires OwnRun(s, s.calls[k], s.client.chans[k].id, i) && s.server.runs[i].thread.pc.Decided()
    ensures DecidedOn(net, s.calls[k], s.server.runs[i].thread)
  {
    var call := s.calls[k];
    assert HasSent(s.calls, s.client, k);
    OpensFirst(net, s, k);
    RequestAccepted(net.cfg, s.server, i, call.procedure, call.shape, call.request);
  }

  /** A run that has issued a frame is decided. */
  lemma IssuedIsDecided(cfg: Config, r: Run)
    requires RunInv(cfg, r) && r.thread.issued != []
    ensures r.thread.pc.Decided()
    ensures !r.shape.OneShot() ==> r.thread.invocations == [None] && !r.thread.verdict.Rejected?
  {
    assert Output(r.thread) != [] && MessageFrames(r.id, []) + [] == [];
  }

  /** The run that a caller has taken frames from was decided on what that caller asked. */
  lemma TakenRunDecided(net: Net, s: Sys, k: nat, i: nat)
    requires Inv(net, s) && k < |s.calls| && Ended(s.calls[k].pc) && CallPhase(net, s.calls[k], s.client.chans[k])
    requires TookFrom(s, s.calls[k], s.client.chans[k], i)
    ensures s.server.runs[i].thread.pc.Decided() && DecidedOn(net, s.calls[k], s.server.runs[i].thread)
  {
    IssuedIsDecided(net.cfg, s.server.runs[i]);
    if s.calls[k].shape.OneShot() {
      OneShotRequest(net, s, k, i);
    }
  }

  lemma UnaryRun(net: Net, call: Call, x: C.Chan, r: Run)
    requires CallPhase(net, call, x) && call.shape.Unary? && Ended(call.pc)
    requires RunInv(net.cfg, r) && r.shape.Unary? && r.procedure == call.procedure && r.id == x.id
             && x.taken <= r.thread.issued
    ensures !r.thread.verdict.Pending? && r.thread.pc.Decided()
    ensures call.pc.res == RunResult(net, call.procedure, r.thread.verdict)
  {
    UnaryFirstFrame(net, r);
    assert x.taken[0] == r.thread.issued[0];
  }

  /** End-to-end correctness of unary calls, for any number of concurrent calls of all shapes and every interleaving. */
  lemma UnaryCallsEndToEnd(net: Net, s: Sys, k: nat)
    requires Reachable(net, s) && |s.calls| <= C.ID_SPACE && k < |s.calls| && s.calls[k].shape.Unary?
             && Ended(s.calls[k].pc)
    ensures |s.client.chans| == |s.calls| && UnaryAnswered(net, s, s.calls[k], s.client.chans[k].id, s.calls[k].pc.res)
  {
    ReachableInv(net, s);
    var call, x := s.calls[k], s.client.chans[k];
    CallOutcome(net, s, k);
    if !CallRefused(net, s, call, x.id, call.pc.res) {
      var i: nat :| TookFrom(s, call, x, i);
      UnaryRun(net, call, x, s.server.runs[i]);
      TakenRunDecided(net, s, k, i);
    }
  }

  /** What became of a server-stream call that has ended. A clean end (`io.EOF`) means that its procedure was invoked
      with its request, and that the caller took exactly the messages its handler sent, in order; every message it
      took was decodable. */
  ghost predicate StreamComplete(net: Net, s: Sys, call: Call, x: C.Chan) {
    exists i: nat ::
      && OwnRun(s, call, x.id, i)
      && var t := s.server.runs[i].thread;
         && t.invocations == [Some(call.request)] && t.verdict == Answered(Finished)
         && x.taken == MessageFrames(x.id, t.sends) + [CloseFrame(x.id)]
         && forall d <- t.sends :: net.response(call.procedure, d).None?
  }

  /** The frame that ends a stream cleanly is the close frame, the last one of a run that finished. */
  lemma CleanEnd(net: Net, r: Run, n: nat)
    requires RunInv(net.cfg, r) && r.shape.ServerStream? && n < |r.thread.issued|
    requires Ending(net, r.procedure, ServerStream, r.thread.issued[n]) == Some(Eof)
    ensures r.thread.verdict == Answered(Finished) && n == |r.thread.issued| - 1
    ensures r.thread.issued == MessageFrames(r.id, r.thread.sends) + [CloseFrame(r.id)]
  {
    var t := r.thread;
    var ms := MessageFrames(r.id, t.sends);
    assert (ms + VerdictFrames(net.cfg, r.id, t.verdict))[n] == t.issued[n];
    assert n >= |ms|;
  }

  lemma StreamRun(net: Net, call: Call, x: C.Chan, r: Run)
    requires CallPhase(net, call, x) && call.shape.ServerStream? && Ended(call.pc) && call.pc.res.Eof?
    requires RunInv(net.cfg, r) && r.shape.ServerStream? && r.procedure == call.procedure && r.id == x.id
             && x.taken <= r.thread.issued
    ensures var t := r.thread;
            && t.verdict == Answered(Finished) && t.pc.Decided()
            && x.taken == MessageFrames(x.id, t.sends) + [CloseFrame(x.id)]
            && forall d <- t.sends :: net.response(call.procedure, d).None?
  {
    var n := |x.taken| - 1;
    assert x.taken[n] == r.thread.issued[n];
    CleanEnd(net, r, n);
    forall j | 0 <= j < |r.thread.sends|
      ensures net.response(call.procedure, r.thread.sends[j]).None?
    {
      assert x.taken[j] == MessageFrame(r.id, r.thread.sends[j]);
      assert Ending(net, call.procedure, call.shape, x.taken[j]).None?;
    }
  }

  lemma ServerStreamsEndToEnd(net: Net, s: Sys, k: nat)
    requires Reachable(net, s) && |s.calls| <= C.ID_SPACE && k < |s.calls| && s.calls[k].shape.ServerStream?
    requires Ended(s.calls[k].pc) && s.calls[k].pc.res.Eof?
    ensures |s.client.chans| == |s.calls| && StreamComplete(net, s, s.calls[k], s.client.chans[k])
  {
    ReachableInv(net, s);
    var call, x := s.calls[k], s.client.chans[k];
    CallOutcome(net, s, k);
    var i: nat :| TookFrom(s, call, x, i);
    StreamRun(net, call, x, s.server.runs[i]);
    TakenRunDecided(net, s, k, i);
  }

  // ---- the other shapes, and streams that fail --------------------------------------------------

  /** What became of a client-stream call: its open frame was refused, or the outcome is that of its only run, which
      was invoked once and heard what the caller sent. */
  ghost predicate ClientStreamAnswered(net: Net, s: Sys, call: Call, id: Id, res: Outcome) {
    || CallRefused(net, s, call, id, res)
    || exists i: nat ::
         && OwnRun(s, call, id, i) && Heard(s, id, s.server.runs[i].inbox)
         && var t := s.server.runs[i].thread;
            DecidedOn(net, call, t) && t.verdict.Answered? && res == RunResult(net, call.procedure, t.verdict)
  }

  lemma ClientStreamRun(net: Net, call: Call, x: C.Chan, r: Run)
    requires CallPhase(net, call, x) && call.shape.ClientStream? && Ended(call.pc)
    requires RunInv(net.cfg, r) && r.shape.ClientStream? && r.procedure == call.procedure && r.id == x.id
             && x.taken <= r.thread.issued
    ensures r.thread.verdict.Answered? && r.thread.invocations == [None]
    ensures call.pc.res == RunResult(net, call.procedure, r.thread.verdict)
  {
    var t := r.thread;
    assert Output(t) == MessageFrames(r.id, []) + VerdictFrames(net.cfg, r.id, t.verdict);
    assert Output(t)[0] == t.issued[0] == x.taken[0];
    VerdictOutcome(net, call.procedure, ClientStream, r.id, t.verdict);
  }

  /** End-to-end correctness of client-stream calls. */
  lemma ClientStreamsEndToEnd(net: Net, s: Sys, k: nat)
    requires Reachable(net, s) && |s.calls| <= C.ID_SPACE && k < |s.calls| && s.calls[k].shape.ClientStream?
             && Ended(s.calls[k].pc)
    ensures |s.client.chans| == |s.calls|
    ensures ClientStreamAnswered(net, s, s.calls[k], s.client.chans[k].id, s.calls[k].pc.res)
  {
    ReachableInv(net, s);
    var call, x := s.calls[k], s.client.chans[k];
    CallOutcome(net, s, k);
    if !CallRefused(net, s, call, x.id, call.pc.res) {
      var i: nat :| TookFrom(s, call, x, i);
      ClientStreamRun(net, call, x, s.server.runs[i]);
      TakenRunDecided(net, s, k, i);
      RunHeard(net, s, i);
    }
  }

  /** How a stream of messages ended for its caller: with the run's own end, after exactly the messages its handler
      sent; or, while the run may go on, at the first message the caller could not decode. */
  ghost predicate RunEndedAs(net: Net, procedure: string, id: Id, sends: seq<Payload>, v: Verdict, taken: seq<OutFrame>,
                             res: Outcome)
  {
    || (&& !v.Pending? && taken == MessageFrames(id, sends) + VerdictFrames(net.cfg, id, v)
        && (forall d <- sends :: net.response(procedure, d).None?)
        && res == RunResult(net, procedure, v))
    || exists n :: 0 <= n < |sends| && StoppedAt(net, procedure, id, sends, n, taken, res)
  }

  /** The caller could not decode message `n`, and took no more. */
  ghost predicate StoppedAt(net: Net, procedure: string, id: Id, sends: seq<Payload>, n: nat, taken: seq<OutFrame>,
                            res: Outcome)
    requires n < |sends|
  {
    && taken == MessageFrames(id, sends[..n + 1]) && (forall d <- sends[..n] :: net.response(procedure, d).None?)
    && net.response(procedure, sends[n]).Some? && res == Error(net.response(procedure, sends[n]).value)
  }

  /** What became of a server-stream or bidi call: its open frame was refused, or its only run heard what the caller
      sent, and the stream ended as that run did. */
  ghost predicate StreamEnded(net: Net, s: Sys, call: Call, x: C.Chan, res: Outcome) {
    || CallRefused(net, s, call, x.id, res)
    || exists i: nat ::
         && OwnRun(s, call, x.id, i) && Heard(s, x.id, s.server.runs[i].inbox)
         && var t := s.server.runs[i].thread;
            DecidedOn(net, call, t) && RunEndedAs(net, call.procedure, x.id, t.sends, t.verdict, x.taken, res)
  }

  /** What a caller has passed over was a message that it could decode. */
  lemma PassedOver(net: Net, call: Call, x: C.Chan, id: Id, sends: seq<Payload>)
    requires CallPhase(net, call, x) && Ended(call.pc)
    requires |x.taken| - 1 <= |sends| && x.taken[..|x.taken| - 1] == MessageFrames(id, sends[..|x.taken| - 1])
    ensures forall d <- sends[..|x.taken| - 1] :: net.response(call.procedure, d).None?
  {
    var n := |x.taken| - 1;
    forall j | 0 <= j < n
      ensures net.response(call.procedure, sends[j]).None?
    {
      assert x.taken[j] == x.taken[..n][j] == MessageFrame(id, sends[j]);
      assert Ending(net, call.procedure, call.shape, x.taken[j]).None?;
    }
  }

  lemma StopsEarly(net: Net, call: Call, x: C.Chan, r: Run)
    requires CallPhase(net, call, x) && call.shape.Sends() && Ended(call.pc)
    requires |x.taken| <= |r.thread.sends| && x.taken <= MessageFrames(x.id, r.thread.sends)
    ensures StoppedAt(net, call.procedure, x.id, r.thread.sends, |x.taken| - 1, x.taken, call.pc.res)
  {
    var n, sends := |x.taken| - 1, r.thread.sends;
    assert x.taken == MessageFrames(x.id, sends[..n + 1]);
    assert x.taken[..n] == MessageFrames(x.id, sends[..n]);
    PassedOver(net, call, x, x.id, sends);
    assert x.taken[n] == MessageFrame(x.id, sends[n]);
  }

  lemma EndsWithRun(net: Net, call: Call, x: C.Chan, r: Run)
    requires CallPhase(net, call, x) && call.shape.Sends() && Ended(call.pc)
    requires var t := r.thread;
             && (t.verdict.Answered? ==> ResultFits(call.shape, t.verdict.res)) && |x.taken| > |t.sends|
             && x.taken <= MessageFrames(x.id, t.sends) + VerdictFrames(net.cfg, x.id, t.verdict)
    ensures RunEndedAs(net, call.procedure, x.id, r.thread.sends, r.thread.verdict, x.taken, call.pc.res)
  {
    var t := r.thread;
    var ms, end := MessageFrames(x.id, t.sends), VerdictFrames(net.cfg, x.id, t.verdict);
    assert !t.verdict.Pending? && |end| == 1;
    assert x.taken == ms + end;
    assert t.sends[..|ms|] == t.sends && x.taken[..|ms|] == ms;
    PassedOver(net, call, x, x.id, t.sends);
    assert x.taken[|ms|] == end[0];
    VerdictOutcome(net, call.procedure, call.shape, x.id, t.verdict);
  }

  lemma StreamRunEnds(net: Net, call: Call, x: C.Chan, r: Run)
    requires CallPhase(net, call, x) && call.shape.Sends() && Ended(call.pc)
    requires RunInv(net.cfg, r) && r.shape == call.shape && r.procedure == call.procedure && r.id == x.id
             && x.taken <= r.thread.issued
    ensures RunEndedAs(net, call.procedure, x.id, r.thread.sends, r.thread.verdict, x.taken, call.pc.res)
  {
    var ms := MessageFrames(r.id, r.thread.sends);
    assert x.taken <= Output(r.thread) == ms + VerdictFrames(net.cfg, r.id, r.thread.verdict);
    if |x.taken| <= |ms| {
      assert x.taken <= ms;
      StopsEarly(net, call, x, r);
    } else {
      EndsWithRun(net, call, x, r);
    }
  }

  /** End-to-end correctness of server-stream and bidi calls, however they end. */
  lemma StreamsEndToEnd(net: Net, s: Sys, k: nat)
    requires Reachable(net, s) && |s.calls| <= C.ID_SPACE && k < |s.calls| && s.calls[k].shape.Sends()
             && Ended(s.calls[k].pc)
    ensures |s.client.chans| == |s.calls| && StreamEnded(net, s, s.calls[k], s.client.chans[k], s.calls[k].pc.res)
  {
    ReachableInv(net, s);
    var call, x := s.calls[k], s.client.chans[k];
    CallOutcome(net, s, k);
    if !CallRefused(net, s, call, x.id, call.pc.res) {
      var i: nat :| TookFrom(s, call, x, i);
      StreamRunEnds(net, call, x, s.server.runs[i]);
      TakenRunDecided(net, s, k, i);
      RunHeard(net, s, i);
    }
  }
}
