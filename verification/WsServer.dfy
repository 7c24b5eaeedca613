/** The server side of one WebSocket connection (`Server.serve` in `transport/ws/server.go`) as a
    step relation: one reader goroutine, one goroutine per session, one writer goroutine, a counting
    semaphore, the mutex-protected session map, and the bounded write channel.

    A `Label` names the goroutine that moves and resolves its choices; every interleaving of the atomic
    steps is a sequence of labels. Local computation is merged with the channel, mutex or context
    operation next to it. `crashed` records an operation that would panic in Go. */
module WsServer {
  import opened Options
  import opened WsFrames
  import opened WsSession

  const WRITE_BUF_SIZE: nat := 64

  datatype Origin = ByReader | ByRun(sid: nat)

  /** A frame on its way to the wire, with the goroutine that wrote it. */
  datatype Tagged = Tagged(origin: Origin, frame: OutFrame)

  /** The error frames that the reader goroutine itself writes. */
  datatype Reply =
    | UnknownProcedure(id: Id, procedure: string)
    | ShapeMismatch(id: Id, want: Shape, got: string)
    | TooManyInflight(id: Id)
    | SessionNotFound(id: Id)
    | DuplicateSession(id: Id)

  function ReplyFrame(cfg: Config, reply: Reply): OutFrame {
    match reply
    case UnknownProcedure(id, p) => ErrorFrame(id, ErrorDetail("not_found", "unknown procedure: " + p, false))
    case ShapeMismatch(id, want, got) =>
      ErrorFrame(id, ErrorDetail("invalid_argument", "shape mismatch: want " + want.Name() + ", got " + got, false))
    case TooManyInflight(id) => ErrorFrame(id, ErrorDetail("unavailable", "max inflight exceeded", true))
    case SessionNotFound(id) => ErrorFrame(id, ErrorDetail("not_found", "session not found: " + id, false))
    case DuplicateSession(id) =>
      ToErrorFrame(id, NewError("already_exists", "duplicate session id: " + id), cfg.mapper)
  }

  /** Program counter of the reader goroutine. */
  datatype Reader =
    | Reading                               // conn.Read
    | Replying(reply: Reply)                // in writeFn
    | Acquired(id: Id, procedure: string, shape: Shape, at: nat) // token taken, session not yet inserted
    | Duplicate(id: Id)                     // id in use; about to give the token back
    | Delivering(sid: nat, payload: Payload)
    | ClosingChannel(sid: nat)
    | CancellingSession(sid: nat)
    | ReadFailed                            // readLoop has returned
    | ContextCancelled                      // cancel() has run
    | ClosingAll(todo: set<Id>)             // closeAllSessions, holding the mutex
    | AwaitingHandlers                      // handleWG.Wait()
    | AwaitingWriter                        // writeCh closed; writeWG.Wait()
    | Returned
  {
    /** `readLoop` has not returned. */
    predicate Active() {
      Reading? || Replying? || Acquired? || Duplicate? || Delivering? || ClosingChannel? || CancellingSession?
    }

    predicate HoldsToken() { Acquired? || Duplicate? }

    predicate AllClosed() { AwaitingHandlers? || AwaitingWriter? || Returned? }
  }

  datatype Writer = Looping | Discarding | Exited

  /** The session map and the number of tokens in the semaphore. */
  datatype Table = Table(sessions: map<Id, nat>, tokens: nat)

  /** The write channel, with what was put into it, taken out of it, and written to the connection. */
  datatype Outbox = Outbox(queue: seq<Tagged>, closed: bool, sent: seq<Tagged>, dequeued: seq<Tagged>,
                           wire: seq<OutFrame>)

  /** `input` records the frames the reader has read. */
  datatype Server = Server(
    reader: Reader, table: Table, runs: seq<Run>, ctxDone: bool,
    out: Outbox, writer: Writer, input: seq<InFrame>, crashed: bool)

  function Init(): Server {
    Server(Reading, Table(map[], 0), [], false, Outbox([], false, [], [], []), Looping, [], false)
  }

  datatype ReaderAct =
    | ReadFrame(frame: InFrame)
    | ReadError
    | StartSession(budget: nat)
    | GiveBackToken
    | Deliver
    | CloseChan
    | CancelSession
    | ReplyEnqueued
    | ReplySkipped
    | CancelContexts
    | BeginCloseAll
    | CloseOne(id: Id)
    | EndCloseAll
    | CloseQueue
    | Return

  datatype WriterAct = WriteOk | WriteFailed | Discard | WriterExit

  datatype Label =
    | ByTheReader(step: ReaderAct)
    | ByHandler(sid: nat, act: Act)
    | ByTheWriter(move: WriterAct)
    | ParentCancelled        // the request context ends

  // ---- steps ------------------------------------------------------------------------------

  /** `writeCh <- data`; sending on a closed channel panics. */
  function Enqueue(s: Server, t: Tagged): Server {
    s.(out := s.out.(queue := s.out.queue + [t], sent := s.out.sent + [t]), crashed := s.crashed || s.out.closed)
  }

  function SetRun(s: Server, sid: nat, r: Run): Server
    requires sid < |s.runs|
  {
    s.(runs := s.runs[sid := r])
  }

  /** The mutex is free: only `closeAllSessions` holds it across several steps. */
  predicate MutexFree(s: Server) { !s.reader.ClosingAll? }

  predicate KnownSids(s: Server) { forall id <- s.table.sessions :: s.table.sessions[id] < |s.runs| }

  predicate HandlerEnabled(s: Server, sid: nat, a: Act)
    requires sid < |s.runs|
  {
    && CanAct(s.runs[sid], a)
    && match a
       case IssueEnqueued => |s.out.queue| < WRITE_BUF_SIZE || s.out.closed
       case IssueSkipped => s.ctxDone
       case DeleteSelf => MutexFree(s)
       case ReleaseToken => s.table.tokens > 0
       case _ => true
  }

  predicate ReaderEnabled(s: Server, step: ReaderAct) {
    match step
    case ReadFrame(_) => s.reader.Reading?
    case ReadError => s.reader.Reading?
    case StartSession(_) => s.reader.Acquired?
    case GiveBackToken => s.reader.Duplicate? && s.table.tokens > 0
    case Deliver => s.reader.Delivering? && s.reader.sid < |s.runs|
    case CloseChan => s.reader.ClosingChannel? && s.reader.sid < |s.runs|
    case CancelSession => s.reader.CancellingSession? && s.reader.sid < |s.runs|
    case ReplyEnqueued => s.reader.Replying? && (|s.out.queue| < WRITE_BUF_SIZE || s.out.closed)
    case ReplySkipped => s.reader.Replying? && s.ctxDone
    case CancelContexts => s.reader.ReadFailed?
    case BeginCloseAll => s.reader.ContextCancelled?
    case CloseOne(id) => s.reader.ClosingAll? && id in s.reader.todo && id in s.table.sessions
    case EndCloseAll => s.reader.ClosingAll? && s.reader.todo == {}
    case CloseQueue => s.reader.AwaitingHandlers? && forall r <- s.runs :: r.thread.pc.Done?
    case Return => s.reader.AwaitingWriter? && s.writer.Exited?
  }

  predicate WriterEnabled(s: Server, move: WriterAct) {
    match move
    case WriteOk => s.writer.Looping? && s.out.queue != []
    case WriteFailed => s.writer.Looping? && s.out.queue != []
    case Discard => s.writer.Discarding? && s.out.queue != []
    case WriterExit => !s.writer.Exited? && s.out.queue == [] && s.out.closed
  }

  predicate Enabled(s: Server, l: Label) {
    && !s.crashed
    && KnownSids(s)
    && match l
       case ByTheReader(step) => ReaderEnabled(s, step)
       case ByHandler(sid, a) => sid < |s.runs| && HandlerEnabled(s, sid, a)
       case ByTheWriter(move) => WriterEnabled(s, move)
       case ParentCancelled => !s.ctxDone
  }

  /** `handleOpen` up to and including the semaphore's `select`. */
  function HandleOpen(cfg: Config, s: Server, f: InFrame, at: nat): (s': Server)
    requires f.Open?
    ensures s' == s.(reader := s'.reader, table := s.table.(tokens := s'.table.tokens))
    ensures s'.reader.Acquired? || (s'.reader.Replying? && s'.table.tokens == s.table.tokens)
  {
    if f.procedure !in cfg.handlers then s.(reader := Replying(UnknownProcedure(f.id, f.procedure)))
    else
      var shape := cfg.handlers[f.procedure];
      if f.shape != shape.Name() then s.(reader := Replying(ShapeMismatch(f.id, shape, f.shape)))
      else if s.table.tokens < cfg.maxInflight then
        s.(reader := Acquired(f.id, f.procedure, shape, at), table := s.table.(tokens := s.table.tokens + 1))
      else s.(reader := Replying(TooManyInflight(f.id)))
  }

  /** The mutex-protected lookups of `handleMessage`, `handleClose` and `handleCancel`. */
  function HandleFrame(cfg: Config, s: Server, f: InFrame, at: nat): (s': Server)
    requires KnownSids(s)
    ensures s' == s.(reader := s'.reader, table := s.table.(tokens := s'.table.tokens), runs := s'.runs)
    ensures !f.CloseSend? ==> s'.runs == s.runs
  {
    match f
    case Open(_, _, _) => HandleOpen(cfg, s, f, at)
    case Message(id, payload) =>
      if id !in s.table.sessions then s.(reader := Replying(SessionNotFound(id)))
      else if s.runs[s.table.sessions[id]].entry.closed then s
      else s.(reader := Delivering(s.table.sessions[id], payload))
    case CloseSend(id) =>
      if id !in s.table.sessions then s
      else
        var sid := s.table.sessions[id];
        SetRun(s, sid, MarkClosed(s.runs[sid], at)).(reader := ClosingChannel(sid))
    case Cancel(id) =>
      if id !in s.table.sessions then s else s.(reader := CancellingSession(s.table.sessions[id]))
    case Junk => s
  }

  /** `startSession` under the mutex, and `handleWG.Go`. */
  function HandleStart(s: Server, budget: nat): Server
    requires s.reader.Acquired?
  {
    var id := s.reader.id;
    if id in s.table.sessions then s.(reader := Duplicate(id))
    else
      s.(reader := Reading,
         table := s.table.(sessions := s.table.sessions[id := |s.runs|]),
         runs := s.runs + [NewRun(id, s.reader.procedure, s.reader.shape, budget, s.reader.at)])
  }

  function HandlerStep(cfg: Config, s: Server, sid: nat, a: Act): Server
    requires sid < |s.runs| && HandlerEnabled(s, sid, a)
  {
    var r := s.runs[sid];
    var s' := SetRun(s, sid, Perform(cfg, r, a, |s.input|));
    match a
    case IssueEnqueued => Enqueue(s', Tagged(ByRun(sid), r.thread.pc.frames[0]))
    case DeleteSelf => s'.(table := s.table.(sessions := s.table.sessions - {r.id}))
    case ReleaseToken => s'.(table := s.table.(tokens := s.table.tokens - 1))
    case _ => s'
  }

  /** One iteration of the loop in `closeAllSessions`. */
  function CloseSession(s: Server, id: Id): Server
    requires s.reader.ClosingAll? && id in s.table.sessions && KnownSids(s)
  {
    var sid := s.table.sessions[id];
    SetRun(s, sid, CloseChannel(CancelContext(s.runs[sid]))).(reader := ClosingAll(s.reader.todo - {id}))
  }

  function ReaderNext(cfg: Config, s: Server, step: ReaderAct): Server
    requires KnownSids(s) && ReaderEnabled(s, step)
  {
    match step
    case ReadFrame(f) => HandleFrame(cfg, s.(input := s.input + [f]), f, |s.input|)
    case ReadError => s.(reader := ReadFailed)
    case StartSession(budget) => HandleStart(s, budget)
    case GiveBackToken =>
      s.(table := s.table.(tokens := s.table.tokens - 1), reader := Replying(DuplicateSession(s.reader.id)))
    case Deliver =>
      var r := s.runs[s.reader.sid];
      if r.inbox.closed then s.(crashed := true)
      else SetRun(s, s.reader.sid, Arrive(r, s.reader.payload)).(reader := Reading)
    case CloseChan => SetRun(s, s.reader.sid, CloseChannel(s.runs[s.reader.sid])).(reader := Reading)
    case CancelSession => SetRun(s, s.reader.sid, CancelContext(s.runs[s.reader.sid])).(reader := Reading)
    case ReplyEnqueued => Enqueue(s, Tagged(ByReader, ReplyFrame(cfg, s.reader.reply))).(reader := Reading)
    case ReplySkipped => s.(reader := Reading)
    case CancelContexts => s.(reader := ContextCancelled, ctxDone := true)
    case BeginCloseAll => s.(reader := ClosingAll(s.table.sessions.Keys))
    case CloseOne(id) => CloseSession(s, id)
    case EndCloseAll => s.(reader := AwaitingHandlers)
    case CloseQueue => s.(reader := AwaitingWriter, out := s.out.(closed := true), crashed := s.out.closed)
    case Return => s.(reader := Returned)
  }

  /** Take the first frame off the write channel. */
  function Dequeue(o: Outbox): Outbox
    requires o.queue != []
  {
    o.(queue := o.queue[1..], dequeued := o.dequeued + [o.queue[0]])
  }

  function WriterNext(s: Server, move: WriterAct): Server
    requires WriterEnabled(s, move)
  {
    match move
    case WriteOk => s.(out := Dequeue(s.out).(wire := s.out.wire + [s.out.queue[0].frame]))
    case WriteFailed => s.(out := Dequeue(s.out), writer := Discarding)
    case Discard => s.(out := Dequeue(s.out))
    case WriterExit => s.(writer := Exited)
  }

  function Next(cfg: Config, s: Server, l: Label): Server
    requires Enabled(s, l)
  {
    match l
    case ByTheReader(step) => ReaderNext(cfg, s, step)
    case ByHandler(sid, a) => HandlerStep(cfg, s, sid, a)
    case ByTheWriter(move) => WriterNext(s, move)
    case ParentCancelled => s.(ctxDone := true)
  }

  /** `s` is reached from `s0` by the steps in `ls`. */
  ghost predicate Steps(cfg: Config, s0: Server, ls: seq<Label>, s: Server)
    decreases |ls|
  {
    if ls == [] then s == s0
    else Enabled(s0, ls[0]) && Steps(cfg, Next(cfg, s0, ls[0]), ls[1..], s)
  }

  ghost predicate Reachable(cfg: Config, s: Server) {
    exists ls :: Steps(cfg, Init(), ls, s)
  }
}
