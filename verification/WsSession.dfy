/** One server session: the `sessionInfo`, its receive channel and the goroutine that runs the
    procedure's `run` closure and the deferred cleanup (`transport/ws/server.go`, `transport/ws/stream.go`).

    A `Run` is driven by two parties: the reader goroutine (`Arrive`, `MarkClosed`, `CloseChannel`, `CancelContext`)
    and the handler goroutine (`Perform`). User code is arbitrary: inside it the handler may take any
    action its stream offers, at most `budget` times, and then returns any result of its type. */
module WsSession {
  import opened Options
  import opened WsFrames

  const RECV_CH_BUF_SIZE: nat := 64

  /** The registered procedures and options of a server. `decode` yields the error of
      `unmarshalRequest`, if any. */
  datatype Config = Config(
    handlers: map<string, Shape>,
    decode: (string, Payload) -> Option<GoError>,
    mapper: Option<ErrorMapper>,
    maxInflight: nat)

  /** A message frame routed to the session, with the number of payloads buffered at that moment. */
  datatype Arrival = Arrival(payload: Payload, buffered: nat)

  /** What user code returned; `Replied` carries the marshalled response. */
  datatype UserResult =
    | Failed(err: GoError)
    | NilResponse
    | Unmarshalable(err: GoError)
    | Replied(data: Payload)
    | Finished

  datatype Verdict = Pending | Rejected(err: GoError) | Answered(res: UserResult)

  /** Program counter of the handler goroutine. */
  datatype Pc =
    | AwaitFirst                                  // recvExactlyOne
    | AwaitEnd(first: Payload)                    // first receive of drainAndVerifyEmpty
    | Draining                                    // for range recvCh
    | InUser                                      // user code and interceptors
    | Emitting(frames: seq<OutFrame>, back: bool) // in writeFn; back: the call came from user code
    | Deleting                                    // deferred delete(sessions, id)
    | Releasing                                   // deferred <-sem
    | Cancelling                                  // deferred sessCancel()
    | Done
  {
    /** The session is still in the map. */
    predicate Live() { !Releasing? && !Cancelling? && !Done? }

    /** The goroutine has not yet left `entry.run`. */
    predicate Running() { Live() && !Deleting? }

    /** The exactly-one check is over. */
    predicate Decided() { !AwaitFirst? && !AwaitEnd? && !Draining? }
  }

  /** The receive channel, with what went through it. */
  datatype Inbox = Inbox(
    buf: seq<Payload>, closed: bool,
    arrivals: seq<Arrival>, consumed: seq<Payload>, eof: bool)

  /** The reader's view of the session: `sessionInfo.closed` and the context. `stoppedAt` counts the frames the
      reader had read when the session stopped taking messages. */
  datatype Entry = Entry(closed: bool, cancelled: bool, stoppedAt: Option<nat>)

  /** The handler goroutine, with what it has done. */
  datatype Thread = Thread(
    pc: Pc, budget: nat,
    invocations: seq<Option<Payload>>, sends: seq<Payload>, verdict: Verdict,
    issued: seq<OutFrame>, enqueued: seq<OutFrame>)

  datatype Run = Run(
    id: Id, procedure: string, shape: Shape, openedAt: nat,
    inbox: Inbox, entry: Entry, thread: Thread)

  /** The session as `startSession` creates it; streaming shapes enter user code at once. */
  function NewRun(id: Id, procedure: string, shape: Shape, budget: nat, openedAt: nat): Run {
    Run(id, procedure, shape, openedAt,
        Inbox([], false, [], [], false),
        Entry(false, false, None),
        Thread(if shape.OneShot() then AwaitFirst else InUser, budget,
               if shape.OneShot() then [] else [None], [], Pending, [], []))
  }

  // ---- the reader's side ----------------------------------------------------------------

  /** `select { case sess.recvCh <- payload: default: }`. */
  function Arrive(r: Run, p: Payload): Run {
    r.(inbox := r.inbox.(
         arrivals := r.inbox.arrivals + [Arrival(p, |r.inbox.buf|)],
         buf := if |r.inbox.buf| < RECV_CH_BUF_SIZE then r.inbox.buf + [p] else r.inbox.buf))
  }

  function Stopped(e: Entry, at: nat): Option<nat> { if e.stoppedAt.None? then Some(at) else e.stoppedAt }

  function MarkClosed(r: Run, at: nat): Run {
    r.(entry := r.entry.(closed := true, stoppedAt := Stopped(r.entry, at)))
  }

  function CloseChannel(r: Run): Run { r.(inbox := r.inbox.(closed := true)) }

  function CancelContext(r: Run): Run { r.(entry := r.entry.(cancelled := true)) }

  // ---- the handler's side ---------------------------------------------------------------

  datatype Act =
    | TakeMessage                 // a receive yields a buffered payload
    | SeeEof                      // a receive on the closed, drained channel
    | UserSend(data: Payload)     // stream.Send whose message marshals
    | UserSendFailed              // stream.Send whose message does not
    | UserReturn(res: UserResult)
    | IssueEnqueued               // writeFn takes the writeCh arm
    | IssueSkipped                // writeFn takes the ctx.Done arm
    | DeleteSelf
    | ReleaseToken
    | CancelSelf

  predicate ResultFits(shape: Shape, res: UserResult) {
    res.Failed? || (if shape.Sends() then res.Finished? else !res.Finished?)
  }

  predicate MayReceive(r: Run) {
    r.thread.pc.AwaitFirst? || r.thread.pc.AwaitEnd? || r.thread.pc.Draining?
      || (r.thread.pc.InUser? && !r.shape.OneShot() && r.thread.budget > 0)
  }

  /** The conditions of an action that concern the session alone. */
  predicate CanAct(r: Run, a: Act) {
    match a
    case TakeMessage => MayReceive(r) && r.inbox.buf != []
    case SeeEof => MayReceive(r) && r.inbox.buf == [] && r.inbox.closed
    case UserSend(_) => r.thread.pc.InUser? && r.shape.Sends() && r.thread.budget > 0
    case UserSendFailed => r.thread.pc.InUser? && r.shape.Sends() && r.thread.budget > 0
    case UserReturn(res) => r.thread.pc.InUser? && ResultFits(r.shape, res)
    case IssueEnqueued => r.thread.pc.Emitting? && r.thread.pc.frames != []
    case IssueSkipped => r.thread.pc.Emitting? && r.thread.pc.frames != []
    case DeleteSelf => r.thread.pc.Deleting?
    case ReleaseToken => r.thread.pc.Releasing?
    case CancelSelf => r.thread.pc.Cancelling?
  }

  function NoRequestError(): GoError { NewError("invalid_argument", "session closed without request") }

  function ManyRequestsError(shape: Shape): GoError {
    NewError("invalid_argument",
             if shape.Unary? then "unary session received multiple messages"
             else "server-stream session received multiple messages")
  }

  /** The frames written after user code has returned (`writeResponseAndClose` for unary and client-stream). */
  function FinalFrames(cfg: Config, id: Id, res: UserResult): seq<OutFrame> {
    match res
    case Failed(e) => [ToErrorFrame(id, e, cfg.mapper)]
    case NilResponse => [ToErrorFrame(id, NewError("internal", "handler returned nil response"), cfg.mapper)]
    case Unmarshalable(e) => [ToErrorFrame(id, NewError("internal", ErrorText(e)), cfg.mapper)]
    case Replied(data) => [MessageFrame(id, data), CloseFrame(id)]
    case Finished => [CloseFrame(id)]
  }

  function Reject(cfg: Config, r: Run, e: GoError): Thread {
    r.thread.(pc := Emitting([ToErrorFrame(r.id, e, cfg.mapper)], false), verdict := Rejected(e))
  }

  function Admit(cfg: Config, r: Run, p: Payload): Thread {
    match cfg.decode(r.procedure, p)
    case Some(e) => Reject(cfg, r, e)
    case None => r.thread.(pc := InUser, invocations := r.thread.invocations + [Some(p)])
  }

  function AfterEof(cfg: Config, r: Run): Thread
    requires MayReceive(r)
  {
    match r.thread.pc
    case AwaitFirst => Reject(cfg, r, NoRequestError())
    case AwaitEnd(p) => Admit(cfg, r, p)
    case Draining => Reject(cfg, r, ManyRequestsError(r.shape))
    case InUser => r.thread.(budget := r.thread.budget - 1)
  }

  function AfterTake(r: Run): Thread
    requires MayReceive(r) && r.inbox.buf != []
  {
    match r.thread.pc
    case AwaitFirst => r.thread.(pc := AwaitEnd(r.inbox.buf[0]))
    case InUser => r.thread.(budget := r.thread.budget - 1)
    case _ => r.thread.(pc := Draining)
  }

  function AfterIssue(t: Thread, enq: bool): Thread
    requires t.pc.Emitting? && t.pc.frames != []
  {
    var f := t.pc.frames[0];
    var rest := t.pc.frames[1..];
    t.(issued := t.issued + [f],
       enqueued := if enq then t.enqueued + [f] else t.enqueued,
       pc := if rest != [] then Emitting(rest, t.pc.back) else if t.pc.back then InUser else Deleting)
  }

  /** The goroutine after the action. */
  function Advance(cfg: Config, r: Run, a: Act): Thread
    requires CanAct(r, a)
  {
    match a
    case TakeMessage => AfterTake(r)
    case SeeEof => AfterEof(cfg, r)
    case UserSend(data) =>
      r.thread.(pc := Emitting([MessageFrame(r.id, data)], true),
                sends := r.thread.sends + [data], budget := r.thread.budget - 1)
    case UserSendFailed => r.thread.(budget := r.thread.budget - 1)
    case UserReturn(res) => r.thread.(pc := Emitting(FinalFrames(cfg, r.id, res), false), verdict := Answered(res))
    case IssueEnqueued => AfterIssue(r.thread, true)
    case IssueSkipped => AfterIssue(r.thread, false)
    case DeleteSelf => r.thread.(pc := Releasing)
    case ReleaseToken => r.thread.(pc := Cancelling)
    case CancelSelf => r.thread.(pc := Done)
  }

  /** The channel after the action. */
  function Receive(x: Inbox, a: Act): Inbox
    requires a.TakeMessage? ==> x.buf != []
  {
    match a
    case TakeMessage => x.(buf := x.buf[1..], consumed := x.consumed + [x.buf[0]])
    case SeeEof => x.(eof := true)
    case _ => x
  }

  function Retire(e: Entry, a: Act, now: nat): Entry {
    match a
    case DeleteSelf => e.(stoppedAt := Stopped(e, now))
    case CancelSelf => e.(cancelled := true)
    case _ => e
  }

  function Perform(cfg: Config, r: Run, a: Act, now: nat): Run
    requires CanAct(r, a)
  {
    r.(thread := Advance(cfg, r, a), inbox := Receive(r.inbox, a), entry := Retire(r.entry, a, now))
  }

  // ---- what a session promises ------------------------------------------------------------

  /** The payloads the channel took: those that met fewer than 64 buffered ones. */
  function Accepted(arrivals: seq<Arrival>): seq<Payload> {
    if arrivals == [] then []
    else
      var last := arrivals[|arrivals| - 1];
      Accepted(arrivals[..|arrivals| - 1]) + (if last.buffered < RECV_CH_BUF_SIZE then [last.payload] else [])
  }

  function Payloads(arrivals: seq<Arrival>): (ps: seq<Payload>)
    ensures |ps| == |arrivals|
  {
    seq(|arrivals|, i requires 0 <= i < |arrivals| => arrivals[i].payload)
  }

  /** `xs` is obtained from `ys` by leaving elements out. */
  ghost predicate Subsequence<T>(xs: seq<T>, ys: seq<T>) {
    if xs == [] then true
    else ys != [] && (Subsequence(xs, ys[..|ys| - 1])
                      || (xs[|xs| - 1] == ys[|ys| - 1] && Subsequence(xs[..|xs| - 1], ys[..|ys| - 1])))
  }

  lemma {:induction false} SubsequenceSnoc<T>(xs: seq<T>, ys: seq<T>, t: T)
    requires Subsequence(xs, ys)
    ensures Subsequence(xs, ys + [t]) && Subsequence(xs + [t], ys + [t])
  {
    assert (ys + [t])[..|ys|] == ys;
    assert (xs + [t])[..|xs|] == xs;
  }

  lemma PayloadsSnoc(arrivals: seq<Arrival>)
    requires arrivals != []
    ensures Payloads(arrivals) == Payloads(arrivals[..|arrivals| - 1]) + [arrivals[|arrivals| - 1].payload]
  {
  }

  lemma {:induction false} AcceptedInOrder(arrivals: seq<Arrival>)
    ensures Subsequence(Accepted(arrivals), Payloads(arrivals))
  {
    if arrivals != [] {
      var front, last := arrivals[..|arrivals| - 1], arrivals[|arrivals| - 1];
      AcceptedInOrder(front);
      PayloadsSnoc(arrivals);
      SubsequenceSnoc(Accepted(front), Payloads(front), last.payload);
      assert last.buffered >= RECV_CH_BUF_SIZE ==> Accepted(arrivals) == Accepted(front);
    }
  }

  lemma {:induction false} AcceptedCount(arrivals: seq<Arrival>)
    ensures |Accepted(arrivals)| <= |arrivals|
    ensures |Accepted(arrivals)| == |arrivals|
            <==> forall i :: 0 <= i < |arrivals| ==> arrivals[i].buffered < RECV_CH_BUF_SIZE
  {
    if arrivals != [] {
      AcceptedCount(arrivals[..|arrivals| - 1]);
    }
  }

  lemma {:induction false} AllAccepted(arrivals: seq<Arrival>)
    requires |Accepted(arrivals)| == |arrivals|
    ensures Accepted(arrivals) == Payloads(arrivals)
  {
    if arrivals != [] {
      AcceptedCount(arrivals[..|arrivals| - 1]);
      AllAccepted(arrivals[..|arrivals| - 1]);
      PayloadsSnoc(arrivals);
    }
  }

  /** The accepted payloads are the arrivals, in order, less those that found the buffer full. */
  lemma AcceptedIsSubsequence(arrivals: seq<Arrival>)
    ensures Subsequence(Accepted(arrivals), Payloads(arrivals))
    ensures |Accepted(arrivals)| <= |arrivals|
    ensures |Accepted(arrivals)| == |arrivals|
            <==> forall i :: 0 <= i < |arrivals| ==> arrivals[i].buffered < RECV_CH_BUF_SIZE
    ensures |Accepted(arrivals)| == |arrivals| ==> Accepted(arrivals) == Payloads(arrivals)
  {
    AcceptedInOrder(arrivals);
    AcceptedCount(arrivals);
    if |Accepted(arrivals)| == |arrivals| {
      AllAccepted(arrivals);
    }
  }

  lemma AcceptedSnoc(arrivals: seq<Arrival>, a: Arrival)
    ensures Accepted(arrivals + [a]) == Accepted(arrivals) + (if a.buffered < RECV_CH_BUF_SIZE then [a.payload] else [])
  {
    assert (arrivals + [a])[..|arrivals|] == arrivals;
  }

  /** The output language of a completed run, by shape. */
  predicate Grammar(shape: Shape, id: Id, fs: seq<OutFrame>) {
    && fs != []
    && (forall f <- fs :: f.id == id)
    && Terminal(fs[|fs| - 1])
    && (forall i :: 0 <= i < |fs| - 1 ==> fs[i].kind.MessageType? && fs[i].error.None?)
    && (!shape.Sends() ==> |fs| == if fs[|fs| - 1].kind.ErrorType? then 1 else 2)
  }

  predicate Terminal(f: OutFrame) {
    (f.kind.CloseType? && f.error.None?) || (f.kind.ErrorType? && f.error.Some?)
  }

  /** The frames a goroutine has handed, or is about to hand, to `writeFn`. */
  function Output(t: Thread): seq<OutFrame> {
    t.issued + if t.pc.Emitting? then t.pc.frames else []
  }

  function VerdictFrames(cfg: Config, id: Id, v: Verdict): seq<OutFrame> {
    match v
    case Pending => []
    case Rejected(e) => [ToErrorFrame(id, e, cfg.mapper)]
    case Answered(res) => FinalFrames(cfg, id, res)
  }

  /** A one-shot run reaches user code exactly for one decodable payload. */
  ghost predicate Admissible(cfg: Config, r: Run) {
    |Accepted(r.inbox.arrivals)| == 1 && cfg.decode(r.procedure, Accepted(r.inbox.arrivals)[0]).None?
  }

  /** Inbound conservation: what was received and what is buffered make up the accepted payloads, in order. */
  ghost predicate InboundInv(x: Inbox) {
    && x.consumed + x.buf == Accepted(x.arrivals)
    && |x.buf| <= RECV_CH_BUF_SIZE
    && (x.eof ==> x.closed && x.buf == [])
    && (forall k :: 0 <= k < |x.arrivals| ==> x.arrivals[k].buffered <= k)
  }

  /** The output is what user code sent, followed by what the verdict calls for. */
  ghost predicate OutboundInv(cfg: Config, id: Id, shape: Shape, t: Thread) {
    && (t.pc.Emitting? ==> t.pc.frames != [] && (t.pc.back ==> |t.pc.frames| == 1))
    && Output(t) == MessageFrames(id, t.sends) + VerdictFrames(cfg, id, t.verdict)
    && (t.verdict.Pending? <==> !t.pc.Decided() || t.pc.InUser? || (t.pc.Emitting? && t.pc.back))
    && (t.verdict.Answered? ==> ResultFits(shape, t.verdict.res))
    && (t.sends != [] || (t.pc.Emitting? && t.pc.back) ==> shape.Sends())
    && Subsequence(t.enqueued, t.issued)
  }

  /** The error for a session that is not admissible: no request, more than one, or one that does not decode. */
  ghost function Rejection(cfg: Config, r: Run): GoError {
    var acc := Accepted(r.inbox.arrivals);
    if |acc| == 1 && cfg.decode(r.procedure, acc[0]).Some? then cfg.decode(r.procedure, acc[0]).value
    else
      var why := if acc == [] then "session closed without request"
                 else if r.shape.Unary? then "unary session received multiple messages"
                 else "server-stream session received multiple messages";
      StatusError(Status("invalid_argument", why, false), None)
  }

  /** Exactly-one admission for unary and server-stream; the other shapes enter user code at once. */
  ghost predicate AdmissionInv(cfg: Config, r: Run) {
    var t := r.thread;
    if !r.shape.OneShot() then t.pc.Decided() && !t.verdict.Rejected? && t.invocations == [None]
    else if t.pc.Decided() then
      && r.inbox.eof
      && (if Admissible(cfg, r)
          then t.invocations == [Some(Accepted(r.inbox.arrivals)[0])] && !t.verdict.Rejected?
          else t.invocations == [] && t.sends == [] && t.verdict == Rejected(Rejection(cfg, r)))
    else
      && !r.inbox.eof && t.invocations == [] && t.sends == []
      && (t.pc.AwaitFirst? ==> r.inbox.consumed == [])
      && (t.pc.AwaitEnd? ==> r.inbox.consumed == [t.pc.first])
      && (t.pc.Draining? ==> |r.inbox.consumed| >= 2)
  }

  /** What holds of a session in every interleaving. */
  ghost predicate RunInv(cfg: Config, r: Run) {
    InboundInv(r.inbox) && OutboundInv(cfg, r.id, r.shape, r.thread) && AdmissionInv(cfg, r)
  }

  lemma NewRunInv(cfg: Config, id: Id, procedure: string, shape: Shape, budget: nat, at: nat)
    ensures RunInv(cfg, NewRun(id, procedure, shape, budget, at))
  {
  }

  lemma ArriveKeepsInbound(r: Run, p: Payload)
    requires InboundInv(r.inbox) && !r.inbox.closed
    ensures InboundInv(Arrive(r, p).inbox)
  {
    var x := r.inbox;
    AcceptedSnoc(x.arrivals, Arrival(p, |x.buf|));
    AcceptedCount(x.arrivals);
    if |x.buf| < RECV_CH_BUF_SIZE {
      assert x.consumed + (x.buf + [p]) == (x.consumed + x.buf) + [p];
    }
  }

  /** Nothing arrives once the end of the channel has been seen, so the decision stands. */
  lemma ArriveKeepsAdmission(cfg: Config, r: Run, r': Run)
    requires AdmissionInv(cfg, r) && !r.inbox.eof
    requires r'.thread == r.thread && r'.shape == r.shape && r'.inbox.eof == r.inbox.eof
             && r'.inbox.consumed == r.inbox.consumed
    ensures AdmissionInv(cfg, r')
  {
  }

  lemma ArriveKeepsInv(cfg: Config, r: Run, p: Payload)
    requires RunInv(cfg, r) && !r.inbox.closed
    ensures RunInv(cfg, Arrive(r, p))
  {
    ArriveKeepsInbound(r, p);
    ArriveKeepsAdmission(cfg, r, Arrive(r, p));
  }

  lemma MarksKeepInv(cfg: Config, r: Run, at: nat)
    requires RunInv(cfg, r)
    ensures RunInv(cfg, MarkClosed(r, at)) && RunInv(cfg, CloseChannel(r)) && RunInv(cfg, CancelContext(r))
  {
  }

  lemma ReceiveKeepsInbound(x: Inbox, a: Act)
    requires InboundInv(x) && (a.TakeMessage? ==> x.buf != []) && (a.SeeEof? ==> x.buf == [] && x.closed)
    ensures InboundInv(Receive(x, a))
  {
    if a.TakeMessage? {
      assert x.consumed + x.buf == (x.consumed + [x.buf[0]]) + x.buf[1..];
    }
  }

  lemma ActKeepsAdmission(cfg: Config, r: Run, a: Act, now: nat)
    requires InboundInv(r.inbox) && OutboundInv(cfg, r.id, r.shape, r.thread) && AdmissionInv(cfg, r) && CanAct(r, a)
    ensures AdmissionInv(cfg, Perform(cfg, r, a, now))
  {
    if a.SeeEof? && r.shape.OneShot() {
      var r' := r.(inbox := r.inbox.(eof := true));
      if r.thread.pc.AwaitEnd? {
        AdmitKeepsAdmission(cfg, r', r.thread.pc.first);
      } else {
        RejectKeepsAdmission(cfg, r', if r.thread.pc.AwaitFirst? then NoRequestError() else ManyRequestsError(r.shape));
      }
    }
  }

  lemma RejectKeepsAdmission(cfg: Config, r: Run, e: GoError)
    requires r.shape.OneShot() && r.inbox.eof && r.thread.invocations == [] && r.thread.sends == []
             && !Admissible(cfg, r)
    requires e == Rejection(cfg, r)
    ensures AdmissionInv(cfg, r.(thread := Reject(cfg, r, e)))
  {
  }

  lemma AdmitKeepsAdmission(cfg: Config, r: Run, p: Payload)
    requires r.shape.OneShot() && r.inbox.eof && r.thread.invocations == [] && r.thread.sends == []
    requires Accepted(r.inbox.arrivals) == [p] && r.thread.verdict.Pending?
    ensures AdmissionInv(cfg, r.(thread := Admit(cfg, r, p)))
  {
  }

  lemma ActKeepsOutbound(cfg: Config, r: Run, a: Act)
    requires OutboundInv(cfg, r.id, r.shape, r.thread) && AdmissionInv(cfg, r) && CanAct(r, a)
    ensures OutboundInv(cfg, r.id, r.shape, Advance(cfg, r, a))
  {
    var t := r.thread;
    match a
    case UserSend(data) =>
      assert Output(t) == MessageFrames(r.id, t.sends);
      assert MessageFrames(r.id, t.sends + [data]) == MessageFrames(r.id, t.sends) + [MessageFrame(r.id, data)];
    case UserReturn(res) => assert Output(Advance(cfg, r, a)) == Output(t) + FinalFrames(cfg, r.id, res);
    case SeeEof =>
      if t.pc.AwaitEnd? && cfg.decode(r.procedure, t.pc.first).Some? {
        RejectKeepsOutbound(cfg, r, cfg.decode(r.procedure, t.pc.first).value);
      } else if t.pc.AwaitFirst? || t.pc.Draining? {
        RejectKeepsOutbound(cfg, r, if t.pc.AwaitFirst? then NoRequestError() else ManyRequestsError(r.shape));
      }
    case IssueEnqueued => IssueKeepsOutbound(cfg, r.id, r.shape, t, true);
    case IssueSkipped => IssueKeepsOutbound(cfg, r.id, r.shape, t, false);
    case _ => assert Output(Advance(cfg, r, a)) == Output(t);
  }

  lemma RejectKeepsOutbound(cfg: Config, r: Run, e: GoError)
    requires OutboundInv(cfg, r.id, r.shape, r.thread) && !r.thread.pc.Decided() && r.thread.sends == []
    ensures OutboundInv(cfg, r.id, r.shape, Reject(cfg, r, e))
  {
    assert Output(r.thread) == [];
    assert Output(Reject(cfg, r, e)) == [ToErrorFrame(r.id, e, cfg.mapper)];
  }

  lemma IssueKeepsOutbound(cfg: Config, id: Id, shape: Shape, t: Thread, enq: bool)
    requires OutboundInv(cfg, id, shape, t) && t.pc.Emitting?
    ensures OutboundInv(cfg, id, shape, AfterIssue(t, enq))
  {
    assert Output(AfterIssue(t, enq)) == Output(t);
    SubsequenceSnoc(t.enqueued, t.issued, t.pc.frames[0]);
  }

  lemma ActKeepsInv(cfg: Config, r: Run, a: Act, now: nat)
    requires RunInv(cfg, r) && CanAct(r, a)
    ensures RunInv(cfg, Perform(cfg, r, a, now))
  {
    ReceiveKeepsInbound(r.inbox, a);
    ActKeepsOutbound(cfg, r, a);
    ActKeepsAdmission(cfg, r, a, now);
  }

  // ---- consequences --------------------------------------------------------------------

  /** Exactly-one admission: once the check is over, user code has been entered if and only if the session accepted
      exactly one payload, now that its channel is closed and drained, and that payload decodes; it got that payload,
      once. Otherwise the run's whole output is one error frame, for the reason of the rejection. */
  lemma ExactlyOneAdmission(cfg: Config, r: Run)
    requires RunInv(cfg, r) && (r.shape.Unary? || r.shape.ServerStream?) && r.thread.pc.Decided()
    ensures r.inbox.closed && r.inbox.buf == []
    ensures var acc := Accepted(r.inbox.arrivals);
            r.thread.invocations == if |acc| == 1 && cfg.decode(r.procedure, acc[0]).None? then [Some(acc[0])] else []
    ensures r.thread.invocations == [] ==>
              Output(r.thread) == [ToErrorFrame(r.id, Rejection(cfg, r), cfg.mapper)]
  {
    if r.thread.invocations == [] {
      assert Output(r.thread) == MessageFrames(r.id, []) + VerdictFrames(cfg, r.id, r.thread.verdict);
    }
  }

  lemma VerdictFramesShape(cfg: Config, id: Id, shape: Shape, v: Verdict)
    requires v.Answered? ==> ResultFits(shape, v.res)
    ensures var fs := VerdictFrames(cfg, id, v);
            && (v.Pending? <==> fs == [])
            && (!v.Pending? ==> Grammar(shape, id, fs))
            && |fs| <= 2 && (|fs| == 2 ==> !shape.Sends() && fs[0].kind.MessageType?)
  {
  }

  /** A run that has left `entry.run` has issued one word of its shape's grammar; the word ends in the only terminal
      frame. */
  lemma CompletedOutputGrammar(cfg: Config, r: Run)
    requires RunInv(cfg, r) && !r.thread.pc.Running()
    ensures Grammar(r.shape, r.id, r.thread.issued)
    ensures forall i :: 0 <= i < |r.thread.issued| ==> (Terminal(r.thread.issued[i]) <==> i == |r.thread.issued| - 1)
  {
    var t := r.thread;
    VerdictFramesShape(cfg, r.id, r.shape, t.verdict);
    assert t.issued == Output(t) && (t.sends != [] ==> r.shape.Sends());
    WordGrammar(r.shape, r.id, t.sends, VerdictFrames(cfg, r.id, t.verdict));
  }

  /** Messages followed by a word are a word, for shapes that send messages. */
  lemma WordGrammar(shape: Shape, id: Id, sends: seq<Payload>, end: seq<OutFrame>)
    requires Grammar(shape, id, end) && (sends != [] ==> shape.Sends())
    ensures var fs := MessageFrames(id, sends) + end;
            Grammar(shape, id, fs) && forall i :: 0 <= i < |fs| ==> (Terminal(fs[i]) <==> i == |fs| - 1)
  {
  }

  /** A run still in progress has issued a proper prefix of such a word. */
  lemma RunningOutputGrammar(cfg: Config, r: Run)
    requires RunInv(cfg, r) && r.thread.pc.Running()
    ensures forall f <- r.thread.issued :: f.id == r.id && !Terminal(f) && f.kind.MessageType?
    ensures !r.shape.Sends() ==> |r.thread.issued| <= 1
  {
    var t := r.thread;
    VerdictFramesShape(cfg, r.id, r.shape, t.verdict);
    assert t.issued == Output(t)[..|t.issued|];
  }
}
