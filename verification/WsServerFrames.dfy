/** What the reader goroutine makes of each inbound frame (`handleOpen` to `handleCancel` in `transport/ws/server.go`),
    and which frames cancel a session. */
module WsServerFrames {
  import opened Options
  import opened WsFrames
  import opened WsSession
  import opened WsServer
  import opened WsServerSafety
  import opened WsDialogue

  /** Whatever the other goroutines do meanwhile, the reader is about to write `frame` and then to read on: it can as
      soon as fewer than 64 frames are queued, and gives up only if the connection's context has ended. */
  ghost predicate WillWrite(cfg: Config, reader: Reader, frame: OutFrame) {
    && reader.Replying?
    && forall t: Server :: t.reader == reader && KnownSids(t) && !t.crashed && !t.out.closed ==>
         && (Enabled(t, ByTheReader(ReplyEnqueued)) <==> |t.out.queue| < 64)
         && (forall step :: Enabled(t, ByTheReader(step)) ==> step.ReplyEnqueued? || (step.ReplySkipped? && t.ctxDone))
         && (Enabled(t, ByTheReader(ReplyEnqueued)) ==>
               var t' := Next(cfg, t, ByTheReader(ReplyEnqueued));
               t'.out.sent == t.out.sent + [Tagged(ByReader, frame)] && t'.reader == Reading)
  }

  /** The details of the replies, in the words of the protocol. */
  function DetailOfReply(cfg: Config, reply: Reply): ErrorDetail {
    match reply
    case UnknownProcedure(_, p) => ErrorDetail("not_found", "unknown procedure: " + p, false)
    case ShapeMismatch(_, want, got) =>
      ErrorDetail("invalid_argument", "shape mismatch: want " + want.Name() + ", got " + got, false)
    case TooManyInflight(_) => ErrorDetail("unavailable", "max inflight exceeded", true)
    case SessionNotFound(id) => NotFoundDetail(id)
    case DuplicateSession(id) => ErrorDetail("already_exists", "duplicate session id: " + id, false)
  }

  lemma ReplyWillWrite(cfg: Config, reply: Reply)
    ensures WillWrite(cfg, Replying(reply), ErrorFrame(reply.id, DetailOfReply(cfg, reply)))
  {
    assert ReplyFrame(cfg, reply) == ErrorFrame(reply.id, DetailOfReply(cfg, reply));
  }

  // ---- open frames ---------------------------------------------------------------------------------

  predicate Admits(cfg: Config, s: Server, f: InFrame)
    requires f.Open?
  {
    f.procedure in cfg.handlers && f.shape == cfg.handlers[f.procedure].Name() && s.table.tokens < cfg.maxInflight
  }

  /** The reader's steps from an open frame to the decision on it. */
  function OpenSteps(cfg: Config, s: Server, f: InFrame, budget: nat): seq<Label>
    requires f.Open?
  {
    if !Admits(cfg, s, f) then [ByTheReader(ReadFrame(f))]
    else if f.id !in s.table.sessions then [ByTheReader(ReadFrame(f)), ByTheReader(StartSession(budget))]
    else [ByTheReader(ReadFrame(f)), ByTheReader(StartSession(budget)), ByTheReader(GiveBackToken)]
  }

  /** Why the frame is rejected: as `handleOpen` refuses it, or because its id is in use. */
  function RejectionDetail(cfg: Config, s: Server, f: InFrame): ErrorDetail
    requires f.Open?
  {
    if Admits(cfg, s, f) then ErrorDetail("already_exists", "duplicate session id: " + f.id, false)
    else RefusalDetail(cfg, f)
  }

  /** Nothing has changed, but for the frame read and the error frame that is about to be written. */
  ghost predicate OpenRejected(cfg: Config, s: Server, f: InFrame, s': Server)
    requires f.Open?
  {
    && s' == s.(input := s.input + [f], reader := s'.reader)
    && WillWrite(cfg, s'.reader, ErrorFrame(f.id, RejectionDetail(cfg, s, f)))
  }

  /** A session at its start: unary and server-stream handlers wait for their request, the others are in user code. */
  predicate Begun(r: Run, f: InFrame, shape: Shape, budget: nat, at: nat)
    requires f.Open?
  {
    && r.id == f.id && r.procedure == f.procedure && r.shape == shape && r.openedAt == at
    && r.inbox == Inbox([], false, [], [], false) && r.entry == Entry(false, false, None)
    && var t := r.thread;
       && t.budget == budget && t.sends == [] && t.issued == t.enqueued == [] && t.verdict == Pending
       && if shape.Unary? || shape.ServerStream? then t.pc == AwaitFirst && t.invocations == []
          else t.pc == InUser && t.invocations == [None]
  }

  /** The frame has taken a token and started the session of its id, and nothing else has changed. */
  ghost predicate OpenStarted(cfg: Config, s: Server, f: InFrame, budget: nat, s': Server)
    requires f.Open?
  {
    && f.procedure in cfg.handlers
    && s'.table == Table(s.table.sessions[f.id := |s.runs|], s.table.tokens + 1)
    && |s'.runs| == |s.runs| + 1 && s'.runs[..|s.runs|] == s.runs
    && Begun(s'.runs[|s.runs|], f, cfg.handlers[f.procedure], budget, |s.input|)
    && s' == s.(input := s.input + [f], table := s'.table, runs := s'.runs)
  }

  lemma RefusedOpenReplies(cfg: Config, s: Server, f: InFrame)
    requires f.Open? && Enabled(s, ByTheReader(ReadFrame(f))) && !Admits(cfg, s, f)
    ensures var s' := Next(cfg, s, ByTheReader(ReadFrame(f)));
            OpenRejected(cfg, s, f, s') && Steps(cfg, s, [ByTheReader(ReadFrame(f))], s')
  {
    var ls := [ByTheReader(ReadFrame(f))];
    ReplyWillWrite(cfg, Next(cfg, s, ls[0]).reader.reply);
    assert Steps(cfg, Next(cfg, s, ls[0]), ls[1..], Next(cfg, s, ls[0]));
  }

  lemma DuplicateOpenReplies(cfg: Config, s: Server, f: InFrame, budget: nat)
    requires f.Open? && Enabled(s, ByTheReader(ReadFrame(f))) && Admits(cfg, s, f) && f.id in s.table.sessions
    ensures Steps(cfg, s, [ByTheReader(ReadFrame(f)), ByTheReader(StartSession(budget)), ByTheReader(GiveBackToken)],
                  s.(input := s.input + [f], reader := Replying(DuplicateSession(f.id))))
  {
    var ls := [ByTheReader(ReadFrame(f)), ByTheReader(StartSession(budget)), ByTheReader(GiveBackToken)];
    var s1 := Next(cfg, s, ls[0]);
    assert s1.reader.Acquired? && s1.table == s.table.(tokens := s.table.tokens + 1);
    var s2 := Next(cfg, s1, ls[1]);
    assert s2 == s1.(reader := Duplicate(f.id));
    var s3 := Next(cfg, s2, ls[2]);
    assert s3.table == s.table;
    assert Steps(cfg, s3, ls[1..][1..][1..], s3);
    assert ls[1..][1..][0] == ls[2];
    assert Steps(cfg, s2, ls[1..][1..], s3);
    assert Steps(cfg, s1, ls[1..], s3);
  }

  lemma DuplicateWillWrite(cfg: Config, s: Server, f: InFrame)
    requires f.Open? && Admits(cfg, s, f)
    ensures OpenRejected(cfg, s, f, s.(input := s.input + [f], reader := Replying(DuplicateSession(f.id))))
  {
    ReplyWillWrite(cfg, DuplicateSession(f.id));
  }

  lemma AdmittedOpenStarts(cfg: Config, s: Server, f: InFrame, budget: nat) returns (s': Server)
    requires f.Open? && Enabled(s, ByTheReader(ReadFrame(f))) && Admits(cfg, s, f) && f.id !in s.table.sessions
    ensures Steps(cfg, s, [ByTheReader(ReadFrame(f)), ByTheReader(StartSession(budget))], s')
    ensures OpenStarted(cfg, s, f, budget, s')
  {
    var ls := [ByTheReader(ReadFrame(f)), ByTheReader(StartSession(budget))];
    var s1 := Next(cfg, s, ls[0]);
    assert s1.reader == Acquired(f.id, f.procedure, cfg.handlers[f.procedure], |s.input|);
    s' := Next(cfg, s1, ls[1]);
    assert ls[1..][0] == ls[1] && Steps(cfg, s', ls[1..][1..], s');
    assert Steps(cfg, s1, ls[1..], s');
  }

  /** An open frame starts a session if and only if its procedure is known, its shape right, a token free and its id
      not in use; whatever the reason it is rejected for, the token is back, and tokens, map and sessions are as they
      were. */
  lemma OpenIsDecided(cfg: Config, s: Server, f: InFrame, budget: nat)
    requires Reachable(cfg, s) && f.Open? && Enabled(s, ByTheReader(ReadFrame(f)))
    ensures exists s' :: Steps(cfg, s, OpenSteps(cfg, s, f, budget), s')
              && if Admits(cfg, s, f) && f.id !in s.table.sessions then OpenStarted(cfg, s, f, budget, s')
                 else OpenRejected(cfg, s, f, s')
  {
    if !Admits(cfg, s, f) {
      RefusedOpenReplies(cfg, s, f);
    } else if f.id in s.table.sessions {
      DuplicateOpenReplies(cfg, s, f, budget);
      DuplicateWillWrite(cfg, s, f);
    } else {
      var s' := AdmittedOpenStarts(cfg, s, f, budget);
    }
  }

  // ---- message, close and cancel frames ------------------------------------------------------------------

  /** The reader's steps from such a frame to its effect. */
  function FrameSteps(s: Server, f: InFrame): seq<Label>
    requires KnownSids(s)
  {
    var read := ByTheReader(ReadFrame(f));
    match f
    case Message(id, _) =>
      if id in s.table.sessions && !s.runs[s.table.sessions[id]].entry.closed then [read, ByTheReader(Deliver)]
      else [read]
    case CloseSend(id) => if id in s.table.sessions then [read, ByTheReader(CloseChan)] else [read]
    case Cancel(id) => if id in s.table.sessions then [read, ByTheReader(CancelSession)] else [read]
    case _ => [read]
  }

  /** What a payload does to a session's channel: it is kept unless 64 are buffered. */
  function Delivered(r: Run, p: Payload): Run {
    r.(inbox := r.inbox.(arrivals := r.inbox.arrivals + [Arrival(p, |r.inbox.buf|)],
                         buf := if |r.inbox.buf| < 64 then r.inbox.buf + [p] else r.inbox.buf))
  }

  /** What a close frame does to a session: it takes no more messages, and its channel is closed. */
  function ClosedBy(r: Run, at: nat): Run {
    r.(inbox := r.inbox.(closed := true),
       entry := Entry(true, r.entry.cancelled, if r.entry.stoppedAt.None? then Some(at) else r.entry.stoppedAt))
  }

  /** The effect: a message for an id without a session is answered, every other frame for one is ignored, and a frame
      for a session changes that session only; map and tokens stay. */
  ghost predicate FrameHandled(cfg: Config, s: Server, f: InFrame, s': Server)
    requires KnownSids(s)
  {
    && s' == s.(input := s.input + [f], reader := s'.reader, runs := s'.runs)
    && if f.Junk? || f.Open? || f.id !in s.table.sessions then
         && s'.runs == s.runs
         && if f.Message? then WillWrite(cfg, s'.reader, ErrorFrame(f.id, NotFoundDetail(f.id)))
            else s'.reader == Reading
       else
         var sid := s.table.sessions[f.id]; var r := s.runs[sid];
         && s'.reader == Reading
         && s'.runs == s.runs[sid := match f
                                     case Message(_, p) => if r.entry.closed then r else Delivered(r, p)
                                     case CloseSend(_) => ClosedBy(r, |s.input|)
                                     case _ => r.(entry := r.entry.(cancelled := true))]
  }

  lemma OneStep(cfg: Config, s: Server, l: Label)
    requires Enabled(s, l)
    ensures Steps(cfg, s, [l], Next(cfg, s, l))
  {
    assert [l][1..] == [];
  }

  lemma TwoSteps(cfg: Config, s: Server, l: Label, m: Label)
    requires Enabled(s, l) && Enabled(Next(cfg, s, l), m)
    ensures Steps(cfg, s, [l, m], Next(cfg, Next(cfg, s, l), m))
  {
    assert [l, m][1..] == [m];
    OneStep(cfg, Next(cfg, s, l), m);
  }

  lemma MessageHandled(cfg: Config, s: Server, f: InFrame) returns (s': Server)
    requires Inv(cfg, s) && f.Message? && Enabled(s, ByTheReader(ReadFrame(f)))
    ensures Steps(cfg, s, FrameSteps(s, f), s') && FrameHandled(cfg, s, f, s')
  {
    var read := ByTheReader(ReadFrame(f));
    s' := Next(cfg, s, read);
    OneStep(cfg, s, read);
    if f.id !in s.table.sessions {
      ReplyWillWrite(cfg, SessionNotFound(f.id));
    } else {
      var sid := s.table.sessions[f.id];
      assert s.runs[sid := s.runs[sid]] == s.runs;
      if !s.runs[sid].entry.closed {
        assert !s.runs[sid].inbox.closed;
        TwoSteps(cfg, s, read, ByTheReader(Deliver));
        s' := Next(cfg, s', ByTheReader(Deliver));
      }
    }
  }

  lemma CloseHandled(cfg: Config, s: Server, f: InFrame) returns (s': Server)
    requires Inv(cfg, s) && f.CloseSend? && Enabled(s, ByTheReader(ReadFrame(f)))
    ensures Steps(cfg, s, FrameSteps(s, f), s') && FrameHandled(cfg, s, f, s')
  {
    var read := ByTheReader(ReadFrame(f));
    s' := Next(cfg, s, read);
    OneStep(cfg, s, read);
    if f.id in s.table.sessions {
      TwoSteps(cfg, s, read, ByTheReader(CloseChan));
      s' := Next(cfg, s', ByTheReader(CloseChan));
    }
  }

  lemma CancelHandled(cfg: Config, s: Server, f: InFrame) returns (s': Server)
    requires Inv(cfg, s) && f.Cancel? && Enabled(s, ByTheReader(ReadFrame(f)))
    ensures Steps(cfg, s, FrameSteps(s, f), s') && FrameHandled(cfg, s, f, s')
  {
    var read := ByTheReader(ReadFrame(f));
    s' := Next(cfg, s, read);
    OneStep(cfg, s, read);
    if f.id in s.table.sessions {
      TwoSteps(cfg, s, read, ByTheReader(CancelSession));
      s' := Next(cfg, s', ByTheReader(CancelSession));
    }
  }

  lemma JunkHandled(cfg: Config, s: Server, f: InFrame) returns (s': Server)
    requires f.Junk? && Enabled(s, ByTheReader(ReadFrame(f)))
    ensures Steps(cfg, s, FrameSteps(s, f), s') && FrameHandled(cfg, s, f, s')
  {
    s' := Next(cfg, s, ByTheReader(ReadFrame(f)));
    OneStep(cfg, s, ByTheReader(ReadFrame(f)));
  }

  lemma OtherFrameHandled(cfg: Config, s: Server, f: InFrame) returns (s': Server)
    requires Inv(cfg, s) && Enabled(s, ByTheReader(ReadFrame(f))) && !f.Open?
    ensures Steps(cfg, s, FrameSteps(s, f), s') && FrameHandled(cfg, s, f, s')
  {
    if f.Message? {
      s' := MessageHandled(cfg, s, f);
    } else if f.CloseSend? {
      s' := CloseHandled(cfg, s, f);
    } else if f.Cancel? {
      s' := CancelHandled(cfg, s, f);
    } else {
      s' := JunkHandled(cfg, s, f);
    }
  }

  /** Every frame other than an open frame has its effect on the session of its id, if there is one, and on nothing
      else. */
  lemma FrameIsHandled(cfg: Config, s: Server, f: InFrame)
    requires Reachable(cfg, s) && Enabled(s, ByTheReader(ReadFrame(f))) && !f.Open?
    ensures exists s' :: Steps(cfg, s, FrameSteps(s, f), s') && FrameHandled(cfg, s, f, s')
  {
    ReachableInv(cfg, s);
    var s' := OtherFrameHandled(cfg, s, f);
  }

  // ---- cancellation ------------------------------------------------------------------------------------------

  /** A cancel frame for the session has been read since it was opened. */
  predicate AskedToCancel(s: Server, r: Run)
    requires r.openedAt < |s.input|
  {
    Cancel(r.id) in s.input[r.openedAt + 1..]
  }

  /** While `readLoop` runs, the context of a session is cancelled only by a cancel frame for it or by its own end; and
      a registered session that was asked to has its context cancelled, or is about to. */
  ghost predicate CancelRunInv(s: Server, i: nat)
    requires i < |s.runs| && s.runs[i].openedAt < |s.input|
  {
    var r := s.runs[i];
    && (r.thread.pc.Done? ==> r.entry.cancelled)
    && (s.reader.Active() && !r.thread.pc.Done? && r.entry.cancelled ==> AskedToCancel(s, r))
    && (s.reader.Active() && r.thread.pc.Live() && AskedToCancel(s, r) ==>
          r.entry.cancelled || s.reader == CancellingSession(i))
    && (s.reader == CancellingSession(i) ==> AskedToCancel(s, r))
  }

  ghost predicate Opened(s: Server) {
    forall i :: 0 <= i < |s.runs| ==> s.runs[i].openedAt < |s.input|
  }

  ghost predicate CancelInv(s: Server) {
    Opened(s) && forall i :: 0 <= i < |s.runs| ==> CancelRunInv(s, i)
  }

  lemma InputGrows(s: Server, f: InFrame, r: Run)
    requires r.openedAt < |s.input|
    ensures var s' := s.(input := s.input + [f]);
            AskedToCancel(s', r) <==> AskedToCancel(s, r) || f == Cancel(r.id)
  {
    assert (s.input + [f])[r.openedAt + 1..] == s.input[r.openedAt + 1..] + [f];
  }

  lemma ReadKeepsCancel(cfg: Config, s: Server, f: InFrame)
    requires Inv(cfg, s) && CancelInv(s) && Enabled(s, ByTheReader(ReadFrame(f)))
    ensures CancelInv(Next(cfg, s, ByTheReader(ReadFrame(f))))
  {
    var s' := Next(cfg, s, ByTheReader(ReadFrame(f)));
    ReaderFrame(cfg, s, ReadFrame(f));
    ReaderMoves(cfg, s, ReadFrame(f));
    forall i | 0 <= i < |s'.runs|
      ensures s'.runs[i].openedAt < |s'.input| && CancelRunInv(s', i)
    {
      assert CancelRunInv(s, i);
      InputGrows(s, f, s.runs[i]);
    }
  }

  lemma ReaderLeavesCancelling(cfg: Config, s: Server, step: ReaderAct)
    requires KnownSids(s) && ReaderEnabled(s, step) && !step.ReadFrame?
    ensures var s' := ReaderNext(cfg, s, step);
            && (s'.reader.Active() ==> s.reader.Active()) && !s'.reader.CancellingSession? && s'.input == s.input
            && (s.reader.CancellingSession? ==>
                  s.reader.sid < |s'.runs| && s'.runs[s.reader.sid].entry.cancelled)
  {
  }

  lemma MovedKeepsCancel(s: Server, s': Server, step: ReaderAct, i: nat)
    requires i < |s.runs| && i < |s'.runs| && s.runs[i].openedAt < |s.input| && CancelRunInv(s, i)
    requires ReaderMoved(s, step, i, s'.runs[i]) && s'.input == s.input && !step.ReadFrame?
    requires (s'.reader.Active() ==> s.reader.Active()) && !s'.reader.CancellingSession?
    requires s.reader == CancellingSession(i) ==> s'.runs[i].entry.cancelled
    ensures s'.runs[i].openedAt < |s'.input| && CancelRunInv(s', i)
  {
  }

  lemma StartKeepsCancel(cfg: Config, s: Server, budget: nat)
    requires Inv(cfg, s) && s.reader.Acquired? && s.reader.id !in s.table.sessions
    ensures var s' := HandleStart(s, budget);
            |s'.runs| == |s.runs| + 1 && s'.runs[|s.runs|].openedAt < |s'.input| && CancelRunInv(s', |s.runs|)
  {
  }

  lemma StepKeepsCancel(cfg: Config, s: Server, step: ReaderAct)
    requires Inv(cfg, s) && CancelInv(s) && Enabled(s, ByTheReader(step)) && !step.ReadFrame?
    ensures CancelInv(ReaderNext(cfg, s, step))
  {
    var s' := ReaderNext(cfg, s, step);
    ReaderMoves(cfg, s, step);
    ReaderLeavesCancelling(cfg, s, step);
    if step.StartSession? && s.reader.id !in s.table.sessions {
      StartKeepsCancel(cfg, s, step.budget);
    }
    forall i | 0 <= i < |s'.runs|
      ensures s'.runs[i].openedAt < |s'.input| && CancelRunInv(s', i)
    {
      if i < |s.runs| {
        MovedKeepsCancel(s, s', step, i);
      }
    }
  }

  lemma ActCancels(cfg: Config, r: Run, a: Act, now: nat)
    requires CanAct(r, a)
    ensures var r' := Perform(cfg, r, a, now);
            && r'.id == r.id && r'.openedAt == r.openedAt && !r.thread.pc.Done?
            && (r'.entry.cancelled <==> r.entry.cancelled || a.CancelSelf?) && (r'.thread.pc.Done? <==> a.CancelSelf?)
            && (r'.thread.pc.Live() ==> r.thread.pc.Live())
  {
  }

  lemma HandlerLeavesReader(cfg: Config, s: Server, sid: nat, a: Act)
    requires sid < |s.runs| && HandlerEnabled(s, sid, a)
    ensures var s' := HandlerStep(cfg, s, sid, a);
            && s'.reader == s.reader && s'.input == s.input
            && s'.runs == s.runs[sid := Perform(cfg, s.runs[sid], a, |s.input|)]
  {
  }

  lemma HandlerKeepsCancel(cfg: Config, s: Server, sid: nat, a: Act)
    requires CancelInv(s) && sid < |s.runs| && HandlerEnabled(s, sid, a)
    ensures CancelInv(HandlerStep(cfg, s, sid, a))
  {
    var s' := HandlerStep(cfg, s, sid, a);
    HandlerLeavesReader(cfg, s, sid, a);
    ActCancels(cfg, s.runs[sid], a, |s.input|);
    ActedKeepsCancel(s, s', sid);
  }

  lemma ActedKeepsCancel(s: Server, s': Server, sid: nat)
    requires CancelInv(s) && sid < |s.runs| == |s'.runs| && s'.reader == s.reader && s'.input == s.input
    requires forall i :: 0 <= i < |s.runs| && i != sid ==> s'.runs[i] == s.runs[i]
    requires var r, r' := s.runs[sid], s'.runs[sid];
             && r'.id == r.id && r'.openedAt == r.openedAt && !r.thread.pc.Done?
             && (r'.entry.cancelled <==> r.entry.cancelled || r'.thread.pc.Done?)
             && (r'.thread.pc.Live() ==> r.thread.pc.Live())
    ensures CancelInv(s')
  {
    forall i | 0 <= i < |s.runs|
      ensures s'.runs[i].openedAt < |s'.input| && CancelRunInv(s', i)
    {
      assert CancelRunInv(s, i);
    }
  }

  lemma NextKeepsCancel(cfg: Config, s: Server, l: Label)
    requires Inv(cfg, s) && CancelInv(s) && Enabled(s, l)
    ensures CancelInv(Next(cfg, s, l))
  {
    match l
    case ByTheReader(step) =>
      if step.ReadFrame? {
        ReadKeepsCancel(cfg, s, step.frame);
      } else {
        StepKeepsCancel(cfg, s, step);
      }
    case ByHandler(sid, a) => HandlerKeepsCancel(cfg, s, sid, a);
    case ByTheWriter(move) => CancelFrame(s, WriterNext(s, move));
    case ParentCancelled => CancelFrame(s, s.(ctxDone := true));
  }

  lemma CancelFrame(s: Server, s': Server)
    requires CancelInv(s) && s'.runs == s.runs && s'.input == s.input && s'.reader == s.reader
    ensures CancelInv(s')
  {
    forall i | 0 <= i < |s.runs|
      ensures CancelRunInv(s', i)
    {
      assert CancelRunInv(s, i);
    }
  }

  lemma {:induction false} StepsKeepCancel(cfg: Config, s0: Server, ls: seq<Label>, s: Server)
    requires Inv(cfg, s0) && CancelInv(s0) && Steps(cfg, s0, ls, s)
    ensures CancelInv(s)
    decreases |ls|
  {
    if ls != [] {
      NextKeepsInv(cfg, s0, ls[0]);
      NextKeepsCancel(cfg, s0, ls[0]);
      StepsKeepCancel(cfg, Next(cfg, s0, ls[0]), ls[1..], s);
    }
  }

  /** Cancellation in every run: while `readLoop` runs, a session in the map has its context cancelled if and only if a
      cancel frame for its id was read after its open frame, but for the moment between the two; and a handler that is
      done has cancelled its own. */
  lemma CancelledByFrame(cfg: Config, s: Server, i: nat)
    requires Reachable(cfg, s) && i < |s.runs|
    ensures var r := s.runs[i];
            && r.openedAt < |s.input| && (r.thread.pc.Done? ==> r.entry.cancelled)
            && (s.reader.Active() && r.thread.pc.Live() && s.reader != CancellingSession(i) ==>
                  (r.entry.cancelled <==> Cancel(r.id) in s.input[r.openedAt + 1..]))
            && (s.reader.Active() && !r.thread.pc.Done? && r.entry.cancelled ==>
                  Cancel(r.id) in s.input[r.openedAt + 1..])
  {
    var ls :| Steps(cfg, Init(), ls, s);
    InitInv(cfg);
    StepsKeepCancel(cfg, Init(), ls, s);
    assert CancelRunInv(s, i);
  }
}
