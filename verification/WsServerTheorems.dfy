/** What the server guarantees in every reachable state, and that it shuts down. */
module WsServerTheorems {
  import opened Options
  import opened WsFrames
  import opened WsSession
  import opened WsServer
  import opened WsServerSafety

  // ---- tokens and the session map -----------------------------------------------------------

  /** Nothing panics: a session's channel is open when the reader is about to send on it, `writeCh` when a goroutine is
      about to write to it, and neither is closed twice. */
  lemma NothingPanics(cfg: Config, s: Server)
    requires Reachable(cfg, s)
    ensures !s.crashed
    ensures s.reader.Delivering? ==> s.reader.sid < |s.runs| && !s.runs[s.reader.sid].inbox.closed
    ensures s.out.closed ==>
              !s.reader.Replying? && !s.reader.AwaitingHandlers? && forall r <- s.runs :: !r.thread.pc.Emitting?
  {
    ReachableInv(cfg, s);
  }

  /** Tokens are accounted for: sessions never exceed the limit, and a goroutine at `<-sem` finds a token. */
  lemma TokensBalance(cfg: Config, s: Server)
    requires Reachable(cfg, s)
    ensures !s.crashed
    ensures s.table.tokens == |s.table.sessions| + Releasers(s.runs) + (if s.reader.HoldsToken() then 1 else 0)
    ensures |s.table.sessions| <= s.table.tokens <= cfg.maxInflight
    ensures s.reader.Duplicate? ==> s.table.tokens > 0
    ensures forall i :: 0 <= i < |s.runs| && s.runs[i].thread.pc.Releasing? ==> s.table.tokens > 0
  {
    ReachableInv(cfg, s);
    forall i | 0 <= i < |s.runs| && s.runs[i].thread.pc.Releasing?
      ensures s.table.tokens > 0
    {
      ReleasersUpdate(s.runs, i, s.runs[i]);
    }
  }

  /** A deferred delete removes the session's own entry and no other one. */
  lemma DeleteRemovesOwnEntry(cfg: Config, s: Server, sid: nat)
    requires Reachable(cfg, s) && Enabled(s, ByHandler(sid, DeleteSelf))
    ensures var s' := Next(cfg, s, ByHandler(sid, DeleteSelf));
            && s.runs[sid].id in s.table.sessions && s.table.sessions[s.runs[sid].id] == sid
            && s'.table.sessions.Keys == s.table.sessions.Keys - {s.runs[sid].id}
            && (forall id <- s'.table.sessions :: s'.table.sessions[id] == s.table.sessions[id] != sid)
  {
    ReachableInv(cfg, s);
    HandlerFrame(cfg, s, sid, DeleteSelf);
  }

  // ---- inbound --------------------------------------------------------------------------------

  /** What the receive channel did with the payloads that arrived: it kept them in order, lost one only when 64 were
      buffered (so never among the first 64), and showed the end of the stream only after the last one. */
  ghost predicate InboxConserves(x: Inbox) {
    var acc := Accepted(x.arrivals);
    && Subsequence(acc, Payloads(x.arrivals))
    && (if forall k :: 0 <= k < |x.arrivals| ==> x.arrivals[k].buffered < 64
        then acc == Payloads(x.arrivals) else |acc| < |x.arrivals|)
    && (|x.arrivals| <= 64 ==> acc == Payloads(x.arrivals))
    && x.consumed + x.buf == acc && |x.buf| <= 64
    && (x.eof ==> x.closed && x.consumed == acc)
  }

  lemma InboxConservation(x: Inbox)
    requires InboundInv(x)
    ensures InboxConserves(x)
  {
    AcceptedIsSubsequence(x.arrivals);
  }

  /** Inbound conservation and order. `RouteRunInv` says that the arrivals are the message frames for the session's id
      in its window, which starts at its open frame; `CloseRunInv`, that the window ends at the first close frame, or
      where the session was deregistered, or, while it takes messages, at the last frame read. */
  lemma InboundConservation(cfg: Config, s: Server, i: nat)
    requires Reachable(cfg, s) && i < |s.runs|
    ensures InboxConserves(s.runs[i].inbox) && RouteRunInv(s, i) && CloseRunInv(s, s.runs[i])
  {
    ReachableInv(cfg, s);
    InboxConservation(s.runs[i].inbox);
  }

  /** A drop is recorded with the true number of buffered payloads: 64. */
  lemma DropOnlyWhenFull(cfg: Config, s: Server)
    requires Reachable(cfg, s) && s.reader.Delivering?
    ensures Enabled(s, ByTheReader(Deliver))
    ensures var x := s.runs[s.reader.sid].inbox; var x' := Next(cfg, s, ByTheReader(Deliver)).runs[s.reader.sid].inbox;
            && x'.arrivals == x.arrivals + [Arrival(s.reader.payload, |x.buf|)]
            && (x'.buf == x.buf <==> |x.buf| == 64)
            && (|x.buf| < 64 ==> x'.buf == x.buf + [s.reader.payload])
  {
    ReachableInv(cfg, s);
  }

  /** Exactly-one admission over every interleaving. */
  lemma AdmissionInEveryRun(cfg: Config, s: Server, i: nat)
    requires Reachable(cfg, s) && i < |s.runs| && (s.runs[i].shape.Unary? || s.runs[i].shape.ServerStream?)
    ensures var r := s.runs[i]; var acc := Accepted(r.inbox.arrivals);
            if r.thread.pc.Decided() then
              && r.inbox.closed && r.inbox.consumed == acc
              && r.thread.invocations
                 == (if |acc| == 1 && cfg.decode(r.procedure, acc[0]).None? then [Some(acc[0])] else [])
              && (r.thread.invocations == [] ==>
                    Output(r.thread) == [ToErrorFrame(r.id, Rejection(cfg, r), cfg.mapper)])
            else r.thread.invocations == [] && r.thread.issued == []
  {
    ReachableInv(cfg, s);
    var r := s.runs[i];
    if r.thread.pc.Decided() {
      ExactlyOneAdmission(cfg, r);
    }
  }

  // ---- outbound -------------------------------------------------------------------------------

  lemma {:induction false} EnqueuedByConcat(a: seq<Tagged>, b: seq<Tagged>, o: Origin)
    ensures EnqueuedBy(a + b, o) == EnqueuedBy(a, o) + EnqueuedBy(b, o)
  {
    if b == [] {
      assert a + b == a;
    } else {
      var front := b[..|b| - 1];
      EnqueuedByConcat(a, front, o);
      assert (a + b)[..|a + b| - 1] == a + front;
    }
  }

  /** Per-run output: the run's frames, of its own id, form a word of its grammar (or a terminal-free prefix while it
      runs). The writer dequeues a subsequence of them in order, and all of them if the connection's context never
      ended. */
  lemma OutputInEveryRun(cfg: Config, s: Server, i: nat)
    requires Reachable(cfg, s) && i < |s.runs|
    ensures var r := s.runs[i]; var t := r.thread;
            && (if t.pc.Running() then forall f <- t.issued :: f.id == r.id && f.kind.MessageType? && !Terminal(f)
                else Grammar(r.shape, r.id, t.issued)
                     && forall k :: 0 <= k < |t.issued| ==> (Terminal(t.issued[k]) <==> k == |t.issued| - 1))
            && EnqueuedBy(s.out.dequeued, ByRun(i)) + EnqueuedBy(s.out.queue, ByRun(i)) == t.enqueued
            && Subsequence(t.enqueued, t.issued)
            && (!s.ctxDone ==> t.enqueued == t.issued)
    ensures s.out.wire <= Frames(s.out.dequeued) && s.out.dequeued + s.out.queue == s.out.sent
  {
    ReachableInv(cfg, s);
    var r := s.runs[i];
    if r.thread.pc.Running() {
      RunningOutputGrammar(cfg, r);
    } else {
      CompletedOutputGrammar(cfg, r);
    }
    EnqueuedByConcat(s.out.dequeued, s.out.queue, ByRun(i));
  }

  /** A handler that writes a frame waits exactly while 64 frames are queued, and gives up only if the connection's
      context has ended. */
  lemma WritesWaitAtBound(cfg: Config, s: Server, sid: nat)
    requires Reachable(cfg, s) && sid < |s.runs| && s.runs[sid].thread.pc.Emitting?
    ensures Enabled(s, ByHandler(sid, IssueEnqueued)) <==> |s.out.queue| < 64
    ensures Enabled(s, ByHandler(sid, IssueSkipped)) <==> s.ctxDone
    ensures |s.out.queue| <= 64
  {
    ReachableInv(cfg, s);
    EmittingFrames(cfg, s.runs[sid]);
    EmittingWaits(s, sid);
  }

  lemma EmittingFrames(cfg: Config, r: Run)
    requires RunInv(cfg, r) && r.thread.pc.Emitting?
    ensures r.thread.pc.frames != []
  {
  }

  lemma EmittingWaits(s: Server, sid: nat)
    requires KnownSids(s) && DrainInv(s) && QueueInv(s) && sid < |s.runs|
    requires s.runs[sid].thread.pc.Emitting? && s.runs[sid].thread.pc.frames != []
    ensures Enabled(s, ByHandler(sid, IssueEnqueued)) <==> |s.out.queue| < 64
    ensures Enabled(s, ByHandler(sid, IssueSkipped)) <==> s.ctxDone
    ensures |s.out.queue| <= 64
  {
    assert !s.out.closed;
  }

  // ---- shutdown: safety ---------------------------------------------------------------------

  lemma HandlerAddsNoSession(cfg: Config, s: Server, sid: nat, a: Act)
    requires sid < |s.runs| && HandlerEnabled(s, sid, a)
    ensures var s' := HandlerStep(cfg, s, sid, a);
            s'.reader == s.reader && |s'.runs| == |s.runs| && s'.table.sessions.Keys <= s.table.sessions.Keys
  {
  }

  lemma ShutdownAddsNoSession(cfg: Config, s: Server, step: ReaderAct)
    requires KnownSids(s) && ReaderEnabled(s, step) && !s.reader.Active()
    ensures var s' := ReaderNext(cfg, s, step);
            !s'.reader.Active() && |s'.runs| == |s.runs| && s'.table.sessions.Keys <= s.table.sessions.Keys
  {
  }

  lemma StepAddsNoSession(cfg: Config, s: Server, l: Label)
    requires Enabled(s, l) && !s.reader.Active()
    ensures var s' := Next(cfg, s, l);
            !s'.reader.Active() && |s'.runs| == |s.runs| && s'.table.sessions.Keys <= s.table.sessions.Keys
  {
    match l
    case ByTheReader(step) => ShutdownAddsNoSession(cfg, s, step);
    case ByHandler(sid, a) => HandlerAddsNoSession(cfg, s, sid, a);
    case _ =>
  }

  /** Once `readLoop` has returned it has returned for good, and no session is added in any continuation. */
  lemma {:induction false} NoSessionAfterReadLoop(cfg: Config, s: Server, ls: seq<Label>, s': Server)
    requires !s.reader.Active() && Steps(cfg, s, ls, s')
    ensures !s'.reader.Active() && |s'.runs| == |s.runs| && s'.table.sessions.Keys <= s.table.sessions.Keys
    decreases |ls|
  {
    if ls != [] {
      StepAddsNoSession(cfg, s, ls[0]);
      NoSessionAfterReadLoop(cfg, Next(cfg, s, ls[0]), ls[1..], s');
    }
  }

  /** After `closeAllSessions` every handler still in `run` has a closed channel and a cancelled context; `writeCh` is
      closed only when no goroutine is left that could write to it. */
  lemma ShutdownUnblocksHandlers(cfg: Config, s: Server)
    requires Reachable(cfg, s)
    ensures s.reader.AllClosed() ==> s.ctxDone && forall r <- s.runs :: r.thread.pc.Running() ==>
            r.inbox.closed && r.entry.cancelled
    ensures s.out.closed ==> !s.reader.Active() && forall r <- s.runs :: r.thread.pc.Done?
  {
    ReachableInv(cfg, s);
  }

  lemma EmptyAtReturn(cfg: Config, s: Server)
    requires Inv(cfg, s) && s.reader.Returned?
    ensures s.table == Table(map[], 0) && s.out.queue == [] && s.writer.Exited?
            && forall r <- s.runs :: r.thread.pc.Done?
  {
    assert s.table.sessions == map[];
    NoReleasers(s.runs);
  }

  lemma {:induction false} NoReleasers(runs: seq<Run>)
    requires forall r <- runs :: r.thread.pc.Done?
    ensures Releasers(runs) == 0
  {
    if runs != [] {
      NoReleasers(runs[..|runs| - 1]);
    }
  }

  // ---- shutdown: termination ------------------------------------------------------------------

  function PcWeight(pc: Pc): nat {
    match pc
    case Done => 0
    case Cancelling => 1
    case Releasing => 2
    case Deleting => 3
    case Emitting(fs, back) => (if back then 8 else 3) + 2 * |fs|
    case Draining => 6
    case InUser => 8
    case AwaitEnd(_) => 9
    case AwaitFirst => 10
  }

  /** What a handler can still do, counting its remaining user actions, buffered payloads and frames. */
  function RunWeight(r: Run): nat {
    PcWeight(r.thread.pc) + 4 * r.thread.budget + |r.inbox.buf|
  }

  function RunsWeight(runs: seq<Run>): nat {
    if runs == [] then 0 else RunsWeight(runs[..|runs| - 1]) + RunWeight(runs[|runs| - 1])
  }

  function ReaderWeight(s: Server): nat {
    match s.reader
    case Returned => 0
    case AwaitingWriter => 1
    case AwaitingHandlers => 2
    case ClosingAll(todo) => 3 + |todo|
    case ContextCancelled => 4 + |s.table.sessions|
    case _ => 5 + |s.table.sessions|
  }

  function WriterWeight(w: Writer): nat {
    match w
    case Looping => 2
    case Discarding => 1
    case Exited => 0
  }

  function Measure(s: Server): nat {
    ReaderWeight(s) + RunsWeight(s.runs) + WriterWeight(s.writer) + |s.out.queue| + if s.ctxDone then 0 else 1
  }

  lemma {:induction false} RunsWeightUpdate(runs: seq<Run>, i: nat, r: Run)
    requires i < |runs|
    ensures RunsWeight(runs[i := r]) + RunWeight(runs[i]) == RunsWeight(runs) + RunWeight(r)
  {
    var n := |runs| - 1;
    if i < n {
      RunsWeightUpdate(runs[..n], i, r);
      assert runs[i := r][..n] == runs[..n][i := r];
    } else {
      assert runs[i := r][..n] == runs[..n];
    }
  }

  lemma ReceiveLowersWeight(cfg: Config, r: Run, a: Act, now: nat)
    requires CanAct(r, a) && (a.TakeMessage? || a.SeeEof?)
    ensures RunWeight(Perform(cfg, r, a, now)) < RunWeight(r)
  {
  }

  lemma UserLowersWeight(cfg: Config, r: Run, a: Act, now: nat)
    requires CanAct(r, a) && (a.UserSend? || a.UserSendFailed? || a.UserReturn?)
    ensures RunWeight(Perform(cfg, r, a, now)) < RunWeight(r)
  {
    if a.UserReturn? {
      VerdictFramesShape(cfg, r.id, r.shape, Answered(a.res));
    }
  }

  lemma IssueLowersWeight(cfg: Config, r: Run, a: Act, now: nat)
    requires RunInv(cfg, r) && CanAct(r, a) && (a.IssueEnqueued? || a.IssueSkipped?)
    ensures RunWeight(Perform(cfg, r, a, now)) + 1 < RunWeight(r)
  {
  }

  /** Every action of a handler, with the frame it may put in the queue, lowers the handler's weight. */
  lemma ActLowersWeight(cfg: Config, r: Run, a: Act, now: nat)
    requires RunInv(cfg, r) && CanAct(r, a)
    ensures RunWeight(Perform(cfg, r, a, now)) + (if a.IssueEnqueued? then 1 else 0) < RunWeight(r)
  {
    if a.TakeMessage? || a.SeeEof? {
      ReceiveLowersWeight(cfg, r, a, now);
    } else if a.UserSend? || a.UserSendFailed? || a.UserReturn? {
      UserLowersWeight(cfg, r, a, now);
    } else if a.IssueEnqueued? || a.IssueSkipped? {
      IssueLowersWeight(cfg, r, a, now);
    }
  }

  lemma HandlerWeights(cfg: Config, s: Server, sid: nat, a: Act)
    requires sid < |s.runs| && HandlerEnabled(s, sid, a)
    ensures var s' := HandlerStep(cfg, s, sid, a);
            && s'.runs == s.runs[sid := Perform(cfg, s.runs[sid], a, |s.input|)]
            && s'.reader == s.reader && s'.ctxDone == s.ctxDone && s'.writer == s.writer
            && |s'.out.queue| == |s.out.queue| + (if a.IssueEnqueued? then 1 else 0)
            && |s'.table.sessions| <= |s.table.sessions|
  {
    if a.DeleteSelf? {
      var m := s.table.sessions;
      var id := s.runs[sid].id;
      assert (m - {id}).Keys == m.Keys - {id};
      assert |m - {id}| <= |m|;
    }
  }

  lemma LighterRunLowersMeasure(s: Server, s': Server, sid: nat, r: Run, queued: nat)
    requires sid < |s.runs| && s'.runs == s.runs[sid := r] && RunWeight(r) + queued < RunWeight(s.runs[sid])
    requires s'.reader == s.reader && s'.ctxDone == s.ctxDone && s'.writer == s.writer
    requires |s'.out.queue| == |s.out.queue| + queued && |s'.table.sessions| <= |s.table.sessions|
    ensures Measure(s') < Measure(s)
  {
    RunsWeightUpdate(s.runs, sid, r);
  }

  lemma HandlerLowersMeasure(cfg: Config, s: Server, sid: nat, a: Act)
    requires sid < |s.runs| && RunInv(cfg, s.runs[sid]) && HandlerEnabled(s, sid, a)
    ensures Measure(HandlerStep(cfg, s, sid, a)) < Measure(s)
  {
    HandlerWeights(cfg, s, sid, a);
    ActLowersWeight(cfg, s.runs[sid], a, |s.input|);
    LighterRunLowersMeasure(s, HandlerStep(cfg, s, sid, a), sid, Perform(cfg, s.runs[sid], a, |s.input|),
                            if a.IssueEnqueued? then 1 else 0);
  }

  lemma CloseOneLowersMeasure(s: Server, id: Id)
    requires KnownSids(s) && s.reader.ClosingAll? && id in s.reader.todo && id in s.table.sessions
    ensures Measure(CloseSession(s, id)) < Measure(s)
  {
    var sid := s.table.sessions[id];
    RunsWeightUpdate(s.runs, sid, CloseChannel(CancelContext(s.runs[sid])));
  }

  lemma ReaderLowersMeasure(cfg: Config, s: Server, step: ReaderAct)
    requires KnownSids(s) && ReaderEnabled(s, step) && !s.reader.Active()
    ensures Measure(ReaderNext(cfg, s, step)) < Measure(s)
  {
    if step.CloseOne? {
      CloseOneLowersMeasure(s, step.id);
    } else {
      assert ReaderNext(cfg, s, step).runs == s.runs;
    }
  }

  /** After `readLoop` has returned, every step of every goroutine lowers the measure. */
  lemma NextLowersMeasure(cfg: Config, s: Server, l: Label)
    requires RunsInv(cfg, s) && Enabled(s, l) && !s.reader.Active()
    ensures Measure(Next(cfg, s, l)) < Measure(s)
  {
    match l
    case ByTheReader(step) => ReaderLowersMeasure(cfg, s, step);
    case ByHandler(sid, a) => HandlerLowersMeasure(cfg, s, sid, a);
    case ByTheWriter(move) => assert WriterNext(s, move).runs == s.runs;
    case ParentCancelled =>
  }

  /** After `closeAllSessions` no handler waits for ever: whatever its next operation is, it can proceed. */
  lemma NoHandlerBlocks(cfg: Config, s: Server, sid: nat)
    requires KnownSids(s) && ClosingInv(s) && TokenInv(cfg, s) && s.reader.AllClosed()
    requires sid < |s.runs| && OutboundInv(cfg, s.runs[sid].id, s.runs[sid].shape, s.runs[sid].thread)
    ensures var r := s.runs[sid]; var pc := r.thread.pc;
            && (MayReceive(r) ==> HandlerEnabled(s, sid, TakeMessage) || HandlerEnabled(s, sid, SeeEof))
            && (pc.Emitting? ==> HandlerEnabled(s, sid, IssueSkipped))
            && (pc.Deleting? ==> HandlerEnabled(s, sid, DeleteSelf))
            && (pc.Releasing? ==> HandlerEnabled(s, sid, ReleaseToken))
            && (pc.Cancelling? ==> HandlerEnabled(s, sid, CancelSelf))
            && (pc.InUser? ==> forall res :: ResultFits(r.shape, res) ==> HandlerEnabled(s, sid, UserReturn(res)))
  {
    if s.runs[sid].thread.pc.Releasing? {
      ReleasersUpdate(s.runs, sid, s.runs[sid]);
    }
  }

  function SomeResult(shape: Shape): UserResult { if shape.Sends() then Finished else NilResponse }

  /** What a handler that is not done can do after `closeAllSessions`. */
  function UsualAct(r: Run): Act {
    var pc := r.thread.pc;
    if pc.Emitting? then IssueSkipped
    else if pc.Deleting? then DeleteSelf
    else if pc.Releasing? then ReleaseToken
    else if pc.Cancelling? then CancelSelf
    else if pc.InUser? then UserReturn(SomeResult(r.shape))
    else if r.inbox.buf != [] then TakeMessage else SeeEof
  }

  lemma UsualActEnabled(cfg: Config, s: Server, sid: nat)
    requires KnownSids(s) && ClosingInv(s) && TokenInv(cfg, s) && s.reader.AllClosed()
    requires sid < |s.runs| && OutboundInv(cfg, s.runs[sid].id, s.runs[sid].shape, s.runs[sid].thread)
    requires !s.runs[sid].thread.pc.Done?
    ensures HandlerEnabled(s, sid, UsualAct(s.runs[sid]))
  {
    NoHandlerBlocks(cfg, s, sid);
  }

  lemma ClosingStepEnabled(s: Server) returns (step: ReaderAct)
    requires KnownSids(s) && ClosingInv(s)
             && (s.reader.ReadFailed? || s.reader.ContextCancelled? || s.reader.ClosingAll?)
    ensures ReaderEnabled(s, step)
  {
    if s.reader.ReadFailed? {
      step := CancelContexts;
    } else if s.reader.ContextCancelled? {
      step := BeginCloseAll;
    } else if s.reader.todo == {} {
      step := EndCloseAll;
    } else {
      var id :| id in s.reader.todo;
      step := CloseOne(id);
    }
  }

  /** Until `serve` has returned, some goroutine can move. */
  lemma SomeStepEnabled(cfg: Config, s: Server) returns (l: Label)
    requires Inv(cfg, s) && !s.reader.Active() && !s.reader.Returned?
    ensures Enabled(s, l)
  {
    if s.reader.AwaitingHandlers? {
      if r :| r in s.runs && !r.thread.pc.Done? {
        var sid :| 0 <= sid < |s.runs| && s.runs[sid] == r;
        assert RunInv(cfg, s.runs[sid]);
        UsualActEnabled(cfg, s, sid);
        l := ByHandler(sid, UsualAct(r));
      } else {
        l := ByTheReader(CloseQueue);
      }
    } else if s.reader.AwaitingWriter? {
      if s.writer.Exited? {
        l := ByTheReader(Return);
      } else {
        l := ByTheWriter(if s.out.queue == [] then WriterExit else if s.writer.Looping? then WriteOk else Discard);
      }
    } else {
      var step := ClosingStepEnabled(s);
      l := ByTheReader(step);
    }
  }

  lemma {:induction false} StepsLowerMeasure(cfg: Config, s: Server, ls: seq<Label>, s': Server)
    requires Inv(cfg, s) && !s.reader.Active() && Steps(cfg, s, ls, s')
    ensures |ls| + Measure(s') <= Measure(s) && !s'.reader.Active() && Inv(cfg, s')
    decreases |ls|
  {
    if ls != [] {
      NextKeepsInv(cfg, s, ls[0]);
      NextLowersMeasure(cfg, s, ls[0]);
      StepAddsNoSession(cfg, s, ls[0]);
      StepsLowerMeasure(cfg, Next(cfg, s, ls[0]), ls[1..], s');
    }
  }

  /** `serve` terminates: once `readLoop` has returned, every interleaving is at most `Measure(s)` steps long, and
      one that cannot be extended ends with `serve` having returned, leaving nothing behind. */
  lemma ServeTerminates(cfg: Config, s: Server, ls: seq<Label>, s': Server)
    requires Reachable(cfg, s) && !s.reader.Active() && Steps(cfg, s, ls, s')
    ensures |ls| <= Measure(s)
    ensures (forall l :: !Enabled(s', l)) ==> s'.reader.Returned? && s'.table == Table(map[], 0) && s'.out.queue == []
  {
    ReachableInv(cfg, s);
    StepsLowerMeasure(cfg, s, ls, s');
    if s'.reader.Returned? {
      EmptyAtReturn(cfg, s');
    } else {
      var l := SomeStepEnabled(cfg, s');
    }
  }

  // ---- the server can always be shut down ---------------------------------------------------------------------

  lemma StepFirst(cfg: Config, s: Server, l: Label, ls: seq<Label>, s': Server)
    requires Enabled(s, l) && Steps(cfg, Next(cfg, s, l), ls, s')
    ensures Steps(cfg, s, [l] + ls, s')
  {
    assert ([l] + ls)[1..] == ls;
  }

  /** How many steps the reader is from `conn.Read`. */
  function FromRead(s: Server): nat {
    match s.reader
    case Acquired(_, _, _, _) => 4
    case Duplicate(_) => 3
    case Replying(_) => if s.ctxDone then 1 else 2
    case Reading => 0
    case _ => 1
  }

  /** A step that brings the reader nearer to `conn.Read`. */
  function Onward(s: Server): Label
    requires s.reader.Active() && !s.reader.Reading?
  {
    match s.reader
    case Acquired(_, _, _, _) => ByTheReader(StartSession(0))
    case Duplicate(_) => ByTheReader(GiveBackToken)
    case Replying(_) => if s.ctxDone then ByTheReader(ReplySkipped) else ParentCancelled
    case Delivering(_, _) => ByTheReader(Deliver)
    case ClosingChannel(_) => ByTheReader(CloseChan)
    case CancellingSession(_) => ByTheReader(CancelSession)
  }

  lemma OnwardGoesOn(cfg: Config, s: Server)
    requires Inv(cfg, s) && s.reader.Active() && !s.reader.Reading?
    ensures Enabled(s, Onward(s))
    ensures var s' := Next(cfg, s, Onward(s)); s'.reader.Active() && FromRead(s') < FromRead(s)
  {
    if s.reader.Delivering? {
      assert !s.runs[s.reader.sid].inbox.closed;
    }
  }

  lemma {:induction false} Returns(cfg: Config, s: Server) returns (ls: seq<Label>, s': Server)
    requires Inv(cfg, s) && !s.reader.Active()
    ensures Steps(cfg, s, ls, s') && s'.reader.Returned?
    decreases Measure(s)
  {
    if s.reader.Returned? {
      ls, s' := [], s;
    } else {
      var l := SomeStepEnabled(cfg, s);
      NextKeepsInv(cfg, s, l);
      NextLowersMeasure(cfg, s, l);
      StepAddsNoSession(cfg, s, l);
      var rest;
      rest, s' := Returns(cfg, Next(cfg, s, l));
      StepFirst(cfg, s, l, rest, s');
      ls := [l] + rest;
    }
  }

  lemma {:induction false} StopsReading(cfg: Config, s: Server) returns (ls: seq<Label>, s': Server)
    requires Inv(cfg, s) && s.reader.Active()
    ensures Steps(cfg, s, ls, s') && s'.reader.Returned?
    decreases FromRead(s)
  {
    var l := if s.reader.Reading? then ByTheReader(ReadError) else Onward(s);
    if !s.reader.Reading? {
      OnwardGoesOn(cfg, s);
    }
    NextKeepsInv(cfg, s, l);
    var rest;
    if s.reader.Reading? {
      rest, s' := Returns(cfg, Next(cfg, s, l));
    } else {
      rest, s' := StopsReading(cfg, Next(cfg, s, l));
    }
    StepFirst(cfg, s, l, rest, s');
    ls := [l] + rest;
  }

  /** From every reachable state the server can be shut down: there are steps after which `serve` has returned. */
  lemma CanAlwaysReturn(cfg: Config, s: Server)
    requires Reachable(cfg, s)
    ensures exists ls, s' :: Steps(cfg, s, ls, s') && s'.reader.Returned?
  {
    ReachableInv(cfg, s);
    if s.reader.Active() {
      var ls, s' := StopsReading(cfg, s);
    } else {
      var ls, s' := Returns(cfg, s);
    }
  }

  // ---- a failed write -------------------------------------------------------------------------------------------

  lemma {:induction false} NothingWrittenAfter(cfg: Config, s: Server, ls: seq<Label>, s': Server)
    requires !s.writer.Looping? && Steps(cfg, s, ls, s')
    ensures !s'.writer.Looping? && s'.out.wire == s.out.wire
    decreases |ls|
  {
    if ls != [] {
      OthersWriteNothing(cfg, s, ls[0]);
      NothingWrittenAfter(cfg, Next(cfg, s, ls[0]), ls[1..], s');
    }
  }

  lemma OthersWriteNothing(cfg: Config, s: Server, l: Label)
    requires !s.writer.Looping? && Enabled(s, l)
    ensures !Next(cfg, s, l).writer.Looping? && Next(cfg, s, l).out.wire == s.out.wire
  {
    if l.ByHandler? {
      assert Next(cfg, s, l).writer == s.writer;
    }
  }

  /** Any write may fail; the frame is then lost, and nothing is written after it in any continuation. */
  lemma FailedWriteIsFinal(cfg: Config, s: Server, ls: seq<Label>, s': Server)
    requires Reachable(cfg, s) && s.writer.Looping? && s.out.queue != []
    ensures Enabled(s, ByTheWriter(WriteFailed))
    ensures Next(cfg, s, ByTheWriter(WriteFailed)).out.queue == s.out.queue[1..]
    ensures Steps(cfg, Next(cfg, s, ByTheWriter(WriteFailed)), ls, s') ==> s'.out.wire == s.out.wire
  {
    ReachableInv(cfg, s);
    if Steps(cfg, Next(cfg, s, ByTheWriter(WriteFailed)), ls, s') {
      NothingWrittenAfter(cfg, Next(cfg, s, ByTheWriter(WriteFailed)), ls, s');
    }
  }
}
