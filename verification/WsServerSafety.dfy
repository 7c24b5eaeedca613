/** Safety of the server step relation: what holds in every interleaving. */
module WsServerSafety {
  import opened Options
  import opened WsFrames
  import opened WsSession
  import opened WsServer

  // ---- the parts of the invariant ---------------------------------------------------------

  ghost predicate RunsInv(cfg: Config, s: Server) {
    forall i :: 0 <= i < |s.runs| ==> RunInv(cfg, s.runs[i])
  }

  /** The map holds exactly the sessions whose deferred delete has not run, each under its own id. */
  ghost predicate MapInv(m: map<Id, nat>, runs: seq<Run>) {
    && (forall id <- m :: m[id] < |runs| && runs[m[id]].id == id && runs[m[id]].thread.pc.Live())
    && (forall i :: 0 <= i < |runs| && runs[i].thread.pc.Live() ==> runs[i].id in m && m[runs[i].id] == i)
  }

  function Releasers(runs: seq<Run>): nat {
    if runs == [] then 0 else Releasers(runs[..|runs| - 1]) + if runs[|runs| - 1].thread.pc.Releasing? then 1 else 0
  }

  /** Tokens are held by registered sessions, by handlers between delete and release, and by the reader. */
  ghost predicate TokenInv(cfg: Config, s: Server) {
    && s.table.tokens == |s.table.sessions| + Releasers(s.runs) + (if s.reader.HoldsToken() then 1 else 0)
    && s.table.tokens <= cfg.maxInflight
  }

  /** While the reader is active, a channel is closed exactly when its session is marked closed,
      but for the moment between the two. */
  ghost predicate ChannelInv(s: Server) {
    && (s.reader.Active() ==> forall i :: 0 <= i < |s.runs| ==>
          && (s.runs[i].inbox.closed ==> s.runs[i].entry.closed)
          && (s.runs[i].entry.closed ==> s.runs[i].inbox.closed || s.reader == ClosingChannel(i)))
    && (s.reader.Delivering? ==> s.reader.sid < |s.runs| && !s.runs[s.reader.sid].entry.closed)
    && (s.reader.ClosingChannel? ==> s.reader.sid < |s.runs| && s.runs[s.reader.sid].entry.closed)
    && (s.reader.CancellingSession? ==> s.reader.sid < |s.runs|)
  }

  ghost predicate ShutDown(r: Run) { r.inbox.closed && r.entry.cancelled }

  /** Progress of the shutdown sequence up to the closed channels. */
  ghost predicate ClosingInv(s: Server)
    requires KnownSids(s)
  {
    && (!s.reader.Active() && !s.reader.ReadFailed? ==> s.ctxDone)
    && (s.reader.ClosingAll? ==> s.reader.todo <= s.table.sessions.Keys)
    && (s.reader.ClosingAll? ==> forall id <- s.table.sessions :: id !in s.reader.todo ==>
        ShutDown(s.runs[s.table.sessions[id]]))
    && (s.reader.AllClosed() ==> forall i :: 0 <= i < |s.runs| && s.runs[i].thread.pc.Live() ==> ShutDown(s.runs[i]))
  }

  /** The write channel is closed once every handler is done, and nothing has crashed. */
  ghost predicate DrainInv(s: Server) {
    && (s.out.closed <==> s.reader.AwaitingWriter? || s.reader.Returned?)
    && (s.out.closed ==> forall i :: 0 <= i < |s.runs| ==> s.runs[i].thread.pc.Done?)
    && (s.reader.Returned? ==> s.writer.Exited?)
    && (s.writer.Exited? ==> s.out.closed && s.out.queue == [])
    && !s.crashed
  }

  /** Progress of the shutdown sequence. */
  ghost predicate ShutdownInv(s: Server) {
    KnownSids(s) && ClosingInv(s) && DrainInv(s)
  }

  function Frames(ts: seq<Tagged>): seq<OutFrame> {
    seq(|ts|, i requires 0 <= i < |ts| => ts[i].frame)
  }

  function EnqueuedBy(ts: seq<Tagged>, o: Origin): seq<OutFrame> {
    if ts == [] then []
    else EnqueuedBy(ts[..|ts| - 1], o) + if ts[|ts| - 1].origin == o then [ts[|ts| - 1].frame] else []
  }

  /** The write channel is a FIFO queue of at most 64 frames between the goroutines and the single writer. */
  ghost predicate QueueInv(s: Server) {
    && |s.out.queue| <= WRITE_BUF_SIZE
    && s.out.sent == s.out.dequeued + s.out.queue
    && s.out.wire <= Frames(s.out.dequeued)
    && (s.writer.Looping? ==> s.out.wire == Frames(s.out.dequeued))
  }

  /** The frames a run got into the write channel; all it issued unless the connection's context has ended. */
  ghost predicate OutputInv(s: Server) {
    && (forall i :: 0 <= i < |s.runs| ==> EnqueuedBy(s.out.sent, ByRun(i)) == s.runs[i].thread.enqueued)
    && (forall i :: |s.runs| <= i ==> EnqueuedBy(s.out.sent, ByRun(i)) == [])
    && (!s.ctxDone ==> forall i :: 0 <= i < |s.runs| ==> s.runs[i].thread.enqueued == s.runs[i].thread.issued)
  }

  /** The payloads of the message frames for `id`. */
  function MessagesFor(fs: seq<InFrame>, id: Id): seq<Payload> {
    if fs == [] then []
    else
      var last := fs[|fs| - 1];
      MessagesFor(fs[..|fs| - 1], id) + if last.Message? && last.id == id then [last.payload] else []
  }

  function Until(s: Server, r: Run): nat {
    if r.entry.stoppedAt.Some? then r.entry.stoppedAt.value else |s.input|
  }

  /** Routing: the arrivals of a session are the message frames for its id read after its open frame and
      up to its close frame or the deregistration of the session, less one still being delivered. */
  ghost predicate RouteInv(s: Server) {
    forall i :: 0 <= i < |s.runs| ==> RouteRunInv(s, i)
  }

  ghost predicate RouteRunInv(s: Server, i: nat)
    requires i < |s.runs|
  {
    var r := s.runs[i];
    && r.openedAt < Until(s, r) <= |s.input|
    && s.input[r.openedAt].Open? && s.input[r.openedAt].id == r.id
    && MessagesFor(s.input[r.openedAt + 1..Until(s, r)], r.id)
       == Payloads(r.inbox.arrivals) + if s.reader.Delivering? && s.reader.sid == i then [s.reader.payload] else []
  }

  /** The window of a session contains no close frame for its id, and ends at one if the session is marked closed. */
  ghost predicate CloseInv(s: Server) {
    forall i :: 0 <= i < |s.runs| ==> CloseRunInv(s, s.runs[i])
  }

  ghost predicate CloseRunInv(s: Server, r: Run) {
    && (r.entry.stoppedAt.None? <==> r.thread.pc.Live() && !r.entry.closed)
    && (r.entry.closed ==> Until(s, r) < |s.input| && s.input[Until(s, r)] == CloseSend(r.id))
    && (forall k :: r.openedAt < k < Until(s, r) && k < |s.input| ==> s.input[k] != CloseSend(r.id))
  }

  ghost predicate AcquiredInv(cfg: Config, s: Server) {
    s.reader.Acquired? ==>
      && s.reader.at == |s.input| - 1
      && s.input[s.reader.at] == Open(s.reader.id, s.reader.procedure, s.reader.shape.Name())
      && s.reader.procedure in cfg.handlers && cfg.handlers[s.reader.procedure] == s.reader.shape
  }

  ghost predicate Inv(cfg: Config, s: Server) {
    && RunsInv(cfg, s) && MapInv(s.table.sessions, s.runs) && TokenInv(cfg, s) && ChannelInv(s) && ShutdownInv(s)
    && QueueInv(s) && OutputInv(s) && RouteInv(s) && CloseInv(s) && AcquiredInv(cfg, s)
  }

  // ---- preservation -----------------------------------------------------------------------

  lemma {:induction false} ReleasersUpdate(runs: seq<Run>, i: nat, r: Run)
    requires i < |runs|
    ensures Releasers(runs[i := r]) + (if runs[i].thread.pc.Releasing? then 1 else 0)
            == Releasers(runs) + (if r.thread.pc.Releasing? then 1 else 0)
    ensures runs[i].thread.pc.Releasing? ==> Releasers(runs) > 0
  {
    var n := |runs| - 1;
    if i < n {
      ReleasersUpdate(runs[..n], i, r);
      assert runs[i := r][..n] == runs[..n][i := r];
    } else {
      assert runs[i := r][..n] == runs[..n];
    }
  }

  // ---- preservation: the reader -------------------------------------------------------------

  /** The ways in which a step of the reader changes an existing session. */
  ghost predicate ReaderMoved(s: Server, step: ReaderAct, i: nat, r: Run)
    requires i < |s.runs|
  {
    var r0 := s.runs[i];
    || r == r0
    || (step.Deliver? && s.reader.Delivering? && s.reader.sid == i && !r0.inbox.closed
        && r == Arrive(r0, s.reader.payload))
    || (step.CloseChan? && s.reader == ClosingChannel(i) && r == CloseChannel(r0))
    || (step.CancelSession? && s.reader == CancellingSession(i) && r == CancelContext(r0))
    || (step.CloseOne? && !s.reader.Active() && r == CloseChannel(CancelContext(r0)))
    || (step.ReadFrame? && step.frame.CloseSend? && r == MarkClosed(r0, |s.input|))
  }

  lemma ReaderMoves(cfg: Config, s: Server, step: ReaderAct)
    requires KnownSids(s) && ReaderEnabled(s, step)
    ensures var s' := ReaderNext(cfg, s, step);
            && |s'.runs| == |s.runs| + (if step.StartSession? && s.reader.id !in s.table.sessions then 1 else 0)
            && forall i :: 0 <= i < |s.runs| ==> ReaderMoved(s, step, i, s'.runs[i])
  {
  }

  lemma ReaderKeepsRuns(cfg: Config, s: Server, step: ReaderAct)
    requires RunsInv(cfg, s) && KnownSids(s) && ReaderEnabled(s, step)
    ensures RunsInv(cfg, ReaderNext(cfg, s, step))
  {
    var s' := ReaderNext(cfg, s, step);
    ReaderMoves(cfg, s, step);
    forall i | 0 <= i < |s'.runs|
      ensures RunInv(cfg, s'.runs[i])
    {
      if i == |s.runs| {
        NewRunInv(cfg, s.reader.id, s.reader.procedure, s.reader.shape, step.budget, s.reader.at);
      } else {
        MovedRunInv(cfg, s, step, i, s'.runs[i]);
      }
    }
  }

  lemma MovedRunInv(cfg: Config, s: Server, step: ReaderAct, i: nat, r: Run)
    requires i < |s.runs| && RunInv(cfg, s.runs[i]) && ReaderMoved(s, step, i, r)
    ensures RunInv(cfg, r)
  {
    var r0 := s.runs[i];
    MarksKeepInv(cfg, r0, |s.input|);
    MarksKeepInv(cfg, CancelContext(r0), |s.input|);
    if step.Deliver? && s.reader.Delivering? && !r0.inbox.closed {
      ArriveKeepsInv(cfg, r0, s.reader.payload);
    }
  }

  /** What the reader never touches. */
  ghost predicate SameThread(r: Run, r': Run) {
    && r'.thread == r.thread && r'.id == r.id && r'.procedure == r.procedure && r'.shape == r.shape
       && r'.openedAt == r.openedAt
    && r'.inbox.consumed == r.inbox.consumed && r'.inbox.eof == r.inbox.eof
  }

  /** Beyond the runs, what a reader step other than starting a session leaves alone. */
  lemma ReaderFrame(cfg: Config, s: Server, step: ReaderAct)
    requires KnownSids(s) && ReaderEnabled(s, step) && !step.StartSession?
    ensures var s' := ReaderNext(cfg, s, step);
            && s'.table.sessions == s.table.sessions && |s'.runs| == |s.runs|
            && (forall i :: 0 <= i < |s.runs| ==> SameThread(s.runs[i], s'.runs[i]))
            && s'.out.dequeued == s.out.dequeued && s'.out.wire == s.out.wire && s'.writer == s.writer
            && (!step.ReplyEnqueued? ==> s'.out.sent == s.out.sent && s'.out.queue == s.out.queue)
            && (!step.ReadFrame? ==> s'.input == s.input)
            && (!step.ReadFrame? && !step.GiveBackToken? ==> s'.table.tokens == s.table.tokens)
  {
    ReaderOutbox(cfg, s, step);
    if step.ReadFrame? {
      ReadFrameThreads(cfg, s, step.frame);
    } else {
      OtherStepThreads(cfg, s, step);
    }
  }

  lemma ReaderOutbox(cfg: Config, s: Server, step: ReaderAct)
    requires KnownSids(s) && ReaderEnabled(s, step)
    ensures var s' := ReaderNext(cfg, s, step);
            && s'.out.dequeued == s.out.dequeued && s'.out.wire == s.out.wire && s'.writer == s.writer
            && (!step.ReplyEnqueued? ==> s'.out.sent == s.out.sent && s'.out.queue == s.out.queue)
  {
  }

  lemma ReadFrameThreads(cfg: Config, s: Server, f: InFrame)
    requires KnownSids(s) && s.reader.Reading?
    ensures var runs := HandleFrame(cfg, s.(input := s.input + [f]), f, |s.input|).runs;
            |runs| == |s.runs| && forall i :: 0 <= i < |s.runs| ==> SameThread(s.runs[i], runs[i])
  {
  }

  lemma OtherStepThreads(cfg: Config, s: Server, step: ReaderAct)
    requires KnownSids(s) && ReaderEnabled(s, step) && !step.StartSession? && !step.ReadFrame?
    ensures var runs := ReaderNext(cfg, s, step).runs;
            |runs| == |s.runs| && forall i :: 0 <= i < |s.runs| ==> SameThread(s.runs[i], runs[i])
  {
    ReaderMoves(cfg, s, step);
  }

  lemma {:induction false} ReleasersSame(runs: seq<Run>, runs': seq<Run>)
    requires |runs| == |runs'| && forall i :: 0 <= i < |runs| ==> runs'[i].thread.pc == runs[i].thread.pc
    ensures Releasers(runs') == Releasers(runs)
  {
    if runs != [] {
      ReleasersSame(runs[..|runs| - 1], runs'[..|runs| - 1]);
    }
  }

  lemma MapSame(m: map<Id, nat>, runs: seq<Run>, runs': seq<Run>)
    requires MapInv(m, runs) && |runs'| == |runs| && forall i :: 0 <= i < |runs| ==> SameThread(runs[i], runs'[i])
    ensures MapInv(m, runs')
  {
    forall i | 0 <= i < |runs|
      ensures runs'[i].id == runs[i].id && runs'[i].thread.pc == runs[i].thread.pc
    {
      assert SameThread(runs[i], runs'[i]);
    }
  }

  lemma MapInsert(m: map<Id, nat>, runs: seq<Run>, r: Run)
    requires MapInv(m, runs) && r.id !in m && r.thread.pc.Live()
    ensures MapInv(m[r.id := |runs|], runs + [r])
  {
    var runs' := runs + [r];
    assert forall i :: 0 <= i < |runs| ==> runs'[i] == runs[i];
  }

  function ReaderToken(r: Reader): nat { if r.HoldsToken() then 1 else 0 }

  lemma StartKeepsTokens(cfg: Config, s: Server, r: Run)
    requires TokenInv(cfg, s) && s.reader.Acquired? && s.reader.id !in s.table.sessions && !r.thread.pc.Releasing?
    ensures s.table.tokens == |s.table.sessions[s.reader.id := |s.runs|]| + Releasers(s.runs + [r])
  {
    assert (s.runs + [r])[..|s.runs|] == s.runs;
    assert s.table.sessions[s.reader.id := |s.runs|].Keys == s.table.sessions.Keys + {s.reader.id};
  }

  lemma StartKeepsMapAndTokens(cfg: Config, s: Server, budget: nat)
    requires MapInv(s.table.sessions, s.runs) && TokenInv(cfg, s) && s.reader.Acquired?
    ensures var s' := HandleStart(s, budget); MapInv(s'.table.sessions, s'.runs) && TokenInv(cfg, s')
  {
    if s.reader.id !in s.table.sessions {
      var r := NewRun(s.reader.id, s.reader.procedure, s.reader.shape, budget, s.reader.at);
      MapInsert(s.table.sessions, s.runs, r);
      StartKeepsTokens(cfg, s, r);
    }
  }

  lemma ReaderKeepsTokenBalance(cfg: Config, s: Server, step: ReaderAct)
    requires KnownSids(s) && ReaderEnabled(s, step) && !step.StartSession?
    ensures var s' := ReaderNext(cfg, s, step);
            && s'.table.tokens - ReaderToken(s'.reader) == s.table.tokens - ReaderToken(s.reader)
            && (s.table.tokens <= cfg.maxInflight ==> s'.table.tokens <= cfg.maxInflight)
  {
  }

  lemma ReaderKeepsTable(cfg: Config, s: Server, step: ReaderAct)
    requires KnownSids(s) && MapInv(s.table.sessions, s.runs) && TokenInv(cfg, s) && ReaderEnabled(s, step)
             && !step.StartSession?
    ensures var s' := ReaderNext(cfg, s, step); MapInv(s'.table.sessions, s'.runs) && TokenInv(cfg, s')
  {
    var s' := ReaderNext(cfg, s, step);
    assert s'.table.sessions == s.table.sessions && |s'.runs| == |s.runs|
           && forall i :: 0 <= i < |s.runs| ==> SameThread(s.runs[i], s'.runs[i]) by {
      ReaderFrame(cfg, s, step);
    }
    ReaderKeepsTokenBalance(cfg, s, step);
    ReleasersSame(s.runs, s'.runs);
    MapSame(s.table.sessions, s.runs, s'.runs);
  }

  lemma ReaderKeepsChannels(cfg: Config, s: Server, step: ReaderAct)
    requires KnownSids(s) && ChannelInv(s) && ReaderEnabled(s, step) && !step.StartSession?
    ensures ChannelInv(ReaderNext(cfg, s, step))
  {
    if step.ReadFrame? {
      ReadKeepsChannels(cfg, s, step.frame);
    } else {
      OthersKeepChannels(cfg, s, step);
    }
  }

  lemma ReadKeepsChannels(cfg: Config, s: Server, f: InFrame)
    requires KnownSids(s) && ChannelInv(s) && s.reader.Reading?
    ensures ChannelInv(HandleFrame(cfg, s.(input := s.input + [f]), f, |s.input|))
  {
  }

  lemma OthersKeepChannels(cfg: Config, s: Server, step: ReaderAct)
    requires KnownSids(s) && ChannelInv(s) && ReaderEnabled(s, step) && !step.StartSession? && !step.ReadFrame?
    ensures ChannelInv(ReaderNext(cfg, s, step))
  {
    ReaderMoves(cfg, s, step);
  }

  lemma ReaderKeepsClosing(cfg: Config, s: Server, step: ReaderAct)
    requires KnownSids(s) && ClosingInv(s) && ReaderEnabled(s, step) && !step.StartSession?
    requires MapInv(s.table.sessions, s.runs)
    ensures KnownSids(ReaderNext(cfg, s, step)) && ClosingInv(ReaderNext(cfg, s, step))
  {
    match step
    case CloseOne(id) => CloseOneKeepsClosing(s, id);
    case EndCloseAll =>
    case BeginCloseAll =>
    case _ =>
      ReaderFrame(cfg, s, step);
      ReaderLeavesClosing(cfg, s, step);
  }

  lemma ReaderLeavesClosing(cfg: Config, s: Server, step: ReaderAct)
    requires KnownSids(s) && ReaderEnabled(s, step) && !step.CloseOne? && !step.EndCloseAll? && !step.BeginCloseAll?
    ensures var r' := ReaderNext(cfg, s, step).reader;
            && !r'.ClosingAll? && (r'.AllClosed() ==> s.reader.AllClosed() && ReaderNext(cfg, s, step).runs == s.runs)
            && (!r'.Active() && !r'.ReadFailed? ==>
                ReaderNext(cfg, s, step).ctxDone || (!s.reader.Active() && !s.reader.ReadFailed?))
            && (s.ctxDone ==> ReaderNext(cfg, s, step).ctxDone)
  {
  }

  lemma CloseOneKeepsClosing(s: Server, id: Id)
    requires KnownSids(s) && ClosingInv(s) && MapInv(s.table.sessions, s.runs) && s.reader.ClosingAll?
             && id in s.table.sessions
    ensures KnownSids(CloseSession(s, id)) && ClosingInv(CloseSession(s, id))
  {
  }

  lemma ReaderKeepsDrain(cfg: Config, s: Server, step: ReaderAct)
    requires KnownSids(s) && ChannelInv(s) && DrainInv(s) && ReaderEnabled(s, step) && !step.StartSession?
    ensures DrainInv(ReaderNext(cfg, s, step))
  {
    ReaderMoves(cfg, s, step);
  }

  /** Starting a session changes nothing else that the invariant speaks of. */
  lemma StartKeepsChannels(s: Server, budget: nat)
    requires KnownSids(s) && ChannelInv(s) && ShutdownInv(s) && s.reader.Acquired?
    ensures var s' := HandleStart(s, budget); KnownSids(s') && ChannelInv(s') && ShutdownInv(s')
  {
  }

  lemma StartKeepsOutput(s: Server, budget: nat)
    requires QueueInv(s) && OutputInv(s) && s.reader.Acquired?
    ensures QueueInv(HandleStart(s, budget)) && OutputInv(HandleStart(s, budget))
  {
    StartFrame(s, budget);
    var runs := HandleStart(s, budget).runs;
    forall i | 0 <= i < |runs|
      ensures EnqueuedBy(s.out.sent, ByRun(i)) == runs[i].thread.enqueued
      ensures !s.ctxDone ==> runs[i].thread.enqueued == runs[i].thread.issued
    {
      assert i < |s.runs| ==> runs[i] == s.runs[i];
    }
  }

  lemma StartFrame(s: Server, budget: nat)
    requires s.reader.Acquired?
    ensures var s' := HandleStart(s, budget);
            && s'.out == s.out && s'.ctxDone == s.ctxDone && s'.writer == s.writer && s'.input == s.input
            && s.runs <= s'.runs && |s'.runs| <= |s.runs| + 1
            && (|s'.runs| > |s.runs| ==> var t := s'.runs[|s.runs|].thread; t.enqueued == t.issued == [])
  {
  }

  lemma StartKeepsRoutes(cfg: Config, s: Server, budget: nat)
    requires RouteInv(s) && AcquiredInv(cfg, s) && s.reader.Acquired?
    ensures RouteInv(HandleStart(s, budget)) && AcquiredInv(cfg, HandleStart(s, budget))
  {
    var s' := HandleStart(s, budget);
    forall i | 0 <= i < |s'.runs|
      ensures RouteRunInv(s', i)
    {
      if i < |s.runs| {
        assert RouteRunInv(s, i);
      } else {
        assert s'.input[s.reader.at + 1..|s.input|] == [];
      }
    }
  }

  lemma StartKeepsCloses(s: Server, budget: nat)
    requires CloseInv(s) && s.reader.Acquired?
    ensures s.reader.at == |s.input| - 1 ==> CloseInv(HandleStart(s, budget))
  {
    var s' := HandleStart(s, budget);
    forall i | 0 <= i < |s'.runs| && s.reader.at == |s.input| - 1
      ensures CloseRunInv(s', s'.runs[i])
    {
      if i < |s.runs| {
        assert CloseRunInv(s, s.runs[i]);
      }
    }
  }

  lemma EnqueuedBySnoc(ts: seq<Tagged>, t: Tagged, o: Origin)
    ensures EnqueuedBy(ts + [t], o) == EnqueuedBy(ts, o) + if t.origin == o then [t.frame] else []
  {
    assert (ts + [t])[..|ts|] == ts;
  }

  lemma EnqueueKeepsQueue(s: Server, t: Tagged)
    requires QueueInv(s) && |s.out.queue| < WRITE_BUF_SIZE
    ensures QueueInv(Enqueue(s, t))
  {
    assert s.out.dequeued + (s.out.queue + [t]) == (s.out.dequeued + s.out.queue) + [t];
  }

  lemma ReaderKeepsOutput(cfg: Config, s: Server, step: ReaderAct)
    requires KnownSids(s) && DrainInv(s) && QueueInv(s) && OutputInv(s) && ReaderEnabled(s, step) && !step.StartSession?
    ensures QueueInv(ReaderNext(cfg, s, step)) && OutputInv(ReaderNext(cfg, s, step))
  {
    ReaderFrame(cfg, s, step);
    if step.ReplyEnqueued? {
      var t := Tagged(ByReader, ReplyFrame(cfg, s.reader.reply));
      EnqueueKeepsQueue(s, t);
      forall i: nat
        ensures EnqueuedBy(s.out.sent + [t], ByRun(i)) == EnqueuedBy(s.out.sent, ByRun(i))
      {
        EnqueuedBySnoc(s.out.sent, t, ByRun(i));
      }
    }
  }

  lemma MessagesForSnoc(fs: seq<InFrame>, f: InFrame, id: Id)
    ensures MessagesFor(fs + [f], id) == MessagesFor(fs, id) + if f.Message? && f.id == id then [f.payload] else []
  {
    assert (fs + [f])[..|fs|] == fs;
  }

  ghost predicate Registered(s: Server, id: Id, i: nat) { id in s.table.sessions && s.table.sessions[id] == i }

  lemma ReadEffect(cfg: Config, s: Server, f: InFrame, i: nat)
    requires KnownSids(s) && s.reader.Reading? && i < |s.runs|
    ensures var s' := HandleFrame(cfg, s.(input := s.input + [f]), f, |s.input|);
            && s'.input == s.input + [f]
            && SameThread(s.runs[i], s'.runs[i]) && s'.runs[i].inbox == s.runs[i].inbox
            && (if s'.reader.Delivering? && s'.reader.sid == i
                then f.Message? && f.payload == s'.reader.payload && Registered(s, f.id, i)
                else !(f.Message? && Registered(s, f.id, i) && !s.runs[i].entry.closed))
            && s'.runs[i].entry == (if f.CloseSend? && Registered(s, f.id, i)
                                    then MarkClosed(s.runs[i], |s.input|).entry else s.runs[i].entry)
            && (s'.reader.Delivering? && s'.reader.sid == i ==> !s.runs[i].entry.closed)
  {
  }

  /** Reading a frame extends the window of every session that still takes messages. */
  lemma ReadKeepsRoute(cfg: Config, s: Server, f: InFrame, i: nat)
    requires KnownSids(s) && s.reader.Reading? && i < |s.runs| && RouteRunInv(s, i)
    requires s.runs[i].entry.stoppedAt.None? ==> Registered(s, s.runs[i].id, i) && !s.runs[i].entry.closed
    requires s.runs[i].entry.stoppedAt.Some? ==> s.runs[i].entry.closed || forall id :: !Registered(s, id, i)
    requires forall id :: Registered(s, id, i) ==> s.runs[i].id == id
    ensures RouteRunInv(HandleFrame(cfg, s.(input := s.input + [f]), f, |s.input|), i)
  {
    ReadEffect(cfg, s, f, i);
    RouteGrows(s, HandleFrame(cfg, s.(input := s.input + [f]), f, |s.input|), f, i);
  }

  lemma RouteGrows(s: Server, s': Server, f: InFrame, i: nat)
    requires s.reader.Reading? && i < |s.runs| && i < |s'.runs| && RouteRunInv(s, i) && s'.input == s.input + [f]
    requires SameThread(s.runs[i], s'.runs[i]) && s'.runs[i].inbox == s.runs[i].inbox
    requires s.runs[i].entry.stoppedAt.None? ==> Registered(s, s.runs[i].id, i) && !s.runs[i].entry.closed
    requires s.runs[i].entry.stoppedAt.Some? ==> s.runs[i].entry.closed || forall id :: !Registered(s, id, i)
    requires forall id :: Registered(s, id, i) ==> s.runs[i].id == id
    requires if s'.reader.Delivering? && s'.reader.sid == i
             then f.Message? && f.payload == s'.reader.payload && Registered(s, f.id, i) && !s.runs[i].entry.closed
             else !(f.Message? && Registered(s, f.id, i) && !s.runs[i].entry.closed)
    requires s'.runs[i].entry.stoppedAt == (if f.CloseSend? && Registered(s, f.id, i)
                                            then Stopped(s.runs[i].entry, |s.input|) else s.runs[i].entry.stoppedAt)
    ensures RouteRunInv(s', i)
  {
    var r := s.runs[i];
    RouteExtends(s.input, f, r.openedAt, Until(s, r), r.id);
  }

  /** The close frame that ends a window is the first one in it. */
  lemma ReadKeepsClose(cfg: Config, s: Server, f: InFrame, i: nat)
    requires KnownSids(s) && s.reader.Reading? && i < |s.runs| && CloseRunInv(s, s.runs[i])
             && Until(s, s.runs[i]) <= |s.input|
    requires s.runs[i].entry.stoppedAt.None? ==> Registered(s, s.runs[i].id, i)
    requires forall id :: Registered(s, id, i) ==> s.runs[i].id == id && s.runs[i].thread.pc.Live()
    ensures var s' := HandleFrame(cfg, s.(input := s.input + [f]), f, |s.input|); CloseRunInv(s', s'.runs[i])
  {
    ReadEffect(cfg, s, f, i);
  }

  lemma RouteExtends(input: seq<InFrame>, f: InFrame, at: nat, until: nat, id: Id)
    requires at < until <= |input|
    ensures (input + [f])[at + 1..until] == input[at + 1..until]
    ensures MessagesFor((input + [f])[at + 1..|input| + 1], id)
            == MessagesFor(input[at + 1..], id) + if f.Message? && f.id == id then [f.payload] else []
  {
    assert (input + [f])[at + 1..|input| + 1] == input[at + 1..] + [f];
    MessagesForSnoc(input[at + 1..], f, id);
  }

  lemma ReadKeepsRoutes(cfg: Config, s: Server, f: InFrame)
    requires KnownSids(s) && MapInv(s.table.sessions, s.runs) && RouteInv(s) && CloseInv(s) && s.reader.Reading?
    ensures var s' := HandleFrame(cfg, s.(input := s.input + [f]), f, |s.input|); RouteInv(s') && CloseInv(s')
  {
    var s' := HandleFrame(cfg, s.(input := s.input + [f]), f, |s.input|);
    forall i | 0 <= i < |s'.runs|
      ensures RouteRunInv(s', i) && CloseRunInv(s', s'.runs[i])
    {
      assert RouteRunInv(s, i) && CloseRunInv(s, s.runs[i]);
      ReadKeepsRoute(cfg, s, f, i);
      ReadKeepsClose(cfg, s, f, i);
    }
  }

  lemma ReaderKeepsCloses(cfg: Config, s: Server, step: ReaderAct)
    requires KnownSids(s) && CloseInv(s) && ReaderEnabled(s, step) && !step.StartSession? && !step.ReadFrame?
    ensures CloseInv(ReaderNext(cfg, s, step))
  {
    var s' := ReaderNext(cfg, s, step);
    ReaderMoves(cfg, s, step);
    ReaderFrame(cfg, s, step);
    forall i | 0 <= i < |s'.runs|
      ensures CloseRunInv(s', s'.runs[i])
    {
      assert ReaderMoved(s, step, i, s'.runs[i]);
      assert CloseRunInv(s, s.runs[i]);
    }
  }

  lemma ReaderKeepsRoutes(cfg: Config, s: Server, step: ReaderAct)
    requires KnownSids(s) && RouteInv(s) && ReaderEnabled(s, step) && !step.StartSession? && !step.ReadFrame?
    requires ChannelInv(s)
    ensures RouteInv(ReaderNext(cfg, s, step))
  {
    var s' := ReaderNext(cfg, s, step);
    ReaderMoves(cfg, s, step);
    ReaderFrame(cfg, s, step);
    forall i | 0 <= i < |s'.runs|
      ensures RouteRunInv(s', i)
    {
      assert RouteRunInv(s, i);
      if step.Deliver? && s.reader.sid == i {
        assert Payloads(s'.runs[i].inbox.arrivals) == Payloads(s.runs[i].inbox.arrivals) + [s.reader.payload];
      }
    }
  }

  lemma ReaderKeepsAcquired(cfg: Config, s: Server, step: ReaderAct)
    requires KnownSids(s) && AcquiredInv(cfg, s) && ReaderEnabled(s, step)
    ensures AcquiredInv(cfg, ReaderNext(cfg, s, step))
  {
  }

  // ---- preservation: a handler ------------------------------------------------------------

  lemma HandlerFrame(cfg: Config, s: Server, sid: nat, a: Act)
    requires sid < |s.runs| && HandlerEnabled(s, sid, a)
    ensures var s' := HandlerStep(cfg, s, sid, a);
            && s'.runs == s.runs[sid := Perform(cfg, s.runs[sid], a, |s.input|)]
            && s'.reader == s.reader && s'.input == s.input && s'.ctxDone == s.ctxDone && s'.writer == s.writer
            && s'.out.closed == s.out.closed && s'.out.dequeued == s.out.dequeued && s'.out.wire == s.out.wire
            && (!a.IssueEnqueued? ==> s'.out == s.out && s'.crashed == s.crashed)
            && (!a.DeleteSelf? && !a.ReleaseToken? ==> s'.table == s.table)
  {
  }

  lemma ActMoves(cfg: Config, r: Run, a: Act, now: nat)
    requires CanAct(r, a)
    ensures var r' := Perform(cfg, r, a, now);
            && r'.id == r.id && r'.inbox.closed == r.inbox.closed && r'.entry.closed == r.entry.closed
            && r'.inbox.arrivals == r.inbox.arrivals && r'.openedAt == r.openedAt
            && (r.entry.cancelled ==> r'.entry.cancelled)
            && (r'.thread.pc.Live() <==> r.thread.pc.Live() && !a.DeleteSelf?)
            && (r'.thread.pc.Releasing? <==> a.DeleteSelf?)
            && (r.thread.pc.Releasing? <==> a.ReleaseToken?)
            && (a.DeleteSelf? ==> r.thread.pc.Live())
            && !r.thread.pc.Done?
            && r'.entry.stoppedAt == if a.DeleteSelf? then Stopped(r.entry, now) else r.entry.stoppedAt
  {
  }

  lemma HandlerKeepsRuns(cfg: Config, s: Server, sid: nat, a: Act)
    requires RunsInv(cfg, s) && sid < |s.runs| && HandlerEnabled(s, sid, a)
    ensures RunsInv(cfg, HandlerStep(cfg, s, sid, a))
  {
    HandlerFrame(cfg, s, sid, a);
    ActKeepsInv(cfg, s.runs[sid], a, |s.input|);
  }

  lemma MapUpdate(m: map<Id, nat>, runs: seq<Run>, sid: nat, r: Run, deletes: bool)
    requires MapInv(m, runs) && sid < |runs| && r.id == runs[sid].id
    requires r.thread.pc.Live() <==> runs[sid].thread.pc.Live() && !deletes
    requires deletes ==> runs[sid].thread.pc.Live()
    ensures MapInv(if deletes then m - {r.id} else m, runs[sid := r])
    ensures deletes ==> r.id in m && |m - {r.id}| == |m| - 1
  {
    var m' := if deletes then m - {r.id} else m;
    var runs' := runs[sid := r];
    assert forall i :: 0 <= i < |runs| && i != sid ==> runs'[i] == runs[i];
    if deletes {
      assert m'.Keys == m.Keys - {r.id};
    }
  }

  lemma HandlerKeepsTable(cfg: Config, s: Server, sid: nat, a: Act)
    requires MapInv(s.table.sessions, s.runs) && TokenInv(cfg, s) && sid < |s.runs| && HandlerEnabled(s, sid, a)
    ensures var s' := HandlerStep(cfg, s, sid, a); MapInv(s'.table.sessions, s'.runs) && TokenInv(cfg, s')
  {
    var r := s.runs[sid];
    var r' := Perform(cfg, r, a, |s.input|);
    HandlerFrame(cfg, s, sid, a);
    ActMoves(cfg, r, a, |s.input|);
    MapUpdate(s.table.sessions, s.runs, sid, r', a.DeleteSelf?);
    ReleasersUpdate(s.runs, sid, r');
  }

  lemma HandlerKeepsChannels(cfg: Config, s: Server, sid: nat, a: Act)
    requires ChannelInv(s) && sid < |s.runs| && HandlerEnabled(s, sid, a)
    ensures ChannelInv(HandlerStep(cfg, s, sid, a))
  {
    HandlerFrame(cfg, s, sid, a);
    ActMoves(cfg, s.runs[sid], a, |s.input|);
  }

  lemma HandlerKeepsShutdown(cfg: Config, s: Server, sid: nat, a: Act)
    requires MapInv(s.table.sessions, s.runs) && ShutdownInv(s) && sid < |s.runs| && HandlerEnabled(s, sid, a)
    ensures ShutdownInv(HandlerStep(cfg, s, sid, a))
  {
    HandlerFrame(cfg, s, sid, a);
    ActMoves(cfg, s.runs[sid], a, |s.input|);
  }

  lemma HandlerKeepsQueue(cfg: Config, s: Server, sid: nat, a: Act)
    requires QueueInv(s) && DrainInv(s) && sid < |s.runs| && HandlerEnabled(s, sid, a)
    ensures QueueInv(HandlerStep(cfg, s, sid, a))
  {
    HandlerFrame(cfg, s, sid, a);
    if a.IssueEnqueued? {
      ActMoves(cfg, s.runs[sid], a, |s.input|);
      EnqueueKeepsQueue(SetRun(s, sid, Perform(cfg, s.runs[sid], a, |s.input|)),
                        Tagged(ByRun(sid), s.runs[sid].thread.pc.frames[0]));
    }
  }

  lemma ActIssues(cfg: Config, r: Run, a: Act, now: nat)
    requires CanAct(r, a)
    ensures var t' := Perform(cfg, r, a, now).thread;
            && t'.enqueued == r.thread.enqueued + (if a.IssueEnqueued? then [r.thread.pc.frames[0]] else [])
            && t'.issued == r.thread.issued
               + (if a.IssueEnqueued? || a.IssueSkipped? then [r.thread.pc.frames[0]] else [])
  {
  }

  lemma HandlerKeepsOutput(cfg: Config, s: Server, sid: nat, a: Act)
    requires OutputInv(s) && sid < |s.runs| && HandlerEnabled(s, sid, a)
    ensures OutputInv(HandlerStep(cfg, s, sid, a))
  {
    var s' := HandlerStep(cfg, s, sid, a);
    HandlerFrame(cfg, s, sid, a);
    ActIssues(cfg, s.runs[sid], a, |s.input|);
    if a.IssueEnqueued? {
      var t := Tagged(ByRun(sid), s.runs[sid].thread.pc.frames[0]);
      assert s'.out.sent == s.out.sent + [t];
      forall i: nat
        ensures EnqueuedBy(s'.out.sent, ByRun(i))
                == EnqueuedBy(s.out.sent, ByRun(i)) + if i == sid then [t.frame] else []
      {
        EnqueuedBySnoc(s.out.sent, t, ByRun(i));
      }
    } else {
      assert s'.out == s.out;
      assert !s'.ctxDone ==> s'.runs[sid].thread.enqueued == s'.runs[sid].thread.issued;
    }
  }

  lemma HandlerKeepsRoutes(cfg: Config, s: Server, sid: nat, a: Act)
    requires RouteInv(s) && CloseInv(s) && AcquiredInv(cfg, s) && sid < |s.runs| && HandlerEnabled(s, sid, a)
    ensures var s' := HandlerStep(cfg, s, sid, a); RouteInv(s') && CloseInv(s') && AcquiredInv(cfg, s')
  {
    var s' := HandlerStep(cfg, s, sid, a);
    HandlerFrame(cfg, s, sid, a);
    ActMoves(cfg, s.runs[sid], a, |s.input|);
    forall i | 0 <= i < |s'.runs|
      ensures RouteRunInv(s', i) && CloseRunInv(s', s'.runs[i])
    {
      assert RouteRunInv(s, i) && CloseRunInv(s, s.runs[i]);
      if i == sid {
        MovedKeepsRoute(s, s', sid, a);
      }
    }
  }

  lemma MovedKeepsRoute(s: Server, s': Server, i: nat, a: Act)
    requires i < |s.runs| && i < |s'.runs| && RouteRunInv(s, i) && CloseRunInv(s, s.runs[i])
    requires s'.reader == s.reader && s'.input == s.input
    requires var r, r' := s.runs[i], s'.runs[i];
             && r'.id == r.id && r'.entry.closed == r.entry.closed && r'.inbox.arrivals == r.inbox.arrivals
                && r'.openedAt == r.openedAt
             && (r'.thread.pc.Live() <==> r.thread.pc.Live() && !a.DeleteSelf?)
                && (a.DeleteSelf? ==> r.thread.pc.Live())
             && r'.entry.stoppedAt == if a.DeleteSelf? then Stopped(r.entry, |s.input|) else r.entry.stoppedAt
    ensures RouteRunInv(s', i) && CloseRunInv(s', s'.runs[i])
  {
  }

  // ---- preservation: the writer -------------------------------------------------------------

  lemma FramesSnoc(ts: seq<Tagged>, t: Tagged)
    ensures Frames(ts + [t]) == Frames(ts) + [t.frame]
  {
  }

  /** The parts of the invariant that do not concern the write channel or the connection's context. */
  lemma ControlFrame(cfg: Config, s: Server, s': Server)
    requires KnownSids(s) && RunsInv(cfg, s) && TokenInv(cfg, s) && ChannelInv(s) && RouteInv(s) && CloseInv(s)
             && AcquiredInv(cfg, s)
    requires s'.reader == s.reader && s'.table == s.table && s'.runs == s.runs && s'.input == s.input
    ensures KnownSids(s') && RunsInv(cfg, s') && TokenInv(cfg, s') && ChannelInv(s') && RouteInv(s') && CloseInv(s')
            && AcquiredInv(cfg, s')
  {
    WindowFrame(s, s');
    assert RunsInv(cfg, s') by {
      RunsFrame(cfg, s, s');
    }
  }

  lemma RunsFrame(cfg: Config, s: Server, s': Server)
    requires RunsInv(cfg, s) && s'.runs == s.runs
    ensures RunsInv(cfg, s')
  {
    forall i | 0 <= i < |s.runs|
      ensures RunInv(cfg, s'.runs[i])
    {
      assert RunInv(cfg, s.runs[i]);
    }
  }

  lemma WindowFrame(s: Server, s': Server)
    requires RouteInv(s) && CloseInv(s) && s'.reader == s.reader && s'.runs == s.runs && s'.input == s.input
    ensures RouteInv(s') && CloseInv(s')
  {
    forall i | 0 <= i < |s.runs|
      ensures RouteRunInv(s', i) && CloseRunInv(s', s.runs[i])
    {
      assert RouteRunInv(s, i) && CloseRunInv(s, s.runs[i]);
    }
  }

  lemma WriterKeepsQueue(s: Server, move: WriterAct)
    requires QueueInv(s) && WriterEnabled(s, move)
    ensures QueueInv(WriterNext(s, move))
  {
    if s.out.queue != [] {
      FramesSnoc(s.out.dequeued, s.out.queue[0]);
      assert s.out.sent == (s.out.dequeued + [s.out.queue[0]]) + s.out.queue[1..];
    }
  }

  lemma WriterKeepsInv(cfg: Config, s: Server, move: WriterAct)
    requires Inv(cfg, s) && WriterEnabled(s, move)
    ensures Inv(cfg, WriterNext(s, move))
  {
    ControlFrame(cfg, s, WriterNext(s, move));
    WriterKeepsQueue(s, move);
  }

  // ---- the invariant ----------------------------------------------------------------------

  lemma StartKeepsInv(cfg: Config, s: Server, budget: nat)
    requires Inv(cfg, s) && s.reader.Acquired?
    ensures Inv(cfg, HandleStart(s, budget))
  {
    ReaderKeepsRuns(cfg, s, StartSession(budget));
    StartKeepsMapAndTokens(cfg, s, budget);
    StartKeepsChannels(s, budget);
    StartKeepsOutput(s, budget);
    StartKeepsRoutes(cfg, s, budget);
    StartKeepsCloses(s, budget);
  }

  lemma ReaderKeepsInv(cfg: Config, s: Server, step: ReaderAct)
    requires Inv(cfg, s) && ReaderEnabled(s, step)
    ensures Inv(cfg, ReaderNext(cfg, s, step))
  {
    if step.StartSession? {
      StartKeepsInv(cfg, s, step.budget);
    } else {
      ReaderKeepsRuns(cfg, s, step);
      ReaderKeepsTable(cfg, s, step);
      ReaderKeepsChannels(cfg, s, step);
      ReaderKeepsClosing(cfg, s, step);
      ReaderKeepsDrain(cfg, s, step);
      ReaderKeepsOutput(cfg, s, step);
      ReaderKeepsAcquired(cfg, s, step);
      if step.ReadFrame? {
        ReadKeepsRoutes(cfg, s, step.frame);
      } else {
        ReaderKeepsRoutes(cfg, s, step);
        ReaderKeepsCloses(cfg, s, step);
      }
    }
  }

  lemma HandlerKeepsInv(cfg: Config, s: Server, sid: nat, a: Act)
    requires Inv(cfg, s) && sid < |s.runs| && HandlerEnabled(s, sid, a)
    ensures Inv(cfg, HandlerStep(cfg, s, sid, a))
  {
    HandlerKeepsRuns(cfg, s, sid, a);
    HandlerKeepsTable(cfg, s, sid, a);
    HandlerKeepsChannels(cfg, s, sid, a);
    HandlerKeepsShutdown(cfg, s, sid, a);
    HandlerKeepsQueue(cfg, s, sid, a);
    HandlerKeepsOutput(cfg, s, sid, a);
    HandlerKeepsRoutes(cfg, s, sid, a);
  }

  lemma InitInv(cfg: Config)
    ensures Inv(cfg, Init())
  {
  }

  /** Every step of every goroutine keeps the invariant. */
  lemma NextKeepsInv(cfg: Config, s: Server, l: Label)
    requires Inv(cfg, s) && Enabled(s, l)
    ensures Inv(cfg, Next(cfg, s, l))
  {
    match l
    case ByTheReader(step) => ReaderKeepsInv(cfg, s, step);
    case ByHandler(sid, a) => HandlerKeepsInv(cfg, s, sid, a);
    case ByTheWriter(move) => WriterKeepsInv(cfg, s, move);
    case ParentCancelled => ControlFrame(cfg, s, s.(ctxDone := true));
  }

  lemma {:induction false} StepsKeepInv(cfg: Config, s0: Server, ls: seq<Label>, s: Server)
    requires Inv(cfg, s0) && Steps(cfg, s0, ls, s)
    ensures Inv(cfg, s)
    decreases |ls|
  {
    if ls != [] {
      NextKeepsInv(cfg, s0, ls[0]);
      StepsKeepInv(cfg, Next(cfg, s0, ls[0]), ls[1..], s);
    }
  }

  lemma ReachableInv(cfg: Config, s: Server)
    requires Reachable(cfg, s)
    ensures Inv(cfg, s)
  {
    var ls :| Steps(cfg, Init(), ls, s);
    InitInv(cfg);
    StepsKeepInv(cfg, Init(), ls, s);
  }
}
