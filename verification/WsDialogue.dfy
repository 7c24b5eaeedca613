/** What the server writes for a session id, seen from the outside: as long as the connection's context has not ended
    and the peer opens the id once, before using it, the frames for that id are those of one run, or one refusal. */
module WsDialogue {
  import opened Options
  import opened WsFrames
  import opened WsSession
  import opened WsServer
  import opened WsServerSafety

  // ---- frames by id -----------------------------------------------------------------------

  predicate IsFor(f: InFrame, id: Id) { !f.Junk? && f.id == id }

  /** The inbound frames for `id`. */
  function ForId(fs: seq<InFrame>, id: Id): seq<InFrame> {
    if fs == [] then []
    else ForId(fs[..|fs| - 1], id) + if IsFor(fs[|fs| - 1], id) then [fs[|fs| - 1]] else []
  }

  /** The outbound frames for `id`. */
  function FramesFor(fs: seq<OutFrame>, id: Id): seq<OutFrame> {
    if fs == [] then []
    else FramesFor(fs[..|fs| - 1], id) + if fs[|fs| - 1].id == id then [fs[|fs| - 1]] else []
  }

  /** The peer opens `id` at most once, and does not use it before. */
  predicate OpenedOnce(conv: seq<InFrame>) {
    conv != [] ==> conv[0].Open? && forall k :: 1 <= k < |conv| ==> !conv[k].Open?
  }

  lemma ForIdSnoc(fs: seq<InFrame>, f: InFrame, id: Id)
    ensures ForId(fs + [f], id) == ForId(fs, id) + if IsFor(f, id) then [f] else []
  {
    assert (fs + [f])[..|fs|] == fs;
  }

  lemma FramesForSnoc(fs: seq<OutFrame>, f: OutFrame, id: Id)
    ensures FramesFor(fs + [f], id) == FramesFor(fs, id) + if f.id == id then [f] else []
  {
    assert (fs + [f])[..|fs|] == fs;
  }

  // ---- the dialogue invariant -----------------------------------------------------------------

  predicate ReplyPending(s: Server, id: Id) { s.reader.Replying? && s.reader.reply.id == id }

  /** What has been written for `id`, with the reply the reader is about to write. */
  function Written(cfg: Config, s: Server, id: Id): seq<OutFrame> {
    FramesFor(Frames(s.out.sent), id)
    + if ReplyPending(s, id) then [ReplyFrame(cfg, s.reader.reply)] else []
  }

  ghost predicate NoRun(s: Server, id: Id) {
    forall i :: 0 <= i < |s.runs| ==> s.runs[i].id != id
  }

  ghost predicate OnlyRun(s: Server, id: Id, i: nat) {
    i < |s.runs| && s.runs[i].id == id && forall j :: 0 <= j < |s.runs| && j != i ==> s.runs[j].id != id
  }

  predicate AllNotFound(cfg: Config, id: Id, fs: seq<OutFrame>) {
    forall f <- fs :: f == ErrorFrame(id, NotFoundDetail(id))
  }

  /** The answer to a message for an id without a session. */
  function NotFoundDetail(id: Id): ErrorDetail { ErrorDetail("not_found", "session not found: " + id, false) }

  /** Why an open frame is refused: unknown procedure, wrong shape, or no token left; only the last may be tried again.
      */
  function RefusalDetail(cfg: Config, open: InFrame): ErrorDetail
    requires open.Open?
  {
    if open.procedure !in cfg.handlers then ErrorDetail("not_found", "unknown procedure: " + open.procedure, false)
    else
      var want := cfg.handlers[open.procedure].Name();
      if open.shape != want then
        ErrorDetail("invalid_argument", "shape mismatch: want " + want + ", got " + open.shape, false)
      else ErrorDetail("unavailable", "max inflight exceeded", true)
  }

  /** The refusals of `handleOpen`. */
  predicate IsRefusal(cfg: Config, open: InFrame, f: OutFrame)
    requires open.Open?
  {
    f == ErrorFrame(open.id, RefusalDetail(cfg, open))
  }

  /** The open frame was refused: its own error comes first, and then only "session not found". */
  ghost predicate Refused(cfg: Config, s: Server, id: Id, open: InFrame)
    requires open.Open?
  {
    var w := Written(cfg, s, id);
    NoRun(s, id) && w != [] && IsRefusal(cfg, open, w[0]) && AllNotFound(cfg, id, w[1..])
  }

  /** The open frame started run `i`: its output comes first, and then, if it has ended, only "session not found". */
  ghost predicate Admitted(cfg: Config, s: Server, id: Id, open: InFrame, i: nat)
    requires open.Open?
  {
    && OnlyRun(s, id, i)
    && s.runs[i].procedure == open.procedure && s.runs[i].shape.Name() == open.shape
    && var w := Written(cfg, s, id); var t := s.runs[i].thread;
       && t.issued <= w
       && (if t.pc.Live() then w == t.issued && !ReplyPending(s, id) else AllNotFound(cfg, id, w[|t.issued|..]))
  }

  predicate Starting(s: Server, id: Id) { s.reader.Acquired? && s.reader.id == id }

  ghost predicate Dialogue(cfg: Config, s: Server, id: Id) {
    var conv := ForId(s.input, id);
    && !(s.reader.Duplicate? && s.reader.id == id)
    && if conv == [] then NoRun(s, id) && Written(cfg, s, id) == [] && !Starting(s, id)
       else
         && conv[0].Open?
         && (if Starting(s, id)
             then conv[0] == Open(id, s.reader.procedure, s.reader.shape.Name()) && NoRun(s, id)
               && Written(cfg, s, id) == []
             else Refused(cfg, s, id, conv[0]) || exists i: nat :: Admitted(cfg, s, id, conv[0], i))
  }

  // ---- preservation -------------------------------------------------------------------------

  lemma OutputIds(cfg: Config, r: Run)
    requires OutboundInv(cfg, r.id, r.shape, r.thread)
    ensures forall f <- Output(r.thread) :: f.id == r.id
  {
    VerdictFramesShape(cfg, r.id, r.shape, r.thread.verdict);
  }

  lemma FramesConcat(ts: seq<Tagged>, t: Tagged)
    ensures Frames(ts + [t]) == Frames(ts) + [t.frame]
  {
  }

  /** A step that leaves the run of `id`, what is written for it and the reader's business with it alone. */
  lemma DialogueFrame(cfg: Config, s: Server, s': Server, id: Id)
    requires Dialogue(cfg, s, id) && ForId(s'.input, id) == ForId(s.input, id)
    requires Written(cfg, s', id) == Written(cfg, s, id) && (ReplyPending(s', id) ==> ReplyPending(s, id))
    requires Starting(s', id) <==> Starting(s, id)
    requires Starting(s', id) ==> s'.reader == s.reader
    requires !(s'.reader.Duplicate? && s'.reader.id == id)
    requires |s.runs| <= |s'.runs| && (forall i :: |s.runs| <= i < |s'.runs| ==> s'.runs[i].id != id)
    requires forall i :: 0 <= i < |s.runs| ==>
               && s'.runs[i].id == s.runs[i].id && s'.runs[i].procedure == s.runs[i].procedure
                  && s'.runs[i].shape == s.runs[i].shape
               && (s.runs[i].id == id ==> s'.runs[i].thread.issued == s.runs[i].thread.issued)
               && (s'.runs[i].thread.pc.Live() ==> s.runs[i].thread.pc.Live())
    ensures Dialogue(cfg, s', id)
  {
    var conv := ForId(s.input, id);
    if conv != [] && !Starting(s, id) && !Refused(cfg, s, id, conv[0]) {
      var i: nat :| Admitted(cfg, s, id, conv[0], i);
      assert Admitted(cfg, s', id, conv[0], i);
    }
  }

  lemma ReadFacts(cfg: Config, s: Server, f: InFrame)
    requires KnownSids(s) && s.reader.Reading?
    ensures var s' := HandleFrame(cfg, s.(input := s.input + [f]), f, |s.input|);
            && s'.input == s.input + [f] && s'.out == s.out && |s'.runs| == |s.runs|
            && (forall i :: 0 <= i < |s.runs| ==> SameThread(s.runs[i], s'.runs[i]))
            && !s'.reader.Duplicate?
            && (s'.reader.Replying? ==> !f.Junk? && s'.reader.reply.id == f.id)
            && (s'.reader.Acquired? ==> f == Open(s'.reader.id, s'.reader.procedure, s'.reader.shape.Name()))
            && (f.Open? && !s'.reader.Acquired? ==>
                s'.reader.Replying? && IsRefusal(cfg, f, ReplyFrame(cfg, s'.reader.reply)))
            && (!f.Open? && s'.reader.Replying? ==>
                s'.reader.reply == SessionNotFound(f.id) && f.id !in s.table.sessions)
  {
  }

  lemma ReadOther(cfg: Config, s: Server, f: InFrame, id: Id)
    requires KnownSids(s) && s.reader.Reading? && Dialogue(cfg, s, id) && !IsFor(f, id)
    ensures Dialogue(cfg, HandleFrame(cfg, s.(input := s.input + [f]), f, |s.input|), id)
  {
    var s' := HandleFrame(cfg, s.(input := s.input + [f]), f, |s.input|);
    ReadFacts(cfg, s, f);
    ForIdSnoc(s.input, f, id);
    DialogueFrame(cfg, s, s', id);
  }

  lemma ReadOpen(cfg: Config, s: Server, f: InFrame)
    requires KnownSids(s) && s.reader.Reading? && f.Open? && Dialogue(cfg, s, f.id) && ForId(s.input, f.id) == []
    ensures Dialogue(cfg, HandleFrame(cfg, s.(input := s.input + [f]), f, |s.input|), f.id)
  {
    ReadFacts(cfg, s, f);
    ForIdSnoc(s.input, f, f.id);
  }

  /** A later frame for `id` is answered only when the session is gone, and then with "session not found". */
  lemma ReadLater(cfg: Config, s: Server, f: InFrame, id: Id)
    requires KnownSids(s) && MapInv(s.table.sessions, s.runs) && s.reader.Reading? && Dialogue(cfg, s, id)
    requires IsFor(f, id) && !f.Open? && ForId(s.input, id) != []
    ensures Dialogue(cfg, HandleFrame(cfg, s.(input := s.input + [f]), f, |s.input|), id)
  {
    var s' := HandleFrame(cfg, s.(input := s.input + [f]), f, |s.input|);
    ReadFacts(cfg, s, f);
    ForIdSnoc(s.input, f, id);
    LaterDialogue(cfg, s, s', id);
  }

  lemma LaterDialogue(cfg: Config, s: Server, s': Server, id: Id)
    requires MapInv(s.table.sessions, s.runs) && s.reader.Reading? && Dialogue(cfg, s, id) && ForId(s.input, id) != []
    requires s'.out == s.out && ForId(s.input, id) <= ForId(s'.input, id)
    requires |s'.runs| == |s.runs| && forall j :: 0 <= j < |s.runs| ==> SameThread(s.runs[j], s'.runs[j])
    requires !s'.reader.Duplicate? && !s'.reader.Acquired?
    requires s'.reader.Replying? ==> s'.reader.reply == SessionNotFound(id) && id !in s.table.sessions
    ensures Dialogue(cfg, s', id)
  {
    var conv := ForId(s.input, id);
    assert ForId(s'.input, id)[0] == conv[0];
    var extra := if s'.reader.Replying? then [ReplyFrame(cfg, SessionNotFound(id))] else [];
    assert Written(cfg, s', id) == Written(cfg, s, id) + extra;
    if Refused(cfg, s, id, conv[0]) {
      RefusedGrows(cfg, s, s', id, conv[0], extra);
    } else {
      var i: nat :| Admitted(cfg, s, id, conv[0], i);
      if s.runs[i].thread.pc.Live() {
        assert id in s.table.sessions;
      }
      AdmittedGrows(cfg, s, s', id, conv[0], i, extra);
    }
  }

  lemma RefusedGrows(cfg: Config, s: Server, s': Server, id: Id, open: InFrame, extra: seq<OutFrame>)
    requires open.Open? && Refused(cfg, s, id, open)
    requires |s'.runs| == |s.runs| && forall j :: 0 <= j < |s.runs| ==> SameThread(s.runs[j], s'.runs[j])
    requires Written(cfg, s', id) == Written(cfg, s, id) + extra && AllNotFound(cfg, id, extra)
    ensures Refused(cfg, s', id, open)
  {
    var w := Written(cfg, s, id);
    assert (w + extra)[1..] == w[1..] + extra;
    forall j | 0 <= j < |s.runs|
      ensures s'.runs[j].id != id
    {
      assert SameThread(s.runs[j], s'.runs[j]);
    }
  }

  lemma AdmittedGrows(cfg: Config, s: Server, s': Server, id: Id, open: InFrame, i: nat, extra: seq<OutFrame>)
    requires open.Open? && Admitted(cfg, s, id, open, i)
    requires |s'.runs| == |s.runs| && forall j :: 0 <= j < |s.runs| ==> SameThread(s.runs[j], s'.runs[j])
    requires Written(cfg, s', id) == Written(cfg, s, id) + extra
    requires AllNotFound(cfg, id, extra) && (s.runs[i].thread.pc.Live() ==> extra == [] && !ReplyPending(s', id))
    ensures Admitted(cfg, s', id, open, i)
  {
    var w := Written(cfg, s, id);
    var n := |s.runs[i].thread.issued|;
    assert (w + extra)[n..] == w[n..] + extra;
    assert SameThread(s.runs[i], s'.runs[i]);
  }

  lemma StartDialogue(cfg: Config, s: Server, budget: nat, id: Id)
    requires KnownSids(s) && MapInv(s.table.sessions, s.runs) && AcquiredInv(cfg, s) && s.reader.Acquired?
             && Dialogue(cfg, s, id)
    ensures Dialogue(cfg, HandleStart(s, budget), id)
  {
    var s' := HandleStart(s, budget);
    if s.reader.id != id {
      DialogueFrame(cfg, s, s', id);
    } else {
      assert id !in s.table.sessions;
      assert Admitted(cfg, s', id, ForId(s.input, id)[0], |s.runs|);
    }
  }

  lemma ReplyDialogue(cfg: Config, s: Server, id: Id)
    requires s.reader.Replying? && Dialogue(cfg, s, id)
    ensures Dialogue(cfg, ReaderNext0(cfg, s), id)
  {
    var t := Tagged(ByReader, ReplyFrame(cfg, s.reader.reply));
    FramesConcat(s.out.sent, t);
    FramesForSnoc(Frames(s.out.sent), t.frame, id);
    DialogueFrame(cfg, s, ReaderNext0(cfg, s), id);
  }

  function ReaderNext0(cfg: Config, s: Server): Server
    requires s.reader.Replying?
  {
    Enqueue(s, Tagged(ByReader, ReplyFrame(cfg, s.reader.reply))).(reader := Reading)
  }

  lemma ReadDialogue(cfg: Config, s: Server, f: InFrame, id: Id)
    requires KnownSids(s) && MapInv(s.table.sessions, s.runs) && s.reader.Reading? && Dialogue(cfg, s, id)
    requires OpenedOnce(ForId(s.input + [f], id))
    ensures Dialogue(cfg, HandleFrame(cfg, s.(input := s.input + [f]), f, |s.input|), id)
  {
    ForIdSnoc(s.input, f, id);
    if !IsFor(f, id) {
      ReadOther(cfg, s, f, id);
    } else if f.Open? {
      assert ForId(s.input, id) == [] by {
        var n := |ForId(s.input, id)|;
        assert ForId(s.input + [f], id)[n] == f;
      }
      ReadOpen(cfg, s, f);
    } else {
      assert ForId(s.input, id) != [] by {
        assert ForId(s.input + [f], id)[0].Open?;
      }
      ReadLater(cfg, s, f, id);
    }
  }

  lemma ReaderDialogue(cfg: Config, s: Server, step: ReaderAct, id: Id)
    requires KnownSids(s) && MapInv(s.table.sessions, s.runs) && AcquiredInv(cfg, s)
    requires ReaderEnabled(s, step) && Dialogue(cfg, s, id) && !s.ctxDone
    requires OpenedOnce(ForId(if step.ReadFrame? then s.input + [step.frame] else s.input, id))
    ensures Dialogue(cfg, ReaderNext(cfg, s, step), id)
  {
    if step.ReadFrame? {
      ReadDialogue(cfg, s, step.frame, id);
    } else if step.StartSession? {
      StartDialogue(cfg, s, step.budget, id);
    } else if step.ReplyEnqueued? {
      ReplyDialogue(cfg, s, id);
    } else {
      OtherReaderDialogue(cfg, s, step, id);
    }
  }

  lemma OtherReaderDialogue(cfg: Config, s: Server, step: ReaderAct, id: Id)
    requires KnownSids(s) && ReaderEnabled(s, step) && Dialogue(cfg, s, id) && !s.ctxDone
    requires !step.ReadFrame? && !step.StartSession? && !step.ReplyEnqueued?
    ensures Dialogue(cfg, ReaderNext(cfg, s, step), id)
  {
    var s' := ReaderNext(cfg, s, step);
    ReaderFrame(cfg, s, step);
    OtherReaderTarget(cfg, s, step);
    DialogueFrame(cfg, s, s', id);
  }

  lemma OtherReaderTarget(cfg: Config, s: Server, step: ReaderAct)
    requires KnownSids(s) && ReaderEnabled(s, step) && !s.ctxDone
    requires !step.ReadFrame? && !step.StartSession? && !step.ReplyEnqueued?
    ensures var r' := ReaderNext(cfg, s, step).reader;
            && !r'.Acquired? && !r'.Duplicate? && !s.reader.Acquired? && !s.reader.Replying?
            && (r'.Replying? ==> step.GiveBackToken? && s.reader.Duplicate? && r'.reply.id == s.reader.id)
  {
  }

  lemma HandlerDialogue(cfg: Config, s: Server, sid: nat, a: Act, id: Id)
    requires RunsInv(cfg, s) && sid < |s.runs| && HandlerEnabled(s, sid, a) && Dialogue(cfg, s, id) && !s.ctxDone
    ensures Dialogue(cfg, HandlerStep(cfg, s, sid, a), id)
  {
    var s' := HandlerStep(cfg, s, sid, a);
    var r := s.runs[sid];
    HandlerFrame(cfg, s, sid, a);
    ActMoves(cfg, r, a, |s.input|);
    ActIssues(cfg, r, a, |s.input|);
    if a.IssueEnqueued? {
      IssueDialogue(cfg, s, sid, id);
    } else {
      DialogueFrame(cfg, s, s', id);
    }
  }

  lemma IssuedId(cfg: Config, r: Run)
    requires OutboundInv(cfg, r.id, r.shape, r.thread) && r.thread.pc.Emitting? && r.thread.pc.frames != []
    ensures r.thread.pc.frames[0].id == r.id
  {
    OutputIds(cfg, r);
    assert r.thread.pc.frames[0] == Output(r.thread)[|r.thread.issued|];
  }

  lemma EnqueuedWritten(cfg: Config, s: Server, s': Server, t: Tagged, id: Id)
    requires s'.reader == s.reader && s'.out.sent == s.out.sent + [t] && (t.frame.id == id ==> !ReplyPending(s, id))
    ensures Written(cfg, s', id) == if t.frame.id != id then Written(cfg, s, id) else Written(cfg, s, id) + [t.frame]
  {
    FramesConcat(s.out.sent, t);
    FramesForSnoc(Frames(s.out.sent), t.frame, id);
  }

  lemma IssueWritten(cfg: Config, s: Server, sid: nat, id: Id)
    requires RunsInv(cfg, s) && sid < |s.runs| && HandlerEnabled(s, sid, IssueEnqueued)
    requires s.runs[sid].id == id ==> !ReplyPending(s, id)
    ensures Written(cfg, HandlerStep(cfg, s, sid, IssueEnqueued), id)
            == if s.runs[sid].id != id then Written(cfg, s, id)
               else Written(cfg, s, id) + [s.runs[sid].thread.pc.frames[0]]
  {
    var f := s.runs[sid].thread.pc.frames[0];
    assert f.id == s.runs[sid].id by {
      assert RunInv(cfg, s.runs[sid]);
      IssuedId(cfg, s.runs[sid]);
    }
    HandlerFrame(cfg, s, sid, IssueEnqueued);
    EnqueuedWritten(cfg, s, HandlerStep(cfg, s, sid, IssueEnqueued), Tagged(ByRun(sid), f), id);
  }

  /** While the only run of an id is issuing frames, the reader has no reply for that id. */
  lemma EmittingNoReply(cfg: Config, s: Server, sid: nat)
    requires sid < |s.runs| && s.runs[sid].thread.pc.Emitting? && Dialogue(cfg, s, s.runs[sid].id)
    ensures !ReplyPending(s, s.runs[sid].id)
  {
    var id := s.runs[sid].id;
    var conv := ForId(s.input, id);
    assert !Starting(s, id) && !Refused(cfg, s, id, conv[0]);
    var i: nat :| Admitted(cfg, s, id, conv[0], i);
    assert i == sid;
  }

  lemma IssueEffect(cfg: Config, s: Server, sid: nat)
    requires sid < |s.runs| && HandlerEnabled(s, sid, IssueEnqueued)
    ensures var s' := HandlerStep(cfg, s, sid, IssueEnqueued);
            && s'.reader == s.reader && s'.input == s.input && |s'.runs| == |s.runs|
            && (forall j :: 0 <= j < |s.runs| && j != sid ==> s'.runs[j] == s.runs[j])
            && var r, r' := s.runs[sid], s'.runs[sid];
               && r'.id == r.id && r'.procedure == r.procedure && r'.shape == r.shape
               && r'.thread.issued == r.thread.issued + [r.thread.pc.frames[0]] && r.thread.pc.Live()
  {
    HandlerFrame(cfg, s, sid, IssueEnqueued);
    ActMoves(cfg, s.runs[sid], IssueEnqueued, |s.input|);
    ActIssues(cfg, s.runs[sid], IssueEnqueued, |s.input|);
  }

  lemma IssueDialogue(cfg: Config, s: Server, sid: nat, id: Id)
    requires RunsInv(cfg, s) && sid < |s.runs| && HandlerEnabled(s, sid, IssueEnqueued) && Dialogue(cfg, s, id)
             && !s.ctxDone
    ensures Dialogue(cfg, HandlerStep(cfg, s, sid, IssueEnqueued), id)
  {
    var s' := HandlerStep(cfg, s, sid, IssueEnqueued);
    IssueEffect(cfg, s, sid);
    if s.runs[sid].id != id {
      IssueWritten(cfg, s, sid, id);
      DialogueFrame(cfg, s, s', id);
    } else {
      EmittingNoReply(cfg, s, sid);
      IssueWritten(cfg, s, sid, id);
      IssueAdmitted(cfg, s, s', sid, id);
    }
  }

  lemma IssueAdmitted(cfg: Config, s: Server, s': Server, sid: nat, id: Id)
    requires Dialogue(cfg, s, id) && sid < |s.runs| && s.runs[sid].id == id && s.runs[sid].thread.pc.Emitting?
    requires s.runs[sid].thread.pc.frames != []
    requires s'.reader == s.reader && s'.input == s.input && |s'.runs| == |s.runs|
    requires forall j :: 0 <= j < |s.runs| && j != sid ==> s'.runs[j] == s.runs[j]
    requires var r, r' := s.runs[sid], s'.runs[sid]; var f := r.thread.pc.frames[0];
             && r'.id == r.id && r'.procedure == r.procedure && r'.shape == r.shape
             && r'.thread.issued == r.thread.issued + [f]
             && Written(cfg, s', id) == Written(cfg, s, id) + [f]
    ensures Dialogue(cfg, s', id)
  {
    var conv := ForId(s.input, id);
    assert !Starting(s, id) && !Refused(cfg, s, id, conv[0]);
    var i: nat :| Admitted(cfg, s, id, conv[0], i);
    assert i == sid && Written(cfg, s, id) == s.runs[sid].thread.issued;
    assert Admitted(cfg, s', id, conv[0], sid);
  }

  lemma ReaderInput(cfg: Config, s: Server, step: ReaderAct)
    requires KnownSids(s) && ReaderEnabled(s, step)
    ensures ReaderNext(cfg, s, step).input == if step.ReadFrame? then s.input + [step.frame] else s.input
  {
  }

  lemma NextDialogue(cfg: Config, s: Server, l: Label, id: Id)
    requires Inv(cfg, s) && Enabled(s, l) && Dialogue(cfg, s, id) && !s.ctxDone && !l.ParentCancelled?
    requires OpenedOnce(ForId(Next(cfg, s, l).input, id))
    ensures Dialogue(cfg, Next(cfg, s, l), id)
  {
    match l
    case ByTheReader(step) =>
      ReaderInput(cfg, s, step);
      ReaderDialogue(cfg, s, step, id);
    case ByHandler(sid, a) => HandlerDialogue(cfg, s, sid, a, id);
    case ByTheWriter(move) => DialogueFrame(cfg, s, WriterNext(s, move), id);
  }

  /** A shape is known by its name on the wire. */
  lemma ShapeNamed(a: Shape, name: string)
    ensures a.Name() == name
            <==> || (a.Unary? && name == "unary") || (a.ClientStream? && name == "client_stream")
                 || (a.ServerStream? && name == "server_stream") || (a.Bidi? && name == "bidi")
  {
  }

  lemma ShapeNamesDistinct(a: Shape, b: Shape)
    requires a.Name() == b.Name()
    ensures a == b
  {
    ShapeNamed(a, b.Name());
    ShapeNamed(b, b.Name());
    assert "unary"[0] != "client_stream"[0] && "bidi"[0] != "server_stream"[0];
  }

  lemma NextInput(cfg: Config, s: Server, l: Label)
    requires Enabled(s, l)
    ensures s.input <= Next(cfg, s, l).input && (s.ctxDone ==> Next(cfg, s, l).ctxDone)
  {
    match l
    case ByTheReader(step) => ReaderInput(cfg, s, step);
    case ByHandler(sid, a) => HandlerFrame(cfg, s, sid, a);
    case ByTheWriter(move) =>
    case ParentCancelled =>
  }

  lemma {:induction false} ForIdPrefix(fs: seq<InFrame>, gs: seq<InFrame>, id: Id)
    requires fs <= gs
    ensures ForId(fs, id) <= ForId(gs, id)
  {
    if |fs| < |gs| {
      ForIdPrefix(fs, gs[..|gs| - 1], id);
    } else {
      assert fs == gs;
    }
  }

  lemma {:induction false} StepsInput(cfg: Config, s0: Server, ls: seq<Label>, s: Server)
    requires Steps(cfg, s0, ls, s)
    ensures s0.input <= s.input && (s0.ctxDone ==> s.ctxDone)
    decreases |ls|
  {
    if ls != [] {
      NextInput(cfg, s0, ls[0]);
      StepsInput(cfg, Next(cfg, s0, ls[0]), ls[1..], s);
    }
  }

  /** What is asked of the end of a run holds along it. */
  lemma AlongTheWay(cfg: Config, s0: Server, l: Label, rest: seq<Label>, s: Server, id: Id)
    requires Enabled(s0, l) && Steps(cfg, Next(cfg, s0, l), rest, s)
    requires !s.ctxDone && OpenedOnce(ForId(s.input, id))
    ensures !s0.ctxDone && !Next(cfg, s0, l).ctxDone && OpenedOnce(ForId(Next(cfg, s0, l).input, id))
  {
    NextInput(cfg, s0, l);
    StepsInput(cfg, Next(cfg, s0, l), rest, s);
    ForIdPrefix(Next(cfg, s0, l).input, s.input, id);
  }

  lemma {:induction false} StepsDialogue(cfg: Config, s0: Server, ls: seq<Label>, s: Server, id: Id)
    requires Inv(cfg, s0) && Dialogue(cfg, s0, id) && Steps(cfg, s0, ls, s)
    requires !s.ctxDone && OpenedOnce(ForId(s.input, id))
    ensures Dialogue(cfg, s, id)
    decreases |ls|
  {
    if ls != [] {
      AlongTheWay(cfg, s0, ls[0], ls[1..], s, id);
      NextKeepsInv(cfg, s0, ls[0]);
      NextDialogue(cfg, s0, ls[0], id);
      StepsDialogue(cfg, Next(cfg, s0, ls[0]), ls[1..], s, id);
    }
  }

  /** In every reachable state of a connection whose context has not ended, an id that the peer opens once, first, has
      one dialogue: a single run whose frames come first and in order, or a refusal of the open frame that comes
      first. In particular `already_exists` is never written for it. */
  lemma DialogueInEveryRun(cfg: Config, s: Server, id: Id)
    requires Reachable(cfg, s) && !s.ctxDone && OpenedOnce(ForId(s.input, id))
    ensures Dialogue(cfg, s, id)
  {
    var ls :| Steps(cfg, Init(), ls, s);
    InitInv(cfg);
    StepsDialogue(cfg, Init(), ls, s, id);
  }

  // ---- conversations --------------------------------------------------------------------------

  lemma {:induction false} ForIdConcat(a: seq<InFrame>, b: seq<InFrame>, id: Id)
    ensures ForId(a + b, id) == ForId(a, id) + ForId(b, id)
  {
    if b == [] {
      assert a + b == a;
    } else {
      ForIdConcat(a, b[..|b| - 1], id);
      assert (a + b)[..|a + b| - 1] == a + b[..|b| - 1];
    }
  }

  lemma {:induction false} MessagesOfConversation(fs: seq<InFrame>, id: Id)
    ensures MessagesFor(ForId(fs, id), id) == MessagesFor(fs, id)
  {
    if fs != [] {
      var last := fs[|fs| - 1];
      MessagesOfConversation(fs[..|fs| - 1], id);
      if IsFor(last, id) {
        MessagesForSnoc(ForId(fs[..|fs| - 1], id), last, id);
      } else {
        assert ForId(fs, id) == ForId(fs[..|fs| - 1], id);
      }
    }
  }

  // ---- what a peer's frames bring its session -------------------------------------------------

  /** The messages of a conversation up to its first close frame. */
  function BeforeClose(conv: seq<InFrame>): seq<Payload> {
    if conv == [] || conv[0].CloseSend? then []
    else (if conv[0].Message? then [conv[0].payload] else []) + BeforeClose(conv[1..])
  }

  lemma {:induction false} BeforeCloseConcat(front: seq<InFrame>, rest: seq<InFrame>, id: Id)
    requires forall f <- front :: IsFor(f, id) && !f.CloseSend?
    ensures BeforeClose(front + rest) == MessagesFor(front, id) + BeforeClose(rest)
  {
    if front == [] {
      assert front + rest == rest;
    } else {
      var init, last := front[..|front| - 1], front[|front| - 1];
      assert front + rest == init + ([last] + rest);
      assert ([last] + rest)[1..] == rest;
      BeforeCloseConcat(init, [last] + rest, id);
    }
  }

  lemma {:induction false} ForIdMembers(fs: seq<InFrame>, id: Id)
    ensures forall f <- ForId(fs, id) :: f in fs && IsFor(f, id)
  {
    if fs != [] {
      ForIdMembers(fs[..|fs| - 1], id);
    }
  }

  /** An id's conversation: what comes before its open frame, that frame, a window and the rest. */
  lemma ConversationParts(a: seq<InFrame>, open: InFrame, window: seq<InFrame>, rest: seq<InFrame>, id: Id)
    requires IsFor(open, id)
    ensures ForId(a + [open] + window + rest, id) == ForId(a, id) + ([open] + (ForId(window, id) + ForId(rest, id)))
  {
    var w, r := ForId(window, id), ForId(rest, id);
    assert ForId(a + [open] + window + rest, id) == ForId(a, id) + [open] + w + r by {
      ForIdConcat(a + [open] + window, rest, id);
      ForIdConcat(a + [open], window, id);
      ForIdSnoc(a, open, id);
    }
    Associative(ForId(a, id) + [open], w, r);
    Associative(ForId(a, id), [open], w + r);
  }

  /** The open frame of a conversation opened once is its first frame. */
  lemma OpensAtFront(a: seq<InFrame>, open: InFrame, b: seq<InFrame>, conv: seq<InFrame>)
    requires open.Open? && OpenedOnce(conv) && a + ([open] + b) <= conv
    ensures a == [] && [open] + b <= conv
  {
    assert (a + ([open] + b))[|a|] == open == conv[|a|];
  }

  /** What stands in a conversation between its open frame and what follows. */
  lemma FrontBeforeClose(open: InFrame, b: seq<InFrame>, c: seq<InFrame>, conv: seq<InFrame>, id: Id)
    requires open.Open? && [open] + b + c <= conv && forall f <- b :: IsFor(f, id) && !f.CloseSend?
    ensures MessagesFor(b, id) <= BeforeClose(conv)
    ensures c != [] && c[0] == CloseSend(id) ==> MessagesFor(b, id) == BeforeClose(conv) && CloseSend(id) in conv
  {
    var rest := conv[1 + |b|..];
    assert conv[1..] == b + rest;
    BeforeCloseConcat(b, rest, id);
    if c != [] {
      assert rest[0] == ([open] + b + c)[1 + |b|] == c[0];
    }
  }

  lemma HeadOfRest(fs: seq<InFrame>, f: InFrame, id: Id)
    requires fs != [] && fs[0] == f && IsFor(f, id)
    ensures ForId(fs, id) != [] && ForId(fs, id)[0] == f
  {
    ForIdConcat([f], fs[1..], id);
    assert fs == [f] + fs[1..];
    ForIdSnoc([], f, id);
  }

  /** The messages in a window without close frames are those at the front of the conversation; all of them up to the
      first close frame, if the window ends at one. */
  lemma PartsBeforeClose(a: seq<InFrame>, open: InFrame, window: seq<InFrame>, rest: seq<InFrame>, id: Id,
                         conv: seq<InFrame>)
    requires open.Open? && open.id == id && forall f <- window :: f != CloseSend(id)
    requires ForId(a + [open] + window + rest, id) <= conv && OpenedOnce(conv)
    ensures MessagesFor(window, id) <= BeforeClose(conv)
    ensures rest != [] && rest[0] == CloseSend(id) ==>
            MessagesFor(window, id) == BeforeClose(conv) && CloseSend(id) in conv
  {
    var b, c := ForId(window, id), ForId(rest, id);
    assert [open] + b + c <= conv by {
      ConversationParts(a, open, window, rest, id);
      OpensAtFront(ForId(a, id), open, b + c, conv);
      Associative([open], b, c);
    }
    assert forall f <- b :: IsFor(f, id) && !f.CloseSend? by {
      ForIdMembers(window, id);
    }
    FrontBeforeClose(open, b, c, conv, id);
    MessagesOfConversation(window, id);
    if rest != [] && rest[0] == CloseSend(id) {
      HeadOfRest(rest, CloseSend(id), id);
    }
  }

  lemma Cut<T>(s: seq<T>, at: nat, until: nat)
    requires at < until <= |s|
    ensures s == s[..at] + [s[at]] + s[at + 1..until] + s[until..]
  {
  }

  lemma WindowBeforeClose(input: seq<InFrame>, at: nat, until: nat, id: Id, conv: seq<InFrame>)
    requires at < until <= |input| && input[at].Open? && input[at].id == id
    requires forall k :: at < k < until ==> input[k] != CloseSend(id)
    requires ForId(input, id) <= conv && OpenedOnce(conv)
    ensures MessagesFor(input[at + 1..until], id) <= BeforeClose(conv)
    ensures until < |input| && input[until] == CloseSend(id) ==>
              MessagesFor(input[at + 1..until], id) == BeforeClose(conv) && CloseSend(id) in conv
  {
    Cut(input, at, until);
    assert until < |input| ==> input[until..][0] == input[until];
    PartsBeforeClose(input[..at], input[at], input[at + 1..until], input[until..], id, conv);
  }

  /** What arrives at a session is what its peer sent, in order and from the first message on; once the channel is
      closed, all that was sent before the first close frame. */
  lemma ArrivalsFollowConversation(s: Server, i: nat, conv: seq<InFrame>)
    requires i < |s.runs| && RouteRunInv(s, i) && CloseRunInv(s, s.runs[i]) && ChannelInv(s)
    requires ForId(s.input, s.runs[i].id) <= conv && OpenedOnce(conv)
    ensures Payloads(s.runs[i].inbox.arrivals) <= BeforeClose(conv)
    ensures s.runs[i].entry.closed ==>
              Payloads(s.runs[i].inbox.arrivals) == BeforeClose(conv) && CloseSend(s.runs[i].id) in conv
  {
    WindowBeforeClose(s.input, s.runs[i].openedAt, Until(s, s.runs[i]), s.runs[i].id, conv);
  }

  // ---- one-shot sessions ----------------------------------------------------------------------

  /** The frames of `sendRequest`. */
  function RequestFrames(id: Id, procedure: string, shape: Shape, p: Payload): seq<InFrame> {
    [Open(id, procedure, shape.Name()), Message(id, p), CloseSend(id)]
  }

  lemma RequestBeforeClose(id: Id, procedure: string, shape: Shape, p: Payload)
    ensures OpenedOnce(RequestFrames(id, procedure, shape, p))
    ensures BeforeClose(RequestFrames(id, procedure, shape, p)) == [p]
  {
    var close := [CloseSend(id)];
    var rest := [Message(id, p)] + close;
    assert rest[1..] == close && BeforeClose(rest) == [p];
    assert RequestFrames(id, procedure, shape, p)[1..] == rest;
  }

  /** A unary or server-stream session whose peer sends one request is decided on exactly that request's payload. */
  lemma RequestDecided(cfg: Config, s: Server, i: nat, procedure: string, shape: Shape, p: Payload)
    requires Reachable(cfg, s) && s.reader.Active() && i < |s.runs| && s.runs[i].shape.OneShot()
             && s.runs[i].thread.pc.Decided()
    requires ForId(s.input, s.runs[i].id) <= RequestFrames(s.runs[i].id, procedure, shape, p)
    ensures Accepted(s.runs[i].inbox.arrivals) == [p]
    ensures match cfg.decode(s.runs[i].procedure, p)
            case None => s.runs[i].thread.invocations == [Some(p)] && !s.runs[i].thread.verdict.Rejected?
            case Some(e) => s.runs[i].thread.invocations == [] && s.runs[i].thread.verdict == Rejected(e)
  {
    ReachableInv(cfg, s);
    RequestAccepted(cfg, s, i, procedure, shape, p);
  }

  lemma DecidedOnOne(cfg: Config, r: Run, p: Payload)
    requires RunInv(cfg, r) && r.shape.OneShot() && r.thread.pc.Decided() && Payloads(r.inbox.arrivals) == [p]
    ensures Accepted(r.inbox.arrivals) == [p]
    ensures match cfg.decode(r.procedure, p)
            case None => r.thread.invocations == [Some(p)] && !r.thread.verdict.Rejected?
            case Some(e) => r.thread.invocations == [] && r.thread.verdict == Rejected(e)
  {
    AcceptedIsSubsequence(r.inbox.arrivals);
    ExactlyOneAdmission(cfg, r);
  }

  lemma RequestAccepted(cfg: Config, s: Server, i: nat, procedure: string, shape: Shape, p: Payload)
    requires ChannelInv(s) && s.reader.Active() && i < |s.runs| && RunInv(cfg, s.runs[i]) && RouteRunInv(s, i)
             && CloseRunInv(s, s.runs[i])
    requires s.runs[i].shape.OneShot() && s.runs[i].thread.pc.Decided()
    requires ForId(s.input, s.runs[i].id) <= RequestFrames(s.runs[i].id, procedure, shape, p)
    ensures Accepted(s.runs[i].inbox.arrivals) == [p]
    ensures match cfg.decode(s.runs[i].procedure, p)
            case None => s.runs[i].thread.invocations == [Some(p)] && !s.runs[i].thread.verdict.Rejected?
            case Some(e) => s.runs[i].thread.invocations == [] && s.runs[i].thread.verdict == Rejected(e)
  {
    var r := s.runs[i];
    assert r.inbox.closed && r.entry.closed;
    RequestBeforeClose(r.id, procedure, shape, p);
    ArrivalsFollowConversation(s, i, RequestFrames(r.id, procedure, shape, p));
    DecidedOnOne(cfg, r, p);
  }
}
