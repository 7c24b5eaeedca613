/** The client side of one WebSocket connection (`Conn` in `transport/ws/client.go`) as a step relation: callers, the
    routing read loop, the write loop and the teardown goroutine. `crashed` records a send on a closed channel or a
    double close. */
module WsClient {
  import opened Options
  import opened WsFrames
  import opened WsDialogue

  const RECV_CH_BUF_SIZE: nat := 64
  const WRITE_BUF_SIZE: nat := 64
  const ID_SPACE: nat := 0x1_0000_0000_0000_0000   // values of the uint64 `nextID`

  // ---- session ids ------------------------------------------------------------------------

  function Digit(d: nat): char
    requires d < 10
  {
    ('0' as int + d) as char
  }

  function Decimal(n: nat): (s: string)
    ensures s != []
  {
    if n < 10 then [Digit(n)] else Decimal(n / 10) + [Digit(n % 10)]
  }

  /** The id of the `k`-th allocation: `fmt.Sprintf("s-%d", nextID.Add(1))`, with the counter's wrap-around. */
  function IdOf(k: nat): Id { "s-" + Decimal((k + 1) % ID_SPACE) }

  lemma SuccessorsMod(j: nat, k: nat, n: nat)
    requires n > 1
    ensures (j + 1) % n == (k + 1) % n <==> j % n == k % n
  {
    SuccessorMod(j, n);
    SuccessorMod(k, n);
  }

  lemma SuccessorMod(j: nat, n: nat)
    requires n > 1
    ensures (j + 1) % n == if j % n == n - 1 then 0 else j % n + 1
  {
    var q, r := j / n, j % n;
    assert j + 1 == n * q + (r + 1);
    if r == n - 1 {
      assert j + 1 == n * (q + 1);
      ModUnique(j + 1, n, q + 1, 0);
    } else {
      ModUnique(j + 1, n, q, r + 1);
    }
  }

  lemma ModUnique(x: int, n: int, q: int, r: int)
    requires 0 <= r < n && x == n * q + r
    ensures x % n == r
  {
    var q', r' := x / n, x % n;
    assert x == n * q' + r';
    assert n * (q - q') == r' - r;
    assert q - q' >= 1 ==> n * (q - q') >= n;
    assert q - q' <= -1 ==> n * (q - q') <= -n;
  }

  lemma PrefixedDiffer(s: string, t: string)
    ensures "s-" + s == "s-" + t <==> s == t
  {
    assert ("s-" + s)[2..] == s && ("s-" + t)[2..] == t;
  }

  predicate IsDigit(c: char) { '0' <= c <= '9' }

  /** The number that a string of digits stands for. */
  function Number(s: string): nat
    requires forall c <- s :: IsDigit(c)
  {
    if s == "" then 0
    else
      assert IsDigit(s[|s| - 1]);
      Number(s[..|s| - 1]) * 10 + (s[|s| - 1] as int - '0' as int)
  }

  lemma {:induction false} DecimalIsNumber(n: nat)
    ensures (forall c <- Decimal(n) :: IsDigit(c)) && Number(Decimal(n)) == n
    ensures n > 0 ==> Decimal(n)[0] != '0'
  {
    if n >= 10 {
      DecimalIsNumber(n / 10);
      var s := Decimal(n);
      assert s[..|s| - 1] == Decimal(n / 10);
    } else {
      assert Decimal(n)[..0] == "";
    }
  }

  /** The id of the `k`-th session is `s-` and the decimal of the counter's value: one more than `k`, modulo 2^64. */
  lemma IdsCount(k: nat)
    ensures |IdOf(k)| > 2 && IdOf(k)[..2] == "s-" && (forall c <- IdOf(k)[2..] :: IsDigit(c))
    ensures Number(IdOf(k)[2..]) == (k + 1) % 0x1_0000_0000_0000_0000
    ensures IdOf(k)[2] == '0' ==> (k + 1) % 0x1_0000_0000_0000_0000 == 0
  {
    DecimalIsNumber((k + 1) % ID_SPACE);
    assert IdOf(k)[2..] == Decimal((k + 1) % ID_SPACE);
  }

  /** Ids repeat exactly after 2^64 allocations. */
  lemma IdsRepeatAfterWrap(j: nat, k: nat)
    ensures IdOf(j) == IdOf(k) <==> j % 0x1_0000_0000_0000_0000 == k % 0x1_0000_0000_0000_0000
  {
    SuccessorsMod(j, k, ID_SPACE);
    var m, n := (j + 1) % ID_SPACE, (k + 1) % ID_SPACE;
    PrefixedDiffer(Decimal(m), Decimal(n));
    DecimalIsNumber(m);
    DecimalIsNumber(n);
  }

  // ---- state --------------------------------------------------------------------------------

  datatype Phase = Fresh | Registered | Gone

  /** A session: its id and its receive channel. `from` and `to` delimit the frames read while the session was
      registered; `ended` records that a receive has found the channel closed and empty. */
  datatype Chan = Chan(
    id: Id, phase: Phase, buf: seq<OutFrame>, closed: bool,
    taken: seq<OutFrame>, ended: bool, from: nat, to: Option<nat>)

  datatype Reader = Reading | Routing(k: nat, frame: OutFrame) | Stopped(lost: Option<(nat, OutFrame)>)

  datatype Teardown = NotYet | Closing(todo: set<Id>) | MapNil | DoneClosed

  /** `read` records the frames read from the connection, `sent` those put into the write channel, and `wire` those
      written. */
  datatype Client = Client(
    chans: seq<Chan>, sessions: map<Id, nat>, reader: Reader, writing: bool, ctxDone: bool, teardown: Teardown,
    writeCh: seq<InFrame>, read: seq<OutFrame>, sent: seq<InFrame>, wire: seq<InFrame>, crashed: bool)

  function Init(): Client {
    Client([], map[], Reading, true, false, NotYet, [], [], [], [], false)
  }

  datatype Label =
    | Allocate                    // nextID.Add(1), make(chan)
    | Register(k: nat)            // the mutex-protected half of newSession
    | Remove(k: nat)              // removeSession
    | Take(k: nat)                // a receive on the session's channel yields a frame
    | SeeClosed(k: nat)           // a receive on the closed, drained channel
    | Send(outgoing: InFrame)     // send takes the writeCh arm
    | ReadFrame(frame: OutFrame)
    | ReadError
    | Route                       // recvCh <- frame
    | RouteAborted                // ctx.Done
    | CancelInner                 // cancel() after readLoop
    | ParentCancelled
    | WriteOk
    | WriteFails                  // write error; the frame at hand is lost
    | WriterStops                 // ctx.Done
    | BeginTeardown
    | CloseOne(id: Id)
    | EndTeardown
    | CloseDone

  predicate MutexFree(c: Client) { !c.teardown.Closing? }

  predicate Torn(c: Client) { c.teardown.MapNil? || c.teardown.DoneClosed? }

  predicate Known(c: Client) { forall id <- c.sessions :: c.sessions[id] < |c.chans| }

  predicate Enabled(c: Client, l: Label) {
    && !c.crashed && Known(c)
    && match l
       case Allocate => true
       case Register(k) => MutexFree(c) && k < |c.chans| && c.chans[k].phase.Fresh?
       case Remove(k) => MutexFree(c) && k < |c.chans| && !c.chans[k].phase.Fresh?
       case Take(k) => k < |c.chans| && c.chans[k].buf != []
       case SeeClosed(k) => k < |c.chans| && c.chans[k].buf == [] && c.chans[k].closed
       case Send(_) => |c.writeCh| < WRITE_BUF_SIZE
       case ReadFrame(_) => c.reader.Reading? && MutexFree(c)
       case ReadError => c.reader.Reading?
       case Route => c.reader.Routing? && c.reader.k < |c.chans|
                     && (|c.chans[c.reader.k].buf| < RECV_CH_BUF_SIZE || c.chans[c.reader.k].closed)
       case RouteAborted => c.reader.Routing? && c.ctxDone
       case CancelInner => c.reader.Stopped?
       case ParentCancelled => true
       case WriteOk => c.writing && c.writeCh != []
       case WriteFails => c.writing && c.writeCh != []
       case WriterStops => c.writing && c.ctxDone
       case BeginTeardown => c.reader.Stopped? && c.ctxDone && !c.writing && c.teardown.NotYet?
       case CloseOne(id) => c.teardown.Closing? && id in c.teardown.todo && id in c.sessions
       case EndTeardown => c.teardown.Closing? && c.teardown.todo == {}
       case CloseDone => c.teardown.MapNil?
  }

  function SetChan(c: Client, k: nat, x: Chan): Client
    requires k < |c.chans|
  {
    c.(chans := c.chans[k := x])
  }

  /** `delete(c.sessions, id)`; on a nil map a no-op. */
  function RemoveSession(c: Client, k: nat): Client
    requires k < |c.chans|
  {
    var x := c.chans[k];
    SetChan(c, k, x.(phase := Gone, to := if x.to.None? then Some(|c.read|) else x.to))
      .(sessions := c.sessions - {x.id})
  }

  function RegisterSession(c: Client, k: nat): Client
    requires k < |c.chans|
  {
    if Torn(c) then SetChan(c, k, c.chans[k].(phase := Gone, from := |c.read|, to := Some(|c.read|)))
    else SetChan(c, k, c.chans[k].(phase := Registered, from := |c.read|)).(sessions := c.sessions[c.chans[k].id := k])
  }

  function Next(c: Client, l: Label): Client
    requires Enabled(c, l)
  {
    match l
    case Allocate => c.(chans := c.chans + [Chan(IdOf(|c.chans|), Fresh, [], false, [], false, 0, None)])
    case Register(k) => RegisterSession(c, k)
    case Remove(k) => RemoveSession(c, k)
    case Take(k) =>
      var x := c.chans[k];
      SetChan(c, k, x.(buf := x.buf[1..], taken := x.taken + [x.buf[0]]))
    case SeeClosed(k) => SetChan(c, k, c.chans[k].(ended := true))
    case Send(f) => c.(writeCh := c.writeCh + [f], sent := c.sent + [f])
    case ReadFrame(f) =>
      c.(read := c.read + [f], reader := if f.id in c.sessions then Routing(c.sessions[f.id], f) else Reading)
    case ReadError => c.(reader := Stopped(None))
    case Route =>
      var x := c.chans[c.reader.k];
      if x.closed then c.(crashed := true)
      else SetChan(c, c.reader.k, x.(buf := x.buf + [c.reader.frame])).(reader := Reading)
    case RouteAborted => c.(reader := Stopped(Some((c.reader.k, c.reader.frame))))
    case CancelInner => c.(ctxDone := true)
    case ParentCancelled => c.(ctxDone := true)
    case WriteOk => c.(writeCh := c.writeCh[1..], wire := c.wire + [c.writeCh[0]])
    case WriteFails => c.(writing := false, writeCh := c.writeCh[1..])
    case WriterStops => c.(writing := false)
    case BeginTeardown => c.(teardown := Closing(c.sessions.Keys))
    case CloseOne(id) =>
      var x := c.chans[c.sessions[id]];
      SetChan(c, c.sessions[id], x.(closed := true))
        .(teardown := Closing(c.teardown.todo - {id}), crashed := x.closed)
    case EndTeardown => c.(teardown := MapNil, sessions := map[])
    case CloseDone => c.(teardown := DoneClosed)
  }

  ghost predicate Steps(c0: Client, ls: seq<Label>, c: Client)
    decreases |ls|
  {
    if ls == [] then c == c0
    else Enabled(c0, ls[0]) && Steps(Next(c0, ls[0]), ls[1..], c)
  }

  ghost predicate Reachable(c: Client) {
    exists ls :: Steps(Init(), ls, c)
  }

  // ---- invariant ------------------------------------------------------------------------------

  /** The map, while it exists, holds exactly the registered sessions, each under its own id. */
  ghost predicate MapInv(c: Client) {
    && Known(c)
    && (forall id <- c.sessions :: c.chans[c.sessions[id]].id == id && c.chans[c.sessions[id]].phase.Registered?)
    && (!Torn(c) ==> forall k :: 0 <= k < |c.chans| && c.chans[k].phase.Registered? ==>
        c.chans[k].id in c.sessions && c.sessions[c.chans[k].id] == k)
    && (Torn(c) ==> c.sessions == map[])
  }

  /** Channels are closed by the teardown only, when the read loop is gone. */
  ghost predicate CloseInv(c: Client) {
    && (!c.teardown.NotYet? ==> c.reader.Stopped? && !c.writing && c.ctxDone)
    && (c.teardown.NotYet? ==> forall x <- c.chans :: !x.closed)
    && (c.teardown.Closing? ==> c.teardown.todo <= c.sessions.Keys)
    && (c.teardown.Closing? ==> forall k :: 0 <= k < |c.chans| ==>
          (c.chans[k].closed <==> c.chans[k].phase.Registered? && c.chans[k].id !in c.teardown.todo))
    && (Torn(c) ==> forall x <- c.chans :: x.phase.Registered? ==> x.closed)
    && !c.crashed
  }

  function InFlight(c: Client, k: nat): seq<OutFrame> {
    match c.reader
    case Reading => []
    case Routing(j, f) => if j == k then [f] else []
    case Stopped(lost) => if lost.Some? && lost.value.0 == k then [lost.value.1] else []
  }

  function WindowEnd(c: Client, x: Chan): nat { if x.to.Some? then x.to.value else |c.read| }

  /** Routing: what was put on a session's channel, and the frame on its way there, are the frames for its id that
      were read while it was registered, in wire order. */
  ghost predicate RoutedInv(c: Client, k: nat)
    requires k < |c.chans|
  {
    var x := c.chans[k];
    && (x.phase.Fresh? ==> x.taken + x.buf == [] && InFlight(c, k) == [] && x.to.None? && !x.closed)
    && (x.phase.Registered? ==> x.to.None?)
    && (x.phase.Gone? ==> x.to.Some?)
    && x.from <= WindowEnd(c, x) <= |c.read|
    && (!x.phase.Fresh? ==>
          x.taken + x.buf + InFlight(c, k) == FramesFor(c.read[x.from..WindowEnd(c, x)], x.id))
    && |x.buf| <= RECV_CH_BUF_SIZE
  }

  ghost predicate RouteInv(c: Client) {
    forall k :: 0 <= k < |c.chans| ==> RoutedInv(c, k)
  }

  /** The ids of all sessions ever made are distinct. */
  ghost predicate UniqueInv(c: Client) {
    forall j, k :: 0 <= j < k < |c.chans| ==> c.chans[j].id != c.chans[k].id
  }

  ghost predicate IdsInv(c: Client) {
    |c.chans| <= ID_SPACE && forall k :: 0 <= k < |c.chans| ==> c.chans[k].id == IdOf(k)
  }

  /** The frame the read loop carries, or carried when it stopped, belongs to a session that was registered. */
  ghost predicate TargetInv(c: Client) {
    && (c.reader.Routing? ==> c.reader.k < |c.chans| && !c.chans[c.reader.k].phase.Fresh?)
    && (c.reader.Stopped? && c.reader.lost.Some? ==>
        c.reader.lost.value.0 < |c.chans| && !c.chans[c.reader.lost.value.0].phase.Fresh?)
  }

  /** The end of a channel is seen only when it is closed and drained. */
  ghost predicate EndedInv(c: Client) {
    forall x <- c.chans :: x.ended ==> x.closed && x.buf == []
  }

  /** A frame that was read is given up only when the context has ended. */
  ghost predicate LostInv(c: Client) { c.reader.Stopped? && c.reader.lost.Some? ==> c.ctxDone }

  /** The frames written are the first of those queued; while the write loop runs, the others wait in the channel. */
  ghost predicate QueueInv(c: Client) {
    |c.writeCh| <= WRITE_BUF_SIZE && c.wire <= c.sent && (c.writing ==> c.sent == c.wire + c.writeCh)
  }

  ghost predicate Inv(c: Client) {
    MapInv(c) && CloseInv(c) && RouteInv(c) && TargetInv(c) && UniqueInv(c) && IdsInv(c)
    && EndedInv(c) && LostInv(c) && QueueInv(c)
  }

  // ---- preservation -------------------------------------------------------------------------

  lemma InitInv()
    ensures Inv(Init())
  {
  }

  /** The steps of callers and of the teardown; the others are those of the read and write loops and their contexts. */
  predicate ByCaller(l: Label) { l.Allocate? || l.Register? || l.Remove? || l.Take? || l.SeeClosed? || l.Send? }

  predicate ByTeardown(l: Label) { l.BeginTeardown? || l.CloseOne? || l.EndTeardown? || l.CloseDone? }

  ghost predicate KeepsIds(c: Client, chans: seq<Chan>) {
    |chans| == |c.chans| && forall k :: 0 <= k < |c.chans| ==> chans[k].id == c.chans[k].id
  }

  lemma LoopsKeepIds(c: Client, l: Label)
    requires Enabled(c, l) && !ByCaller(l)
    ensures KeepsIds(c, Next(c, l).chans)
  {
  }

  lemma CallerKeepsIds(c: Client, l: Label)
    requires Enabled(c, l) && ByCaller(l) && !l.Allocate?
    ensures KeepsIds(c, Next(c, l).chans)
  {
  }

  /** Sessions keep their ids; only an allocation adds one. */
  lemma NextIds(c: Client, l: Label)
    requires Enabled(c, l)
    ensures var chans := Next(c, l).chans;
            && |chans| == |c.chans| + (if l.Allocate? then 1 else 0)
            && (forall k :: 0 <= k < |c.chans| ==> chans[k].id == c.chans[k].id)
            && (l.Allocate? ==> chans[|c.chans|].id == IdOf(|c.chans|))
  {
    if !ByCaller(l) {
      LoopsKeepIds(c, l);
    } else if !l.Allocate? {
      CallerKeepsIds(c, l);
    }
  }

  lemma FreshIdDiffers(j: nat, n: nat)
    requires j < n < ID_SPACE
    ensures IdOf(j) != IdOf(n)
  {
    IdsRepeatAfterWrap(j, n);
  }

  lemma NextKeepsIds(c: Client, l: Label)
    requires IdsInv(c) && UniqueInv(c) && Enabled(c, l) && |Next(c, l).chans| <= ID_SPACE
    ensures IdsInv(Next(c, l)) && UniqueInv(Next(c, l))
  {
    NextIds(c, l);
    IdsKept(c.chans, Next(c, l).chans);
  }

  lemma IdsKept(before: seq<Chan>, after: seq<Chan>)
    requires |before| <= |after| <= |before| + 1 && |after| <= ID_SPACE
    requires forall k :: 0 <= k < |before| ==> after[k].id == before[k].id == IdOf(k)
    requires |before| < |after| ==> after[|before|].id == IdOf(|before|)
    requires forall j, k :: 0 <= j < k < |before| ==> before[j].id != before[k].id
    ensures forall k :: 0 <= k < |after| ==> after[k].id == IdOf(k)
    ensures forall j, k :: 0 <= j < k < |after| ==> after[j].id != after[k].id
  {
    forall j, k | 0 <= j < k < |after|
      ensures after[j].id != after[k].id
    {
      if k == |before| {
        FreshIdDiffers(j, k);
      }
    }
  }

  lemma NextKeepsMap(c: Client, l: Label)
    requires MapInv(c) && CloseInv(c) && UniqueInv(c) && Enabled(c, l)
    ensures MapInv(Next(c, l))
  {
    if l.Register? {
      RegisterKeepsMap(c, l.k);
    } else if l.Remove? {
      RemoveKeepsMap(c, l.k);
    } else if ByTeardown(l) {
      TeardownKeepsMap(c, l);
    } else if ByCaller(l) {
      CallerKeepsMap(c, l);
    } else {
      LoopsKeepMap(c, l);
    }
  }

  lemma TeardownKeepsMap(c: Client, l: Label)
    requires MapInv(c) && CloseInv(c) && Enabled(c, l) && ByTeardown(l)
    ensures MapInv(Next(c, l))
  {
  }

  lemma CallerKeepsMap(c: Client, l: Label)
    requires MapInv(c) && Enabled(c, l) && ByCaller(l) && !l.Register? && !l.Remove?
    ensures MapInv(Next(c, l))
  {
  }

  lemma MapFrame(c: Client, c': Client)
    requires MapInv(c) && c'.sessions == c.sessions && (Torn(c') <==> Torn(c)) && |c'.chans| == |c.chans|
    requires forall k :: 0 <= k < |c.chans| ==>
               c'.chans[k].id == c.chans[k].id && c'.chans[k].phase == c.chans[k].phase
    ensures MapInv(c')
  {
  }

  lemma LoopsLeaveMap(c: Client, l: Label)
    requires Enabled(c, l) && !ByTeardown(l) && !ByCaller(l)
    ensures var c' := Next(c, l);
            && c'.sessions == c.sessions && c'.teardown == c.teardown && |c'.chans| == |c.chans|
            && forall k :: 0 <= k < |c.chans| ==>
                 c'.chans[k].id == c.chans[k].id && c'.chans[k].phase == c.chans[k].phase
  {
  }

  lemma LoopsKeepMap(c: Client, l: Label)
    requires MapInv(c) && Enabled(c, l) && !ByTeardown(l) && !ByCaller(l)
    ensures MapInv(Next(c, l))
  {
    LoopsLeaveMap(c, l);
    MapFrame(c, Next(c, l));
  }

  lemma RegisterKeepsMap(c: Client, k: nat)
    requires MapInv(c) && UniqueInv(c) && k < |c.chans| && c.chans[k].phase.Fresh?
    ensures MapInv(RegisterSession(c, k))
  {
  }

  lemma RemoveKeepsMap(c: Client, k: nat)
    requires MapInv(c) && UniqueInv(c) && k < |c.chans|
    ensures MapInv(RemoveSession(c, k))
  {
  }

  lemma NextKeepsClose(c: Client, l: Label)
    requires MapInv(c) && CloseInv(c) && UniqueInv(c) && Enabled(c, l)
    ensures CloseInv(Next(c, l))
  {
    if ByCaller(l) {
      CallerKeepsClose(c, l);
    } else if ByTeardown(l) {
      TeardownKeepsClose(c, l);
    } else {
      LoopsKeepClose(c, l);
    }
  }

  lemma CallerKeepsClose(c: Client, l: Label)
    requires MapInv(c) && CloseInv(c) && Enabled(c, l) && ByCaller(l)
    ensures CloseInv(Next(c, l))
  {
  }

  lemma TeardownKeepsClose(c: Client, l: Label)
    requires MapInv(c) && CloseInv(c) && UniqueInv(c) && Enabled(c, l) && ByTeardown(l)
    ensures CloseInv(Next(c, l))
  {
  }

  lemma LoopsKeepClose(c: Client, l: Label)
    requires CloseInv(c) && Enabled(c, l) && !ByCaller(l) && !ByTeardown(l)
    ensures CloseInv(Next(c, l))
  {
  }

  lemma NextKeepsTarget(c: Client, l: Label)
    requires MapInv(c) && TargetInv(c) && Enabled(c, l)
    ensures TargetInv(Next(c, l))
  {
    if ByCaller(l) {
      CallerKeepsTarget(c, l);
    }
  }

  lemma CallerKeepsTarget(c: Client, l: Label)
    requires TargetInv(c) && Enabled(c, l) && ByCaller(l)
    ensures TargetInv(Next(c, l))
  {
  }

  lemma RoutedFrame(c: Client, c': Client, k: nat)
    requires k < |c.chans| && RoutedInv(c, k) && k < |c'.chans|
    requires c'.chans[k] == c.chans[k] && c'.read == c.read && InFlight(c', k) == InFlight(c, k)
    ensures RoutedInv(c', k)
  {
  }

  /** The steps that change channel `k`. */
  predicate Touches(c: Client, l: Label, k: nat) {
    || (l.Route? && c.reader.Routing? && c.reader.k == k)
    || ((l.Take? || l.SeeClosed? || l.Register? || l.Remove?) && l.k == k)
    || (l.CloseOne? && l.id in c.sessions && c.sessions[l.id] == k)
  }

  lemma LoopsLeaveChan(c: Client, l: Label, k: nat)
    requires Enabled(c, l) && !ByCaller(l) && k < |c.chans| && !Touches(c, l, k) && !l.ReadFrame?
    ensures var c' := Next(c, l);
            && |c'.chans| == |c.chans| && c'.chans[k] == c.chans[k]
            && c'.read == c.read && InFlight(c', k) == InFlight(c, k)
  {
  }

  lemma CallerLeavesChan(c: Client, l: Label, k: nat)
    requires Enabled(c, l) && ByCaller(l) && k < |c.chans| && !Touches(c, l, k)
    ensures var c' := Next(c, l);
            |c'.chans| >= |c.chans| && c'.chans[k] == c.chans[k] && c'.read == c.read && c'.reader == c.reader
  {
  }

  lemma OthersKeepRoute(c: Client, l: Label, k: nat)
    requires k < |c.chans| && RoutedInv(c, k) && Enabled(c, l) && !l.ReadFrame? && !Touches(c, l, k)
    ensures |Next(c, l).chans| >= |c.chans| && RoutedInv(Next(c, l), k)
  {
    if ByCaller(l) {
      CallerLeavesChan(c, l, k);
    } else {
      LoopsLeaveChan(c, l, k);
    }
    RoutedFrame(c, Next(c, l), k);
  }

  lemma CloseKeepsRoute(c: Client, id: Id)
    requires MapInv(c) && Enabled(c, CloseOne(id)) && RoutedInv(c, c.sessions[id])
    ensures |Next(c, CloseOne(id)).chans| == |c.chans| && RoutedInv(Next(c, CloseOne(id)), c.sessions[id])
  {
    assert Next(c, CloseOne(id)).chans[c.sessions[id]] == c.chans[c.sessions[id]].(closed := true);
  }

  lemma NextKeepsRoute(c: Client, l: Label, k: nat)
    requires MapInv(c) && k < |c.chans| && RoutedInv(c, k) && TargetInv(c) && Enabled(c, l) && !l.ReadFrame?
    ensures |Next(c, l).chans| >= |c.chans| && RoutedInv(Next(c, l), k)
  {
    if !Touches(c, l, k) {
      OthersKeepRoute(c, l, k);
    } else if l.Route? {
      RouteKeepsRoute(c);
    } else if l.CloseOne? {
      CloseKeepsRoute(c, l.id);
    } else {
      CallerKeepsRoute(c, l);
    }
  }

  lemma RouteKeepsRoute(c: Client)
    requires Enabled(c, Route) && RoutedInv(c, c.reader.k) && TargetInv(c)
    ensures |Next(c, Route).chans| == |c.chans| && RoutedInv(Next(c, Route), c.reader.k)
  {
    var x := c.chans[c.reader.k];
    assert x.taken + (x.buf + [c.reader.frame]) + [] == x.taken + x.buf + [c.reader.frame];
  }

  lemma TakeKeepsRoute(c: Client, k: nat)
    requires Enabled(c, Take(k)) && RoutedInv(c, k)
    ensures RoutedInv(Next(c, Take(k)), k)
  {
    var x := c.chans[k];
    assert x.taken + x.buf == (x.taken + [x.buf[0]]) + x.buf[1..];
  }

  lemma RegisterKeepsRoute(c: Client, k: nat)
    requires Enabled(c, Register(k)) && RoutedInv(c, k)
    ensures RoutedInv(Next(c, Register(k)), k)
  {
    var c' := Next(c, Register(k));
    assert c.read[|c.read|..|c.read|] == [];
    assert c'.read == c.read && InFlight(c', k) == [];
  }

  lemma CallerKeepsRoute(c: Client, l: Label)
    requires (l.Take? || l.SeeClosed? || l.Register? || l.Remove?) && Enabled(c, l) && RoutedInv(c, l.k)
    ensures |Next(c, l).chans| == |c.chans| && RoutedInv(Next(c, l), l.k)
  {
    if l.Take? {
      TakeKeepsRoute(c, l.k);
    } else if l.Register? {
      RegisterKeepsRoute(c, l.k);
    }
  }

  lemma ReadKeepsRoute(c: Client, f: OutFrame, k: nat)
    requires MapInv(c) && !Torn(c) && k < |c.chans| && RoutedInv(c, k) && Enabled(c, ReadFrame(f))
    ensures RoutedInv(Next(c, ReadFrame(f)), k)
  {
    var x := c.chans[k];
    var c' := Next(c, ReadFrame(f));
    assert InFlight(c, k) == [];
    assert InFlight(c', k) == if f.id in c.sessions && c.sessions[f.id] == k then [f] else [];
    if x.phase.Registered? {
      assert f.id in c.sessions && c.sessions[f.id] == k <==> f.id == x.id;
      assert c.read[x.from..|c.read|] == c.read[x.from..];
      assert c'.read[x.from..|c.read| + 1] == c.read[x.from..] + [f];
      FramesForSnoc(c.read[x.from..], f, x.id);
      assert x.taken + x.buf + [] == x.taken + x.buf;
    } else if x.phase.Gone? {
      assert c'.read[x.from..x.to.value] == c.read[x.from..x.to.value];
    }
  }

  lemma NextKeepsRoutes(c: Client, l: Label)
    requires MapInv(c) && CloseInv(c) && RouteInv(c) && TargetInv(c) && Enabled(c, l)
    ensures RouteInv(Next(c, l))
  {
    var c' := Next(c, l);
    forall k | 0 <= k < |c'.chans|
      ensures RoutedInv(c', k)
    {
      if k < |c.chans| {
        if l.ReadFrame? {
          ReadKeepsRoute(c, l.frame, k);
        } else {
          NextKeepsRoute(c, l, k);
        }
      }
    }
  }

  /** Every step keeps the invariant, as long as no more than 2^64 sessions are made. */
  lemma NextKeepsInv(c: Client, l: Label)
    requires Inv(c) && Enabled(c, l) && |Next(c, l).chans| <= ID_SPACE
    ensures Inv(Next(c, l))
  {
    var c' := Next(c, l);
    NextKeepsIds(c, l);
    NextKeepsMap(c, l);
    NextKeepsClose(c, l);
    NextKeepsTarget(c, l);
    NextKeepsRoutes(c, l);
    NextKeepsEnded(c, l);
    NextKeepsQueue(c, l);
  }

  lemma NextKeepsEnded(c: Client, l: Label)
    requires EndedInv(c) && CloseInv(c) && TargetInv(c) && Enabled(c, l)
    ensures EndedInv(Next(c, l))
  {
    if ByCaller(l) {
      CallerKeepsEnded(c, l);
    } else if ByTeardown(l) {
      TeardownKeepsEnded(c, l);
    } else {
      LoopsKeepEnded(c, l);
    }
  }

  lemma CallerKeepsEnded(c: Client, l: Label)
    requires EndedInv(c) && Enabled(c, l) && ByCaller(l)
    ensures EndedInv(Next(c, l))
  {
    if !l.Allocate? && !l.Send? {
      assert c.chans[l.k] in c.chans;
    }
  }

  lemma TeardownKeepsEnded(c: Client, l: Label)
    requires EndedInv(c) && Enabled(c, l) && ByTeardown(l)
    ensures EndedInv(Next(c, l))
  {
    if l.CloseOne? {
      assert c.chans[c.sessions[l.id]] in c.chans;
    }
  }

  lemma LoopsKeepEnded(c: Client, l: Label)
    requires EndedInv(c) && CloseInv(c) && Enabled(c, l) && !ByCaller(l) && !ByTeardown(l)
    ensures EndedInv(Next(c, l))
  {
    if l.Route? {
      assert c.chans[c.reader.k] in c.chans;
    }
  }

  lemma NextKeepsQueue(c: Client, l: Label)
    requires QueueInv(c) && Enabled(c, l)
    ensures QueueInv(Next(c, l))
  {
    if l.WriteFails? {
      assert Next(c, l).sent == c.sent;
    } else if l.WriteOk? {
      assert c.wire + c.writeCh == (c.wire + [c.writeCh[0]]) + c.writeCh[1..];
    } else if !l.Send? {
      OthersKeepQueue(c, l);
    }
  }

  lemma OthersKeepQueue(c: Client, l: Label)
    requires Enabled(c, l) && !l.WriteOk? && !l.WriteFails? && !l.Send?
    ensures var c' := Next(c, l);
            c'.writeCh == c.writeCh && c'.sent == c.sent && c'.wire == c.wire
  {
  }

  lemma {:induction false} StepsKeepInv(c0: Client, ls: seq<Label>, c: Client)
    requires Inv(c0) && Steps(c0, ls, c) && |c.chans| <= ID_SPACE
    ensures Inv(c)
    decreases |ls|
  {
    if ls != [] {
      StepsGrow(Next(c0, ls[0]), ls[1..], c);
      NextKeepsInv(c0, ls[0]);
      StepsKeepInv(Next(c0, ls[0]), ls[1..], c);
    }
  }

  lemma {:induction false} StepsGrow(c0: Client, ls: seq<Label>, c: Client)
    requires Steps(c0, ls, c)
    ensures |c0.chans| <= |c.chans|
    decreases |ls|
  {
    if ls != [] {
      StepsGrow(Next(c0, ls[0]), ls[1..], c);
    }
  }

  // ---- theorems ---------------------------------------------------------------------------------

  /** Client routing and safety, in every interleaving with at most 2^64 sessions: nothing is sent on a closed channel
      or closed twice, ids never repeat, and a session's channel received exactly the wire frames with its id that
      were read while it was registered, in wire order, less the one in flight, which is given up only when the context
      has ended; and what is written is what was queued, in order. */
  lemma ClientRouting(c: Client)
    requires Reachable(c) && |c.chans| <= ID_SPACE
    ensures !c.crashed && UniqueInv(c)
    ensures forall k :: 0 <= k < |c.chans| ==>
              var x := c.chans[k];
              && x.from <= WindowEnd(c, x) <= |c.read|
              && (if x.phase.Fresh? then x.taken + x.buf == []
                  else x.taken + x.buf + InFlight(c, k) == FramesFor(c.read[x.from..WindowEnd(c, x)], x.id))
              && |InFlight(c, k)| <= 1
    ensures c.reader.Stopped? && c.reader.lost.Some? ==> c.ctxDone
    ensures c.wire <= c.sent && (c.writing ==> c.sent == c.wire + c.writeCh)
  {
    ReachableInv(c);
    forall k | 0 <= k < |c.chans|
      ensures RoutedInv(c, k) && c.chans[k].from <= WindowEnd(c, c.chans[k]) <= |c.read|
    {
      assert RoutedInv(c, k);
    }
  }

  /** Nothing panics: a session's channel is open when the read loop is about to send on it, and when it is closed. */
  lemma NothingPanics(c: Client)
    requires Reachable(c) && |c.chans| <= ID_SPACE
    ensures !c.crashed
    ensures c.reader.Routing? ==> c.reader.k < |c.chans| && !c.chans[c.reader.k].closed
    ensures c.teardown.Closing? ==> forall id <- c.teardown.todo ::
              id in c.sessions && c.sessions[id] < |c.chans| && !c.chans[c.sessions[id]].closed
  {
    ReachableInv(c);
    if c.reader.Routing? {
      assert c.chans[c.reader.k] in c.chans;
    }
  }

  lemma ReachableInv(c: Client)
    requires Reachable(c) && |c.chans| <= ID_SPACE
    ensures Inv(c)
  {
    var ls :| Steps(Init(), ls, c);
    InitInv();
    StepsKeepInv(Init(), ls, c);
  }

  /** The read loop waits for a slow receiver exactly while 64 frames are buffered for it, and a sender for the write
      loop exactly while 64 are queued. */
  lemma WaitsAtBounds(c: Client)
    requires Reachable(c) && |c.chans| <= ID_SPACE
    ensures c.reader.Routing? ==>
              c.reader.k < |c.chans| && (Enabled(c, Route) <==> |c.chans[c.reader.k].buf| < 64)
    ensures forall f :: Enabled(c, Send(f)) <==> |c.writeCh| < 64
  {
    ReachableInv(c);
    if c.reader.Routing? {
      assert c.chans[c.reader.k] in c.chans;
    }
  }

  lemma {:induction false} NothingWrittenAfter(c: Client, ls: seq<Label>, c': Client)
    requires !c.writing && Steps(c, ls, c')
    ensures !c'.writing && c'.wire == c.wire
    decreases |ls|
  {
    if ls != [] {
      OthersWriteNothing(c, ls[0]);
      NothingWrittenAfter(Next(c, ls[0]), ls[1..], c');
    }
  }

  lemma OthersWriteNothing(c: Client, l: Label)
    requires !c.writing && Enabled(c, l)
    ensures !Next(c, l).writing && Next(c, l).wire == c.wire
  {
  }

  /** Any write may fail; the frame is then lost, and nothing is written after it in any continuation. */
  lemma FailedWriteIsFinal(c: Client, ls: seq<Label>, c': Client)
    requires Reachable(c) && |c.chans| <= ID_SPACE && c.writing && c.writeCh != []
    ensures Enabled(c, WriteFails) && Next(c, WriteFails).writeCh == c.writeCh[1..]
    ensures Steps(Next(c, WriteFails), ls, c') ==> c'.wire == c.wire
  {
    ReachableInv(c);
    if Steps(Next(c, WriteFails), ls, c') {
      NothingWrittenAfter(Next(c, WriteFails), ls, c');
    }
  }

  /** Teardown closes session channels only when the loops are gone and the context has ended, and leaves no registered
      session with an open one. */
  lemma TeardownCloses(c: Client)
    requires Reachable(c) && |c.chans| <= ID_SPACE
    ensures forall x <- c.chans :: x.closed ==> c.reader.Stopped? && !c.writing && c.ctxDone
    ensures Torn(c) ==> forall x <- c.chans :: x.phase.Registered? ==> x.closed
  {
    ReachableInv(c);
  }

  /** The receives that empty a channel and then find it closed. */
  function Drain(k: nat, n: nat): seq<Label> {
    if n == 0 then [SeeClosed(k)] else [Take(k)] + Drain(k, n - 1)
  }

  lemma ClosedStays(c: Client, l: Label, k: nat)
    requires CloseInv(c) && TargetInv(c) && Enabled(c, l) && k < |c.chans| && c.chans[k].closed
    ensures var x, x' := c.chans[k], Next(c, l).chans[k];
            x'.closed && (x'.buf == x.buf || (l == Take(k) && x'.buf == x.buf[1..]))
  {
    assert c.chans[k] in c.chans;
  }

  lemma {:induction false} DrainRuns(c: Client, k: nat) returns (c': Client)
    requires !c.crashed && Known(c) && k < |c.chans| && c.chans[k].closed
    ensures Steps(c, Drain(k, |c.chans[k].buf|), c')
    ensures c'.chans == c.chans[k := c.chans[k].(buf := [], taken := c.chans[k].taken + c.chans[k].buf, ended := true)]
    decreases |c.chans[k].buf|
  {
    var x := c.chans[k];
    if x.buf == [] {
      c' := Next(c, SeeClosed(k));
      assert Steps(c', Drain(k, 0)[1..], c');
      assert x.taken + x.buf == x.taken;
    } else {
      var c1 := Next(c, Take(k));
      c' := DrainRuns(c1, k);
      assert Drain(k, |x.buf|)[1..] == Drain(k, |x.buf| - 1);
      assert x.taken + x.buf == (x.taken + [x.buf[0]]) + x.buf[1..];
    }
  }

  lemma ClosedAlone(c: Client, k: nat)
    requires Inv(c) && k < |c.chans| && c.chans[k].closed
    ensures forall l :: Enabled(c, l) ==>
              var x, x' := c.chans[k], Next(c, l).chans[k];
              x'.closed && (x'.buf == x.buf || (l == Take(k) && x'.buf == x.buf[1..]))
    ensures c.chans[k].ended ==> c.chans[k].buf == []
  {
    assert c.chans[k] in c.chans;
    forall l | Enabled(c, l)
      ensures var x, x' := c.chans[k], Next(c, l).chans[k];
              x'.closed && (x'.buf == x.buf || (l == Take(k) && x'.buf == x.buf[1..]))
    {
      ClosedStays(c, l, k);
    }
  }

  /** A closed channel drains and then shows its closure, and not before: no step of anyone else adds to it or takes
      from it, its receiver can always receive, gets the buffered frames in order, and sees the end only after the
      last of them. */
  lemma ClosedChannelDrains(c: Client, k: nat)
    requires Reachable(c) && |c.chans| <= ID_SPACE && k < |c.chans| && c.chans[k].closed
    ensures forall l :: Enabled(c, l) ==>
              var x, x' := c.chans[k], Next(c, l).chans[k];
              x'.closed && (x'.buf == x.buf || (l == Take(k) && x'.buf == x.buf[1..]))
    ensures Enabled(c, Take(k)) <==> c.chans[k].buf != []
    ensures Enabled(c, SeeClosed(k)) <==> c.chans[k].buf == []
    ensures c.chans[k].ended ==> c.chans[k].buf == []
    ensures exists c' :: Steps(c, Drain(k, |c.chans[k].buf|), c') && |c'.chans| == |c.chans| && c'.chans[k].ended
                         && c'.chans[k].taken == c.chans[k].taken + c.chans[k].buf
  {
    ReachableInv(c);
    ClosedAlone(c, k);
    var c' := DrainRuns(c, k);
  }

  // ---- teardown happens -----------------------------------------------------------------------------------------

  /** How far the loops and the teardown goroutine are from the end: the stage, and the channels still to close. */
  function Stage(c: Client): nat {
    match c.teardown
    case NotYet => (if c.ctxDone then 3 else 4) + if c.writing then 1 else 0
    case Closing(_) => 2
    case MapNil => 1
    case DoneClosed => 0
  }

  function ToClose(c: Client): nat { if c.teardown.Closing? then |c.teardown.todo| else 0 }

  ghost predicate Nearer(c': Client, c: Client) {
    Stage(c') + 1 == Stage(c) || (Stage(c') == Stage(c) && ToClose(c') < ToClose(c))
  }

  /** Once the read loop has stopped, teardown goes on: until `done` is closed, the loops or the teardown goroutine can
      take a step that brings the end nearer. */
  lemma TeardownProceeds(c: Client) returns (l: Label)
    requires Inv(c) && c.reader.Stopped? && !c.teardown.DoneClosed?
    ensures Enabled(c, l) && !ByCaller(l) && l != ParentCancelled && Nearer(Next(c, l), c)
    ensures Next(c, l).reader == c.reader && |Next(c, l).chans| == |c.chans|
  {
    match c.teardown
    case NotYet => l := if !c.ctxDone then CancelInner else if c.writing then WriterStops else BeginTeardown;
    case Closing(todo) =>
      if todo == {} {
        l := EndTeardown;
      } else {
        var id :| id in todo;
        assert |todo - {id}| < |todo|;
        l := CloseOne(id);
      }
    case MapNil => l := CloseDone;
  }

  /** And nobody pushes it back. */
  lemma NothingDelaysTeardown(c: Client, l: Label)
    requires Inv(c) && c.reader.Stopped? && Enabled(c, l)
    ensures Next(c, l).reader == c.reader
    ensures Stage(Next(c, l)) < Stage(c) || (Stage(Next(c, l)) == Stage(c) && ToClose(Next(c, l)) <= ToClose(c))
  {
    if l.CloseOne? {
      assert l.id in c.teardown.todo;
      assert |c.teardown.todo - {l.id}| < |c.teardown.todo|;
    } else if ByCaller(l) {
      CallerLeavesTeardown(c, l);
    }
  }

  lemma CallerLeavesTeardown(c: Client, l: Label)
    requires Enabled(c, l) && ByCaller(l)
    ensures var c' := Next(c, l);
            c'.teardown == c.teardown && c'.reader == c.reader && c'.writing == c.writing && c'.ctxDone == c.ctxDone
  {
  }

  lemma {:induction false} StepFirst(c: Client, l: Label, ls: seq<Label>, c': Client)
    requires Enabled(c, l) && Steps(Next(c, l), ls, c')
    ensures Steps(c, [l] + ls, c')
  {
    assert ([l] + ls)[1..] == ls;
  }

  lemma {:induction false} TearsDown(c: Client) returns (ls: seq<Label>, c': Client)
    requires Inv(c) && |c.chans| <= ID_SPACE && c.reader.Stopped?
    ensures Steps(c, ls, c') && c'.teardown.DoneClosed?
    decreases Stage(c), ToClose(c)
  {
    if c.teardown.DoneClosed? {
      ls, c' := [], c;
    } else {
      var l := TeardownProceeds(c);
      NextKeepsInv(c, l);
      var rest;
      rest, c' := TearsDown(Next(c, l));
      StepFirst(c, l, rest, c');
      ls := [l] + rest;
    }
  }

  /** From every reachable state the connection can be torn down completely. */
  lemma CanAlwaysTearDown(c: Client)
    requires Reachable(c) && |c.chans| <= ID_SPACE
    ensures exists ls, c' :: Steps(c, ls, c') && c'.teardown.DoneClosed?
  {
    ReachableInv(c);
    if c.reader.Stopped? {
      var ls, c' := TearsDown(c);
    } else if c.reader.Reading? {
      var ls, c' := StopsAndTearsDown(c, ReadError);
    } else {
      var c1 := Next(c, ParentCancelled);
      NextKeepsInv(c, ParentCancelled);
      var ls, c' := StopsAndTearsDown(c1, RouteAborted);
      StepFirst(c, ParentCancelled, ls, c');
    }
  }

  lemma StopsAndTearsDown(c: Client, l: Label) returns (ls: seq<Label>, c': Client)
    requires Inv(c) && |c.chans| <= ID_SPACE && Enabled(c, l) && (l == ReadError || l == RouteAborted)
    ensures Steps(c, ls, c') && c'.teardown.DoneClosed?
  {
    NextKeepsInv(c, l);
    var rest;
    rest, c' := TearsDown(Next(c, l));
    StepFirst(c, l, rest, c');
    ls := [l] + rest;
  }
}
