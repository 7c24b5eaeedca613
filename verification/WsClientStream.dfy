/** The streams in a caller's hands (`transport/ws/client_stream.go`), for one receiver. What the blocking `select` of
    `receiveResponse` will yield, turn by turn, is given as a sequence of events; a receiver that has used them up
    blocks. */
module WsClientStream {
  import opened Options
  import opened WsFrames
  import E = WsEndToEnd

  datatype Event = Frame(frame: OutFrame) | ChannelClosed | ContextDone(err: GoError)

  /** What a stream needs to know to read an event: how responses decode, and the error of a closed connection. */
  datatype Reading = Reading(net: E.Net, procedure: string, closeErr: GoError)

  /** One turn of the loop in `receiveResponse`; `None` means that the frame is skipped. */
  function Turn(x: Reading, e: Event): Option<E.Outcome> {
    match e
    case Frame(f) => E.Interpret(x.net, x.procedure, f)
    case ChannelClosed => Some(E.Error(x.closeErr))
    case ContextDone(err) => Some(E.Error(err))
  }

  /** The outcome, unless the call blocks, and the events left. */
  datatype Received = Received(outcome: Option<E.Outcome>, rest: seq<Event>)

  function Next(x: Reading, events: seq<Event>): Received {
    if events == [] then Received(None, [])
    else if Turn(x, events[0]).Some? then Received(Turn(x, events[0]), events[1..])
    else Next(x, events[1..])
  }

  /** `receiveResponse`: reads on until a turn yields something. */
  method ReceiveResponse(x: Reading, events: seq<Event>) returns (r: Received)
    ensures r == Next(x, events)
  {
    var rest := events;
    while rest != []
      invariant Next(x, rest) == Next(x, events)
      decreases |rest|
    {
      var outcome := Turn(x, rest[0]);
      rest := rest[1..];
      if outcome.Some? {
        return Received(outcome, rest);
      }
    }
    return Received(None, []);
  }

  // ---- a stream as a value -----------------------------------------------------------------------------------

  /** The error after which nothing is read any more, and the events to come. */
  datatype State = State(term: Option<E.Outcome>, events: seq<Event>)

  datatype Call = Call(outcome: Option<E.Outcome>, after: State)

  function ReceiveOn(x: Reading, s: State): Call {
    if s.term.Some? then Call(s.term, s)
    else
      var r := Next(x, s.events);
      Call(r.outcome, State(if r.outcome.Some? && !r.outcome.value.Data? then r.outcome else None, r.rest))
  }

  /** The state after `n` calls of `Receive`. */
  function AfterCalls(x: Reading, s: State, n: nat): State {
    if n == 0 then s else ReceiveOn(x, AfterCalls(x, s, n - 1)).after
  }

  /** The outcome of the call number `n`, counted from zero. */
  function Nth(x: Reading, events: seq<Event>, n: nat): Option<E.Outcome> {
    ReceiveOn(x, AfterCalls(x, State(None, events), n)).outcome
  }

  // ---- the streams as objects ----------------------------------------------------------------------------------

  /** `clientServerStream`; `clientBidiStream` has the same `Receive`, and no `Close`. */
  class ClientServerStream {
    const x: Reading
    const canceled: GoError
    var events: seq<Event>
    var termErr: Option<E.Outcome>
    var closed: bool
    var cleaned: bool
    ghost var removals: nat
    ghost var cancels: nat   // calls of sendCancel

    constructor (x: Reading, canceled: GoError, events: seq<Event>)
      ensures Valid() && this.x == x && Contents() == State(None, events) && removals == cancels == 0 && !closed
    {
      this.x, this.canceled, this.events := x, canceled, events;
      termErr, closed, cleaned, removals, cancels := None, false, false, 0, 0;
    }

    /** The session has been removed once if the `sync.Once` has run, and it has run if there was a terminal error or
        the stream was closed; a closed stream has sent one cancel frame, an open one none. */
    ghost predicate Valid()
      reads this
    {
      && removals == (if cleaned then 1 else 0) && (termErr.Some? ==> cleaned && !termErr.value.Data?)
      && cancels == (if closed then 1 else 0) && (closed ==> cleaned)
    }

    ghost function Contents(): State
      reads this
    {
      State(termErr, events)
    }

    /** `cleanup.Do(removeSession)`. */
    method Cleanup()
      requires removals == (if cleaned then 1 else 0)
      modifies this`cleaned, this`removals
      ensures cleaned && removals == 1
    {
      if !cleaned {
        cleaned := true;
        removals := removals + 1;
      }
    }

    /** `sendCancel`, with the error that the write channel or the context makes of it, if any. */
    method SendCancel(sendErr: Option<GoError>) returns (err: Option<GoError>)
      modifies this`cancels
      ensures cancels == old(cancels) + 1 && err == sendErr
    {
      cancels := cancels + 1;
      err := sendErr;
    }

    method Receive() returns (outcome: Option<E.Outcome>)
      requires Valid()
      modifies this`events, this`termErr, this`cleaned, this`removals
      ensures Valid() && Call(outcome, Contents()) == ReceiveOn(x, old(Contents()))
      ensures cleaned <==> old(cleaned) || (outcome.Some? && !outcome.value.Data?)
    {
      if termErr.Some? {
        return termErr;
      }
      var r := ReceiveResponse(x, events);
      events := r.rest;
      if r.outcome.Some? && !r.outcome.value.Data? {
        termErr := r.outcome;
        Cleanup();
      }
      return r.outcome;
    }

    /** Cancels the stream's context: from then on any turn may find it done, and some turn will. */
    method Close(sendErr: Option<GoError>) returns (err: Option<GoError>)
      requires Valid()
      modifies this`events, this`closed, this`cleaned, this`removals, this`cancels
      ensures Valid() && closed && removals == 1 && cancels == 1
      ensures cancels == old(cancels) + if old(closed) then 0 else 1
      ensures err == if old(closed) then None else sendErr
      ensures exists k :: 0 <= k <= |old(events)| && events == old(events)[..k] + [ContextDone(canceled)]
    {
      Cleanup();
      var k :| 0 <= k <= |events|;
      events := events[..k] + [ContextDone(canceled)];
      if closed {
        return None;
      }
      closed := true;
      err := SendCancel(sendErr);
    }
  }

  /** `clientClientStream`. */
  class ClientClientStream {
    const x: Reading
    var events: seq<Event>
    var cleaned: bool
    ghost var removals: nat

    constructor (x: Reading, events: seq<Event>)
      ensures this.x == x && this.events == events && !cleaned && removals == 0
    {
      this.x, this.events := x, events;
      cleaned, removals := false, 0;
    }

    /** The session is removed whatever the outcome, unless the call blocks. */
    method CloseAndReceive(sendErr: Option<GoError>) returns (outcome: Option<E.Outcome>)
      requires removals == (if cleaned then 1 else 0)
      modifies this
      ensures if sendErr.Some? then outcome == Some(E.Error(sendErr.value)) && events == old(events)
              else Received(outcome, events) == Next(x, old(events))
      ensures removals == (if cleaned then 1 else 0) && (outcome.Some? ==> cleaned)
    {
      if sendErr.Some? {
        outcome := Some(E.Error(sendErr.value));
      } else {
        var r := ReceiveResponse(x, events);
        events := r.rest;
        outcome := r.outcome;
      }
      if outcome.Some? && !cleaned {
        cleaned := true;
        removals := removals + 1;
      }
    }
  }

  // ---- what the receiver sees --------------------------------------------------------------------------------------

  /** What the events amount to, up to the first end or error. */
  function Outcomes(x: Reading, events: seq<Event>): seq<E.Outcome> {
    if events == [] then []
    else
      match Turn(x, events[0])
      case None => Outcomes(x, events[1..])
      case Some(o) => if o.Data? then [o] + Outcomes(x, events[1..]) else [o]
  }

  predicate Ended(outcomes: seq<E.Outcome>) { outcomes != [] && !outcomes[|outcomes| - 1].Data? }

  lemma {:induction false} NextIsFirst(x: Reading, events: seq<Event>)
    ensures var r, os := Next(x, events), Outcomes(x, events);
            && (r.outcome.None? <==> os == [])
            && (r.outcome.Some? ==>
                  && os[0] == r.outcome.value
                  && if r.outcome.value.Data? then os[1..] == Outcomes(x, r.rest) else |os| == 1)
  {
    if events != [] && Turn(x, events[0]).None? {
      NextIsFirst(x, events[1..]);
    }
  }

  lemma {:induction false} CallsCommute(x: Reading, s: State, n: nat)
    ensures AfterCalls(x, ReceiveOn(x, s).after, n) == AfterCalls(x, s, n + 1)
  {
    if n > 0 {
      CallsCommute(x, s, n - 1);
    }
  }

  lemma {:induction false} StuckStays(x: Reading, s: State, n: nat)
    requires ReceiveOn(x, s).after == s
    ensures AfterCalls(x, s, n) == s
  {
    if n > 0 {
      StuckStays(x, s, n - 1);
    }
  }

  /** Call by call the receiver gets the outcomes in order; after the first end or error it gets that one again, for
      ever, and the channel is not read any more. */
  lemma {:induction false} ReceivesInOrder(x: Reading, events: seq<Event>, n: nat)
    ensures var os := Outcomes(x, events);
            Nth(x, events, n) == if n < |os| then Some(os[n]) else if Ended(os) then Some(os[|os| - 1]) else None
    ensures Ended(Outcomes(x, events)) && n >= |Outcomes(x, events)| ==>
              AfterCalls(x, State(None, events), n + 1) == AfterCalls(x, State(None, events), n)
    decreases n
  {
    var s := State(None, events);
    var r, os := Next(x, events), Outcomes(x, events);
    NextIsFirst(x, events);
    var s' := ReceiveOn(x, s).after;
    if n > 0 {
      CallsCommute(x, s, n - 1);
      CallsCommute(x, s, n);
      if r.outcome.None? {
        StuckAtEnd(x, events);
        StuckStays(x, s', n - 1);
      } else if r.outcome.value.Data? {
        ReceivesInOrder(x, r.rest, n - 1);
      } else {
        StuckStays(x, s', n - 1);
        StuckStays(x, s', n);
      }
    }
  }

  lemma {:induction false} StuckAtEnd(x: Reading, events: seq<Event>)
    requires Next(x, events).outcome.None?
    ensures Next(x, events).rest == []
  {
    if events != [] {
      StuckAtEnd(x, events[1..]);
    }
  }

  function FrameEvents(fs: seq<OutFrame>): (es: seq<Event>)
    ensures |es| == |fs| && forall i :: 0 <= i < |fs| ==> es[i] == Frame(fs[i])
  {
    seq(|fs|, i requires 0 <= i < |fs| => Frame(fs[i]))
  }

  function AllData(ps: seq<Payload>): (os: seq<E.Outcome>)
    ensures |os| == |ps| && forall i :: 0 <= i < |ps| ==> os[i] == E.Data(ps[i])
  {
    seq(|ps|, i requires 0 <= i < |ps| => E.Data(ps[i]))
  }

  /** The stream goes on after the event: a frame that is neither an error nor a close, and whose payload, if it is a
      message, decodes. */
  predicate GoesOn(x: Reading, e: Event) {
    && e.Frame? && e.frame.error.None? && !e.frame.kind.CloseType?
    && (e.frame.kind.MessageType? ==> x.net.response(x.procedure, e.frame.payload).None?)
  }

  /** The payloads of the message frames; frames of other types are skipped. */
  function Carried(events: seq<Event>): seq<Payload> {
    if events == [] then []
    else
      var e := events[0];
      (if e.Frame? && e.frame.kind.MessageType? then [e.frame.payload] else []) + Carried(events[1..])
  }

  /** What an event ends the stream with: a lost connection with its error, an ended context with its own, a close frame
      with EOF, an error frame with its code, message and retryable flag, a message that does not decode with why. */
  function EndedBy(x: Reading, e: Event): E.Outcome
    requires !GoesOn(x, e)
  {
    match e
    case ChannelClosed => E.Error(x.closeErr)
    case ContextDone(err) => E.Error(err)
    case Frame(f) =>
      if f.error.Some? then
        E.Error(StatusError(Status(f.error.value.code, f.error.value.message, f.error.value.retryable), None))
      else if f.kind.CloseType? then E.Eof
      else E.Error(x.net.response(x.procedure, f.payload).value)
  }

  lemma TurnMeans(x: Reading, e: Event)
    ensures if !GoesOn(x, e) then Turn(x, e) == Some(EndedBy(x, e)) && !EndedBy(x, e).Data?
            else Turn(x, e) == if e.frame.kind.MessageType? then Some(E.Data(e.frame.payload)) else None
  {
  }

  /** Whatever the events, the caller sees the payloads up to the first event that ends the stream, in order, and then
      that end. */
  lemma {:induction false} SeesUntilEnd(x: Reading, front: seq<Event>, last: Event, rest: seq<Event>)
    requires (forall e <- front :: GoesOn(x, e)) && !GoesOn(x, last)
    ensures Outcomes(x, front + [last] + rest) == AllData(Carried(front)) + [EndedBy(x, last)]
    decreases |front|
  {
    var events := front + [last] + rest;
    if front == [] {
      TurnMeans(x, last);
      assert events[0] == last;
    } else {
      TurnMeans(x, front[0]);
      assert events[0] == front[0] && events[1..] == front[1..] + [last] + rest;
      SeesUntilEnd(x, front[1..], last, rest);
      AllDataOf(front);
    }
  }

  lemma AllDataOf(events: seq<Event>)
    requires events != []
    ensures AllData(Carried(events))
            == (if events[0].Frame? && events[0].frame.kind.MessageType? then [E.Data(events[0].frame.payload)] else [])
               + AllData(Carried(events[1..]))
  {
  }

  /** As long as nothing ends the stream, the caller sees the payloads and then blocks. */
  lemma {:induction false} SeesSoFar(x: Reading, events: seq<Event>)
    requires forall e <- events :: GoesOn(x, e)
    ensures Outcomes(x, events) == AllData(Carried(events))
  {
    if events != [] {
      TurnMeans(x, events[0]);
      SeesSoFar(x, events[1..]);
      AllDataOf(events);
    }
  }

  /** Call by call: the payloads before the event that ends the stream, then that end, for ever. */
  lemma ReceivesUntilEnd(x: Reading, front: seq<Event>, last: Event, rest: seq<Event>, n: nat)
    requires (forall e <- front :: GoesOn(x, e)) && !GoesOn(x, last)
    ensures Nth(x, front + [last] + rest, n)
            == Some(if n < |Carried(front)| then E.Data(Carried(front)[n]) else EndedBy(x, last))
  {
    SeesUntilEnd(x, front, last, rest);
    TurnMeans(x, last);
    ReceivesInOrder(x, front + [last] + rest, n);
  }

  /** A clean end is never made up: a caller that gets EOF has read a close frame, after frames only, all of whose
      messages it was given. */
  lemma EofMeansClose(x: Reading, events: seq<Event>, n: nat)
    requires Nth(x, events, n) == Some(E.Eof)
    ensures exists k :: 0 <= k < |events| && events[k].Frame? && events[k].frame.kind.CloseType?
                        && events[k].frame.error.None? && (forall e <- events[..k] :: GoesOn(x, e))
                        && |Carried(events[..k])| <= n
  {
    ReceivesInOrder(x, events, n);
    if k :| 0 <= k < |events| && !GoesOn(x, events[k]) && forall e <- events[..k] :: GoesOn(x, e) {
      assert events == events[..k] + [events[k]] + events[k + 1..];
      ReceivesUntilEnd(x, events[..k], events[k], events[k + 1..], n);
      assert EndedBy(x, events[k]) == E.Eof;
    } else {
      AllGoOn(x, events, |events|);
      assert events[..|events|] == events;
      SeesSoFar(x, events);
    }
  }

  lemma {:induction false} AllGoOn(x: Reading, events: seq<Event>, n: nat)
    requires n <= |events|
    requires !exists k :: 0 <= k < |events| && !GoesOn(x, events[k]) && forall e <- events[..k] :: GoesOn(x, e)
    ensures forall e <- events[..n] :: GoesOn(x, e)
  {
    if n > 0 {
      AllGoOn(x, events, n - 1);
      assert events[..n] == events[..n - 1] + [events[n - 1]];
    }
  }

  lemma {:induction false} CarriedMessages(id: Id, ps: seq<Payload>)
    ensures Carried(FrameEvents(MessageFrames(id, ps))) == ps
  {
    if ps != [] {
      var events := FrameEvents(MessageFrames(id, ps));
      assert events[1..] == FrameEvents(MessageFrames(id, ps[1..]));
      CarriedMessages(id, ps[1..]);
      assert ps == [ps[0]] + ps[1..];
    }
  }

  /** From the frames of a completed server-stream run, which are messages and then a close or an error, the caller
      gets exactly those payloads, in order, and then EOF or the error with its code, message and retryable flag. */
  lemma SeesWholeStream(x: Reading, id: Id, ps: seq<Payload>, last: OutFrame, rest: seq<Event>)
    requires forall p <- ps :: x.net.response(x.procedure, p) == None
    requires last == CloseFrame(id) || exists d :: last == ErrorFrame(id, d)
    ensures Outcomes(x, FrameEvents(MessageFrames(id, ps) + [last]) + rest)
            == AllData(ps)
               + [if last == CloseFrame(id) then E.Eof
                  else E.Error(StatusError(Status(last.error.value.code, last.error.value.message,
                                                  last.error.value.retryable), None))]
  {
    var front := FrameEvents(MessageFrames(id, ps));
    assert FrameEvents(MessageFrames(id, ps) + [last]) == front + [Frame(last)];
    CarriedMessages(id, ps);
    SeesUntilEnd(x, front, Frame(last), rest);
  }
}
