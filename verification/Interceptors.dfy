/** The interceptor chain and the connections it decorates (`interceptor.go`).

    A connection is a pair of operations on a world, the state that calls change; a typed handler is an interaction
    script, which decides from what it has seen what to do next. */
module Interceptors {
  import opened Options
  import opened WsFrames

  type Meta = map<string, string>
  type TypeName = string

  /** `Request[T]` and `Response[T]`; the message may be a nil pointer. */
  datatype Envelope = Envelope(msg: Option<Payload>, meta: Meta)

  /** An `any`: the nil interface, or a possibly nil pointer to a message of a type. */
  datatype Any = NilAny | Pointer(typ: TypeName, msg: Option<Payload>)

  /** `AnyRequest` and `AnyResponse`: one of the package's own views, or another implementation. */
  datatype AnyMessage =
    | RequestView(typ: TypeName, inner: Option<Envelope>)
    | ResponseView(typ: TypeName, inner: Option<Envelope>)
    | Custom(any: Any, meta: Meta)

  function AnyOf(m: AnyMessage): Any {
    if m.Custom? then m.any else if m.inner.Some? then Pointer(m.typ, m.inner.value.msg) else NilAny
  }

  function MetaOf(m: AnyMessage): Meta {
    if m.Custom? then m.meta else if m.inner.Some? then m.inner.value.meta else map[]
  }

  const EOF := Opaque("EOF")
  const NIL_REQUEST := NewError("internal", "interceptor passed nil request")
  const NIL_RESPONSE := NewError("internal", "handler sent nil response")

  function UnexpectedType(what: string, any: Any): GoError {
    NewError("internal", what + if any.Pointer? then any.typ else "<nil>")
  }

  /** The part of both casts that goes through `Any()`. */
  function CastAny(what: string, typ: TypeName, m: AnyMessage): Result<Option<Envelope>, GoError> {
    if AnyOf(m).Pointer? && AnyOf(m).typ == typ then Ok(Some(Envelope(AnyOf(m).msg, MetaOf(m))))
    else Err(UnexpectedType(what, AnyOf(m)))
  }

  /** `castRequest`: the package's own request view of the type is taken as it is, nil request included. */
  function CastRequest(typ: TypeName, m: Option<AnyMessage>): Result<Option<Envelope>, GoError> {
    if m.None? then Err(NIL_REQUEST)
    else if m.value.RequestView? && m.value.typ == typ then Ok(m.value.inner)
    else CastAny("interceptor passed unexpected request type ", typ, m.value)
  }

  /** `castResponse`: the package's own response view of the type is taken as it is, nil response included. */
  function CastResponse(typ: TypeName, m: Option<AnyMessage>): Result<Option<Envelope>, GoError> {
    if m.None? then Ok(None)
    else if m.value.ResponseView? && m.value.typ == typ then Ok(m.value.inner)
    else CastAny("interceptor returned unexpected response type ", typ, m.value)
  }

  // ---- what a message stands for --------------------------------------------------------------------------

  /** A pointer of some type, with its metadata. */
  datatype Held = Held(typ: TypeName, envelope: Envelope)

  /** What an `AnyRequest` or `AnyResponse` holds, whoever implements it. */
  function Holds(m: AnyMessage): Option<Held> {
    match m
    case RequestView(typ, Some(e)) => Some(Held(typ, e))
    case ResponseView(typ, Some(e)) => Some(Held(typ, e))
    case Custom(Pointer(typ, msg), meta) => Some(Held(typ, Envelope(msg, meta)))
    case _ => None
  }

  function WrongType(what: string, m: AnyMessage): GoError {
    NewError("internal", what + if Holds(m).Some? then Holds(m).value.typ else "<nil>")
  }

  /** A request as the handler gets it: what the message holds, with its metadata, if it is of the handler's type; a nil
      request only in the package's own view; otherwise an internal error. */
  function AsRequest(typ: TypeName, m: Option<AnyMessage>): Result<Option<Envelope>, GoError> {
    if m.None? then Err(NewError("internal", "interceptor passed nil request"))
    else if m.value == RequestView(typ, None) then Ok(None)
    else if Holds(m.value).Some? && Holds(m.value).value.typ == typ then Ok(Some(Holds(m.value).value.envelope))
    else Err(WrongType("interceptor passed unexpected request type ", m.value))
  }

  /** A response as the caller gets it, likewise; no response at all is none for the caller. */
  function AsResponse(typ: TypeName, m: Option<AnyMessage>): Result<Option<Envelope>, GoError> {
    if m.None? || m.value == ResponseView(typ, None) then Ok(None)
    else if Holds(m.value).Some? && Holds(m.value).value.typ == typ then Ok(Some(Holds(m.value).value.envelope))
    else Err(WrongType("interceptor returned unexpected response type ", m.value))
  }

  lemma CastsMean(typ: TypeName, m: Option<AnyMessage>)
    ensures CastRequest(typ, m) == AsRequest(typ, m) && CastResponse(typ, m) == AsResponse(typ, m)
  {
    if m.Some? {
      assert m.value.Custom? || m.value.inner.None?
             || Envelope(AnyOf(m.value).msg, MetaOf(m.value)) == m.value.inner.value;
    }
  }

  // ---- connections, handlers, interceptors ------------------------------------------------------------------

  datatype Conn<!W> = Conn(
    receive: W -> (W, Result<Option<AnyMessage>, GoError>),
    send: (W, Option<AnyMessage>) -> (W, Option<GoError>))

  type Handler<!W> = (W, Conn<W>) -> (W, Option<GoError>)

  /** A non-nil interceptor; an `InterceptorFunc` may itself be a nil function. */
  datatype Interceptor<!W> = Func(wrap: Handler<W> -> Handler<W>) | NilFunc

  function Wrap<W>(i: Interceptor<W>, next: Handler<W>): Handler<W> {
    match i
    case NilFunc => next
    case Func(wrap) => wrap(next)
  }

  /** The first interceptor is outermost; nil interceptors are skipped. */
  function Chain<W>(inner: Handler<W>, interceptors: seq<Option<Interceptor<W>>>): Handler<W> {
    if interceptors == [] then inner
    else
      var next := Chain(inner, interceptors[1..]);
      if interceptors[0].None? then next else Wrap(interceptors[0].value, next)
  }

  /** `chainInterceptors`. */
  method ChainInterceptors<W>(inner: Handler<W>, interceptors: seq<Option<Interceptor<W>>>) returns (next: Handler<W>)
    ensures next == Chain(inner, interceptors)
  {
    next := inner;
    var i := |interceptors|;
    while i > 0
      invariant 0 <= i <= |interceptors| && next == Chain(inner, interceptors[i..])
    {
      i := i - 1;
      assert interceptors[i..][1..] == interceptors[i + 1..];
      if interceptors[i].Some? {
        next := Wrap(interceptors[i].value, next);
      }
    }
    assert interceptors[0..] == interceptors;
  }

  predicate HasActive<W>(interceptors: seq<Option<Interceptor<W>>>) {
    exists i :: 0 <= i < |interceptors| && interceptors[i].Some?
  }

  /** A chain of two lists is the chain of the first around the chain of the second. */
  lemma {:induction false} ChainConcat<W>(inner: Handler<W>, a: seq<Option<Interceptor<W>>>,
                                          b: seq<Option<Interceptor<W>>>)
    ensures Chain(inner, a + b) == Chain(Chain(inner, b), a)
  {
    if a == [] {
      assert a + b == b;
    } else {
      ChainConcat(inner, a[1..], b);
      assert (a + b)[1..] == a[1..] + b;
    }
  }

  /** A nil interceptor can be put anywhere, or removed, without effect. */
  lemma NilAnywhere<W>(inner: Handler<W>, a: seq<Option<Interceptor<W>>>, b: seq<Option<Interceptor<W>>>)
    ensures Chain(inner, a + [None] + b) == Chain(inner, a + b)
  {
    ChainConcat(inner, a + [None], b);
    ChainConcat(Chain(inner, b), a, [None]);
    ChainConcat(inner, a, b);
    var nothing: seq<Option<Interceptor<W>>> := [None];
    assert nothing[1..] == [];
  }

  // ---- decorators and the onion law ---------------------------------------------------------------------------

  /** An interceptor that rewrites what is received and what is sent. */
  datatype Decorator = Decorator(onReceive: Option<AnyMessage> -> Option<AnyMessage>,
                                 onSend: Option<AnyMessage> -> Option<AnyMessage>)

  function Decorate<W>(d: Decorator, c: Conn<W>): Conn<W> {
    Conn(w => var (w', r) := c.receive(w); (w', if r.Ok? then Ok(d.onReceive(r.value)) else r),
         (w, m) => c.send(w, d.onSend(m)))
  }

  function Decorating<W>(d: Decorator): Interceptor<W> {
    Func((next: Handler<W>) => ((w: W, c: Conn<W>) => next(w, Decorate(d, c))))
  }

  function DecoratingAll<W>(ds: seq<Decorator>): seq<Option<Interceptor<W>>> {
    seq(|ds|, i requires 0 <= i < |ds| => Some(Decorating(ds[i])))
  }

  /** f_{n-1} after … after f_0. */
  function ThroughReceive(ds: seq<Decorator>, m: Option<AnyMessage>): Option<AnyMessage> {
    if ds == [] then m else ThroughReceive(ds[1..], ds[0].onReceive(m))
  }

  /** g_0 after … after g_{n-1}. */
  function ThroughSend(ds: seq<Decorator>, m: Option<AnyMessage>): Option<AnyMessage> {
    if ds == [] then m else ds[0].onSend(ThroughSend(ds[1..], m))
  }

  function ReceivedThrough(ds: seq<Decorator>, r: Result<Option<AnyMessage>, GoError>)
    : Result<Option<AnyMessage>, GoError>
  {
    if r.Ok? then Ok(ThroughReceive(ds, r.value)) else r
  }

  /** One connection that applies all the decorators at once. */
  function Onion<W>(ds: seq<Decorator>, c: Conn<W>): Conn<W> {
    Conn(w => var (w', r) := c.receive(w); (w', ReceivedThrough(ds, r)), (w, m) => c.send(w, ThroughSend(ds, m)))
  }

  /** The connection wrapped decorator by decorator, the first one innermost around the transport. */
  function Layered<W>(ds: seq<Decorator>, c: Conn<W>): Conn<W> {
    if ds == [] then c else Layered(ds[1..], Decorate(ds[0], c))
  }

  ghost predicate SameConn<W(!new)>(c: Conn<W>, d: Conn<W>) {
    (forall w :: c.receive(w) == d.receive(w)) && (forall w, m :: c.send(w, m) == d.send(w, m))
  }

  /** The handler only uses the operations of its connection. */
  ghost predicate Extensional<W(!new)>(h: Handler<W>) {
    forall w, c, d :: SameConn(c, d) ==> h(w, c) == h(w, d)
  }

  lemma {:induction false} ChainLayers<W>(inner: Handler<W>, ds: seq<Decorator>, w: W, c: Conn<W>)
    ensures Chain(inner, DecoratingAll(ds))(w, c) == inner(w, Layered(ds, c))
  {
    if ds != [] {
      assert DecoratingAll<W>(ds)[1..] == DecoratingAll(ds[1..]);
      ChainLayers(inner, ds[1..], w, Decorate(ds[0], c));
    }
  }

  lemma {:induction false} LayersAreOnion<W(!new)>(ds: seq<Decorator>, c: Conn<W>, w: W, m: Option<AnyMessage>)
    ensures Layered(ds, c).receive(w) == Onion(ds, c).receive(w)
    ensures Layered(ds, c).send(w, m) == Onion(ds, c).send(w, m)
  {
    assert Onion(ds, c).send(w, m) == c.send(w, ThroughSend(ds, m));
    if ds == [] {
      assert ReceivedThrough(ds, c.receive(w).1) == c.receive(w).1;
    } else {
      var d := Decorate(ds[0], c);
      LayersAreOnion(ds[1..], d, w, m);
      assert ReceivedThrough(ds[1..], d.receive(w).1) == ReceivedThrough(ds, c.receive(w).1);
      assert Onion(ds[1..], d).send(w, m) == d.send(w, ThroughSend(ds[1..], m)) == c.send(w, ThroughSend(ds, m));
    }
  }

  /** Onion law: behind any number of decorators, the handler sees each request through all the receive functions from
      the first to the last, and the transport sees each response through all the send functions from the last to the
      first. */
  lemma OnionLaw<W(!new)>(inner: Handler<W>, ds: seq<Decorator>, w: W, c: Conn<W>)
    requires Extensional(inner)
    ensures Chain(inner, DecoratingAll(ds))(w, c) == inner(w, Onion(ds, c))
  {
    ChainLayers(inner, ds, w, c);
    forall v, m
      ensures Layered(ds, c).receive(v) == Onion(ds, c).receive(v)
      ensures Layered(ds, c).send(v, m) == Onion(ds, c).send(v, m)
    {
      LayersAreOnion(ds, c, v, m);
    }
    forall v
      ensures Layered(ds, c).receive(v) == Onion(ds, c).receive(v)
    {
      LayersAreOnion(ds, c, v, None);
    }
    assert SameConn(Layered(ds, c), Onion(ds, c));
  }

  // ---- typed streams and the handlers on them -------------------------------------------------------------------

  /** The operations of `ClientStream`, `ServerStream` and `BidiStream`; nil requests and responses are `None`. */
  datatype Stream<!W> = Stream(
    receive: W -> (W, Result<Option<Envelope>, GoError>),
    send: (W, Option<Envelope>) -> (W, Option<GoError>))

  /** What a handler returns; shapes without a response ignore it. */
  datatype Outcome = Outcome(resp: Option<Envelope>, err: Option<GoError>)

  datatype Act = Receive | Send(resp: Option<Envelope>) | Return(outcome: Outcome)

  datatype Seen = Got(r: Result<Option<Envelope>, GoError>) | Sent(err: Option<GoError>)

  /** A handler: what it does after what it has seen, for at most `budget` operations, after which it returns. */
  datatype Script = Script(act: seq<Seen> -> Act, budget: nat, last: seq<Seen> -> Outcome)

  function RunFrom<W>(s: Script, seen: seq<Seen>, w: W, t: Stream<W>): (W, Outcome)
    decreases s.budget - |seen|
  {
    if |seen| >= s.budget then (w, s.last(seen))
    else
      match s.act(seen)
      case Return(outcome) => (w, outcome)
      case Receive => var (w', r) := t.receive(w); RunFrom(s, seen + [Got(r)], w', t)
      case Send(resp) => var (w', err) := t.send(w, resp); RunFrom(s, seen + [Sent(err)], w', t)
  }

  function Run<W>(s: Script, w: W, t: Stream<W>): (W, Outcome) { RunFrom(s, [], w, t) }

  ghost predicate SameStream<W(!new)>(t: Stream<W>, u: Stream<W>) {
    (forall w :: t.receive(w) == u.receive(w)) && (forall w, resp :: t.send(w, resp) == u.send(w, resp))
  }

  lemma {:induction false} RunSame<W(!new)>(s: Script, seen: seq<Seen>, w: W, t: Stream<W>, u: Stream<W>)
    requires SameStream(t, u)
    ensures RunFrom(s, seen, w, t) == RunFrom(s, seen, w, u)
    decreases s.budget - |seen|
  {
    if |seen| < s.budget {
      match s.act(seen)
      case Return(_) =>
      case Receive =>
        var (w', r) := t.receive(w);
        RunSame(s, seen + [Got(r)], w', t, u);
      case Send(resp) =>
        var (w', err) := t.send(w, resp);
        RunSame(s, seen + [Sent(err)], w', t, u);
    }
  }

  /** `connClientStream`, `connServerStream` and `connBidiStream`: the typed stream over a connection. */
  function OverConn<W>(reqType: TypeName, resType: TypeName, c: Conn<W>): Stream<W> {
    Stream(w => var (w', r) := c.receive(w); (w', if r.Err? then Err(r.error) else CastRequest(reqType, r.value)),
           (w: W, resp: Option<Envelope>) =>
             if resp.None? then (w, Some(NIL_RESPONSE)) else c.send(w, Some(ResponseView(resType, resp))))
  }

  // ---- the four invocations -------------------------------------------------------------------------------------

  /** The state around a call: what the connection object holds, and the world of transport and handler. */
  datatype CallState<B> = CallState(received: bool, result: Option<Envelope>, base: B)

  function WithBase<B>(w: CallState<B>, b: B): CallState<B> { w.(base := b) }

  /** `Receive` of `unaryConn` and `serverStreamConn`: the request once, then EOF. */
  function ReceiveOnce<B>(reqType: TypeName, req: Option<Envelope>, w: CallState<B>)
    : (CallState<B>, Result<Option<AnyMessage>, GoError>)
  {
    if w.received then (w, Err(EOF)) else (w.(received := true), Ok(Some(RequestView(reqType, req))))
  }

  /** `Send` of `unaryConn` and `clientStreamConn`: keeps the response as the result. */
  function KeepResult<B>(resType: TypeName, w: CallState<B>, m: Option<AnyMessage>): (CallState<B>, Option<GoError>) {
    if m.None? then (w, None)
    else
      match CastResponse(resType, m)
      case Err(e) => (w, Some(e))
      case Ok(resp) => (w.(result := resp), None)
  }

  /** `Receive` of `clientStreamConn` and `bidiConn`: from the transport. */
  function ReceiveNext<B>(reqType: TypeName, t: Stream<B>, w: CallState<B>)
    : (CallState<B>, Result<Option<AnyMessage>, GoError>)
  {
    var (b, r) := t.receive(w.base);
    (WithBase(w, b), if r.Err? then Err(r.error) else Ok(Some(RequestView(reqType, r.value))))
  }

  /** `Send` of `serverStreamConn` and `bidiConn`: to the transport, unless there is no message. */
  function SendOn<B>(resType: TypeName, t: Stream<B>, w: CallState<B>, m: Option<AnyMessage>)
    : (CallState<B>, Option<GoError>)
  {
    match CastResponse(resType, m)
    case Err(e) => (w, Some(e))
    case Ok(resp) =>
      if resp.None? || resp.value.msg.None? then (w, Some(NIL_RESPONSE))
      else
        var (b, err) := t.send(w.base, resp);
        (WithBase(w, b), err)
  }

  function UnaryConn<B>(reqType: TypeName, resType: TypeName, req: Option<Envelope>): Conn<CallState<B>> {
    Conn(w => ReceiveOnce(reqType, req, w), (w, m) => KeepResult(resType, w, m))
  }

  function ClientStreamConn<B>(reqType: TypeName, resType: TypeName, t: Stream<B>): Conn<CallState<B>> {
    Conn(w => ReceiveNext(reqType, t, w), (w, m) => KeepResult(resType, w, m))
  }

  function ServerStreamConn<B>(reqType: TypeName, resType: TypeName, req: Option<Envelope>, t: Stream<B>)
    : Conn<CallState<B>>
  {
    Conn(w => ReceiveOnce(reqType, req, w), (w, m) => SendOn(resType, t, w, m))
  }

  function BidiConn<B>(reqType: TypeName, resType: TypeName, t: Stream<B>): Conn<CallState<B>> {
    Conn(w => ReceiveNext(reqType, t, w), (w, m) => SendOn(resType, t, w, m))
  }

  /** `unaryConn` as the object whose fields the calls update; `serverStreamConn` has the same `Receive`,
      `clientStreamConn` the same `Send`. */
  class UnaryConnection {
    const reqType: TypeName
    const resType: TypeName
    const req: Option<Envelope>
    var received: bool
    var result: Option<Envelope>

    constructor (reqType: TypeName, resType: TypeName, req: Option<Envelope>)
      ensures this.reqType == reqType && this.resType == resType && this.req == req
              && State() == CallState(false, None, ())
    {
      this.reqType, this.resType, this.req := reqType, resType, req;
      received, result := false, None;
    }

    ghost function State(): CallState<()>
      reads this
    {
      CallState(received, result, ())
    }

    method Receive() returns (r: Result<Option<AnyMessage>, GoError>)
      modifies this`received
      ensures (State(), r) == ReceiveOnce(reqType, req, old(State()))
      ensures received && result == old(result)
      ensures r == if old(received) then Err(Opaque("EOF")) else Ok(Some(RequestView(reqType, req)))
    {
      if received {
        return Err(EOF);
      }
      received := true;
      return Ok(Some(RequestView(reqType, req)));
    }

    method Send(m: Option<AnyMessage>) returns (err: Option<GoError>)
      modifies this`result
      ensures (State(), err) == KeepResult(resType, old(State()), m)
      ensures m.None? ==> err == None && result == old(result)
      ensures m.Some? ==> match AsResponse(resType, m)
                          case Ok(resp) => err == None && result == resp
                          case Err(e) => err == Some(e) && result == old(result)
    {
      CastsMean(resType, m);
      if m.None? {
        return None;
      }
      var resp := CastResponse(resType, m);
      if resp.Err? {
        return Some(resp.error);
      }
      result := resp.value;
      return None;
    }
  }

  /** A unary handler acts on the world and answers a request. */
  type UnaryHandler<!B> = (B, Option<Envelope>) -> (B, Outcome)

  /** Sends a handler's response, if there is one and no error. */
  function Finish<W>(resType: TypeName, w: W, o: Outcome, c: Conn<W>): (W, Option<GoError>) {
    if o.err.Some? then (w, o.err)
    else if o.resp.None? then (w, None)
    else c.send(w, Some(ResponseView(resType, o.resp)))
  }

  function UnaryCall<B>(reqType: TypeName, resType: TypeName, handler: UnaryHandler<B>, w: CallState<B>,
                        c: Conn<CallState<B>>)
    : (CallState<B>, Option<GoError>)
  {
    var (w', r) := c.receive(w);
    if r.Err? then (w', Some(r.error))
    else
      var req := CastRequest(reqType, r.value);
      if req.Err? then (w', Some(req.error))
      else
        var (b, o) := handler(w'.base, req.value);
        Finish(resType, WithBase(w', b), o, c)
  }

  function UnaryInner<B>(reqType: TypeName, resType: TypeName, handler: UnaryHandler<B>): Handler<CallState<B>> {
    (w: CallState<B>, c: Conn<CallState<B>>) => UnaryCall(reqType, resType, handler, w, c)
  }

  function ClientStreamInner<B>(reqType: TypeName, resType: TypeName, script: Script): Handler<CallState<B>> {
    (w: CallState<B>, c: Conn<CallState<B>>) =>
      var (w', o) := Run(script, w, OverConn(reqType, resType, c));
      Finish(resType, w', o, c)
  }

  function ServerStreamCall<B>(reqType: TypeName, resType: TypeName, script: Option<Envelope> -> Script,
                               w: CallState<B>,
                               c: Conn<CallState<B>>): (CallState<B>, Option<GoError>)
  {
    var (w', r) := c.receive(w);
    if r.Err? then (w', Some(r.error))
    else
      var req := CastRequest(reqType, r.value);
      if req.Err? then (w', Some(req.error))
      else
        var (w'', o) := Run(script(req.value), w', OverConn(reqType, resType, c));
        (w'', o.err)
  }

  function ServerStreamInner<B>(reqType: TypeName, resType: TypeName, script: Option<Envelope> -> Script)
    : Handler<CallState<B>>
  {
    (w: CallState<B>, c: Conn<CallState<B>>) => ServerStreamCall(reqType, resType, script, w, c)
  }

  function BidiInner<B>(reqType: TypeName, resType: TypeName, script: Script): Handler<CallState<B>> {
    (w: CallState<B>, c: Conn<CallState<B>>) =>
      var (w', o) := Run(script, w, OverConn(reqType, resType, c));
      (w', o.err)
  }

  type InterceptorList<!B> = seq<Option<Interceptor<CallState<B>>>>

  function InvokeUnary<B>(reqType: TypeName, resType: TypeName, b: B, req: Option<Envelope>, handler: UnaryHandler<B>,
                          interceptors: InterceptorList<B>): (B, Outcome)
  {
    if !HasActive(interceptors) then handler(b, req)
    else
      var (w, err) := Chain(UnaryInner(reqType, resType, handler), interceptors)
                           (CallState(false, None, b), UnaryConn(reqType, resType, req));
      (w.base, if err.Some? then Outcome(None, err) else Outcome(w.result, None))
  }

  function InvokeClientStream<B>(reqType: TypeName, resType: TypeName, b: B, t: Stream<B>, script: Script,
                                 interceptors: InterceptorList<B>): (B, Outcome)
  {
    var (w, err) := Chain(ClientStreamInner(reqType, resType, script), interceptors)
                         (CallState(false, None, b), ClientStreamConn(reqType, resType, t));
    (w.base, if err.Some? then Outcome(None, err) else Outcome(w.result, None))
  }

  function InvokeServerStream<B>(reqType: TypeName, resType: TypeName, b: B, req: Option<Envelope>, t: Stream<B>,
                                 script: Option<Envelope> -> Script, interceptors: InterceptorList<B>)
    : (B, Option<GoError>)
  {
    var (w, err) := Chain(ServerStreamInner(reqType, resType, script), interceptors)
                         (CallState(false, None, b), ServerStreamConn(reqType, resType, req, t));
    (w.base, err)
  }

  function InvokeBidi<B>(reqType: TypeName, resType: TypeName, b: B, t: Stream<B>, script: Script,
                         interceptors: InterceptorList<B>): (B, Option<GoError>)
  {
    var (w, err) := Chain(BidiInner(reqType, resType, script), interceptors)
                         (CallState(false, None, b), BidiConn(reqType, resType, t));
    (w.base, err)
  }

  // ---- the onion law holds for every shape ------------------------------------------------------------------------

  lemma UnaryIsExtensional<B(!new)>(reqType: TypeName, resType: TypeName, handler: UnaryHandler<B>)
    ensures Extensional(UnaryInner(reqType, resType, handler))
  {
    forall w: CallState<B>, c: Conn<CallState<B>>, d | SameConn(c, d)
      ensures UnaryCall(reqType, resType, handler, w, c) == UnaryCall(reqType, resType, handler, w, d)
    {
      UnaryCallSame(reqType, resType, handler, w, c, d);
    }
  }

  lemma UnaryCallSame<B(!new)>(reqType: TypeName, resType: TypeName, handler: UnaryHandler<B>, w: CallState<B>,
                               c: Conn<CallState<B>>, d: Conn<CallState<B>>)
    requires SameConn(c, d)
    ensures UnaryCall(reqType, resType, handler, w, c) == UnaryCall(reqType, resType, handler, w, d)
  {
    var (w', r) := c.receive(w);
    assert d.receive(w) == (w', r);
    if r.Ok? && CastRequest(reqType, r.value).Ok? {
      var (b, o) := handler(w'.base, CastRequest(reqType, r.value).value);
      FinishSame(resType, WithBase(w', b), o, c, d);
    }
  }

  lemma FinishSame<W(!new)>(resType: TypeName, w: W, o: Outcome, c: Conn<W>, d: Conn<W>)
    requires SameConn(c, d)
    ensures Finish(resType, w, o, c) == Finish(resType, w, o, d)
  {
    assert c.send(w, Some(ResponseView(resType, o.resp))) == d.send(w, Some(ResponseView(resType, o.resp)));
  }

  lemma StreamRunsSame<W(!new)>(reqType: TypeName, resType: TypeName, s: Script, w: W, c: Conn<W>, d: Conn<W>)
    requires SameConn(c, d)
    ensures Run(s, w, OverConn(reqType, resType, c)) == Run(s, w, OverConn(reqType, resType, d))
  {
    RunSame(s, [], w, OverConn(reqType, resType, c), OverConn(reqType, resType, d));
  }

  lemma StreamsAreExtensional<B(!new)>(reqType: TypeName, resType: TypeName, script: Script,
                                       onRequest: Option<Envelope> -> Script)
    ensures Extensional(ClientStreamInner<B>(reqType, resType, script))
    ensures Extensional(BidiInner<B>(reqType, resType, script))
    ensures Extensional(ServerStreamInner<B>(reqType, resType, onRequest))
  {
    forall w: CallState<B>, c: Conn<CallState<B>>, d, s | SameConn(c, d)
      ensures Run(s, w, OverConn(reqType, resType, c)) == Run(s, w, OverConn(reqType, resType, d))
    {
      StreamRunsSame(reqType, resType, s, w, c, d);
    }
  }

  /** The package's own views are taken as they are. */
  lemma OwnViews(typ: TypeName, e: Option<Envelope>)
    ensures CastRequest(typ, Some(RequestView(typ, e))) == Ok(e)
            && CastResponse(typ, Some(ResponseView(typ, e))) == Ok(e)
  {
  }

  // ---- transparent chains -----------------------------------------------------------------------------------------

  /** Every interceptor passes its connection through and returns what the handler returns. */
  ghost predicate Transparent<W(!new)>(interceptors: seq<Option<Interceptor<W>>>) {
    forall i :: 0 <= i < |interceptors| && interceptors[i].Some? ==>
      forall h, w, c :: Wrap(interceptors[i].value, h)(w, c) == h(w, c)
  }

  lemma {:induction false} TransparentChain<W(!new)>(inner: Handler<W>, interceptors: seq<Option<Interceptor<W>>>, w: W,
                                                     c: Conn<W>)
    requires Transparent(interceptors)
    ensures Chain(inner, interceptors)(w, c) == inner(w, c)
  {
    if interceptors != [] {
      forall i | 0 <= i < |interceptors| - 1
        ensures interceptors[1..][i] == interceptors[i + 1]
      {
      }
      TransparentChain(inner, interceptors[1..], w, c);
    }
  }

  /** Behind transparent interceptors a unary call acts on the world once, as the handler does; its error is the
      handler's, and so is its response unless there is an error. Only without interceptors is a response returned
      beside an error. */
  lemma TransparentUnary<B(!new)>(reqType: TypeName, resType: TypeName, b: B, req: Option<Envelope>,
                                  handler: UnaryHandler<B>,
                                  interceptors: InterceptorList<B>)
    requires Transparent(interceptors)
    ensures var (b', o) := handler(b, req);
            InvokeUnary(reqType, resType, b, req, handler, interceptors)
            == (b', if (exists i <- interceptors :: i.Some?) && o.err.Some? then Outcome(None, o.err) else o)
  {
    var w, c := CallState(false, None, b), UnaryConn<B>(reqType, resType, req);
    TransparentChain(UnaryInner(reqType, resType, handler), interceptors, w, c);
    OwnViews(reqType, req);
    var (b', o) := handler(b, req);
    OwnViews(resType, o.resp);
    var w' := CallState(true, None, b');
    assert c.receive(w) == (CallState(true, None, b), Ok(Some(RequestView(reqType, req))));
    assert UnaryCall(reqType, resType, handler, w, c) == Finish(resType, w', o, c);
    assert o.resp.Some? ==> c.send(w', Some(ResponseView(resType, o.resp))) == (CallState(true, o.resp, b'), None);
  }

  /** `u` does on the base of a call what `t` does on it alone. */
  ghost predicate Lifts<B(!new)>(s: Script, u: Stream<CallState<B>>, t: Stream<B>) {
    && (forall seen :: s.act(seen).Receive? ==>
          forall w :: u.receive(w) == (WithBase(w, t.receive(w.base).0), t.receive(w.base).1))
    && (forall seen :: s.act(seen).Send? ==>
          forall w, resp :: u.send(w, resp) == (WithBase(w, t.send(w.base, resp).0), t.send(w.base, resp).1))
  }

  lemma {:induction false} RunLifted<B(!new)>(s: Script, seen: seq<Seen>, w: CallState<B>, u: Stream<CallState<B>>,
                                              t: Stream<B>)
    requires Lifts(s, u, t)
    ensures var (b, o) := RunFrom(s, seen, w.base, t);
            RunFrom(s, seen, w, u) == (WithBase(w, b), o)
    decreases s.budget - |seen|
  {
    if |seen| < s.budget {
      match s.act(seen)
      case Return(_) =>
      case Receive =>
        var (b, r) := t.receive(w.base);
        RunLifted(s, seen + [Got(r)], WithBase(w, b), u, t);
      case Send(resp) =>
        var (b, err) := t.send(w.base, resp);
        RunLifted(s, seen + [Sent(err)], WithBase(w, b), u, t);
    }
  }

  predicate WellFormed(resp: Option<Envelope>) { resp.Some? && resp.value.msg.Some? }

  /** The transport, which only sees responses that have a message: the others are internal errors. */
  function Guarded<B>(t: Stream<B>): Stream<B> {
    Stream(t.receive,
           (b: B, resp: Option<Envelope>) =>
             if WellFormed(resp) then t.send(b, resp)
             else (b, Some(NewError("internal", "handler sent nil response"))))
  }

  ghost predicate OnlyReceives(s: Script) { forall seen :: !s.act(seen).Send? }

  ghost predicate OnlySends(s: Script) { forall seen :: !s.act(seen).Receive? }

  lemma ReceivesNext<B>(reqType: TypeName, resType: TypeName, c: Conn<CallState<B>>, t: Stream<B>, w: CallState<B>)
    requires c.receive(w) == ReceiveNext(reqType, t, w)
    ensures OverConn(reqType, resType, c).receive(w) == (WithBase(w, t.receive(w.base).0), t.receive(w.base).1)
  {
    var (b, r) := t.receive(w.base);
    if r.Ok? {
      OwnViews(reqType, r.value);
    }
  }

  lemma SendsOn<B>(reqType: TypeName, resType: TypeName, c: Conn<CallState<B>>, t: Stream<B>, w: CallState<B>,
                   resp: Option<Envelope>)
    requires resp.Some? ==>
               c.send(w, Some(ResponseView(resType, resp))) == SendOn(resType, t, w, Some(ResponseView(resType, resp)))
    ensures OverConn(reqType, resType, c).send(w, resp)
            == (WithBase(w, Guarded(t).send(w.base, resp).0), Guarded(t).send(w.base, resp).1)
  {
    OwnViews(resType, resp);
    assert WithBase(w, w.base) == w;
    if WellFormed(resp) {
      var (b, err) := t.send(w.base, resp);
      assert SendOn(resType, t, w, Some(ResponseView(resType, resp))) == (WithBase(w, b), err);
    }
  }

  lemma BidiLifts<B(!new)>(reqType: TypeName, resType: TypeName, t: Stream<B>, s: Script)
    ensures Lifts(s, OverConn(reqType, resType, BidiConn(reqType, resType, t)), Guarded(t))
  {
    var c := BidiConn(reqType, resType, t);
    forall w
      ensures OverConn(reqType, resType, c).receive(w)
              == (WithBase(w, Guarded(t).receive(w.base).0), Guarded(t).receive(w.base).1)
    {
      ReceivesNext(reqType, resType, c, t, w);
    }
    forall w, resp
      ensures OverConn(reqType, resType, c).send(w, resp)
              == (WithBase(w, Guarded(t).send(w.base, resp).0), Guarded(t).send(w.base, resp).1)
    {
      SendsOn(reqType, resType, c, t, w, resp);
    }
  }

  /** Behind transparent interceptors a bidi handler talks to the transport itself, except that responses without a
      message never reach it. */
  lemma TransparentBidi<B(!new)>(reqType: TypeName, resType: TypeName, b: B, t: Stream<B>, script: Script,
                                 interceptors: InterceptorList<B>)
    requires Transparent(interceptors)
    ensures var (b', o) := Run(script, b, Guarded(t));
            InvokeBidi(reqType, resType, b, t, script, interceptors) == (b', o.err)
  {
    var c := BidiConn(reqType, resType, t);
    TransparentChain(BidiInner(reqType, resType, script), interceptors, CallState(false, None, b), c);
    BidiLifts(reqType, resType, t, script);
    RunLifted(script, [], CallState(false, None, b), OverConn(reqType, resType, c), Guarded(t));
  }

  lemma TransparentServerStream<B(!new)>(reqType: TypeName, resType: TypeName, b: B, req: Option<Envelope>,
                                         t: Stream<B>,
                                         script: Option<Envelope> -> Script, interceptors: InterceptorList<B>)
    requires Transparent(interceptors) && OnlySends(script(req))
    ensures var (b', o) := Run(script(req), b, Guarded(t));
            InvokeServerStream(reqType, resType, b, req, t, script, interceptors) == (b', o.err)
  {
    var c := ServerStreamConn(reqType, resType, req, t);
    TransparentChain(ServerStreamInner(reqType, resType, script), interceptors, CallState(false, None, b), c);
    OwnViews(reqType, req);
    assert c.receive(CallState(false, None, b)) == (CallState(true, None, b), Ok(Some(RequestView(reqType, req))));
    forall w, resp
      ensures OverConn(reqType, resType, c).send(w, resp)
              == (WithBase(w, Guarded(t).send(w.base, resp).0), Guarded(t).send(w.base, resp).1)
    {
      SendsOn(reqType, resType, c, t, w, resp);
    }
    RunLifted(script(req), [], CallState(true, None, b), OverConn(reqType, resType, c), Guarded(t));
  }

  lemma TransparentClientStream<B(!new)>(reqType: TypeName, resType: TypeName, b: B, t: Stream<B>, script: Script,
                                         interceptors: InterceptorList<B>)
    requires Transparent(interceptors) && OnlyReceives(script)
    ensures var (b', o) := Run(script, b, t);
            InvokeClientStream(reqType, resType, b, t, script, interceptors)
            == (b', if o.err.Some? then Outcome(None, o.err) else o)
  {
    var c := ClientStreamConn(reqType, resType, t);
    var w := CallState(false, None, b);
    TransparentChain(ClientStreamInner(reqType, resType, script), interceptors, w, c);
    forall v
      ensures OverConn(reqType, resType, c).receive(v) == (WithBase(v, t.receive(v.base).0), t.receive(v.base).1)
    {
      ReceivesNext(reqType, resType, c, t, v);
    }
    RunLifted(script, [], w, OverConn(reqType, resType, c), t);
    var (b', o) := Run(script, b, t);
    OwnViews(resType, o.resp);
    assert o.resp.Some? ==>
             c.send(WithBase(w, b'), Some(ResponseView(resType, o.resp))) == (CallState(false, o.resp, b'), None);
  }

  // ---- decorated calls ----------------------------------------------------------------------------------------------

  /** What a handler gets for a request: what the request through all receive functions stands for. */
  function DecoratedRequest(ds: seq<Decorator>, reqType: TypeName, req: Option<Envelope>)
    : Result<Option<Envelope>, GoError>
  {
    AsRequest(reqType, ThroughReceive(ds, Some(RequestView(reqType, req))))
  }

  /** What becomes of a handler's response: what the response through all send functions stands for. */
  function DecoratedResponse(ds: seq<Decorator>, resType: TypeName, resp: Option<Envelope>)
    : Result<Option<Envelope>, GoError>
  {
    AsResponse(resType, ThroughSend(ds, Some(ResponseView(resType, resp))))
  }

  /** The outcome of a call with a single response. */
  function DecoratedOutcome(ds: seq<Decorator>, resType: TypeName, o: Outcome): Outcome {
    if o.err.Some? then Outcome(None, o.err)
    else if o.resp.None? then Outcome(None, None)
    else
      match DecoratedResponse(ds, resType, o.resp)
      case Err(e) => Outcome(None, Some(e))
      case Ok(resp) => Outcome(resp, None)
  }

  /** The transport as the handler's stream sees it behind the decorators. */
  function DecoratedStream<B>(ds: seq<Decorator>, reqType: TypeName, resType: TypeName, t: Stream<B>): Stream<B> {
    Stream(b => var (b', r) := t.receive(b); (b', if r.Err? then r else DecoratedRequest(ds, reqType, r.value)),
           (b: B, resp: Option<Envelope>) => SendDecorated(ds, resType, t, b, resp))
  }

  function SendDecorated<B>(ds: seq<Decorator>, resType: TypeName, t: Stream<B>, b: B, resp: Option<Envelope>)
    : (B, Option<GoError>)
  {
    if resp.None? then Guarded(t).send(b, None)
    else
      match DecoratedResponse(ds, resType, resp)
      case Err(e) => (b, Some(e))
      case Ok(m) => Guarded(t).send(b, m)
  }

  lemma FinishDecorated<B>(ds: seq<Decorator>, resType: TypeName, w: CallState<B>, o: Outcome, c: Conn<CallState<B>>)
    requires w.result.None? && forall m :: c.send(w, m) == KeepResult(resType, w, m)
    ensures var (w', err) := Finish(resType, w, o, Onion(ds, c)); var d := DecoratedOutcome(ds, resType, o);
            w'.base == w.base && err == d.err && (err.None? ==> w'.result == d.resp)
  {
    if o.err.None? && o.resp.Some? {
      var m := ThroughSend(ds, Some(ResponseView(resType, o.resp)));
      CastsMean(resType, m);
      assert Onion(ds, c).send(w, Some(ResponseView(resType, o.resp))) == c.send(w, m) == KeepResult(resType, w, m);
    }
  }

  /** A unary call behind decorators: the handler runs at most once, on the request through all receive functions from
      the first to the last; the caller gets its response through all send functions from the last to the first. */
  lemma DecoratedUnary<B(!new)>(reqType: TypeName, resType: TypeName, b: B, req: Option<Envelope>,
                                handler: UnaryHandler<B>,
                                ds: seq<Decorator>)
    requires ds != []
    ensures InvokeUnary(reqType, resType, b, req, handler, DecoratingAll(ds))
            == match DecoratedRequest(ds, reqType, req)
               case Err(e) => (b, Outcome(None, Some(e)))
               case Ok(r) => var (b', o) := handler(b, r); (b', DecoratedOutcome(ds, resType, o))
  {
    var w, c := CallState(false, None, b), UnaryConn<B>(reqType, resType, req);
    UnaryIsExtensional(reqType, resType, handler);
    OnionLaw(UnaryInner(reqType, resType, handler), ds, w, c);
    assert DecoratingAll<CallState<B>>(ds)[0].Some?;
    CastsMean(reqType, ThroughReceive(ds, Some(RequestView(reqType, req))));
    assert c.receive(w) == (CallState(true, None, b), Ok(Some(RequestView(reqType, req))));
    assert Onion(ds, c).receive(w)
           == (CallState(true, None, b), Ok(ThroughReceive(ds, Some(RequestView(reqType, req)))));
    var r := DecoratedRequest(ds, reqType, req);
    if r.Ok? {
      var (b', o) := handler(b, r.value);
      FinishDecorated(ds, resType, CallState(true, None, b'), o, c);
    }
  }

  /** An interceptor that answers by itself, and then returns normally or fails. */
  function Answering<W>(m: Option<AnyMessage>, failure: Option<GoError>): Interceptor<W> {
    Func((next: Handler<W>) =>
           ((w: W, c: Conn<W>) => var (w', err) := c.send(w, m); (w', if err.Some? then err else failure)))
  }

  /** What the caller gets: what the answer stands for, and no response at all with an error. */
  function AnswerOutcome(resType: TypeName, m: Option<AnyMessage>, failure: Option<GoError>): Outcome {
    match AsResponse(resType, m)
    case Err(e) => Outcome(None, Some(e))
    case Ok(resp) => if failure.Some? then Outcome(None, failure) else Outcome(resp, None)
  }

  /** An interceptor that answers without calling on: whatever comes after it, the handler does not run, and the caller
      gets what the answer stands for. */
  lemma AnsweredUnary<B(!new)>(reqType: TypeName, resType: TypeName, b: B, req: Option<Envelope>,
                               handler: UnaryHandler<B>, m: Option<AnyMessage>, failure: Option<GoError>,
                               rest: InterceptorList<B>)
    ensures InvokeUnary(reqType, resType, b, req, handler, [Some(Answering(m, failure))] + rest)
            == (b, AnswerOutcome(resType, m, failure))
  {
    var interceptors: InterceptorList<B> := [Some(Answering(m, failure))] + rest;
    assert interceptors[0].Some? && interceptors[1..] == rest;
    CastsMean(resType, m);
    var w, c := CallState(false, None, b), UnaryConn<B>(reqType, resType, req);
    assert c.send(w, m) == KeepResult(resType, w, m);
  }

  lemma AnsweredClientStream<B(!new)>(reqType: TypeName, resType: TypeName, b: B, t: Stream<B>, script: Script,
                                      m: Option<AnyMessage>, failure: Option<GoError>, rest: InterceptorList<B>)
    ensures InvokeClientStream(reqType, resType, b, t, script, [Some(Answering(m, failure))] + rest)
            == (b, AnswerOutcome(resType, m, failure))
  {
    var interceptors: InterceptorList<B> := [Some(Answering(m, failure))] + rest;
    assert interceptors[0].Some? && interceptors[1..] == rest;
    CastsMean(resType, m);
    var w, c := CallState(false, None, b), ClientStreamConn<B>(reqType, resType, t);
    assert c.send(w, m) == KeepResult(resType, w, m);
  }

  lemma DecoratedReceives<B>(ds: seq<Decorator>, reqType: TypeName, resType: TypeName, c: Conn<CallState<B>>,
                             t: Stream<B>,
                             w: CallState<B>)
    requires c.receive(w) == ReceiveNext(reqType, t, w)
    ensures var u := DecoratedStream(ds, reqType, resType, t);
            OverConn(reqType, resType, Onion(ds, c)).receive(w)
              == (WithBase(w, u.receive(w.base).0), u.receive(w.base).1)
  {
    var (b, r) := t.receive(w.base);
    assert Onion(ds, c).receive(w).0 == WithBase(w, b);
    if r.Ok? {
      CastsMean(reqType, ThroughReceive(ds, Some(RequestView(reqType, r.value))));
    }
  }

  lemma DecoratedSends<B>(ds: seq<Decorator>, reqType: TypeName, resType: TypeName, c: Conn<CallState<B>>, t: Stream<B>,
                          w: CallState<B>, resp: Option<Envelope>)
    requires forall m :: c.send(w, m) == SendOn(resType, t, w, m)
    ensures var u := DecoratedStream(ds, reqType, resType, t);
            OverConn(reqType, resType, Onion(ds, c)).send(w, resp)
              == (WithBase(w, u.send(w.base, resp).0), u.send(w.base, resp).1)
  {
    assert WithBase(w, w.base) == w;
    if resp.None? {
      var nothing: Option<Envelope> := None;
      assert !WellFormed(nothing);
      assert Guarded(t).send(w.base, nothing) == (w.base, Some(NewError("internal", "handler sent nil response")));
    } else {
      var m := ThroughSend(ds, Some(ResponseView(resType, resp)));
      CastsMean(resType, m);
      assert Onion(ds, c).send(w, Some(ResponseView(resType, resp))) == c.send(w, m) == SendOn(resType, t, w, m);
      var r := DecoratedResponse(ds, resType, resp);
      if r.Ok? && WellFormed(r.value) {
        var (b, err) := t.send(w.base, r.value);
        assert SendOn(resType, t, w, m) == (WithBase(w, b), err);
      }
    }
  }

  /** A bidi call behind decorators: each message passes all of them, on its way in and on its way out. */
  lemma DecoratedBidi<B(!new)>(reqType: TypeName, resType: TypeName, b: B, t: Stream<B>, script: Script,
                               ds: seq<Decorator>)
    ensures var (b', o) := Run(script, b, DecoratedStream(ds, reqType, resType, t));
            InvokeBidi(reqType, resType, b, t, script, DecoratingAll(ds)) == (b', o.err)
  {
    var w, c, u := CallState(false, None, b), BidiConn(reqType, resType, t), DecoratedStream(ds, reqType, resType, t);
    StreamsAreExtensional<B>(reqType, resType, script, _ => script);
    OnionLaw(BidiInner(reqType, resType, script), ds, w, c);
    forall v
      ensures OverConn(reqType, resType, Onion(ds, c)).receive(v)
              == (WithBase(v, u.receive(v.base).0), u.receive(v.base).1)
    {
      DecoratedReceives(ds, reqType, resType, c, t, v);
    }
    forall v, resp
      ensures OverConn(reqType, resType, Onion(ds, c)).send(v, resp)
              == (WithBase(v, u.send(v.base, resp).0), u.send(v.base, resp).1)
    {
      DecoratedSends(ds, reqType, resType, c, t, v, resp);
    }
    RunLifted(script, [], w, OverConn(reqType, resType, Onion(ds, c)), u);
  }

  /** A server-stream call behind decorators: its request and each of its messages pass all of them. */
  lemma DecoratedServerStream<B(!new)>(reqType: TypeName, resType: TypeName, b: B, req: Option<Envelope>, t: Stream<B>,
                                       script: Option<Envelope> -> Script, ds: seq<Decorator>)
    requires forall r :: OnlySends(script(r))
    ensures InvokeServerStream(reqType, resType, b, req, t, script, DecoratingAll(ds))
            == match DecoratedRequest(ds, reqType, req)
               case Err(e) => (b, Some(e))
               case Ok(r) => var (b', o) := Run(script(r), b, DecoratedStream(ds, reqType, resType, t)); (b', o.err)
  {
    var w, c := CallState(false, None, b), ServerStreamConn(reqType, resType, req, t);
    var u := DecoratedStream(ds, reqType, resType, t);
    StreamsAreExtensional<B>(reqType, resType, script(req), script);
    CastsMean(reqType, ThroughReceive(ds, Some(RequestView(reqType, req))));
    OnionLaw(ServerStreamInner(reqType, resType, script), ds, w, c);
    assert c.receive(w) == (CallState(true, None, b), Ok(Some(RequestView(reqType, req))));
    assert Onion(ds, c).receive(w)
           == (CallState(true, None, b), Ok(ThroughReceive(ds, Some(RequestView(reqType, req)))));
    var r := DecoratedRequest(ds, reqType, req);
    if r.Ok? {
      forall v, resp
        ensures OverConn(reqType, resType, Onion(ds, c)).send(v, resp)
                == (WithBase(v, u.send(v.base, resp).0), u.send(v.base, resp).1)
      {
        DecoratedSends(ds, reqType, resType, c, t, v, resp);
      }
      RunLifted(script(r.value), [], CallState(true, None, b), OverConn(reqType, resType, Onion(ds, c)), u);
    }
  }

  /** A client-stream call behind decorators: each of its messages and its response pass all of them. */
  lemma DecoratedClientStream<B(!new)>(reqType: TypeName, resType: TypeName, b: B, t: Stream<B>, script: Script,
                                       ds: seq<Decorator>)
    requires OnlyReceives(script)
    ensures var (b', o) := Run(script, b, DecoratedStream(ds, reqType, resType, t));
            InvokeClientStream(reqType, resType, b, t, script, DecoratingAll(ds))
              == (b', DecoratedOutcome(ds, resType, o))
  {
    var w, c, u := CallState(false, None, b), ClientStreamConn(reqType, resType, t),
      DecoratedStream(ds, reqType, resType, t);
    StreamsAreExtensional<B>(reqType, resType, script, _ => script);
    OnionLaw(ClientStreamInner(reqType, resType, script), ds, w, c);
    forall v
      ensures OverConn(reqType, resType, Onion(ds, c)).receive(v)
              == (WithBase(v, u.receive(v.base).0), u.receive(v.base).1)
    {
      DecoratedReceives(ds, reqType, resType, c, t, v);
    }
    RunLifted(script, [], w, OverConn(reqType, resType, Onion(ds, c)), u);
    var (b', o) := Run(script, b, u);
    FinishDecorated(ds, resType, WithBase(w, b'), o, c);
  }

  // ---- what reaches the transport -----------------------------------------------------------------------------------

  /** A transport that also records what it is asked to send. */
  datatype Recorded<B> = Recorded(base: B, log: seq<Option<Envelope>>)

  function Recording<B>(t: Stream<B>): Stream<Recorded<B>> {
    Stream((w: Recorded<B>) => var (b, r) := t.receive(w.base); (Recorded(b, w.log), r),
           (w: Recorded<B>, resp: Option<Envelope>) => var (b, err) := t.send(w.base, resp);
             (Recorded(b, w.log + [resp]), err))
  }

  /** The responses the handler tries to send, in order. */
  function Attempts<B>(s: Script, seen: seq<Seen>, w: B, t: Stream<B>): seq<Option<Envelope>>
    decreases s.budget - |seen|
  {
    if |seen| >= s.budget then []
    else
      match s.act(seen)
      case Return(_) => []
      case Receive => var (w', r) := t.receive(w); Attempts(s, seen + [Got(r)], w', t)
      case Send(resp) => var (w', err) := t.send(w, resp); [resp] + Attempts(s, seen + [Sent(err)], w', t)
  }

  function OnlyWellFormed(sends: seq<Option<Envelope>>): seq<Option<Envelope>> {
    if sends == [] then [] else (if WellFormed(sends[0]) then [sends[0]] else []) + OnlyWellFormed(sends[1..])
  }

  /** The transport is asked to send exactly the handler's well-formed responses, in order. */
  lemma {:induction false} ForwardsWellFormed<B>(s: Script, seen: seq<Seen>, w: Recorded<B>, t: Stream<B>)
    ensures RunFrom(s, seen, w, Guarded(Recording(t))).0.log
            == w.log + OnlyWellFormed(Attempts(s, seen, w, Guarded(Recording(t))))
    decreases s.budget - |seen|
  {
    var u := Guarded(Recording(t));
    if |seen| < s.budget {
      match s.act(seen)
      case Return(_) =>
      case Receive =>
        var (w', r) := u.receive(w);
        ForwardsWellFormed(s, seen + [Got(r)], w', t);
      case Send(resp) =>
        var (w', err) := u.send(w, resp);
        ForwardsWellFormed(s, seen + [Sent(err)], w', t);
        var rest := Attempts(s, seen + [Sent(err)], w', u);
        assert ([resp] + rest)[1..] == rest;
    }
  }
}
