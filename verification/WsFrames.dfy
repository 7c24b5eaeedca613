/** The frames of the WebSocket v2 session protocol, Go error chains, and the mapping
    between handler errors and error frames (`errors.go`, `transport/ws/frame.go`,
    `transport/ws/errors.go`, and `toStatusError` in `transport/ws/client_stream.go`).

    A payload is an opaque JSON text; what a procedure makes of it is a parameter of the model. */
module WsFrames {
  import opened Options

  type Payload = string
  type Id = string

  // ---- errors -------------------------------------------------------------------------

  datatype Status = Status(code: string, message: string, retryable: bool)

  /** A Go error value: a `*StatusError`, an error that wraps another one, or any other error. */
  datatype GoError =
    | StatusError(status: Status, cause: Option<GoError>)
    | Wrapping(text: string, inner: GoError)
    | Opaque(text: string)

  type ErrorMapper = GoError -> Option<Status>

  function NewError(code: string, message: string): GoError {
    StatusError(Status(code, message, false), None)
  }

  function WithRetryable(e: GoError): GoError
    requires e.StatusError?
  {
    e.(status := e.status.(retryable := true))
  }

  /** `err.Error()`. */
  function ErrorText(e: GoError): string {
    match e
    case StatusError(s, _) => s.code + ": " + s.message
    case Wrapping(text, _) => text
    case Opaque(text) => text
  }

  /** `errors.As` walks the chain and stops at the first `*StatusError`. */
  function StatusOf(e: GoError): Option<Status> {
    match e
    case StatusError(s, _) => Some(s)
    case Wrapping(_, inner) => StatusOf(inner)
    case Opaque(_) => None
  }

  // ---- frames -------------------------------------------------------------------------

  datatype Shape = Unary | ClientStream | ServerStream | Bidi {
    function Name(): string {
      match this
      case Unary => "unary"
      case ClientStream => "client_stream"
      case ServerStream => "server_stream"
      case Bidi => "bidi"
    }

    /** Shapes whose `run` closure takes exactly one request from the channel. */
    predicate OneShot() { Unary? || ServerStream? }

    /** Shapes whose handler may send any number of messages. */
    predicate Sends() { ServerStream? || Bidi? }
  }

  /** A frame from client to server; `Junk` is unparseable text or an unknown type. */
  datatype InFrame =
    | Open(id: Id, procedure: string, shape: string)
    | Message(id: Id, payload: Payload)
    | CloseSend(id: Id)
    | Cancel(id: Id)
    | Junk

  datatype FrameType = MessageType | CloseType | ErrorType | OtherType

  datatype ErrorDetail = ErrorDetail(code: string, message: string, retryable: bool)

  /** A frame from server to client. */
  datatype OutFrame = OutFrame(kind: FrameType, id: Id, payload: Payload, error: Option<ErrorDetail>)

  function MessageFrame(id: Id, data: Payload): OutFrame { OutFrame(MessageType, id, data, None) }
  function CloseFrame(id: Id): OutFrame { OutFrame(CloseType, id, "", None) }
  function ErrorFrame(id: Id, e: ErrorDetail): OutFrame { OutFrame(ErrorType, id, "", Some(e)) }

  function MessageFrames(id: Id, data: seq<Payload>): (fs: seq<OutFrame>)
    ensures |fs| == |data|
    ensures forall i :: 0 <= i < |fs| ==> fs[i] == MessageFrame(id, data[i])
  {
    seq(|data|, i requires 0 <= i < |data| => MessageFrame(id, data[i]))
  }

  function DetailOf(s: Status): ErrorDetail { ErrorDetail(s.code, s.message, s.retryable) }

  /** `toErrorFrame`: a status in the chain, else the mapper's, else `internal`. */
  function ToErrorFrame(id: Id, e: GoError, mapper: Option<ErrorMapper>): OutFrame {
    var status :=
      if StatusOf(e).Some? then StatusOf(e)
      else if mapper.Some? then mapper.value(e)
      else None;
    var status := if status.Some? then status.value else Status("internal", ErrorText(e), false);
    ErrorFrame(id, DetailOf(status))
  }

  /** `toStatusError`. */
  function ToStatusError(d: ErrorDetail): GoError {
    var e := NewError(d.code, d.message);
    if d.retryable then WithRetryable(e) else e
  }

  /** `Status(chain, err)`: some layer of the chain is a `*StatusError` carrying `s`, and no outer layer is one. */
  ghost predicate OutermostStatus(e: GoError, s: Status) {
    exists depth: nat :: LayerStatus(e, depth) == Some(s) && forall d: nat :: d < depth ==> LayerStatus(e, d) == None
  }

  ghost function LayerStatus(e: GoError, depth: nat): Option<Status> {
    if depth == 0 then (if e.StatusError? then Some(e.status) else None)
    else match e
      case Wrapping(_, inner) => LayerStatus(inner, depth - 1)
      case _ => None
  }

  lemma {:induction false} StatusOfIsOutermost(e: GoError)
    ensures StatusOf(e).Some? ==> OutermostStatus(e, StatusOf(e).value)
    ensures StatusOf(e).None? ==> forall depth: nat :: LayerStatus(e, depth) == None
  {
    match e
    case StatusError(s, _) => assert LayerStatus(e, 0) == Some(s);
    case Opaque(_) =>
    case Wrapping(_, inner) =>
      StatusOfIsOutermost(inner);
      if StatusOf(inner).Some? {
        var s := StatusOf(inner).value;
        var depth: nat :| LayerStatus(inner, depth) == Some(s)
                          && forall d: nat :: d < depth ==> LayerStatus(inner, d) == None;
        assert LayerStatus(e, depth + 1) == Some(s);
        forall d: nat | d < depth + 1
          ensures LayerStatus(e, d) == None
        {
          assert d > 0 ==> LayerStatus(e, d) == LayerStatus(inner, d - 1);
        }
      } else {
        forall depth: nat
          ensures LayerStatus(e, depth) == None
        {
          assert depth > 0 ==> LayerStatus(e, depth) == LayerStatus(inner, depth - 1);
        }
      }
  }

  /** What a client is to be shown of an error: the outermost status of its chain, else the mapper's, else `internal`.
      */
  ghost function Shown(e: GoError, mapper: Option<ErrorMapper>): Status {
    if s :| OutermostStatus(e, s) then s
    else if mapper.Some? && mapper.value(e).Some? then mapper.value(e).value
    else Status("internal", Text(e), false)
  }

  /** The text of an error. */
  function Text(e: GoError): string {
    if e.StatusError? then e.status.code + ": " + e.status.message else e.text
  }

  /** A status anywhere in the handler's error chain reaches the client with its code, message and
      retryable flag, whatever the mapper does; a chain without one gets the mapper's status, or `internal`. */
  lemma StatusPreserved(id: Id, e: GoError, mapper: Option<ErrorMapper>)
    ensures var s := Shown(e, mapper); var d := ErrorDetail(s.code, s.message, s.retryable);
            && ToErrorFrame(id, e, mapper) == OutFrame(ErrorType, id, "", Some(d))
            && ToStatusError(d) == StatusError(s, None)
  {
    StatusOfIsOutermost(e);
    if s :| OutermostStatus(e, s) {
      forall t | OutermostStatus(e, t)
        ensures t == s
      {
        OutermostUnique(e, s, t);
      }
    }
  }

  lemma OwnStatusShown(s: Status, cause: Option<GoError>, mapper: Option<ErrorMapper>)
    ensures Shown(StatusError(s, cause), mapper) == s
  {
    assert LayerStatus(StatusError(s, cause), 0) == Some(s);
    assert OutermostStatus(StatusError(s, cause), s);
    forall t | OutermostStatus(StatusError(s, cause), t)
      ensures t == s
    {
      OutermostUnique(StatusError(s, cause), s, t);
    }
  }

  lemma OutermostUnique(e: GoError, s: Status, t: Status)
    requires OutermostStatus(e, s) && OutermostStatus(e, t)
    ensures s == t
  {
    var m: nat :| LayerStatus(e, m) == Some(s) && forall d: nat :: d < m ==> LayerStatus(e, d) == None;
    var n: nat :| LayerStatus(e, n) == Some(t) && forall d: nat :: d < n ==> LayerStatus(e, d) == None;
    assert m == n;
  }
}
