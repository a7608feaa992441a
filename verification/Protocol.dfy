/**
  Messages of the Bloop protocol and the routing of a server's response.

  The byte-level codec and the server are not part of this model.  They are
  the fields of a `World`, and every result is stated for all worlds.
 */
module Protocol {
  import opened Basics

  datatype RawMessage = RawMessage(messageType: byte, payload: seq<byte>)

  datatype ErrorResponse =
    | UnsupportedVersionRange
    | InvalidCredentials
    | OtherError(code: nat)

  datatype DecodeFailure = UnknownOpcode | BadPayload

  datatype RequestError =
    | Disconnected
    | Shutdown
    | Error(error: ErrorResponse)
    | UnexpectedResponse(raw: RawMessage)
    | Malformed(failure: DecodeFailure)
    | EncodeFailed

  /** The messages that the client itself writes. */
  datatype ClientMessage =
    | ClientHandshake(minVersion: nat, maxVersion: nat)
    | Authentication(clientId: string, clientSecret: string, ip: nat)
    | Ping
    | Quit

  datatype ServerHandshake = ServerHandshake(acceptedVersion: nat, capabilities: nat)

  /**
    `answer(k, i)` is the server's answer to the frame that was begun as write
    number `i` on connection attempt number `k`.  The server answers in order,
    one frame per request, so it is also frame number `i` of the stream the
    client reads on that connection.
   */
  datatype World = World(
    errorOpcode: byte,
    encode: ClientMessage -> Option<RawMessage>,
    decodeError: RawMessage -> Result<ErrorResponse, DecodeFailure>,
    decodeHandshake: RawMessage -> Result<ServerHandshake, DecodeFailure>,
    decodeAccepted: RawMessage -> Result<(), DecodeFailure>,
    decodePong: RawMessage -> Result<(), DecodeFailure>,
    isFatal: ErrorResponse -> bool,
    answer: (nat, nat) -> RawMessage)

  /** True when `raw` is an error response after which the server closes. */
  predicate IsFatalAnswer(w: World, raw: RawMessage) {
    && raw.messageType == w.errorOpcode
    && w.decodeError(raw).Ok?
    && w.isFatal(w.decodeError(raw).value)
  }

  /**
    Routes a response.  An error frame never counts as the expected message,
    even when the expected message would decode from it.
   */
  function DecodeResponse<M>(w: World, decode: RawMessage -> Result<M, DecodeFailure>, raw: RawMessage)
    : (r: Result<M, RequestError>)
    ensures r.Ok? <==> raw.messageType != w.errorOpcode && decode(raw).Ok?
    ensures r.Ok? ==> r.value == decode(raw).value
    ensures forall e :: r == Err(Error(e)) <==> raw.messageType == w.errorOpcode && w.decodeError(raw) == Ok(e)
    ensures r == Err(UnexpectedResponse(raw)) <==>
              raw.messageType != w.errorOpcode && decode(raw) == Err(UnknownOpcode)
    ensures forall f :: r == Err(Malformed(f)) <==>
              || (raw.messageType == w.errorOpcode && w.decodeError(raw) == Err(f))
              || (raw.messageType != w.errorOpcode && decode(raw) == Err(f) && f.BadPayload?)
    ensures r.Err? ==> !r.error.Disconnected? && !r.error.Shutdown? && !r.error.EncodeFailed?
    ensures r.Err? && r.error.Error? ==> (IsFatalAnswer(w, raw) <==> w.isFatal(r.error.error))
  {
    if raw.messageType == w.errorOpcode then
      match w.decodeError(raw)
      case Ok(error) => Err(Error(error))
      case Err(failure) => Err(Malformed(failure))
    else
      match decode(raw)
      case Ok(message) => Ok(message)
      case Err(UnknownOpcode) => Err(UnexpectedResponse(raw))
      case Err(BadPayload) => Err(Malformed(BadPayload))
  }
}
