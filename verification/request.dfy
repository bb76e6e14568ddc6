/** Requests and responses (Request.swift, and the Response class it builds).

    Response.swift is not part of this model; its shape is inferred from its uses:
    a response carries `isError`, is tagged `errorResponse` exactly when it is an
    error, and codes its flag alongside the envelope the way a request codes
    `expectsResponse`. */
module Requests {
  import opened Wrappers
  import opened Messages

  datatype Request = Request(message: Message, expectsResponse: bool)
  {
    function ExchangeID(): Uuid { message.exchangeID }
  }

  datatype Response = Response(message: Message, isError: bool)
  {
    function ExchangeID(): Uuid { message.exchangeID }
  }

  datatype RequestError =
    | NotExpectingResponse(exchangeID: Uuid)
    | CannotExtractBody(expected: BodyType, actual: BodyType)

  /** `Request.init`: a new request of the given exchange type, tagged `request`,
      under a freshly drawn exchange ID. */
  function NewRequest(id: Uuid, requesterID: string, exchangeTypeID: string, body: Body, expectsResponse: bool): (r: Request)
    ensures r.message.messageType == RequestMessage
    ensures r.ExchangeID() == id && r.message.requesterID == requesterID
    ensures r.message.exchangeTypeID == exchangeTypeID && r.message.body == body
    ensures r.expectsResponse == expectsResponse
  {
    Request(Message(id, requesterID, exchangeTypeID, RequestMessage, body), expectsResponse)
  }

  /** The Response initialiser: the message type follows the error flag. */
  function MakeResponse(req: Request, body: Body, isError: bool): Response
  {
    var t := if isError then ErrorResponseMessage else ResponseMessage;
    Response(Message(req.message.exchangeID, req.message.requesterID, req.message.exchangeTypeID, t, body), isError)
  }

  /** A response belongs to a request when it carries the request's exchange ID,
      requester and exchange type. */
  predicate Answers(resp: Response, req: Request)
  {
    && resp.message.exchangeID == req.message.exchangeID
    && resp.message.requesterID == req.message.requesterID
    && resp.message.exchangeTypeID == req.message.exchangeTypeID
  }

  /** `response(withBody:)`: only a request that expects a response can be answered. */
  function ResponseWithBody(req: Request, body: Body): (r: Result<Response, RequestError>)
    ensures r.Failure? <==> !req.expectsResponse
    ensures r.Failure? ==> r.error == NotExpectingResponse(req.ExchangeID())
    ensures r.Success? ==> Answers(r.value, req) && !r.value.isError
    ensures r.Success? ==> r.value.message.body == body && r.value.message.messageType == ResponseMessage
  {
    if !req.expectsResponse then Failure(NotExpectingResponse(req.ExchangeID()))
    else Success(MakeResponse(req, body, false))
  }

  /** `errorResponse(withError:)`: the error text becomes a `String` body. */
  function ErrorResponse(req: Request, error: string): (r: Result<Response, RequestError>)
    ensures r.Failure? <==> !req.expectsResponse
    ensures r.Failure? ==> r.error == NotExpectingResponse(req.ExchangeID())
    ensures r.Success? ==> Answers(r.value, req) && r.value.isError
    ensures r.Success? ==> r.value.message.body == StringBody(error) && r.value.message.messageType == ErrorResponseMessage
  {
    if !req.expectsResponse then Failure(NotExpectingResponse(req.ExchangeID()))
    else Success(MakeResponse(req, StringBody(error), true))
  }

  /** `extractBody()`: the body, when it has the asked-for type. */
  function ExtractBody(req: Request, t: BodyType): (r: Result<Body, RequestError>)
    ensures r.Success? <==> TypeOf(req.message.body) == t
    ensures r.Success? ==> r.value == req.message.body
  {
    if TypeOf(req.message.body) != t then Failure(CannotExtractBody(t, TypeOf(req.message.body)))
    else Success(req.message.body)
  }

  /** `Request.encode(to:)`: the `expectsResponse` flag, then the envelope. */
  function EncodeRequest(reg: Registry, r: Request): (w: Result<Wire, CodecError>)
    ensures w.Success? <==> EncodeMessage(reg, r.message, EmptyWire).Success?
    ensures w.Success? ==> w.value.expectsResponse == Some(r.expectsResponse) && w.value.isError.None?
  {
    match EncodeMessage(reg, r.message, EmptyWire.(expectsResponse := Some(r.expectsResponse)))
    case Failure(e) => Failure(e)
    case Success(w) => Success(w)
  }

  /** `Request.init(from:)`: the `expectsResponse` flag, then the envelope. */
  function DecodeRequest(reg: Registry, w: Wire): (r: Result<Request, CodecError>)
    ensures r.Success? <==> w.expectsResponse.Some? && DecodeMessage(reg, w).Success?
    ensures r.Success? ==> r.value.expectsResponse == w.expectsResponse.value
  {
    if w.expectsResponse.None? then Failure(MissingField("expectsResponse"))
    else match DecodeMessage(reg, w)
      case Failure(e) => Failure(e)
      case Success(m) => Success(Request(m, w.expectsResponse.value))
  }

  function EncodeResponse(reg: Registry, r: Response): (w: Result<Wire, CodecError>)
    ensures w.Success? <==> EncodeMessage(reg, r.message, EmptyWire).Success?
    ensures w.Success? ==> w.value.isError == Some(r.isError) && w.value.expectsResponse.None?
  {
    match EncodeMessage(reg, r.message, EmptyWire.(isError := Some(r.isError)))
    case Failure(e) => Failure(e)
    case Success(w) => Success(w)
  }

  function DecodeResponse(reg: Registry, w: Wire): (r: Result<Response, CodecError>)
    ensures r.Success? <==> w.isError.Some? && DecodeMessage(reg, w).Success?
    ensures r.Success? ==> r.value.isError == w.isError.value
  {
    if w.isError.None? then Failure(MissingField("isError"))
    else match DecodeMessage(reg, w)
      case Failure(e) => Failure(e)
      case Success(m) => Success(Response(m, w.isError.value))
  }

  /** A request with a registered body type survives encode then decode, including
      its `expectsResponse` flag. */
  lemma RequestRoundTrip(reg: Registry, r: Request)
    requires Lookup(reg, r.message.exchangeTypeID, r.message.messageType) == Some(TypeOf(r.message.body))
    ensures EncodeRequest(reg, r).Success?
    ensures DecodeRequest(reg, EncodeRequest(reg, r).value) == Success(r)
  {
    var w0 := EmptyWire.(expectsResponse := Some(r.expectsResponse));
    MessageRoundTrip(reg, r.message, w0);
  }

  lemma ResponseRoundTrip(reg: Registry, r: Response)
    requires Lookup(reg, r.message.exchangeTypeID, r.message.messageType) == Some(TypeOf(r.message.body))
    ensures EncodeResponse(reg, r).Success?
    ensures DecodeResponse(reg, EncodeResponse(reg, r).value) == Success(r)
  {
    var w0 := EmptyWire.(isError := Some(r.isError));
    MessageRoundTrip(reg, r.message, w0);
  }

  /** An encoded request never reads as a response: it has no `isError` flag. */
  lemma RequestNeverDecodesAsResponse(reg: Registry, req: Request)
    requires EncodeRequest(reg, req).Success?
    ensures DecodeResponse(reg, EncodeRequest(reg, req).value).Failure?
  {
  }

  /** An encoded response never reads as a request: it has no `expectsResponse` flag. */
  lemma ResponseNeverDecodesAsRequest(reg: Registry, resp: Response)
    requires EncodeResponse(reg, resp).Success?
    ensures DecodeRequest(reg, EncodeResponse(reg, resp).value).Failure?
  {
  }
}
