/** ResponseHandler.swift: the type-erased wrapper around an application's
    `(Result<Body, String>) -> Void` handler, which checks a response's body against
    the type the handler expects before calling it. */
module ResponseHandlers {
  import opened Wrappers
  import opened Messages
  import opened Requests

  /** The failure messages the library hands to a response handler. The source
      builds strings; only the peer's own error text is carried verbatim. */
  datatype ErrorMessage =
    | Remote(text: string)
    | UnexpectedErrorBody(actual: BodyType)
    | UnexpectedBody(expected: BodyType, actual: BodyType)
    | NoRecipients(exchangeID: Uuid)
    | SendFailed(retries: int, exchangeID: Uuid)
    | TimedOut(exchangeTypeID: string, exchangeID: Uuid)
    | EncodeFailed(error: CodecError)

  /** What one call of the application's handler receives. */
  datatype HandlerResult = Succeeded(body: Body) | Failed(error: ErrorMessage)

  /** `ResponseHandlerWrapper<ResponseBody>`: all the wrapper knows of the user's
      closure is the body type it expects. */
  datatype Handler = Handler(expected: BodyType)

  /** `callResponseHandler(with:)`: an error response passes its `String` body on
      as the failure; a normal response passes its body on when it has the expected
      type; anything else becomes a diagnostic failure. */
  function HandleResponse(h: Handler, resp: Response): (r: HandlerResult)
    ensures r.Succeeded? <==> !resp.isError && TypeOf(resp.message.body) == h.expected
    ensures r.Succeeded? ==> r.body == resp.message.body
    ensures resp.isError && resp.message.body.StringBody? ==> r == Failed(Remote(resp.message.body.text))
    ensures resp.isError && !resp.message.body.StringBody? ==> r == Failed(UnexpectedErrorBody(TypeOf(resp.message.body)))
    ensures !resp.isError && r.Failed? ==> r.error == UnexpectedBody(h.expected, TypeOf(resp.message.body))
  {
    var body := resp.message.body;
    if resp.isError then
      match body
      case StringBody(text) => Failed(Remote(text))
      case _ => Failed(UnexpectedErrorBody(TypeOf(body)))
    else if TypeOf(body) == h.expected then Succeeded(body)
    else Failed(UnexpectedBody(h.expected, TypeOf(body)))
  }

  /** `callResponseHandler(withError:)`: the error is passed on unchanged. */
  function HandleError(h: Handler, error: ErrorMessage): (r: HandlerResult)
    ensures r.Failed? && r.error == error
  {
    Failed(error)
  }

  /** The wrapper undoes what the responding side built: an error response hands
      the responder's text back as the failure, and a body of the expected type
      comes back as the success value, also after travelling through the codec. */
  lemma HandlerRecoversResponse(reg: Registry, req: Request, body: Body, error: string)
    requires req.expectsResponse
    ensures HandleResponse(Handler(TypeOf(body)), ResponseWithBody(req, body).value) == Succeeded(body)
    ensures HandleResponse(Handler(TypeOf(body)), ErrorResponse(req, error).value) == Failed(Remote(error))
    ensures Lookup(reg, req.message.exchangeTypeID, ResponseMessage) == Some(TypeOf(body)) ==>
      var resp := ResponseWithBody(req, body).value;
      EncodeResponse(reg, resp).Success? &&
      DecodeResponse(reg, EncodeResponse(reg, resp).value) == Success(resp) &&
      HandleResponse(Handler(TypeOf(body)), DecodeResponse(reg, EncodeResponse(reg, resp).value).value) == Succeeded(body)
  {
    var resp := ResponseWithBody(req, body).value;
    if Lookup(reg, req.message.exchangeTypeID, ResponseMessage) == Some(TypeOf(body)) {
      ResponseRoundTrip(reg, resp);
    }
  }
}
