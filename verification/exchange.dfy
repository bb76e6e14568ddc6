/** Exchange.swift: a request together with its optional response handler and
    optional single-shot timeout timer, built in one of four shapes. */
module Exchanges {
  import opened Wrappers
  import opened Messages
  import opened Requests
  import opened ResponseHandlers

  /** A Foundation `TimeInterval`, counted in whole ticks. The model carries it
      and never compares or computes with it. */
  type TimeInterval = nat

  /** A `Timer(timeInterval:repeats:block:)`. */
  datatype Timer = Timer(interval: TimeInterval, repeats: bool)

  datatype Exchange = Exchange(request: Request, handler: Option<Handler>, timer: Option<Timer>)
  {
    function ID(): Uuid { request.ExchangeID() }
  }

  /** Which `beginExchange` overload built the exchange. */
  datatype Shape =
    | BodyAndHandler(body: Body, expected: BodyType)
    | BodyOnly(body: Body)
    | HandlerOnly(expected: BodyType)
    | Neither

  /** The four `Exchange` initialisers. A handler always comes with a single-shot
      timer armed with the configured interval; the body-only shape alone builds a
      fire-and-forget request, while the shape with neither body nor handler still
      asks for a response. */
  function Make(id: Uuid, exchangeTypeID: string, requesterID: string, shape: Shape, timeout: TimeInterval): (x: Exchange)
    ensures x.ID() == id && x.request.message.messageType == RequestMessage
    ensures x.request.message.exchangeTypeID == exchangeTypeID && x.request.message.requesterID == requesterID
    ensures x.handler.Some? <==> shape.BodyAndHandler? || shape.HandlerOnly?
    ensures x.timer.Some? <==> x.handler.Some?
    ensures x.timer.Some? ==> x.timer.value == Timer(timeout, false)
    ensures x.handler.Some? ==> x.handler.value.expected == shape.expected
    ensures x.request.expectsResponse <==> !shape.BodyOnly?
    ensures x.request.message.body == if shape.BodyAndHandler? || shape.BodyOnly? then shape.body else EmptyBody
  {
    var timer := Timer(timeout, false);
    match shape
    case BodyAndHandler(body, expected) =>
      Exchange(NewRequest(id, requesterID, exchangeTypeID, body, true), Some(Handler(expected)), Some(timer))
    case BodyOnly(body) =>
      Exchange(NewRequest(id, requesterID, exchangeTypeID, body, false), None, None)
    case HandlerOnly(expected) =>
      Exchange(NewRequest(id, requesterID, exchangeTypeID, EmptyBody, true), Some(Handler(expected)), Some(timer))
    case Neither =>
      Exchange(NewRequest(id, requesterID, exchangeTypeID, EmptyBody, true), None, None)
  }
}
