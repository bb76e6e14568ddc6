/** Session.swift: how transport events become calls on the session delegate.
    Peer-state changes map to connect / disconnect; inbound bytes are read as a
    request first, then as a response, and are otherwise dropped. */
module Sessions {
  import opened Wrappers
  import opened Messages
  import opened Requests
  import opened Peers

  /** `MCSessionState`, with room for states added by later platforms. */
  datatype PeerState = NotConnected | Connecting | Connected | UnknownState

  /** The delegate call a transport event leads to, if any. */
  datatype Delivery =
    | DidConnect(peer: Peer)
    | DidDisconnect(peer: Peer)
    | DidReceiveRequest(request: Request)
    | DidReceiveResponse(response: Response)
    | NoDelivery

  /** `session(_:peer:didChange:)` */
  function OnStateChange(peer: Peer, state: PeerState): (d: Delivery)
    ensures state == Connected <==> d == DidConnect(peer)
    ensures state == NotConnected <==> d == DidDisconnect(peer)
    ensures (state == Connecting || state == UnknownState) <==> d == NoDelivery
  {
    match state
    case Connected => DidConnect(peer)
    case NotConnected => DidDisconnect(peer)
    case Connecting => NoDelivery
    case UnknownState => NoDelivery
  }

  /** `session(_:didReceive:fromPeer:)` */
  function OnData(reg: Registry, w: Wire): (d: Delivery)
    ensures d.DidReceiveRequest? <==> DecodeRequest(reg, w).Success?
    ensures d.DidReceiveRequest? ==> d.request == DecodeRequest(reg, w).value
    ensures d.DidReceiveResponse? <==> DecodeRequest(reg, w).Failure? && DecodeResponse(reg, w).Success?
    ensures d.DidReceiveResponse? ==> d.response == DecodeResponse(reg, w).value
    ensures d == NoDelivery <==> DecodeRequest(reg, w).Failure? && DecodeResponse(reg, w).Failure?
    ensures !d.DidConnect? && !d.DidDisconnect?
  {
    match DecodeRequest(reg, w)
    case Success(request) => DidReceiveRequest(request)
    case Failure(_) =>
      match DecodeResponse(reg, w)
      case Success(response) => DidReceiveResponse(response)
      case Failure(_) => NoDelivery
  }

  /** What one peer encodes, the other's session delivers as the same kind of
      message: a request as that request, a response as that response. */
  lemma EncodedMessagesAreDelivered(reg: Registry, req: Request, resp: Response)
    ensures Lookup(reg, req.message.exchangeTypeID, req.message.messageType) == Some(TypeOf(req.message.body)) ==>
      OnData(reg, EncodeRequest(reg, req).value) == DidReceiveRequest(req)
    ensures Lookup(reg, resp.message.exchangeTypeID, resp.message.messageType) == Some(TypeOf(resp.message.body)) ==>
      OnData(reg, EncodeResponse(reg, resp).value) == DidReceiveResponse(resp)
  {
    if Lookup(reg, req.message.exchangeTypeID, req.message.messageType) == Some(TypeOf(req.message.body)) {
      RequestRoundTrip(reg, req);
    }
    if Lookup(reg, resp.message.exchangeTypeID, resp.message.messageType) == Some(TypeOf(resp.message.body)) {
      ResponseRoundTrip(reg, resp);
      ResponseNeverDecodesAsRequest(reg, resp);
    }
  }
}
