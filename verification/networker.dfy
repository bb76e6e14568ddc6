/** Networker.swift: the role-agnostic exchange engine, with the Host and Client
    overrides folded in as a `Role`.

    The engine's state is a value; every operation returns the next state. The
    transport is an oracle (`Transport`): the peers connected right now, and
    whether the n-th send attempt of the engine's life succeeds. What the engine
    does to the outside world is recorded in three logs: `sent` (every send
    attempt), `calls` (every call of an application response handler) and
    `received` (every request handed to the application's request handler). */
module Networkers {
  import opened Wrappers
  import opened Messages
  import opened Requests
  import opened ResponseHandlers
  import opened Exchanges
  import opened Peers
  import Sessions
  import Clients
  import Hosts
  import Naming

  /** `NetworkerConfiguration` */
  datatype Config = Config(exchangeTimeoutInterval: TimeInterval, numberOfTimesToRetrySendingMessages: int)

  /** One `MCSession.send` attempt and whether the transport took it. */
  datatype Transmission = Transmission(recipients: seq<Peer>, data: Wire, delivered: bool)

  /** One call of an application response handler, for the given exchange. */
  datatype Call = Call(exchangeID: Uuid, result: HandlerResult)

  datatype Transport = Transport(connected: seq<Peer>, accepts: nat -> bool)

  /** Host.swift and Client.swift as the two overrides of the base class. */
  datatype Role = HostRole | ClientRole(client: Clients.ClientState)

  datatype Networker = Networker(
    name: string,
    serviceType: string,
    joinCode: string,
    config: Config,
    registry: Registry,
    /** `pendingExchanges` of Networker.swift: the table of exchanges in flight. */
    pending: map<Uuid, Exchange>,
    /** Timers that are scheduled and not yet invalidated, with the request each captured. */
    armed: map<Uuid, Request>,
    /** The origin of every ID this engine makes. */
    origin: nat,
    /** The fresh-ID supply: every serial handed out so far is below it. */
    nextID: nat,
    role: Role,
    sent: seq<Transmission>,
    calls: seq<Call>,
    received: seq<Request>)

  // ---------------------------------------------------------------------------
  // Creation

  /** `Networker.init`: normalise name and service type; nothing is pending. The
      origin stands for the device-specific part of the IDs `UUID()` makes. */
  function Create(name: string, serviceType: string, joinCode: string, config: Config, registry: Registry, origin: nat, role: Role): (e: Networker)
    ensures e.name == Naming.NormalisedName(name) && e.serviceType == Naming.NormalisedServiceType(serviceType)
    ensures e.joinCode == joinCode && e.pending == map[] && e.armed == map[] && e.calls == []
    ensures e.origin == origin
  {
    Networker(Naming.NormalisedName(name), Naming.NormalisedServiceType(serviceType), joinCode, config, registry,
              map[], map[], origin, 0, role, [], [], [])
  }

  /** The ID the next exchange gets. */
  function FreshID(e: Networker): Uuid
  {
    Uuid(e.origin, e.nextID)
  }

  /** `Host.init`: a missing join code is replaced by a random four-digit one. */
  function CreateHost(name: string, serviceType: string, joinCode: Option<string>, random: int, config: Config, registry: Registry, origin: nat): (e: Networker)
    requires 1000 <= random <= 9999
    ensures e.role == HostRole
    ensures joinCode.Some? ==> e.joinCode == joinCode.value
    ensures joinCode.None? ==> |e.joinCode| == 4 && Hosts.AllDigits(e.joinCode) && Hosts.DigitsValue(e.joinCode) == random
  {
    Hosts.DefaultJoinCodeSpec(joinCode, random);
    Create(name, serviceType, Hosts.DefaultJoinCode(joinCode, random), config, registry, origin, HostRole)
  }

  function CreateClient(name: string, serviceType: string, joinCode: string, config: Config, registry: Registry, origin: nat): (e: Networker)
    ensures e.role == ClientRole(Clients.Initial)
  {
    Create(name, serviceType, joinCode, config, registry, origin, ClientRole(Clients.Initial))
  }

  // ---------------------------------------------------------------------------
  // Registering exchange types

  /** The three `register` overloads: request and response types (plus `String`
      for error responses), request type only, response type only (with `Empty`
      for the request). */
  function RegisterRequestAndResponse(reg: Registry, requestType: BodyType, responseType: BodyType, exchangeTypeID: string): (r: Registry)
    ensures Lookup(r, exchangeTypeID, RequestMessage) == Some(requestType)
    ensures Lookup(r, exchangeTypeID, ResponseMessage) == Some(responseType)
    ensures Lookup(r, exchangeTypeID, ErrorResponseMessage) == Some(StringType)
    ensures forall id, t :: id != exchangeTypeID ==> Lookup(r, id, t) == Lookup(reg, id, t)
  {
    var r1 := Register(reg, requestType, exchangeTypeID, RequestMessage);
    var r2 := Register(r1, responseType, exchangeTypeID, ResponseMessage);
    var r3 := Register(r2, StringType, exchangeTypeID, ErrorResponseMessage);
    assert Lookup(r3, exchangeTypeID, RequestMessage) == Some(requestType) by {
      RegisterKeepsOtherPairs(r1, responseType, exchangeTypeID, ResponseMessage, exchangeTypeID, RequestMessage);
      RegisterKeepsOtherPairs(r2, StringType, exchangeTypeID, ErrorResponseMessage, exchangeTypeID, RequestMessage);
    }
    assert Lookup(r3, exchangeTypeID, ResponseMessage) == Some(responseType) by {
      RegisterKeepsOtherPairs(r2, StringType, exchangeTypeID, ErrorResponseMessage, exchangeTypeID, ResponseMessage);
    }
    forall id, t | id != exchangeTypeID
      ensures Lookup(r3, id, t) == Lookup(reg, id, t)
    {
      RegisterKeepsOtherPairs(reg, requestType, exchangeTypeID, RequestMessage, id, t);
      RegisterKeepsOtherPairs(r1, responseType, exchangeTypeID, ResponseMessage, id, t);
      RegisterKeepsOtherPairs(r2, StringType, exchangeTypeID, ErrorResponseMessage, id, t);
    }
    r3
  }

  function RegisterRequestOnly(reg: Registry, requestType: BodyType, exchangeTypeID: string): (r: Registry)
    ensures Lookup(r, exchangeTypeID, RequestMessage) == Some(requestType)
    ensures forall id, t :: id != exchangeTypeID || t != RequestMessage ==> Lookup(r, id, t) == Lookup(reg, id, t)
  {
    var r1 := Register(reg, requestType, exchangeTypeID, RequestMessage);
    forall id, t | id != exchangeTypeID || t != RequestMessage
      ensures Lookup(r1, id, t) == Lookup(reg, id, t)
    {
      RegisterKeepsOtherPairs(reg, requestType, exchangeTypeID, RequestMessage, id, t);
    }
    r1
  }

  function RegisterResponseOnly(reg: Registry, responseType: BodyType, exchangeTypeID: string): (r: Registry)
    ensures Lookup(r, exchangeTypeID, RequestMessage) == Some(EmptyType)
    ensures Lookup(r, exchangeTypeID, ResponseMessage) == Some(responseType)
    ensures Lookup(r, exchangeTypeID, ErrorResponseMessage) == Some(StringType)
    ensures forall id, t :: id != exchangeTypeID ==> Lookup(r, id, t) == Lookup(reg, id, t)
  {
    RegisterRequestAndResponse(reg, EmptyType, responseType, exchangeTypeID)
  }

  // ---------------------------------------------------------------------------
  // Recipients

  /** `defaultRequestRecipients`, as overridden by the role. */
  function Recipients(e: Networker, t: Transport): (r: seq<Peer>)
    ensures e.role.HostRole? ==> r == t.connected
    ensures e.role.ClientRole? ==> r == Clients.Recipients(e.role.client)
  {
    match e.role
    case HostRole => Hosts.Recipients(t.connected)
    case ClientRole(c) => Clients.Recipients(c)
  }

  // ---------------------------------------------------------------------------
  // Terminal events

  /** How an exchange ends: with an error message or with a response. */
  datatype Outcome = WithError(error: ErrorMessage) | WithResponse(response: Response)

  function Deliver(h: Handler, outcome: Outcome): HandlerResult
  {
    match outcome
    case WithError(error) => HandleError(h, error)
    case WithResponse(response) => HandleResponse(h, response)
  }

  /** The calls a terminal event makes: one, when the exchange is in the table and
      has a handler; none otherwise. */
  function CallsFor(e: Networker, id: Uuid, outcome: Outcome): seq<Call>
  {
    if id in e.pending && e.pending[id].handler.Some? then [Call(id, Deliver(e.pending[id].handler.value, outcome))] else []
  }

  /** The shared shape of every terminal event: look the exchange up, invalidate
      its timer (when asked to), call its handler if it has one, and remove it. An
      ID that is not in the table changes nothing. */
  function Complete(e: Networker, id: Uuid, outcome: Outcome, invalidateTimer: bool): (r: Networker)
    ensures r.pending == e.pending - {id}
    ensures r.calls == e.calls + CallsFor(e, id, outcome)
    ensures id !in e.pending ==> r == e
    ensures r.role == e.role && r.sent == e.sent && r.received == e.received
    ensures r.registry == e.registry && r.nextID == e.nextID && r.origin == e.origin && r.config == e.config
  {
    if id !in e.pending then e
    else
      var x := e.pending[id];
      e.(armed := if invalidateTimer && x.timer.Some? then e.armed - {id} else e.armed,
         calls := e.calls + CallsFor(e, id, outcome),
         pending := e.pending - {id})
  }

  /** `callResponseHandler(forExchangeID:withErrorMessage:)` */
  function CallResponseHandler(e: Networker, id: Uuid, error: ErrorMessage): Networker
  {
    Complete(e, id, WithError(error), true)
  }

  /** `requestDidTimeout(_:)`: the timer has already invalidated itself. */
  function RequestDidTimeout(e: Networker, request: Request): Networker
  {
    var id := request.ExchangeID();
    Complete(e, id, WithError(TimedOut(request.message.exchangeTypeID, id)), false)
  }

  /** `sessionDidReceive(_ response:)` */
  function DidReceiveResponse(e: Networker, response: Response): Networker
  {
    Complete(e, response.ExchangeID(), WithResponse(response), true)
  }

  /** An armed timer fires once: it invalidates itself, then tells the engine its
      request timed out. A timer that is not armed does not fire. */
  function TimerFires(e: Networker, id: Uuid): (r: Networker)
    ensures id !in r.armed
  {
    if id !in e.armed then e
    else
      var request := e.armed[id];
      RequestDidTimeout(e.(armed := e.armed - {id}), request)
  }

  // ---------------------------------------------------------------------------
  // Sending

  /** Total attempts `send(_:forExchangeID:to:retry:)` makes against a transport
      that refuses every one. */
  function Attempts(retries: int): nat
  {
    if retries <= 0 then 1 else retries + 1
  }

  /** `send(_ data:forExchangeID:to:retry:)`: try the transport; on failure retry
      at once while retries are left, then end the exchange with a send failure. */
  function SendData(e: Networker, id: Uuid, data: Wire, to: seq<Peer>, retriesLeft: int, t: Transport): (r: Networker)
    ensures |e.sent| < |r.sent| <= |e.sent| + Attempts(retriesLeft)
    ensures r.sent[..|e.sent|] == e.sent
    ensures forall i :: |e.sent| <= i < |r.sent| ==> r.sent[i].recipients == to && r.sent[i].data == data
    ensures r.pending == e.pending || r.pending == e.pending - {id}
    ensures id !in e.pending ==> r.pending == e.pending && r.calls == e.calls
    ensures r.role == e.role && r.received == e.received && r.registry == e.registry
    ensures r.nextID == e.nextID && r.origin == e.origin && r.config == e.config
    decreases if retriesLeft > 0 then retriesLeft else 0
  {
    var ok := t.accepts(|e.sent|);
    var e1 := e.(sent := e.sent + [Transmission(to, data, ok)]);
    if ok then e1
    else if retriesLeft <= 0 then CallResponseHandler(e1, id, SendFailed(e.config.numberOfTimesToRetrySendingMessages, id))
    else SendData(e1, id, data, to, retriesLeft - 1, t)
  }

  /** `send(_ request:to:retry:andHandleResponseWith:)`: an encoding failure ends
      the exchange at once. */
  function SendRequest(e: Networker, request: Request, to: seq<Peer>, t: Transport): (r: Networker)
    ensures r.role == e.role && r.received == e.received && r.registry == e.registry
    ensures r.nextID == e.nextID && r.origin == e.origin && r.config == e.config
  {
    match EncodeRequest(e.registry, request)
    case Failure(error) => CallResponseHandler(e, request.ExchangeID(), EncodeFailed(error))
    case Success(data) => SendData(e, request.ExchangeID(), data, to, e.config.numberOfTimesToRetrySendingMessages, t)
  }

  /** `handleNoRecipients(for:)`: the base class (and so the Host) reports the
      failure through `callResponseHandler`, which finds nothing because the
      exchange was never put in the table; the Client buffers it and browses. */
  function HandleNoRecipients(e: Networker, x: Exchange): Networker
  {
    match e.role
    case HostRole => CallResponseHandler(e, x.ID(), NoRecipients(x.ID()))
    case ClientRole(c) => e.(role := ClientRole(Clients.Enqueue(c, x)))
  }

  /** `beginExchange(_ exchange:)`: with recipients, put the exchange in the table
      (whether or not it has a handler) and send; without, defer to the role. */
  function BeginExchange(e: Networker, x: Exchange, t: Transport): (r: Networker)
    ensures |Recipients(e, t)| > 0 ==> r.role == e.role
    ensures r.received == e.received && r.registry == e.registry && r.nextID == e.nextID && r.origin == e.origin && r.config == e.config
  {
    var to := Recipients(e, t);
    if |to| == 0 then HandleNoRecipients(e, x)
    else SendRequest(e.(pending := e.pending[x.ID() := x]), x.request, to, t)
  }

  /** The four public `beginExchange` overloads: build the exchange under a fresh
      ID (arming its timer at once when it has one), then begin it. */
  function Begin(e: Networker, exchangeTypeID: string, shape: Shape, t: Transport): Networker
  {
    var x := Make(FreshID(e), exchangeTypeID, e.name, shape, e.config.exchangeTimeoutInterval);
    var e1 := e.(nextID := e.nextID + 1,
                 armed := if x.timer.Some? then e.armed[x.ID() := x.request] else e.armed);
    BeginExchange(e1, x, t)
  }

  // ---------------------------------------------------------------------------
  // Responding

  /** `send(_ response:retry:andHandleResponseWith:)`: encoding failures are only
      logged; a requester that is no longer connected is given up on, unsent. */
  function SendResponse(e: Networker, response: Response, t: Transport): Networker
  {
    match EncodeResponse(e.registry, response)
    case Failure(_) => e
    case Success(data) =>
      match FirstNamed(t.connected, response.message.requesterID)
      case None => e
      case Some(requester) =>
        SendData(e, response.ExchangeID(), data, [requester], e.config.numberOfTimesToRetrySendingMessages, t)
  }

  /** `respond(to:withBody:)`: a request that expects no response gets none. */
  function Respond(e: Networker, request: Request, body: Body, t: Transport): Networker
  {
    match ResponseWithBody(request, body)
    case Failure(_) => e
    case Success(response) => SendResponse(e, response, t)
  }

  /** `respond(to:withError:)` */
  function RespondWithError(e: Networker, request: Request, error: string, t: Transport): Networker
  {
    match ErrorResponse(request, error)
    case Failure(_) => e
    case Success(response) => SendResponse(e, response, t)
  }

  // ---------------------------------------------------------------------------
  // Session delegate

  /** The loop of `Client.sessionDidConnect(to:)`: begin each buffered exchange in
      order. The host is already set, so none of them is buffered again. */
  function Flush(e: Networker, xs: seq<Exchange>, t: Transport): (r: Networker)
    requires e.role.ClientRole? && e.role.client.host.Some?
    ensures r.role == e.role
    ensures r.received == e.received && r.registry == e.registry && r.nextID == e.nextID && r.origin == e.origin && r.config == e.config
    decreases |xs|
  {
    if |xs| == 0 then e else Flush(BeginExchange(e, xs[0], t), xs[1..], t)
  }

  /** `sessionDidConnect(to:)`: the Host only logs; a Client without a host takes
      the peer as its host, stops browsing and flushes its buffer. */
  function DidConnect(e: Networker, peer: Peer, t: Transport): Networker
  {
    match e.role
    case HostRole => e
    case ClientRole(c) =>
      if c.host.Some? then e
      else
        var e1 := e.(role := ClientRole(c.(host := Some(peer), browsing := false)));
        var e2 := Flush(e1, c.buffer, t);
        e2.(role := ClientRole(e2.role.client.(buffer := [])))
  }

  /** `sessionDidDisconnect(from:)` */
  function DidDisconnect(e: Networker, peer: Peer): Networker
  {
    match e.role
    case HostRole => e
    case ClientRole(c) => e.(role := ClientRole(Clients.Disconnected(c)))
  }

  /** `sessionDidReceive(_ request:)`: hand it to the application's request handler. */
  function DidReceiveRequest(e: Networker, request: Request): Networker
  {
    e.(received := e.received + [request])
  }

  function Dispatch(e: Networker, d: Sessions.Delivery, t: Transport): Networker
  {
    match d
    case DidConnect(peer) => DidConnect(e, peer, t)
    case DidDisconnect(peer) => DidDisconnect(e, peer)
    case DidReceiveRequest(request) => DidReceiveRequest(e, request)
    case DidReceiveResponse(response) => DidReceiveResponse(e, response)
    case NoDelivery => e
  }

  /** A peer-state change reported by the transport. */
  function OnPeerState(e: Networker, peer: Peer, state: Sessions.PeerState, t: Transport): Networker
  {
    Dispatch(e, Sessions.OnStateChange(peer, state), t)
  }

  /** Bytes received from a peer. */
  function OnData(e: Networker, data: Wire, t: Transport): Networker
  {
    Dispatch(e, Sessions.OnData(e.registry, data), t)
  }
}
