/** The engine driven by an arbitrary sequence of events — application calls,
    transport callbacks and timers — and the guarantee that survives every such
    sequence: no exchange's response handler is ever called twice. */
module Traces {
  import opened Wrappers
  import opened Messages
  import opened Requests
  import opened Exchanges
  import opened Peers
  import Sessions
  import Clients
  import opened Networkers

  /** Everything that can happen to an engine. */
  datatype Event =
    | RegisterBoth(requestType: BodyType, responseType: BodyType, exchangeTypeID: string)
    | RegisterRequest(requestType: BodyType, exchangeTypeID: string)
    | RegisterResponse(responseType: BodyType, exchangeTypeID: string)
    | BeginExchangeOf(exchangeTypeID: string, shape: Shape)
    | RespondWith(request: Request, body: Body)
    | RespondWithErrorText(request: Request, error: string)
    | PeerStateChanged(peer: Peer, state: Sessions.PeerState)
    | DataReceived(data: Wire)
    | TimerFired(id: Uuid)

  function Step(e: Networker, ev: Event, t: Transport): Networker
  {
    match ev
    case RegisterBoth(req, resp, id) => e.(registry := RegisterRequestAndResponse(e.registry, req, resp, id))
    case RegisterRequest(req, id) => e.(registry := RegisterRequestOnly(e.registry, req, id))
    case RegisterResponse(resp, id) => e.(registry := RegisterResponseOnly(e.registry, resp, id))
    case BeginExchangeOf(id, shape) => Begin(e, id, shape, t)
    case RespondWith(request, body) => Respond(e, request, body, t)
    case RespondWithErrorText(request, error) => RespondWithError(e, request, error, t)
    case PeerStateChanged(peer, state) => OnPeerState(e, peer, state, t)
    case DataReceived(data) => OnData(e, data, t)
    case TimerFired(id) => TimerFires(e, id)
  }

  /** Each event happens against the transport as it is at that moment. */
  function Run(e: Networker, events: seq<(Event, Transport)>): Networker
    decreases |events|
  {
    if |events| == 0 then e else Run(Step(e, events[0].0, events[0].1), events[1..])
  }

  // ---------------------------------------------------------------------------
  // The invariant

  predicate NotCalled(calls: seq<Call>, id: Uuid)
  {
    forall j :: 0 <= j < |calls| ==> calls[j].exchangeID != id
  }

  predicate CallsDistinct(calls: seq<Call>)
  {
    forall i, j :: 0 <= i < j < |calls| ==> calls[i].exchangeID != calls[j].exchangeID
  }

  /** The engine made this ID: its own origin, a serial already handed out. */
  predicate Issued(e: Networker, id: Uuid)
  {
    id.origin == e.origin && id.serial < e.nextID
  }

  /** Every ID in the table or the handler log was handed out; an exchange whose
      handler was called is no longer in the table; no ID was called twice. */
  predicate Core(e: Networker)
  {
    && (forall k :: k in e.pending ==> Issued(e, k))
    && (forall i :: 0 <= i < |e.calls| ==> Issued(e, e.calls[i].exchangeID) && e.calls[i].exchangeID !in e.pending)
    && CallsDistinct(e.calls)
  }

  /** Exchanges waiting to be begun: handed out, neither in the table nor called,
      and pairwise distinct. */
  predicate Fresh(e: Networker, xs: seq<Exchange>)
  {
    && (forall i :: 0 <= i < |xs| ==> Issued(e, xs[i].ID()) && xs[i].ID() !in e.pending && NotCalled(e.calls, xs[i].ID()))
    && (forall i, j :: 0 <= i < j < |xs| ==> xs[i].ID() != xs[j].ID())
  }

  predicate Inv(e: Networker)
  {
    Core(e) && (e.role.ClientRole? ==> Fresh(e, e.role.client.buffer))
  }

  // ---------------------------------------------------------------------------
  // Preservation, operation by operation

  lemma CompletePreserves(e: Networker, id: Uuid, outcome: Outcome, invalidate: bool, xs: seq<Exchange>)
    requires Core(e) && Fresh(e, xs)
    ensures Core(Complete(e, id, outcome, invalidate)) && Fresh(Complete(e, id, outcome, invalidate), xs)
  {
    var r := Complete(e, id, outcome, invalidate);
    if id in e.pending && e.pending[id].handler.Some? {
      assert r.calls[|e.calls|].exchangeID == id;
      forall i, j | 0 <= i < j < |r.calls|
        ensures r.calls[i].exchangeID != r.calls[j].exchangeID
      {
        if j == |e.calls| {
          assert e.calls[i].exchangeID !in e.pending;
        }
      }
      forall i | 0 <= i < |xs|
        ensures NotCalled(r.calls, xs[i].ID())
      {
        assert xs[i].ID() != id;
      }
    }
  }

  lemma {:induction false} SendDataPreserves(e: Networker, id: Uuid, data: Wire, to: seq<Peer>, retriesLeft: int, t: Transport, xs: seq<Exchange>)
    requires Core(e) && Fresh(e, xs)
    ensures Core(SendData(e, id, data, to, retriesLeft, t)) && Fresh(SendData(e, id, data, to, retriesLeft, t), xs)
    decreases if retriesLeft > 0 then retriesLeft else 0
  {
    var ok := t.accepts(|e.sent|);
    var e1 := e.(sent := e.sent + [Transmission(to, data, ok)]);
    assert Core(e1) && Fresh(e1, xs);
    if !ok {
      if retriesLeft <= 0 {
        CompletePreserves(e1, id, WithError(ResponseHandlers.SendFailed(e.config.numberOfTimesToRetrySendingMessages, id)), true, xs);
      } else {
        SendDataPreserves(e1, id, data, to, retriesLeft - 1, t, xs);
      }
    }
  }

  /** Beginning an exchange that is waiting (fresh) keeps the others fresh. */
  lemma BeginExchangePreserves(e: Networker, x: Exchange, t: Transport, xs: seq<Exchange>)
    requires Core(e) && Fresh(e, [x] + xs)
    ensures Core(BeginExchange(e, x, t)) && Fresh(BeginExchange(e, x, t), xs)
  {
    assert Fresh(e, xs) by {
      forall i | 0 <= i < |xs| ensures xs[i] == ([x] + xs)[i + 1] { }
    }
    var to := Recipients(e, t);
    if |to| == 0 {
      match e.role
      case HostRole => CompletePreserves(e, x.ID(), WithError(ResponseHandlers.NoRecipients(x.ID())), true, xs);
      case ClientRole(c) => { }
    } else {
      var e1 := e.(pending := e.pending[x.ID() := x]);
      assert ([x] + xs)[0] == x;
      assert Core(e1) by {
        forall i | 0 <= i < |e1.calls|
          ensures e1.calls[i].exchangeID !in e1.pending
        {
          assert NotCalled(e.calls, x.ID());
        }
      }
      assert Fresh(e1, xs) by {
        forall i | 0 <= i < |xs|
          ensures xs[i].ID() != x.ID()
        {
          assert xs[i] == ([x] + xs)[i + 1];
        }
      }
      match EncodeRequest(e1.registry, x.request)
      case Failure(error) =>
        CompletePreserves(e1, x.ID(), WithError(ResponseHandlers.EncodeFailed(error)), true, xs);
      case Success(data) =>
        SendDataPreserves(e1, x.ID(), data, to, e1.config.numberOfTimesToRetrySendingMessages, t, xs);
    }
  }

  lemma {:induction false} FlushPreserves(e: Networker, xs: seq<Exchange>, t: Transport)
    requires e.role.ClientRole? && e.role.client.host.Some?
    requires Core(e) && Fresh(e, xs)
    ensures Core(Flush(e, xs, t))
    decreases |xs|
  {
    if |xs| > 0 {
      assert [xs[0]] + xs[1..] == xs;
      BeginExchangePreserves(e, xs[0], t, xs[1..]);
      FlushPreserves(BeginExchange(e, xs[0], t), xs[1..], t);
    }
  }

  lemma SendResponsePreserves(e: Networker, response: Response, t: Transport)
    requires Inv(e)
    ensures Inv(SendResponse(e, response, t))
  {
    var xs := if e.role.ClientRole? then e.role.client.buffer else [];
    match EncodeResponse(e.registry, response)
    case Failure(_) =>
    case Success(data) =>
      match FirstNamed(t.connected, response.message.requesterID)
      case None =>
      case Some(requester) =>
        SendDataPreserves(e, response.ExchangeID(), data, [requester], e.config.numberOfTimesToRetrySendingMessages, t, xs);
  }

  /** A new exchange under the next ID is fresh, ahead of the waiting ones. */
  lemma FreshWithNext(e: Networker, x: Exchange, xs: seq<Exchange>)
    requires Core(e) && Fresh(e, xs) && x.ID() == FreshID(e)
    ensures Fresh(e.(nextID := e.nextID + 1), [x] + xs)
  {
    var e1 := e.(nextID := e.nextID + 1);
    var ys := [x] + xs;
    assert NotCalled(e.calls, x.ID());
    forall i | 0 <= i < |ys|
      ensures Issued(e1, ys[i].ID()) && ys[i].ID() !in e1.pending && NotCalled(e1.calls, ys[i].ID())
    {
      if i > 0 { assert ys[i] == xs[i - 1]; }
    }
    forall i, j | 0 <= i < j < |ys|
      ensures ys[i].ID() != ys[j].ID()
    {
      assert ys[j] == xs[j - 1];
      if i > 0 { assert ys[i] == xs[i - 1]; }
    }
  }

  /** Freshness does not depend on the order of the waiting exchanges. */
  lemma FreshRotate(e: Networker, x: Exchange, xs: seq<Exchange>)
    requires Fresh(e, [x] + xs)
    ensures Fresh(e, xs + [x])
  {
    var ys := [x] + xs;
    var zs := xs + [x];
    assert forall i :: 0 <= i < |zs| ==> zs[i] == ys[if i == |xs| then 0 else i + 1];
  }

  lemma BeginPreserves(e: Networker, exchangeTypeID: string, shape: Shape, t: Transport)
    requires Inv(e)
    ensures Inv(Begin(e, exchangeTypeID, shape, t))
  {
    var x := Make(FreshID(e), exchangeTypeID, e.name, shape, e.config.exchangeTimeoutInterval);
    var e1 := e.(nextID := e.nextID + 1,
                 armed := if x.timer.Some? then e.armed[x.ID() := x.request] else e.armed);
    var xs := if e.role.ClientRole? then e.role.client.buffer else [];
    FreshWithNext(e, x, xs);
    assert Core(e1) && Fresh(e1, [x] + xs);
    BeginExchangePreserves(e1, x, t, xs);
    if e.role.ClientRole? && |Recipients(e1, t)| == 0 {
      FreshRotate(e1, x, xs);
    }
  }

  lemma DispatchPreserves(e: Networker, d: Sessions.Delivery, t: Transport)
    requires Inv(e)
    ensures Inv(Dispatch(e, d, t))
  {
    var xs := if e.role.ClientRole? then e.role.client.buffer else [];
    match d
    case DidConnect(peer) =>
      if e.role.ClientRole? && e.role.client.host.None? {
        var c := e.role.client;
        var e1 := e.(role := ClientRole(c.(host := Some(peer), browsing := false)));
        FlushPreserves(e1, c.buffer, t);
      }
    case DidDisconnect(peer) =>
    case DidReceiveRequest(request) =>
    case DidReceiveResponse(response) =>
      CompletePreserves(e, response.ExchangeID(), WithResponse(response), true, xs);
    case NoDelivery =>
  }

  lemma StepPreserves(e: Networker, ev: Event, t: Transport)
    requires Inv(e)
    ensures Inv(Step(e, ev, t))
  {
    var xs := if e.role.ClientRole? then e.role.client.buffer else [];
    match ev
    case RegisterBoth(_, _, _) =>
    case RegisterRequest(_, _) =>
    case RegisterResponse(_, _) =>
    case BeginExchangeOf(id, shape) => BeginPreserves(e, id, shape, t);
    case RespondWith(request, body) =>
      if ResponseWithBody(request, body).Success? {
        SendResponsePreserves(e, ResponseWithBody(request, body).value, t);
      }
    case RespondWithErrorText(request, error) =>
      if ErrorResponse(request, error).Success? {
        SendResponsePreserves(e, ErrorResponse(request, error).value, t);
      }
    case PeerStateChanged(peer, state) => DispatchPreserves(e, Sessions.OnStateChange(peer, state), t);
    case DataReceived(data) => DispatchPreserves(e, Sessions.OnData(e.registry, data), t);
    case TimerFired(id) =>
      if id in e.armed {
        var e1 := e.(armed := e.armed - {id});
        var request := e.armed[id];
        CompletePreserves(e1, request.ExchangeID(),
                          WithError(ResponseHandlers.TimedOut(request.message.exchangeTypeID, request.ExchangeID())), false, xs);
      }
  }

  lemma {:induction false} RunPreserves(e: Networker, events: seq<(Event, Transport)>)
    requires Inv(e)
    ensures Inv(Run(e, events))
    decreases |events|
  {
    if |events| > 0 {
      StepPreserves(e, events[0].0, events[0].1);
      RunPreserves(Step(e, events[0].0, events[0].1), events[1..]);
    }
  }

  // ---------------------------------------------------------------------------
  // The guarantee

  /** Whatever happens — responses, duplicate responses, timeouts, send
      failures, disconnections, reconnections — every response handler is
      called at most once, only for an exchange the engine began, and an exchange
      whose handler has been called is gone from the table. */
  lemma HandlersAreCalledAtMostOnce(name: string, serviceType: string, joinCode: string, config: Config,
                                    registry: Registry, origin: nat, isHost: bool, events: seq<(Event, Transport)>)
    ensures var e := Create(name, serviceType, joinCode, config, registry, origin,
                            if isHost then HostRole else ClientRole(Clients.Initial));
            var r := Run(e, events);
            CallsDistinct(r.calls)
            && (forall i :: 0 <= i < |r.calls| ==> Issued(r, r.calls[i].exchangeID) && r.calls[i].exchangeID !in r.pending)
  {
    var e := Create(name, serviceType, joinCode, config, registry, origin,
                    if isHost then HostRole else ClientRole(Clients.Initial));
    RunPreserves(e, events);
  }
}
