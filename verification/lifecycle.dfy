/** What the engine of Networker.swift, Host.swift and Client.swift does to one
    exchange over its life: how it starts, how sending is retried, how it ends,
    and what each role does when there is nobody to send to. */
module Lifecycle {
  import opened Wrappers
  import opened Messages
  import opened Requests
  import opened ResponseHandlers
  import opened Exchanges
  import opened Peers
  import Clients
  import opened Networkers

  // ---------------------------------------------------------------------------
  // Ending an exchange

  /** Every terminal event (a response, a timeout, a send or encoding failure)
      removes the exchange, calls its handler at most once and leaves the other
      entries alone; a second terminal event for the same ID, of any kind,
      changes nothing. */
  lemma TerminalEventIsFinal(e: Networker, id: Uuid, first: Outcome, invalidate1: bool, second: Outcome, invalidate2: bool)
    ensures id !in Complete(e, id, first, invalidate1).pending
    ensures |Complete(e, id, first, invalidate1).calls| ==
            |e.calls| + (if id in e.pending && e.pending[id].handler.Some? then 1 else 0)
    ensures forall k :: k != id && k in e.pending ==>
              k in Complete(e, id, first, invalidate1).pending && Complete(e, id, first, invalidate1).pending[k] == e.pending[k]
    ensures Complete(Complete(e, id, first, invalidate1), id, second, invalidate2) == Complete(e, id, first, invalidate1)
  {
  }

  /** A response and the timeout of the same exchange race: whichever comes first
      is the one the handler sees, and the handler is called exactly once. A
      response that arrives first also invalidates the timer, so it never fires. */
  lemma ResponseAndTimeoutRace(e: Networker, response: Response)
    requires response.ExchangeID() in e.pending
    requires e.pending[response.ExchangeID()].handler.Some? && e.pending[response.ExchangeID()].timer.Some?
    requires response.ExchangeID() in e.armed && e.armed[response.ExchangeID()].ExchangeID() == response.ExchangeID()
    ensures var id := response.ExchangeID();
            var h := e.pending[id].handler.value;
            var r := TimerFires(DidReceiveResponse(e, response), id);
            r.calls == e.calls + [Call(id, HandleResponse(h, response))] && id !in r.pending && id !in r.armed
    ensures var id := response.ExchangeID();
            var h := e.pending[id].handler.value;
            var r := DidReceiveResponse(TimerFires(e, id), response);
            r.calls == e.calls + [Call(id, HandleError(h, TimedOut(e.armed[id].message.exchangeTypeID, id)))] && id !in r.pending
  {
    var id := response.ExchangeID();
    var afterResponse := DidReceiveResponse(e, response);
    assert id !in afterResponse.armed;
    var afterTimer := TimerFires(e, id);
    assert id !in afterTimer.pending;
  }

  /** A timer fires at most once. */
  lemma TimerIsSingleShot(e: Networker, id: Uuid)
    ensures TimerFires(TimerFires(e, id), id) == TimerFires(e, id)
  {
  }

  // ---------------------------------------------------------------------------
  // Sending and retrying

  /** Against a transport that refuses everything, sending makes exactly the
      initial attempt plus the configured retries (none when the count is not
      positive), every attempt to the same recipients with the same data, and then
      ends the exchange with a send failure. */
  lemma {:induction false} RetriesExhausted(e: Networker, id: Uuid, data: Wire, to: seq<Peer>, retriesLeft: int, t: Transport)
    requires forall i :: |e.sent| <= i ==> !t.accepts(i)
    ensures |SendData(e, id, data, to, retriesLeft, t).sent| == |e.sent| + Attempts(retriesLeft)
    ensures forall i :: |e.sent| <= i < |SendData(e, id, data, to, retriesLeft, t).sent| ==>
              SendData(e, id, data, to, retriesLeft, t).sent[i] == Transmission(to, data, false)
    ensures SendData(e, id, data, to, retriesLeft, t).pending == e.pending - {id}
    ensures SendData(e, id, data, to, retriesLeft, t).calls ==
            e.calls + CallsFor(e, id, WithError(SendFailed(e.config.numberOfTimesToRetrySendingMessages, id)))
    decreases if retriesLeft > 0 then retriesLeft else 0
  {
    var e1 := e.(sent := e.sent + [Transmission(to, data, false)]);
    assert !t.accepts(|e.sent|);
    if retriesLeft > 0 {
      RetriesExhausted(e1, id, data, to, retriesLeft - 1, t);
      var r := SendData(e1, id, data, to, retriesLeft - 1, t);
      assert r == SendData(e, id, data, to, retriesLeft, t);
      forall i | |e.sent| <= i < |r.sent|
        ensures r.sent[i] == Transmission(to, data, false)
      {
        if i == |e.sent| {
          assert r.sent[..|e1.sent|] == e1.sent;
          assert r.sent[i] == r.sent[..|e1.sent|][i];
        }
      }
    }
  }

  /** When the transport takes the attempt after `j` refusals, with `j` within
      the retries allowed, sending stops there: `j + 1` attempts, the last one
      delivered, and the table and the handler log untouched. */
  lemma {:induction false} SendSucceedsAfterRefusals(e: Networker, id: Uuid, data: Wire, to: seq<Peer>, retriesLeft: int, t: Transport, j: nat)
    requires j <= retriesLeft || j == 0
    requires t.accepts(|e.sent| + j)
    requires forall i :: |e.sent| <= i < |e.sent| + j ==> !t.accepts(i)
    ensures |SendData(e, id, data, to, retriesLeft, t).sent| == |e.sent| + j + 1
    ensures SendData(e, id, data, to, retriesLeft, t).sent[|e.sent| + j] == Transmission(to, data, true)
    ensures SendData(e, id, data, to, retriesLeft, t).pending == e.pending
    ensures SendData(e, id, data, to, retriesLeft, t).calls == e.calls
    ensures SendData(e, id, data, to, retriesLeft, t).armed == e.armed
    decreases j
  {
    if j > 0 {
      assert !t.accepts(|e.sent|);
      var e1 := e.(sent := e.sent + [Transmission(to, data, false)]);
      SendSucceedsAfterRefusals(e1, id, data, to, retriesLeft - 1, t, j - 1);
    }
  }

  // ---------------------------------------------------------------------------
  // Beginning an exchange

  /** With recipients, an encodable request and a transport that takes the first
      attempt, the exchange goes into the table (even one without a handler,
      which nothing will ever remove but a response) and one transmission of the
      encoded request leaves for every recipient. */
  lemma BeginWithRecipients(e: Networker, x: Exchange, t: Transport)
    requires |Recipients(e, t)| > 0
    requires EncodeRequest(e.registry, x.request).Success?
    requires t.accepts(|e.sent|)
    ensures BeginExchange(e, x, t) ==
            e.(pending := e.pending[x.ID() := x],
               sent := e.sent + [Transmission(Recipients(e, t), EncodeRequest(e.registry, x.request).value, true)])
  {
  }

  /** With recipients and any transport, the exchange is put in the table before
      it is sent, and every attempt goes to exactly those recipients with the
      encoded request. Afterwards the exchange is either still in the table (an
      attempt was taken) or gone again (the encoding or every attempt failed). */
  lemma BeginSendsOnlyToRecipients(e: Networker, x: Exchange, t: Transport)
    requires |Recipients(e, t)| > 0
    ensures var r := BeginExchange(e, x, t);
            && r.role == e.role
            && (r.pending == e.pending[x.ID() := x] || r.pending == e.pending - {x.ID()})
            && |e.sent| <= |r.sent| && r.sent[..|e.sent|] == e.sent
            && (EncodeRequest(e.registry, x.request).Failure? ==> r.sent == e.sent)
            && (EncodeRequest(e.registry, x.request).Success? ==>
                  && |e.sent| < |r.sent| <= |e.sent| + Attempts(e.config.numberOfTimesToRetrySendingMessages)
                  && forall k :: |e.sent| <= k < |r.sent| ==>
                       r.sent[k].recipients == Recipients(e, t)
                       && r.sent[k].data == EncodeRequest(e.registry, x.request).value)
  {
  }

  /** A request that cannot be encoded ends its exchange before anything is sent:
      the table is as before, the timer is invalidated and the handler, if any,
      sees the encoding error. */
  lemma BeginWithUnencodableRequest(e: Networker, x: Exchange, t: Transport)
    requires |Recipients(e, t)| > 0 && x.ID() !in e.pending
    requires EncodeRequest(e.registry, x.request).Failure?
    ensures BeginExchange(e, x, t).pending == e.pending
    ensures BeginExchange(e, x, t).sent == e.sent
    ensures x.timer.Some? ==> x.ID() !in BeginExchange(e, x, t).armed
    ensures BeginExchange(e, x, t).calls ==
            e.calls + (if x.handler.Some?
                       then [Call(x.ID(), Failed(EncodeFailed(EncodeRequest(e.registry, x.request).error)))]
                       else [])
  {
    assert e.pending[x.ID() := x] - {x.ID()} == e.pending;
  }

  /** A Host with no connected peers drops a new exchange without a trace: the
      no-recipients report looks the exchange up before it was ever stored, so
      no handler is called and the timer stays armed. */
  lemma HostWithoutPeersDropsExchange(e: Networker, x: Exchange, t: Transport)
    requires e.role.HostRole? && |t.connected| == 0
    requires x.ID() !in e.pending
    ensures BeginExchange(e, x, t) == e
  {
  }

  /** ... and when that timer later fires it finds nothing either: an exchange
      with a handler that a peerless Host begins never calls its handler. */
  lemma HostWithoutPeersNeverAnswers(e: Networker, exchangeTypeID: string, expected: BodyType, t: Transport)
    requires e.role.HostRole? && |t.connected| == 0
    requires FreshID(e) !in e.pending
    ensures var r := Begin(e, exchangeTypeID, HandlerOnly(expected), t);
            FreshID(e) in r.armed && FreshID(e) !in r.pending && r.calls == e.calls
    ensures TimerFires(Begin(e, exchangeTypeID, HandlerOnly(expected), t), FreshID(e)).calls == e.calls
  {
  }

  /** A Client without a host buffers the exchange, after the ones already
      buffered, and browses; the table is untouched. */
  lemma ClientWithoutHostBuffers(e: Networker, x: Exchange, t: Transport)
    requires e.role.ClientRole? && e.role.client.host.None?
    ensures BeginExchange(e, x, t).role.client.buffer == e.role.client.buffer + [x]
    ensures BeginExchange(e, x, t).role.client.browsing
    ensures BeginExchange(e, x, t).pending == e.pending
    ensures BeginExchange(e, x, t).sent == e.sent && BeginExchange(e, x, t).calls == e.calls
  {
  }

  // ---------------------------------------------------------------------------
  // Connecting and disconnecting (Client)

  /** The table after the buffered exchanges are begun in order. */
  function FlushedTable(pending: map<Uuid, Exchange>, xs: seq<Exchange>): map<Uuid, Exchange>
    decreases |xs|
  {
    if |xs| == 0 then pending else FlushedTable(pending[xs[0].ID() := xs[0]], xs[1..])
  }

  /** The encoded request, or nothing for one that cannot be encoded. */
  function EncodedRequest(reg: Registry, request: Request): Wire
  {
    match EncodeRequest(reg, request)
    case Success(w) => w
    case Failure(_) => EmptyWire
  }

  /** The transmissions of the buffered exchanges, in buffer order, to the host. */
  function FlushedSends(reg: Registry, host: Peer, xs: seq<Exchange>): seq<Transmission>
    decreases |xs|
  {
    if |xs| == 0 then [] else [Transmission([host], EncodedRequest(reg, xs[0].request), true)] + FlushedSends(reg, host, xs[1..])
  }

  /** Flushing begins the buffered exchanges in order: each goes into the table
      and is sent to the host, in buffer order, when the transport takes every
      attempt and every request can be encoded. */
  lemma {:induction false} FlushInOrder(e: Networker, xs: seq<Exchange>, t: Transport)
    requires e.role.ClientRole? && e.role.client.host.Some?
    requires forall i :: |e.sent| <= i ==> t.accepts(i)
    requires forall i :: 0 <= i < |xs| ==> EncodeRequest(e.registry, xs[i].request).Success?
    ensures Flush(e, xs, t).pending == FlushedTable(e.pending, xs)
    ensures Flush(e, xs, t).sent == e.sent + FlushedSends(e.registry, e.role.client.host.value, xs)
    ensures Flush(e, xs, t).calls == e.calls && Flush(e, xs, t).armed == e.armed
    decreases |xs|
  {
    if |xs| > 0 {
      var host := e.role.client.host.value;
      assert Recipients(e, t) == [host];
      assert EncodeRequest(e.registry, xs[0].request).Success?;
      BeginWithRecipients(e, xs[0], t);
      var e1 := BeginExchange(e, xs[0], t);
      var rest := xs[1..];
      assert forall i :: 0 <= i < |rest| ==> rest[i] == xs[i + 1];
      FlushInOrder(e1, rest, t);
      assert e1.sent == e.sent + [Transmission([host], EncodedRequest(e.registry, xs[0].request), true)];
      assert e.sent + FlushedSends(e.registry, host, xs)
          == e.sent + [Transmission([host], EncodedRequest(e.registry, xs[0].request), true)] + FlushedSends(e.registry, host, rest);
    }
  }

  /** Whatever the transport does, the first connection of a Client without a
      host makes that peer the host, stops browsing and empties the buffer. */
  lemma FirstConnectionTakesHost(e: Networker, peer: Peer, t: Transport)
    requires e.role.ClientRole? && e.role.client.host.None?
    ensures DidConnect(e, peer, t).role == ClientRole(Clients.ClientState(Some(peer), [], false))
  {
  }

  /** With a transport that takes every attempt and a buffer of encodable
      requests, that first connection sends every buffered exchange to the new
      host in buffer order and puts each in the table. */
  lemma FirstConnectionFlushesBuffer(e: Networker, peer: Peer, t: Transport)
    requires e.role.ClientRole? && e.role.client.host.None?
    requires forall i :: |e.sent| <= i ==> t.accepts(i)
    requires forall i :: 0 <= i < |e.role.client.buffer| ==> EncodeRequest(e.registry, e.role.client.buffer[i].request).Success?
    ensures DidConnect(e, peer, t).pending == FlushedTable(e.pending, e.role.client.buffer)
    ensures DidConnect(e, peer, t).sent == e.sent + FlushedSends(e.registry, peer, e.role.client.buffer)
    ensures DidConnect(e, peer, t).calls == e.calls && DidConnect(e, peer, t).armed == e.armed
  {
    var c := e.role.client;
    var e1 := e.(role := ClientRole(c.(host := Some(peer), browsing := false)));
    FlushInOrder(e1, c.buffer, t);
  }

  /** Once a Client has a host, further connections change nothing. */
  lemma LaterConnectionsAreIgnored(e: Networker, peer: Peer, t: Transport)
    requires e.role.ClientRole? && e.role.client.host.Some?
    ensures DidConnect(e, peer, t) == e
  {
  }

  /** Any disconnection makes a Client forget its host and browse again; the
      table and the buffer are kept, so exchanges in flight keep waiting. */
  lemma DisconnectKeepsExchanges(e: Networker, peer: Peer)
    requires e.role.ClientRole?
    ensures DidDisconnect(e, peer).role.client.host.None? && DidDisconnect(e, peer).role.client.browsing
    ensures DidDisconnect(e, peer).role.client.buffer == e.role.client.buffer
    ensures DidDisconnect(e, peer).pending == e.pending && DidDisconnect(e, peer).armed == e.armed
  {
  }

  /** An exchange whose timer fires while it is still buffered times out
      nowhere: the timer finds no table entry and disarms itself, and once the
      host connects the exchange sits in the table with its handler and no armed
      timer, so nothing but a response will ever complete it. */
  lemma BufferedExchangeLosesItsTimeout(e: Networker, exchangeTypeID: string, expected: BodyType, host: Peer, t: Transport)
    requires e.role == ClientRole(Clients.Initial)
    requires FreshID(e) !in e.pending
    requires forall i :: |e.sent| <= i ==> t.accepts(i)
    requires Lookup(e.registry, exchangeTypeID, RequestMessage) == Some(EmptyType)
    ensures var id := FreshID(e);
            var r := DidConnect(TimerFires(Begin(e, exchangeTypeID, HandlerOnly(expected), t), id), host, t);
            id in r.pending && r.pending[id].handler == Some(Handler(expected)) && id !in r.armed && r.calls == e.calls
  {
    var id := FreshID(e);
    var e1 := Begin(e, exchangeTypeID, HandlerOnly(expected), t);
    var x := Make(id, exchangeTypeID, e.name, HandlerOnly(expected), e.config.exchangeTimeoutInterval);
    assert e1.role.client.buffer == [x];
    var e2 := TimerFires(e1, id);
    assert e2.role == e1.role && e2.calls == e.calls && e2.sent == e.sent;
    RequestRoundTrip(e.registry, x.request);
    FirstConnectionFlushesBuffer(e2, host, t);
    assert FlushedTable(e2.pending, [x]) == e2.pending[id := x];
  }

  // ---------------------------------------------------------------------------
  // Responding

  /** A request that expects no response is never answered. */
  lemma NoResponseWhenNoneExpected(e: Networker, request: Request, body: Body, error: string, t: Transport)
    requires !request.expectsResponse
    ensures Respond(e, request, body, t) == e
    ensures RespondWithError(e, request, error, t) == e
  {
  }

  /** A response to a requester that is no longer connected is dropped: nothing
      is sent and nothing is retried. */
  lemma ResponseToDepartedRequesterIsDropped(e: Networker, request: Request, body: Body, error: string, t: Transport)
    requires forall i :: 0 <= i < |t.connected| ==> t.connected[i].displayName != request.message.requesterID
    ensures Respond(e, request, body, t) == e
    ensures RespondWithError(e, request, error, t) == e
  {
  }

  /** Answering a request that another engine made never touches this engine's
      own exchanges, even when every send attempt fails: the send failure looks up
      the request's ID, and this engine never made that ID. */
  lemma AnsweringLeavesOwnExchangesAlone(e: Networker, request: Request, body: Body, error: string, t: Transport)
    requires request.ExchangeID().origin != e.origin
    requires forall k :: k in e.pending ==> k.origin == e.origin
    ensures Respond(e, request, body, t).pending == e.pending && Respond(e, request, body, t).calls == e.calls
    ensures RespondWithError(e, request, error, t).pending == e.pending && RespondWithError(e, request, error, t).calls == e.calls
  {
    assert request.ExchangeID() !in e.pending;
  }

  /** Whatever the transport does, every attempt to answer a request, with a body
      or with an error, goes to the first connected peer with the requester's name
      and to nobody else, and there are at most the configured number of them. */
  lemma ResponseGoesOnlyToRequester(e: Networker, request: Request, body: Body, error: string, t: Transport, i: int)
    requires IsFirstNamed(t.connected, request.message.requesterID, i)
    ensures var r := Respond(e, request, body, t);
            && |e.sent| <= |r.sent| <= |e.sent| + Attempts(e.config.numberOfTimesToRetrySendingMessages)
            && r.sent[..|e.sent|] == e.sent
            && forall k :: |e.sent| <= k < |r.sent| ==> r.sent[k].recipients == [t.connected[i]]
    ensures var r := RespondWithError(e, request, error, t);
            && |e.sent| <= |r.sent| <= |e.sent| + Attempts(e.config.numberOfTimesToRetrySendingMessages)
            && r.sent[..|e.sent|] == e.sent
            && forall k :: |e.sent| <= k < |r.sent| ==> r.sent[k].recipients == [t.connected[i]]
  {
  }

  /** A response that can be sent goes only to the first connected peer with the
      requester's name, and what goes out decodes to a response answering the
      request and carrying the body. */
  lemma ResponseReachesRequester(e: Networker, request: Request, body: Body, t: Transport, i: int)
    requires request.expectsResponse
    requires Lookup(e.registry, request.message.exchangeTypeID, ResponseMessage) == Some(TypeOf(body))
    requires IsFirstNamed(t.connected, request.message.requesterID, i)
    requires t.accepts(|e.sent|)
    ensures var r := Respond(e, request, body, t);
            |r.sent| == |e.sent| + 1
            && r.sent[|e.sent|].recipients == [t.connected[i]]
            && r.sent[|e.sent|].delivered
            && DecodeResponse(e.registry, r.sent[|e.sent|].data).Success?
            && Answers(DecodeResponse(e.registry, r.sent[|e.sent|].data).value, request)
            && DecodeResponse(e.registry, r.sent[|e.sent|].data).value.message.body == body
    ensures Respond(e, request, body, t).pending == e.pending && Respond(e, request, body, t).calls == e.calls
  {
    var response := ResponseWithBody(request, body).value;
    ResponseRoundTrip(e.registry, response);
    FirstNamedAt(t.connected, request.message.requesterID, i);
  }

  // ---------------------------------------------------------------------------
  // Receiving

  /** A response that arrives as bytes reaches the handler of its exchange: the
      bytes are recognised as a response (not a request), the exchange leaves the
      table and its handler is called once with the response's outcome. */
  lemma ReceivedResponseReachesHandler(e: Networker, response: Response, t: Transport)
    requires Lookup(e.registry, response.message.exchangeTypeID, response.message.messageType) == Some(TypeOf(response.message.body))
    requires response.ExchangeID() in e.pending && e.pending[response.ExchangeID()].handler.Some?
    ensures var r := OnData(e, EncodeResponse(e.registry, response).value, t);
            r.calls == e.calls + [Call(response.ExchangeID(), HandleResponse(e.pending[response.ExchangeID()].handler.value, response))]
            && response.ExchangeID() !in r.pending
  {
    ResponseRoundTrip(e.registry, response);
    ResponseNeverDecodesAsRequest(e.registry, response);
  }
}
