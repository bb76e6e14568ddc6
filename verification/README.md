# MultipeerNetworking exchange engine, in Dafny

MultipeerNetworking is a peer-to-peer request/response library. A **Host**
advertises a service and admits **Clients** that present its join code. Either
side begins an *exchange*: a request tagged with a fresh exchange ID and an
exchange type. It may carry a response handler and a timeout. The engine keeps a
table of pending exchanges. It sends requests with bounded immediate retry and
correlates inbound responses with table entries by exchange ID. A handler is
called at most once, when the exchange ends: with the response, a timeout, an
encoding failure or a send failure. Some exchanges never reach their handler
(see below).

This project models that engine as pure functions over immutable state and
proves what it guarantees:

- `wrappers.dfy`: `Option` and `Result`.
- `utf8.dfy`: UTF-8 encoding and decoding of Unicode scalars, with the round trip.
- `strings.dfy`: the three `String` extensions that normalise names
  (`prefixUTF8Bytes`, `removingCharacters(in:)`, `removingAdjacentOccurences(of:)`).
- `naming.dfy`: how a networker normalises its name and service type.
- `message.dfy`: message types, the body-codec registry keyed by
  `exchangeTypeID + "." + messageType`, and the message envelope codec.
- `request.dfy`: requests, responses derived from them, and their codecs.
- `response_handler.dfy`: how a response or an error reaches a typed handler.
- `exchange.dfy`: the four exchange shapes (handler, timer, `expectsResponse`).
- `peer.dfy`, `session.dfy`: peers, peer-state callbacks and inbound classification.
- `client.dfy`, `host.dfy`, `advertiser.dfy`: the role-specific parts and admission.
- `networker.dfy`: the engine. Its state holds the pending table, the armed
  timers, the fresh-ID supply, the role, and logs of send attempts, handler calls
  and delivered requests.
- `lifecycle.dfy`: what the engine does to one exchange over its life.
- `trace.dfy`: the engine driven by any sequence of events. Over every such run,
  no handler is called twice.

Modelling choices:

- The transport is an oracle. It gives the peers connected at the moment of an
  event, and it says whether the n-th send attempt succeeds.
- Timers are armed when an exchange is built, as in the source. A timer firing
  is an event.
- An exchange ID is a pair: the origin of the engine that made it and a serial
  number from that engine's counter. Together they stand in for `UUID()`, whose
  IDs do not collide across devices. Engines are assumed to have distinct origins.
- Message bodies are tagged values. A Swift `as?` cast becomes a comparison of
  type tags.
- JSON is a record with one optional slot per coding key.

Response.swift is not part of this model. It is assumed to mirror Request.swift:
it codes an `isError` flag before the message fields, and its message type is
`errorResponse` exactly when `isError` is set.

The model follows the code as written:

- Fire-and-forget exchanges are stored in the table.
- A Host with no connected peers calls no handler.
- The "neither" shape expects a response.
- An exchange whose timer fires while it sits in the Client's buffer never
  times out afterwards.

## Model

| member | source | states |
|---|---|---|
| `Utf8.DecodeEncode` | Source/MultipeerNetworking.swift:58 | Decoding the UTF-8 encoding of any string gives the string back, so a byte prefix that ends on a scalar boundary decodes |
| `Utf8.DecodeCutPrefix` | Source/MultipeerNetworking.swift:58-62 | A byte prefix that cuts a scalar in two is not valid UTF-8, which is what drives the shrinking retry |
| `Strings.PrefixUtf8BytesSpec` | Source/MultipeerNetworking.swift:55-63 | The result is "" for n <= 0. Otherwise it is a prefix of the input of at most n UTF-8 bytes, no longer scalar prefix fits, and an input that fits is returned unchanged |
| `Strings.RemovingCharacters` | Source/MultipeerNetworking.swift:65-68 | No scalar of the result is in the set, and the result is never longer than the input |
| `Strings.RemovingCharactersKeeps` | Source/MultipeerNetworking.swift:65-68 | A scalar is in the result exactly when it is in the input and not in the set |
| `Strings.RemovingCharactersAppend` | Source/MultipeerNetworking.swift:66 | Filtering distributes over concatenation, so the kept scalars stay in their original order |
| `Strings.RemovingCharactersIdempotent` | Source/MultipeerNetworking.swift:65-68 | Filtering twice gives the same result as filtering once |
| `Strings.RemovingAdjacentOccurrences` | Source/MultipeerNetworking.swift:70-79 | For a non-empty solo string the loop terminates (each round shortens the string), and the result contains no two adjacent copies of it |
| `Strings.RemovingAdjacentCollapsesRuns` | Source/MultipeerNetworking.swift:70-79 | For a one-scalar string, the result equals the reference definition that collapses every maximal run to one copy and keeps everything else in order |
| `Naming.NormalisedNameSpec` | Source/Networker.swift:58 | The stored name is a prefix of the given name, at most 63 UTF-8 bytes, and equal to it when it already fits |
| `Naming.NormalisedServiceTypeSpec` | Source/Networker.swift:59 | The stored service type holds only `[a-z0-9-]` and has no `--`. It is the first min(15, n) characters of the lower-cased, filtered input with runs of `-` collapsed, where n is that string's length |
| `Messages.CodecKeyInjective` | Source/Message.swift:23-39 | Different (exchange type, message type) pairs get different registry keys, because no message-type raw value contains a dot |
| `Messages.Register` | Source/Message.swift:41-62 | Registering sets the body type of that pair's key and leaves every other key as it was |
| `Messages.RegisterKeepsOtherPairs` | Source/Message.swift:41-62 | Registering one pair leaves the lookup of every other pair unchanged |
| `Messages.EncodeMessage` | Source/Message.swift:125-139 | Encoding fails with a missing encoder exactly when no type is registered for the key, and with a type mismatch, raised by the registered encoder at lines 44-56, exactly when the body has another type; on success it writes all five fields |
| `Messages.DecodeMessage` | Source/Message.swift:99-120 | Decoding succeeds exactly when all fields are present, the message type parses and the body has the type registered for the key just read; it fails with a missing decoder exactly when no type is registered |
| `Messages.MessageRoundTrip` | Source/Message.swift:99-139 | Whatever was encoded decodes to the same exchange ID, requester, exchange type, message type and body |
| `Requests.NewRequest` | Source/Request.swift:41-44 | A new request has message type `request` and carries the given ID, requester, type, body and flag |
| `Requests.ResponseWithBody` | Source/Request.swift:77-85 | Fails exactly when the request expects no response; otherwise the response copies the three identifying fields, carries the body and is not an error |
| `Requests.ErrorResponse` | Source/Request.swift:87-95 | Fails exactly when the request expects no response; otherwise the response copies the three identifying fields, carries the error text and is an error |
| `Requests.ExtractBody` | Source/Request.swift:67-75 | Succeeds, with the stored body, exactly when the stored body has the requested type |
| `Requests.RequestRoundTrip` | Source/Request.swift:49-62 | A request whose body type is registered encodes, and decodes back to the same request, `expectsResponse` included |
| `Requests.ResponseRoundTrip` | Source/Request.swift:77-95 | A response whose body type is registered encodes, and decodes back to the same response, `isError` included |
| `Requests.RequestNeverDecodesAsResponse` | Source/Request.swift:49-62 | An encoded request never decodes as a response, because it carries no `isError` flag |
| `Requests.ResponseNeverDecodesAsRequest` | Source/Request.swift:49-53 | An encoded response never decodes as a request, because it carries no `expectsResponse` flag |
| `ResponseHandlers.HandleResponse` | Source/ResponseHandler.swift:39-60 | Success, with the body, exactly when the response is not an error and its body has the expected type; an error with a `String` body fails with that text; other cases fail with a diagnostic |
| `ResponseHandlers.HandleError` | Source/ResponseHandler.swift:62-64 | An error reaches the handler unchanged, as a failure |
| `ResponseHandlers.HandlerRecoversResponse` | Source/ResponseHandler.swift:39-64 | A handler expecting the body's type recovers the body sent with `response(withBody:)` and the text sent with `errorResponse(withError:)` |
| `Exchanges.Make` | Source/Exchange.swift:39-72 | Per shape: handler present for body+handler and handler-only; timer present exactly when a handler is, single-shot with the configured interval; `expectsResponse` false only for body-only; `Empty` body without a request body |
| `Sessions.OnStateChange` | Source/Session.swift:68-82 | `connected` becomes a connect, `notConnected` a disconnect, and every other state nothing |
| `Sessions.OnData` | Source/Session.swift:84-116 | Bytes that decode as a request are delivered only as a request; bytes that decode only as a response are delivered as a response; all others are dropped |
| `Sessions.EncodedMessagesAreDelivered` | Source/Session.swift:84-116 | What one peer encodes, the other delivers as the same request or response |
| `Clients.Recipients` | Source/Client.swift:34-36 | No recipients without a host, otherwise exactly the host |
| `Clients.Enqueue` | Source/Client.swift:50-54 | The exchange goes to the end of the buffer and browsing starts |
| `Clients.Disconnected` | Source/Client.swift:73-77 | The host is forgotten, browsing resumes and the buffer is kept |
| `Hosts.DefaultJoinCodeSpec` | Source/Host.swift:39-42 | A given join code is kept verbatim; a missing one becomes four ASCII digits that read back as the random number in [1000, 9999] |
| `Admission.AnswerInvitation` | Source/Advertiser.swift:49-67 | Accepted, with the host's session, exactly when the context is present, decodes as UTF-8 and equals the join code; refused without a session otherwise |
| `Admission.AdmissionIsExact` | Source/Advertiser.swift:49-67 | A client sending the UTF-8 bytes of its code is admitted exactly when the code equals the host's |
| `Networkers.CreateHost` | Source/Host.swift:39-42 | A Host keeps a given join code and otherwise makes up a four-digit one |
| `Networkers.RegisterRequestAndResponse` | Source/Networker.swift:71-75 | Writes the request, response and `String` errorResponse keys of the type; lookups for other types are unchanged |
| `Networkers.RegisterRequestOnly` | Source/Networker.swift:78-80 | Writes only the request key; every other lookup is unchanged |
| `Networkers.RegisterResponseOnly` | Source/Networker.swift:83-87 | Writes `Empty` for the request key, the response key and `String` for errorResponse; lookups for other types are unchanged |
| `Peers.FirstNamedAt` | Source/Networker.swift:189 | The requester found among the connected peers is the first one with the requester's name |
| `Networkers.Recipients` | Source/Host.swift:32-34 | A Host sends to the connected peers; a Client to its host, if any |
| `Networkers.Complete` | Source/Networker.swift:225-229 | A terminal event removes the ID and appends one handler call exactly when an entry with a handler was present; an absent ID changes nothing |
| `Networkers.SendData` | Source/Networker.swift:207-220 | Makes between one and retries + 1 attempts, all to the same recipients with the same data, and leaves the table as it was or without that one entry |
| `Networkers.Flush` | Source/Client.swift:66-68 | Beginning the buffered exchanges with a host set keeps the role, so none is buffered again |
| `Lifecycle.TerminalEventIsFinal` | Source/Networker.swift:225-266 | Responses, timeouts and failures remove the ID, call at most once and only with an entry holding a handler, keep other entries, and a later terminal event for that ID is a no-op |
| `Lifecycle.ResponseAndTimeoutRace` | Source/Networker.swift:240-266 | When events run one at a time, whichever of response and timeout comes first is what the handler sees, and it sees exactly one; a response first also disarms the timer |
| `Lifecycle.TimerIsSingleShot` | Source/Exchange.swift:42-44 | A timer fires at most once |
| `Lifecycle.RetriesExhausted` | Source/Networker.swift:207-220 | If every send fails there are exactly retries + 1 attempts (one when retries <= 0), then one send failure removes the entry |
| `Lifecycle.SendSucceedsAfterRefusals` | Source/Networker.swift:207-219 | An attempt that succeeds within the retries ends sending there, without touching the table or calling a handler |
| `Lifecycle.BeginWithRecipients` | Source/Networker.swift:117-126 | With recipients, a request that encodes and a transport that takes the first attempt, the exchange is in the table under its ID afterwards, with or without a handler, and one transmission of the encoded request has left for the recipients |
| `Lifecycle.BeginSendsOnlyToRecipients` | Source/Networker.swift:116-126 | With recipients and any transport, the role is unchanged and every attempt goes to exactly the default recipients with the encoded request: none when encoding fails, between one and the configured number otherwise. Afterwards the exchange is either stored or removed again |
| `Lifecycle.BeginWithUnencodableRequest` | Source/Networker.swift:128-149 | An unencodable request ends its exchange with the encoding error before anything is sent |
| `Lifecycle.HostWithoutPeersDropsExchange` | Source/Networker.swift:118-121 | A Host with no peers leaves the whole engine unchanged when beginning an exchange |
| `Lifecycle.HostWithoutPeersNeverAnswers` | Source/Networker.swift:231-235 | An exchange begun with no peers has an armed timer but no table entry, so neither the no-recipients report nor the timeout calls its handler |
| `Lifecycle.ClientWithoutHostBuffers` | Source/Client.swift:50-54 | A Client without a host appends the exchange to its buffer and leaves the table, sends and calls alone |
| `Lifecycle.FlushInOrder` | Source/Client.swift:66-68 | With an accepting transport, the buffered exchanges enter the table and are sent to the host in buffer order |
| `Lifecycle.FirstConnectionTakesHost` | Source/Client.swift:59-71 | Whatever the transport does, the first connection sets the host, stops browsing and leaves the buffer empty |
| `Lifecycle.FirstConnectionFlushesBuffer` | Source/Client.swift:64-68 | With an accepting transport and encodable requests, the first connection sends the buffered exchanges to the new host in order and puts each in the table |
| `Lifecycle.LaterConnectionsAreIgnored` | Source/Client.swift:60 | A connection while a host is set changes nothing |
| `Lifecycle.DisconnectKeepsExchanges` | Source/Client.swift:73-77 | Any disconnection clears the host and resumes browsing, and keeps the table, the timers and the buffer |
| `Lifecycle.BufferedExchangeLosesItsTimeout` | Source/Exchange.swift:60-66 | A timer that fires while its exchange is buffered disarms itself, and after the connection the exchange waits in the table with no armed timer |
| `Lifecycle.NoResponseWhenNoneExpected` | Source/Networker.swift:155-171 | Responding to a request that expects no response sends nothing |
| `Lifecycle.ResponseToDepartedRequesterIsDropped` | Source/Networker.swift:189-192 | A response whose requester is not connected is dropped: nothing sent, nothing retried |
| `Lifecycle.AnsweringLeavesOwnExchangesAlone` | Source/Networker.swift:194-214 | Answering another engine's request never removes or answers one of this engine's own exchanges, even when every send fails and the send-failure report looks up the request's ID |
| `Lifecycle.ResponseGoesOnlyToRequester` | Source/Networker.swift:189-219 | With any transport, every attempt to answer a request, with a body or with an error, goes to the first connected peer with the requester's name and nobody else, retries included, and there are at most the configured number of attempts |
| `Lifecycle.ResponseReachesRequester` | Source/Networker.swift:173-198 | For a request that expects a response, a registered response body type and a transport that takes the first attempt, exactly one transmission leaves, to the first connected peer with the requester's name, and it decodes to a response that answers the request and carries the body |
| `Lifecycle.ReceivedResponseReachesHandler` | Source/Networker.swift:262-266 | Response bytes reach the handler of their exchange once, and the exchange leaves the table |
| `Traces.RunPreserves` | Source/Networker.swift:117-266 | Every sequence of events keeps the table invariant: IDs were handed out, called exchanges are gone, buffered exchanges are fresh and no ID was called twice |
| `Traces.HandlersAreCalledAtMostOnce` | Source/Networker.swift:225-266 | Over any sequence of events from creation, run one at a time, no exchange's handler is called twice, and every called exchange was begun and has left the table |

## Left out

- NetworkerID.swift (peer identities and their archiving) is not part of this model. Peers are opaque values with a display name.
- Logger.swift and every log call are left out. Logging has no effect on behaviour.
- Browser.swift, the Advertiser's start and stop, Host `start`/`stop` and every `deinit` are discovery and lifecycle plumbing. Only the Client's `browsing` flag is kept.
- `MCSession.send`, `JSONEncoder` and `JSONDecoder` are abstract. The transport is an oracle, and JSON is a record of optional slots.
- Response.swift is not part of this model. Its coding is assumed to mirror Request.swift.
- NetworkerConfiguration's defaults are not part of this model. The timeout interval and retry count are parameters.
- Timers, the run loop and `UUID()` are abstract. A firing is an event, and IDs are (origin, serial) pairs.
- Events are assumed to run one at a time, each to completion. The source does not guarantee this. Session callbacks and run-loop timers both reach the pending table, and each terminal event reads the entry, calls the handler and clears the entry in three separate steps, with no lock. `Traces.HandlersAreCalledAtMostOnce` and `Lifecycle.ResponseAndTimeoutRace` hold only when events are serialised.
- Requests from a remote peer are assumed to carry IDs that peer made. If a peer sent a request whose ID has this engine's origin, answering it over a failing transport could end one of this engine's own exchanges through the send-failure path.
- The timeout interval is a whole number of ticks standing in for a floating-point `TimeInterval`. It is carried and never compared with a clock, because the model has no time.
- `Naming.NormalisedServiceTypeSpec`: `lowercased()` is modelled for ASCII letters only, because full Unicode case mapping is out of scope.
- Swift `String` comparison and search use canonical equivalence; the model compares scalar sequences.
- A UTF-8 byte-order mark in the invitation context is treated as an ordinary scalar.
- `Error.message` relies on runtime reflection. Error texts are a datatype (`ErrorMessage`) that keeps what each text reports.
- `Int.random(in: 1000...9999)` is a parameter of `Networkers.CreateHost`.
- The application's request handler is a weak optional. The model assumes it is set and logs every delivered request.
- A decoded body is accepted when its tag matches the registered type. JSON decoding of `Empty` from any object is not modelled.
- The `as? Codable` check after decoding always passes for tagged bodies, so it is left out.
- The registry is a static, process-wide table. It is modelled as a field of one engine.
- `Strings.RemovingAdjacentOccurrences`: requires a non-empty string to collapse, because the source's loop need not end for an empty one. Its only caller passes `"-"`.
