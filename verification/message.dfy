/** The message envelope and the body-codec registry of Message.swift.

    Message bodies are dynamically typed in the source; here a body is a tagged
    value whose tag (`TypeOf`) stands for its runtime type, so Swift's `as? Body`
    cast is a tag comparison. The wire form is the keyed container the JSON coder
    writes, one optional slot per coding key. */
module Messages {
  import opened Wrappers

  /** Exchange identifiers (`UUID()`): the engine that made the ID and a serial
      number within that engine. Two engines never make the same ID, as two
      `UUID()` calls on different devices do not. */
  datatype Uuid = Uuid(origin: nat, serial: nat)

  datatype MessageType = RequestMessage | ResponseMessage | ErrorResponseMessage

  /** The enum's raw values as written on the wire. */
  function RawValue(t: MessageType): string
  {
    match t
    case RequestMessage => "request"
    case ResponseMessage => "response"
    case ErrorResponseMessage => "errorResponse"
  }

  /** `MessageType(rawValue:)`: None for any other string. */
  function ParseMessageType(raw: string): (r: Option<MessageType>)
    ensures r.Some? ==> RawValue(r.value) == raw
    ensures forall t :: RawValue(t) == raw ==> r == Some(t)
  {
    if raw == "request" then Some(RequestMessage)
    else if raw == "response" then Some(ResponseMessage)
    else if raw == "errorResponse" then Some(ErrorResponseMessage)
    else None
  }

  /** `encoderDecoderKey`: `[exchangeTypeID, rawValue].joined(separator: ".")`. */
  function CodecKey(exchangeTypeID: string, t: MessageType): string
  {
    exchangeTypeID + "." + RawValue(t)
  }

  lemma RawValueHasNoDot(t: MessageType)
    ensures '.' !in RawValue(t)
  {
  }

  /** The dot after the exchange type is the last dot of a key. */
  lemma LastDotOfKey(a: string, t: MessageType)
    ensures CodecKey(a, t)[|a|] == '.'
    ensures forall i :: |a| < i < |CodecKey(a, t)| ==> CodecKey(a, t)[i] != '.'
  {
    RawValueHasNoDot(t);
    forall i | |a| < i < |CodecKey(a, t)|
      ensures CodecKey(a, t)[i] != '.'
    {
      assert CodecKey(a, t)[i] == RawValue(t)[i - |a| - 1];
    }
  }

  /** Two keys are equal only for the same exchange type and message type: the
      exchange type may contain dots, but a raw value never does, so the last dot
      of a key sits right after the exchange type. */
  lemma CodecKeyInjective(a: string, t: MessageType, b: string, u: MessageType)
    requires CodecKey(a, t) == CodecKey(b, u)
    ensures a == b && t == u
  {
    var k := CodecKey(a, t);
    LastDotOfKey(a, t);
    LastDotOfKey(b, u);
    assert |a| == |b|;
    assert a == k[..|a|] == b;
    assert RawValue(t) == k[|a| + 1..] == RawValue(u);
  }

  /** The static type a codec is registered for. `Empty` and `String` are the two
      types the library itself registers; applications add their own. */
  datatype BodyType = EmptyType | StringType | AppType(name: string)

  /** A body value tagged with its runtime type. */
  datatype Body = EmptyBody | StringBody(text: string) | AppBody(typeName: string, content: seq<int>)

  function TypeOf(b: Body): BodyType
  {
    match b
    case EmptyBody => EmptyType
    case StringBody(_) => StringType
    case AppBody(name, _) => AppType(name)
  }

  /** The encoder and decoder tables, which are always written together: the body
      type registered under each key. */
  type Registry = map<string, BodyType>

  function Lookup(reg: Registry, exchangeTypeID: string, t: MessageType): Option<BodyType>
  {
    var key := CodecKey(exchangeTypeID, t);
    if key in reg then Some(reg[key]) else None
  }

  /** `registerEncoderDecoder(for:forExchangeTypeID:messageType:)`: the pair's key
      now holds the new body type, whatever it held before; no other key changes. */
  function Register(reg: Registry, bodyType: BodyType, exchangeTypeID: string, t: MessageType): (r: Registry)
    ensures Lookup(r, exchangeTypeID, t) == Some(bodyType)
    ensures forall key :: key != CodecKey(exchangeTypeID, t) ==>
      (key in r <==> key in reg) && (key in reg ==> r[key] == reg[key])
  {
    reg[CodecKey(exchangeTypeID, t) := bodyType]
  }

  /** Registering one pair leaves the lookup of every other pair as it was. */
  lemma RegisterKeepsOtherPairs(reg: Registry, bodyType: BodyType, id: string, t: MessageType, id': string, t': MessageType)
    requires id' != id || t' != t
    ensures Lookup(Register(reg, bodyType, id, t), id', t') == Lookup(reg, id', t')
  {
    if CodecKey(id', t') == CodecKey(id, t) {
      CodecKeyInjective(id', t', id, t);
    }
  }

  datatype Message = Message(
    exchangeID: Uuid,
    requesterID: string,
    exchangeTypeID: string,
    messageType: MessageType,
    body: Body)

  /** The keyed container written by `encode(to:)` and read by `init(from:)`: one
      optional slot per coding key, including the subclasses' extra flags. */
  datatype Wire = Wire(
    exchangeID: Option<Uuid>,
    requesterID: Option<string>,
    exchangeTypeID: Option<string>,
    messageType: Option<string>,
    body: Option<Body>,
    expectsResponse: Option<bool>,
    isError: Option<bool>)

  const EmptyWire := Wire(None, None, None, None, None, None, None)

  datatype CodecError =
    | MissingEncoder
    | BodyTypeMismatch(expected: BodyType, actual: BodyType)
    | MissingField(key: string)
    | UnknownMessageType(raw: string)
    | MissingDecoder
    | UndecodableBody(expected: BodyType)

  /** `Message.encode(to:)`: write the four envelope fields into `w`, then the body
      through the encoder registered for the message's key. */
  function EncodeMessage(reg: Registry, m: Message, w: Wire): (r: Result<Wire, CodecError>)
    ensures r == Failure(MissingEncoder) <==> Lookup(reg, m.exchangeTypeID, m.messageType).None?
    ensures r.Failure? && r.error.BodyTypeMismatch? <==>
      Lookup(reg, m.exchangeTypeID, m.messageType).Some? && Lookup(reg, m.exchangeTypeID, m.messageType).value != TypeOf(m.body)
    ensures r.Success? ==> Lookup(reg, m.exchangeTypeID, m.messageType) == Some(TypeOf(m.body))
    ensures r.Success? ==> r.value == w.(exchangeID := Some(m.exchangeID), requesterID := Some(m.requesterID),
      exchangeTypeID := Some(m.exchangeTypeID), messageType := Some(RawValue(m.messageType)), body := Some(m.body))
  {
    var w1 := w.(exchangeID := Some(m.exchangeID), requesterID := Some(m.requesterID),
                 exchangeTypeID := Some(m.exchangeTypeID), messageType := Some(RawValue(m.messageType)));
    match Lookup(reg, m.exchangeTypeID, m.messageType)
    case None => Failure(MissingEncoder)
    case Some(bodyType) =>
      if TypeOf(m.body) != bodyType then Failure(BodyTypeMismatch(bodyType, TypeOf(m.body)))
      else Success(w1.(body := Some(m.body)))
  }

  /** `Message.init(from:)`: read the four envelope fields, then decode the body with
      the decoder registered for the (exchange type, message type) just read. */
  function DecodeMessage(reg: Registry, w: Wire): (r: Result<Message, CodecError>)
    ensures r.Success? <==>
      && w.exchangeID.Some? && w.requesterID.Some? && w.exchangeTypeID.Some? && w.messageType.Some?
      && ParseMessageType(w.messageType.value).Some?
      && w.body.Some?
      && Lookup(reg, w.exchangeTypeID.value, ParseMessageType(w.messageType.value).value) == Some(TypeOf(w.body.value))
    ensures r.Success? ==> && Some(r.value.exchangeID) == w.exchangeID
                           && Some(r.value.requesterID) == w.requesterID
                           && Some(r.value.exchangeTypeID) == w.exchangeTypeID
                           && Some(RawValue(r.value.messageType)) == w.messageType
                           && Some(r.value.body) == w.body
    ensures r == Failure(MissingDecoder) <==>
      && w.exchangeID.Some? && w.requesterID.Some? && w.exchangeTypeID.Some? && w.messageType.Some?
      && ParseMessageType(w.messageType.value).Some?
      && Lookup(reg, w.exchangeTypeID.value, ParseMessageType(w.messageType.value).value).None?
  {
    if w.exchangeID.None? then Failure(MissingField("exchangeID"))
    else if w.requesterID.None? then Failure(MissingField("requesterID"))
    else if w.exchangeTypeID.None? then Failure(MissingField("exchangeTypeID"))
    else if w.messageType.None? then Failure(MissingField("messageType"))
    else match ParseMessageType(w.messageType.value)
      case None => Failure(UnknownMessageType(w.messageType.value))
      case Some(t) =>
        match Lookup(reg, w.exchangeTypeID.value, t)
        case None => Failure(MissingDecoder)
        case Some(bodyType) =>
          if w.body.None? || TypeOf(w.body.value) != bodyType then Failure(UndecodableBody(bodyType))
          else Success(Message(w.exchangeID.value, w.requesterID.value, w.exchangeTypeID.value, t, w.body.value))
  }

  /** Whatever was encoded decodes back to the same message: exchange ID,
      requester, exchange type, message type and body all survive. */
  lemma MessageRoundTrip(reg: Registry, m: Message, w: Wire)
    requires EncodeMessage(reg, m, w).Success?
    ensures DecodeMessage(reg, EncodeMessage(reg, m, w).value) == Success(m)
  {
  }
}
