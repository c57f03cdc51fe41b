/**
  The message envelopes of the native messaging channel: what the service hands
  to the transport, what comes back, and the handshake payload.
*/
module Messages {
  import opened Wrappers
  import opened Json
  import opened Crypto

  /** A messageId. The source draws a uuid v4; here an id is told apart by its serial. */
  datatype MessageId = MessageId(serial: nat)

  /** A full outbound message: the caller's fields plus messageId and version. */
  datatype Envelope =
    | Unencrypted(messageId: MessageId, version: int, command: string, payload: Value)
    | Encrypted(messageId: MessageId, version: int, encryptedCommand: EncString)

  /** What a caller of sendMessage supplies: a message without the common fields. */
  datatype Body =
    | UnencryptedBody(command: string, payload: Value)
    | EncryptedBody(encryptedCommand: EncString)

  /** A response, as the transport delivers it. */
  datatype Response =
    | UnencryptedResponse(messageId: MessageId, version: int, payload: Value)
    | EncryptedResponse(messageId: MessageId, version: int, encryptedPayload: EncString)

  /** The caller's fields of an envelope: the envelope with messageId and version taken off. */
  function BodyOf(e: Envelope): Body {
    match e
    case Unencrypted(_, _, command, payload) => UnencryptedBody(command, payload)
    case Encrypted(_, _, encryptedCommand) => EncryptedBody(encryptedCommand)
  }

  /**
    `{...message, ...commonFields}`: the caller's fields, unchanged, with
    messageId and version added and nothing else.
  */
  function Envelop(body: Body, messageId: MessageId, version: int): (e: Envelope)
    ensures e.messageId == messageId && e.version == version
    ensures BodyOf(e) == body
    ensures e.Encrypted? <==> body.EncryptedBody?
  {
    match body
    case UnencryptedBody(command, payload) => Unencrypted(messageId, version, command, payload)
    case EncryptedBody(encryptedCommand) => Encrypted(messageId, version, encryptedCommand)
  }

  /** An envelope holds nothing beyond its body and its two common fields. */
  lemma EnvelopBodyOf(e: Envelope)
    ensures Envelop(BodyOf(e), e.messageId, e.version) == e
  {
  }

  /** `response.payload` read through a type assertion: absent (undefined) on an encrypted response. */
  function PayloadField(r: Response): (v: Option<Value>)
    ensures v.Some? <==> r.UnencryptedResponse?
    ensures v.Some? ==> v.value == r.payload
  {
    match r
    case UnencryptedResponse(_, _, payload) => Some(payload)
    case EncryptedResponse(_, _, _) => None
  }

  /** `response.encryptedPayload` read through a type assertion: absent on an unencrypted response. */
  function EncryptedPayloadField(r: Response): (c: Option<EncString>)
    ensures c.Some? <==> r.EncryptedResponse?
    ensures c.Some? ==> c.value == r.encryptedPayload
  {
    match r
    case UnencryptedResponse(_, _, _) => None
    case EncryptedResponse(_, _, encryptedPayload) => Some(encryptedPayload)
  }

  datatype HandshakeStatus = Success | Cancelled

  /** `{status: "success" | "cancelled", sharedKey?: string}`. */
  datatype HandshakePayload = HandshakePayload(status: HandshakeStatus, sharedKey: Option<string>)

  function StatusName(s: HandshakeStatus): string {
    match s
    case Success => "success"
    case Cancelled => "cancelled"
  }

  /** The JSON object a HandshakePayload stands for. */
  function HandshakeJson(h: HandshakePayload): Value {
    match h.sharedKey
    case None => JObject(map["status" := JString(StatusName(h.status))])
    case Some(k) => JObject(map["status" := JString(StatusName(h.status)), "sharedKey" := JString(k)])
  }

  /** The status a JSON value names, if it is one of the two the handshake knows. */
  function ReadStatus(v: Value): (s: Option<HandshakeStatus>)
    ensures s.Some? <==> v == JString("success") || v == JString("cancelled")
    ensures s.Some? ==> JString(StatusName(s.value)) == v
  {
    if v == JString("success") then Some(Success)
    else if v == JString("cancelled") then Some(Cancelled)
    else None
  }

  /**
    Reads a payload as a HandshakePayload: an object with a "status" of
    "success" or "cancelled" and, optionally, a string "sharedKey", and no
    other field. None for any other value.
  */
  function ReadHandshake(v: Value): (h: Option<HandshakePayload>)
    ensures h.Some? ==> HandshakeJson(h.value) == v
  {
    if !v.JObject? || "status" !in v.fields then None
    else
      var status := ReadStatus(v.fields["status"]);
      if status.None? then None
      else if v.fields.Keys == {"status"} then
        assert v.fields == map["status" := JString(StatusName(status.value))];
        Some(HandshakePayload(status.value, None))
      else if v.fields.Keys == {"status", "sharedKey"} && v.fields["sharedKey"].JString? then
        assert v.fields == map["status" := JString(StatusName(status.value)),
                               "sharedKey" := JString(v.fields["sharedKey"].s)];
        Some(HandshakePayload(status.value, Some(v.fields["sharedKey"].s)))
      else None
  }

  /** Every HandshakePayload reads back from its JSON object. */
  lemma ReadHandshakeJson(h: HandshakePayload)
    ensures ReadHandshake(HandshakeJson(h)) == Some(h)
  {
    var f := HandshakeJson(h).fields;
    match h.sharedKey
    case None =>
      assert f.Keys == {"status"};
    case Some(k) =>
      assert f.Keys == {"status", "sharedKey"};
  }
}
