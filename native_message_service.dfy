/**
  The native messaging client: builds envelopes, performs the unencrypted
  handshake, and runs the encrypted status command, with encryption under a
  symmetric key recovered from the caller's RSA-wrapped key.
*/
module NativeMessaging {
  import opened Wrappers
  import opened Json
  import opened Crypto
  import opened Messages
  import opened Transport
  import opened Uuid

  /** Why an encrypted command could not complete; each is an exception in the source. */
  datatype Failure =
    | KeyUnwrapFailed   // rsaDecrypt rejected the wrapped key
    | DecryptFailed     // decryptToUtf8 threw
    | ParseFailed       // JSON.parse rejected the decrypted text

  const HandshakeCommand: string := "bw-handshake"

  /** `{command: "bw-status"}`. */
  const StatusCommand: Value := JObject(map["command" := JString("bw-status")])

  /** `{publicKey}`, the handshake payload. */
  function HandshakeRequest(publicKey: string): Value {
    JObject(map["publicKey" := JString(publicKey)])
  }

  /**
    getSharedKeyForKey: RSA-decrypts the base64 `key` with the configured private
    key and wraps the result as a symmetric key. It reads nothing but `key` and
    the providers, so every call with the same key yields the same symmetric key.
  */
  function GetSharedKeyForKey(p: Providers, key: string): Option<SymmetricCryptoKey> {
    var dataBuffer := p.fromB64ToArray(key);
    var privKey := p.fromB64ToArray(p.testRsaPrivateKey);
    match p.rsaDecrypt(dataBuffer, privKey)
    case None => None
    case Some(material) => Some(SymmetricCryptoKey(material))
  }

  /** encryptCommandData: serialises the command data and encrypts it under the shared key. */
  function EncryptCommandData(p: Providers, commandData: Value, key: string): (r: Result<EncString, Failure>)
    ensures r.Ok? <==> GetSharedKeyForKey(p, key).Some?
    ensures r.Err? ==> r.error == KeyUnwrapFailed
    ensures CipherRoundTrips(p) && r.Ok? ==>
              p.decryptToUtf8(Some(r.value), GetSharedKeyForKey(p, key).value) == Text(p.stringify(commandData))
  {
    var commandDataString := p.stringify(commandData);
    match GetSharedKeyForKey(p, key)
    case None => Err(KeyUnwrapFailed)
    case Some(sharedKey) => Ok(p.encrypt(commandDataString, sharedKey))
  }

  /**
    decryptResponsePayload: decrypts under the shared key and parses the text.
    `payload` is None when the response had no encryptedPayload field. A null
    from decryptToUtf8 reaches JSON.parse, which reads it as the text "null".
  */
  function DecryptResponsePayload(p: Providers, payload: Option<EncString>, key: string): (r: Result<Value, Failure>)
    ensures r == Err(KeyUnwrapFailed) <==> GetSharedKeyForKey(p, key).None?
    ensures r == Err(DecryptFailed) <==>
              GetSharedKeyForKey(p, key).Some? && p.decryptToUtf8(payload, GetSharedKeyForKey(p, key).value).Threw?
    ensures r.Ok? ==> exists text :: p.parse(text) == Some(r.value)
  {
    match GetSharedKeyForKey(p, key)
    case None => Err(KeyUnwrapFailed)
    case Some(sharedKey) =>
      var decrypted := p.decryptToUtf8(payload, sharedKey);
      if decrypted.Threw? then Err(DecryptFailed)
      else
        var text := if decrypted.NullText? then "null" else decrypted.text;
        match p.parse(text)
        case None => Err(ParseFailed)
        case Some(v) => Ok(v)
  }

  /**
    A decryption that resolves to null does not fail: JSON.parse(null) is JSON
    null, so the command resolves to null.
  */
  lemma NullDecryptionResolvesToNull(p: Providers, payload: Option<EncString>, key: string)
    requires p.parse("null") == Some(JNull)
    requires GetSharedKeyForKey(p, key).Some?
    requires p.decryptToUtf8(payload, GetSharedKeyForKey(p, key).value) == NullText
    ensures DecryptResponsePayload(p, payload, key) == Ok(JNull)
  {
  }

  /**
    Decrypting what encryptCommandData produced, under the same key, gives back
    the command data; when the key does not unwrap, both directions fail alike.
  */
  lemma RoundTrip(p: Providers, commandData: Value, key: string)
    requires CipherRoundTrips(p) && JsonRoundTrips(p)
    ensures var c := EncryptCommandData(p, commandData, key);
            c.Ok? ==> DecryptResponsePayload(p, Some(c.value), key) == Ok(commandData)
    ensures EncryptCommandData(p, commandData, key).Err? ==>
              forall payload :: DecryptResponsePayload(p, payload, key) == Err(KeyUnwrapFailed)
  {
  }

  /**
    The partner of the status command: whatever the desktop app encrypts under
    the key `key` unwraps to, checkStatus decrypts to exactly that value.
  */
  lemma ResponseDecryptsUnderSharedKey(p: Providers, key: string, reply: Value)
    requires CipherRoundTrips(p) && JsonRoundTrips(p)
    requires GetSharedKeyForKey(p, key).Some?
    ensures DecryptResponsePayload(p, Some(p.encrypt(p.stringify(reply), GetSharedKeyForKey(p, key).value)), key)
         == Ok(reply)
  {
  }

  /**
    The shared key depends on nothing but `key`, base64 decoding, RSA
    decryption and the configured private key: providers that agree on those
    derive the same key, whatever their encryption and JSON functions are.
  */
  lemma SharedKeyDependsOnlyOnKeyAndPrivateKey(p: Providers, q: Providers, key: string)
    requires p.fromB64ToArray == q.fromB64ToArray
    requires p.rsaDecrypt == q.rsaDecrypt
    requires p.testRsaPrivateKey == q.testRsaPrivateKey
    ensures GetSharedKeyForKey(p, key) == GetSharedKeyForKey(q, key)
  {
  }

  /** No two envelopes carry the same messageId. */
  ghost predicate DistinctIds(s: seq<Envelope>) {
    forall i, j :: 0 <= i < j < |s| ==> s[i].messageId != s[j].messageId
  }

  /** Appending a connect and a send keeps sends behind connects and logs exactly the one envelope. */
  lemma ConnectThenSend(t: seq<Event>, e: Envelope)
    requires ConnectsBeforeSends(t)
    ensures ConnectsBeforeSends(t + [ConnectCall, SendCall(e)])
    ensures Sent(t + [ConnectCall, SendCall(e)]) == Sent(t) + [e]
  {
    var u := [ConnectCall, SendCall(e)];
    SentAppend(t, u);
    assert u[..1] == [ConnectCall];
    assert [ConnectCall][..0] == [];
    var t' := t + u;
    forall i | 0 <= i < |t'| && t'[i].SendCall?
      ensures 0 < i && t'[i - 1] == ConnectCall
    {
      if i < |t| {
        assert t'[i] == t[i];
      }
    }
  }

  /** An id outside every id used so far keeps the ids distinct. */
  lemma AppendFreshId(s: seq<Envelope>, e: Envelope, used: set<MessageId>)
    requires DistinctIds(s)
    requires forall x :: x in s ==> x.messageId in used
    requires e.messageId !in used
    ensures DistinctIds(s + [e])
  {
  }

  class NativeMessageService {
    const apiVersion: int
    const ipcService: IpcService
    /** nodeCryptoFunctionService, encryptService, JSON and the configured private key. */
    const providers: Providers
    const uuid: UuidSource

    /**
      What holds of everything the service has sent: every envelope carries the
      constructor's apiVersion and an id from the uuid source, no two share an
      id, and each was handed over right after a connect.
    */
    ghost predicate Valid()
      reads this, ipcService, uuid
    {
      && ipcService.Valid()
      && uuid.Valid()
      && (forall e :: e in Sent(ipcService.trace) ==> e.version == apiVersion && e.messageId in uuid.issued)
      && DistinctIds(Sent(ipcService.trace))
      && ConnectsBeforeSends(ipcService.trace)
    }

    /** `counterpart` is the desktop app at the other end of the IPC channel. */
    constructor (apiVersion: int, counterpart: Envelope -> Response, providers: Providers)
      ensures Valid()
      ensures fresh(ipcService) && fresh(uuid)
      ensures this.apiVersion == apiVersion && this.providers == providers
      ensures ipcService.counterpart == counterpart
      ensures ipcService.trace == [] && !ipcService.connected && uuid.issued == {}
    {
      this.apiVersion := apiVersion;
      ipcService := new IpcService(counterpart);
      this.providers := providers;
      uuid := new UuidSource();
    }

    /**
      sendMessage: connects, then hands over the caller's fields plus a new
      messageId and the apiVersion, and returns the response.
    */
    method SendMessage(message: Body) returns (response: Response, ghost envelope: Envelope)
      requires Valid()
      modifies ipcService, uuid
      ensures Valid()
      ensures envelope == Envelop(message, envelope.messageId, apiVersion)
      ensures envelope.messageId !in old(uuid.issued)
      ensures forall e :: e in Sent(old(ipcService.trace)) ==> e.messageId != envelope.messageId
      ensures uuid.issued == old(uuid.issued) + {envelope.messageId}
      ensures ipcService.trace == old(ipcService.trace) + [ConnectCall, SendCall(envelope)]
      ensures Sent(ipcService.trace) == Sent(old(ipcService.trace)) + [envelope]
      ensures ipcService.connected
      ensures ipcService.openings == old(ipcService.openings) + (if old(ipcService.connected) then 0 else 1)
      ensures response == ipcService.counterpart(envelope)
    {
      ghost var before := ipcService.trace;
      ipcService.Connect();
      var messageId := uuid.Next();
      var fullMessage := Envelop(message, messageId, apiVersion);
      response := ipcService.SendMessage(fullMessage);
      envelope := fullMessage;
      ConnectThenSend(before, envelope);
      AppendFreshId(Sent(before), envelope, old(uuid.issued));
    }

    /** sendUnencryptedMessage: sendMessage for a command and a payload. */
    method SendUnencryptedMessage(command: string, payload: Value) returns (response: Response, ghost envelope: Envelope)
      requires Valid()
      modifies ipcService, uuid
      ensures Valid()
      ensures envelope == Unencrypted(envelope.messageId, apiVersion, command, payload)
      ensures envelope.messageId !in old(uuid.issued)
      ensures uuid.issued == old(uuid.issued) + {envelope.messageId}
      ensures ipcService.trace == old(ipcService.trace) + [ConnectCall, SendCall(envelope)]
      ensures response == ipcService.counterpart(envelope)
    {
      response, envelope := SendMessage(UnencryptedBody(command, payload));
    }

    /** sendEncryptedMessage: sendMessage for an encryptedCommand. */
    method SendEncryptedMessage(encryptedCommand: EncString) returns (response: Response, ghost envelope: Envelope)
      requires Valid()
      modifies ipcService, uuid
      ensures Valid()
      ensures envelope == Encrypted(envelope.messageId, apiVersion, encryptedCommand)
      ensures envelope.messageId !in old(uuid.issued)
      ensures uuid.issued == old(uuid.issued) + {envelope.messageId}
      ensures ipcService.trace == old(ipcService.trace) + [ConnectCall, SendCall(envelope)]
      ensures response == ipcService.counterpart(envelope)
    {
      response, envelope := SendMessage(EncryptedBody(encryptedCommand));
    }

    /**
      sendHandshake: sends `bw-handshake` with `{publicKey}` and returns the
      response's payload as it came, unchecked (absent if the response had none).
    */
    method SendHandshake(publicKey: string) returns (payload: Option<Value>, ghost request: Envelope)
      requires Valid()
      modifies ipcService, uuid
      ensures Valid()
      ensures request == Unencrypted(request.messageId, apiVersion, HandshakeCommand, HandshakeRequest(publicKey))
      ensures request.messageId !in old(uuid.issued)
      ensures uuid.issued == old(uuid.issued) + {request.messageId}
      ensures ipcService.trace == old(ipcService.trace) + [ConnectCall, SendCall(request)]
      ensures payload == PayloadField(ipcService.counterpart(request))
    {
      var rawResponse;
      rawResponse, request := SendUnencryptedMessage(HandshakeCommand, HandshakeRequest(publicKey));
      payload := PayloadField(rawResponse);
    }

    /**
      checkStatus: encrypts `{command: "bw-status"}` under the key `key`
      unwraps to, sends it, and decrypts the response under the same key. When
      the key does not unwrap nothing is sent.
    */
    method CheckStatus(key: string) returns (result: Result<Value, Failure>, ghost request: Option<Envelope>)
      requires Valid()
      modifies ipcService, uuid
      ensures Valid()
      ensures request.None? <==> GetSharedKeyForKey(providers, key).None?
      ensures request.None? ==>
                && result == Err(KeyUnwrapFailed)
                && ipcService.trace == old(ipcService.trace)
                && uuid.issued == old(uuid.issued)
      ensures request.Some? ==>
                var sharedKey := GetSharedKeyForKey(providers, key).value;
                && request.value == Encrypted(request.value.messageId, apiVersion,
                                              providers.encrypt(providers.stringify(StatusCommand), sharedKey))
                && request.value.messageId !in old(uuid.issued)
                && uuid.issued == old(uuid.issued) + {request.value.messageId}
                && ipcService.trace == old(ipcService.trace) + [ConnectCall, SendCall(request.value)]
                && result == DecryptResponsePayload(providers,
                               EncryptedPayloadField(ipcService.counterpart(request.value)), key)
    {
      var encryptedCommand := EncryptCommandData(providers, StatusCommand, key);
      if encryptedCommand.Err? {
        result := Err(encryptedCommand.error);
        request := None;
        return;
      }
      var response;
      ghost var envelope;
      response, envelope := SendEncryptedMessage(encryptedCommand.value);
      request := Some(envelope);
      result := DecryptResponsePayload(providers, EncryptedPayloadField(response), key);
    }

    /** disconnect: closes the IPC pipe and changes nothing else. */
    method Disconnect()
      requires Valid()
      modifies ipcService
      ensures Valid()
      ensures !ipcService.connected
      ensures ipcService.trace == old(ipcService.trace) + [DisconnectCall]
      ensures ipcService.openings == old(ipcService.openings)
    {
      ghost var before := ipcService.trace;
      ipcService.Disconnect();
      SentAppend(before, [DisconnectCall]);
      assert Sent([DisconnectCall]) == [] by {
        assert [DisconnectCall][..0] == [];
      }
      forall i | 0 <= i < |ipcService.trace| && ipcService.trace[i].SendCall?
        ensures 0 < i && ipcService.trace[i - 1] == ConnectCall
      {
        assert ipcService.trace[i] == before[i];
      }
    }
  }
}
