# Native messaging client — Dafny model

This project models `NativeMessageService`, the client side of the native messaging
channel between the Bitwarden browser extension and the desktop app, as found in the
desktop app's native-messaging test runner. The service:

- wraps every outbound message in an envelope with a fresh `messageId` and the
  `apiVersion` it was constructed with;
- connects the IPC transport before every send;
- sends the unencrypted `bw-handshake` command carrying `{publicKey}` and returns the
  response `payload`;
- runs the encrypted `bw-status` command. It serialises `{command: "bw-status"}` to
  JSON and encrypts it under a symmetric key obtained by RSA-decrypting the caller's
  base64 `key` with the configured private key. It sends `{encryptedCommand}`, then
  decrypts and parses the response's `encryptedPayload` under that same key;
- forwards `disconnect` to the transport.

The service keeps no session key and no channel state: the key is passed in on every
call. The model follows this.

Files, one module each:

- `wrappers.dfy`: `Option` and `Result`.
- `json.dfy`: JSON values.
- `crypto.dfy`: the library calls, as a `Providers` record of function values. It also
  holds the two round-trip laws (`CipherRoundTrips`, `JsonRoundTrips`), which lemmas
  take as hypotheses.
- `messages.dfy`: envelopes, bodies, responses, `HandshakePayload`, and how an
  envelope is built from a body.
- `uuid.dfy`: the fresh-id source that stands for `uuidv4()`.
- `transport.dfy`: the IPC transport. Its effect is recorded as a history of connect,
  send and disconnect calls. The desktop app is a function from envelope to response.
  This loses nothing, because no two envelopes the service sends are equal.
- `native_message_service.dfy`: the encryption pipeline as functions, and the
  `NativeMessageService` class. Its invariant says four things about every envelope
  ever sent:
  - it carries `apiVersion`;
  - its id came from the uuid source;
  - no two envelopes share an id;
  - each was handed over directly after a connect call.

Where the code and a natural reading of the protocol differ, the model follows the
code:

- there is no handshake state machine;
- no stored session key;
- no check of the response's `version`;
- no correlation table;
- no timeouts;
- `sharedKey` is optional whatever the status is.

The TypeScript `as` casts are unchecked. So `SendHandshake` returns the raw `payload`
field, which is absent for an encrypted-shaped response. `ReadHandshake` gives the
typed `HandshakePayload` reading of such a payload.

## Model

| member | source | states |
|---|---|---|
| Messages.Envelop | apps/desktop/native-messaging-test-runner/src/nativeMessageService.ts:98-106 | the sent envelope has the given messageId and version, and stripping those two fields gives back exactly the caller's fields; encrypted iff the body is |
| Messages.EnvelopBodyOf | apps/desktop/native-messaging-test-runner/src/nativeMessageService.ts:103-106 | an envelope holds nothing beyond the caller's fields and the two common fields |
| Messages.ReadStatus | apps/desktop/native-messaging-test-runner/src/nativeMessageService.ts:23 | a status is read exactly from "success" or "cancelled", and names back the same string |
| Messages.ReadHandshake | apps/desktop/native-messaging-test-runner/src/nativeMessageService.ts:22-25 | a payload read as a HandshakePayload is exactly that payload's JSON object |
| Messages.ReadHandshakeJson | apps/desktop/native-messaging-test-runner/src/nativeMessageService.ts:22-25 | every HandshakePayload (either status, with or without sharedKey) reads back from its JSON object |
| Uuid.UuidSource.Next | apps/desktop/native-messaging-test-runner/src/nativeMessageService.ts:100 | each id issued was never issued before, and is recorded as issued |
| Transport.Sent | apps/desktop/native-messaging-test-runner/src/nativeMessageService.ts:110 | an envelope is in the sent log iff it was handed to the transport |
| Transport.SentAppend | apps/desktop/native-messaging-test-runner/src/nativeMessageService.ts:110 | the sent log of a longer history extends the earlier log by the later sends, in order |
| Transport.ConnectIsIdempotent | apps/desktop/native-messaging-test-runner/src/nativeMessageService.ts:94-96 | after a connect the pipe is open, and a second connect opens nothing more |
| Transport.ConnectedAtEverySend | apps/desktop/native-messaging-test-runner/src/nativeMessageService.ts:94-110 | in a history where each send follows a connect, the pipe is open at every send |
| Transport.IpcService.constructor | apps/desktop/native-messaging-test-runner/src/nativeMessageService.ts:34-36 | a new transport is closed, has sent nothing and answers with the given counterpart |
| Transport.IpcService.Connect | apps/desktop/native-messaging-test-runner/src/nativeMessageService.ts:96 | the pipe is open afterwards; it was opened only if it was closed |
| Transport.IpcService.SendMessage | apps/desktop/native-messaging-test-runner/src/nativeMessageService.ts:110 | the envelope is logged as sent and the counterpart's response to it is returned; the connection is unchanged |
| Transport.IpcService.Disconnect | apps/desktop/native-messaging-test-runner/src/nativeMessageService.ts:118 | the pipe is closed afterwards, closing a closed pipe is harmless |
| NativeMessaging.EncryptCommandData | apps/desktop/native-messaging-test-runner/src/nativeMessageService.ts:122-131 | succeeds iff the key unwraps, fails otherwise with KeyUnwrapFailed; the ciphertext decrypts under the shared key to the JSON text of the command data |
| NativeMessaging.DecryptResponsePayload | apps/desktop/native-messaging-test-runner/src/nativeMessageService.ts:133-141 | fails with KeyUnwrapFailed iff the key does not unwrap; fails with DecryptFailed iff the key unwraps and decryptToUtf8 throws on the payload (present or absent); a result is always the parse of some text |
| NativeMessaging.NullDecryptionResolvesToNull | apps/desktop/native-messaging-test-runner/src/nativeMessageService.ts:138-140 | a decryption that resolves to null does not fail: JSON.parse reads it as "null", so the command resolves to JSON null |
| NativeMessaging.RoundTrip | apps/desktop/native-messaging-test-runner/src/nativeMessageService.ts:122-141 | decryptResponsePayload(encryptCommandData(d, key), key) == d when decryption inverts encryption and parsing inverts serialising; without an unwrappable key both directions fail alike |
| NativeMessaging.ResponseDecryptsUnderSharedKey | apps/desktop/native-messaging-test-runner/src/nativeMessageService.ts:58-71 | whatever the desktop app encrypts under the shared key for `key`, checkStatus's decryption yields exactly that value |
| NativeMessaging.SharedKeyDependsOnlyOnKeyAndPrivateKey | apps/desktop/native-messaging-test-runner/src/nativeMessageService.ts:143-150 | getSharedKeyForKey depends only on `key`, base64 decoding, RSA decryption and the configured private key: providers agreeing on those derive the same key, so both directions of one command use one key |
| NativeMessaging.ConnectThenSend | apps/desktop/native-messaging-test-runner/src/nativeMessageService.ts:94-110 | a connect followed by a send keeps every send behind a connect and adds exactly that envelope to the sent log |
| NativeMessaging.AppendFreshId | apps/desktop/native-messaging-test-runner/src/nativeMessageService.ts:98-102 | adding an envelope whose id was never used keeps all sent ids distinct |
| NativeMessaging.NativeMessageService.constructor | apps/desktop/native-messaging-test-runner/src/nativeMessageService.ts:32-44 | the service keeps the given apiVersion and providers, owns a fresh closed transport and a fresh id source |
| NativeMessaging.NativeMessageService.SendMessage | apps/desktop/native-messaging-test-runner/src/nativeMessageService.ts:89-115 | connects, then sends the caller's fields plus an id never used before and apiVersion, and returns the counterpart's response to that envelope; the pipe is opened only if it was closed; the invariant (version pinned, ids distinct, connect before send) is kept |
| NativeMessaging.NativeMessageService.SendUnencryptedMessage | apps/desktop/native-messaging-test-runner/src/nativeMessageService.ts:82-87 | sends an unencrypted envelope with the given command and payload, a fresh id and apiVersion, after a connect |
| NativeMessaging.NativeMessageService.SendEncryptedMessage | apps/desktop/native-messaging-test-runner/src/nativeMessageService.ts:75-80 | sends an encrypted envelope with the given encryptedCommand, a fresh id and apiVersion, after a connect |
| NativeMessaging.NativeMessageService.SendHandshake | apps/desktop/native-messaging-test-runner/src/nativeMessageService.ts:48-56 | sends exactly `bw-handshake` with payload `{publicKey}` under a fresh id and apiVersion, after a connect, and returns the response's payload unchanged |
| NativeMessaging.NativeMessageService.CheckStatus | apps/desktop/native-messaging-test-runner/src/nativeMessageService.ts:58-71 | sends nothing iff the key does not unwrap; otherwise sends only the encryption of the serialised `{command: "bw-status"}` under the shared key, after a connect with a fresh id, and decrypts the response under the same shared key |
| NativeMessaging.NativeMessageService.Disconnect | apps/desktop/native-messaging-test-runner/src/nativeMessageService.ts:117-119 | only closes the pipe; nothing is sent and the invariant is kept |

## Left out

- Console logging (constructor, before and after each send) and the unexpected-message callback given to the IPC service: output only.
- The IPC transport's own work (socket connect and disconnect, framing, matching a response to its request by messageId) is not visible. The model's transport connects once, logs each call and returns the counterpart's response.
- Transport.IpcService.Connect: that a second connect is a no-op is taken from the comment at the call site, not from visible transport code.
- async/await scheduling: every call is one sequential step, and concurrent commands are not modelled.
- The cryptographic primitives (RSA-OAEP with SHA-1, the EncryptService's AES/HMAC and the EncString format), base64 decoding and JSON serialisation are foreign library calls. They are function parameters. The round-trip laws are stated as hypotheses, never assumed.
- NativeMessaging.EncryptCommandData: the random IV chosen by the real encrypt is not modelled. Encryption is a function of text and key, and only its round trip with decryption is relied upon.
- NativeMessaging.GetSharedKeyForKey: SymmetricCryptoKey's own check of the key length is not modelled. Any decrypted material becomes a key.
- Which of its outcomes decryptToUtf8 produces for a given ciphertext is not visible. It may give text, null or throw. The model leaves this to the providers, and that includes an absent encryptedPayload, which is handed over as undefined. A throw becomes DecryptFailed. A null goes on to JSON.parse as the text "null", as in the source.
- Messages.ReadHandshake: it accepts an object with exactly the fields of HandshakePayload. TypeScript's structural typing would also admit extra fields. With that strict reading, the JSON form and the typed reading are a bijection.
- Transport.IpcService.Connect, Transport.IpcService.SendMessage: in the model they never fail. A rejected connect() or sendMessage(), which the source lets propagate to the caller, is not modelled.
- Uuid.UuidSource.Next: uuid v4 ids are random 128-bit strings, and are unique only with overwhelming probability. The model issues serial numbers, so uniqueness holds outright.
- JSON numbers are integers here: floating point is left out.
- apiVersion is a JavaScript number; it is an int here.
