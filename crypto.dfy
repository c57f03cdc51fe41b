/**
  The library calls the message service relies upon, as values: base64 decoding
  (Utils.fromB64ToArray), RSA-OAEP decryption with SHA-1
  (NodeCryptoFunctionService.rsaDecrypt), symmetric encryption and decryption to
  UTF-8 text (EncryptService), JSON.stringify and JSON.parse, and the configured
  test private key. Nothing is assumed about them except where a lemma says so
  in its requires clause.
*/
module Crypto {
  import opened Wrappers
  import Json

  newtype Byte = x: int | 0 <= x < 256

  type Bytes = seq<Byte>

  /** SymmetricCryptoKey, built from the key material RSA decryption yields. */
  datatype SymmetricCryptoKey = SymmetricCryptoKey(material: Bytes)

  /** An EncString: the encrypted text as the EncryptService formats it. */
  datatype EncString = EncString(encoded: string)

  /** What decryptToUtf8 resolves to: the decrypted text, null, or a rejection. */
  datatype Decrypted = Text(text: string) | NullText | Threw

  /**
    The collaborators. A call that throws in the source is a function returning
    None here: rsaDecrypt when the ciphertext does not decrypt, parse when the
    text is not JSON. decryptToUtf8 is handed the response's encryptedPayload
    as it is (None when the field is absent) and may yield text, null or throw.
  */
  datatype Providers = Providers(
    fromB64ToArray: string -> Bytes,
    rsaDecrypt: (Bytes, Bytes) -> Option<Bytes>,
    encrypt: (string, SymmetricCryptoKey) -> EncString,
    decryptToUtf8: (Option<EncString>, SymmetricCryptoKey) -> Decrypted,
    stringify: Json.Value -> string,
    parse: string -> Option<Json.Value>,
    testRsaPrivateKey: string)

  /** Decrypting under a key undoes encrypting under the same key. */
  ghost predicate CipherRoundTrips(p: Providers) {
    forall text, key :: p.decryptToUtf8(Some(p.encrypt(text, key)), key) == Text(text)
  }

  /** Parsing undoes serialising. */
  ghost predicate JsonRoundTrips(p: Providers) {
    forall v :: p.parse(p.stringify(v)) == Some(v)
  }
}
