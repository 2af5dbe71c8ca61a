/** Encryption and signing of messages, over opaque AES-GCM, HMAC and base64. */
module MessageCrypto {
  import opened Wrappers
  import opened Hex
  import opened RoomKeys
  import Text

  /** Go strings and byte slices of message text are both `string` here. */
  datatype Primitives = Primitives(
    seal: (Bytes, Bytes, string) -> Bytes,           // AES-GCM: key, nonce, plaintext
    open: (Bytes, Bytes, Bytes) -> Option<string>,   // key, nonce, ciphertext and tag
    mac: (Bytes, string) -> Bytes,                   // HMAC-SHA256: key, message
    toBase64: Bytes -> string,
    fromBase64: string -> Option<Bytes>)

  /** Opening undoes sealing, decoding undoes encoding, and base64 text has no separators. */
  ghost predicate LawfulPrimitives(c: Primitives) {
    && (forall k, n, p :: c.open(k, n, c.seal(k, n, p)) == Some(p))
    && (forall k, m :: |c.mac(k, m)| == 32)
    && (forall b :: c.fromBase64(c.toBase64(b)) == Some(b))
    && (forall b, i :: 0 <= i < |c.toBase64(b)| ==>
          c.toBase64(b)[i] != '|' && !Text.IsSpace(c.toBase64(b)[i]))
  }

  const NONCE_SIZE := 12

  /** aes.NewCipher accepts no other key lengths. */
  predicate IsAESKey(key: Bytes) {
    |key| == 16 || |key| == 24 || |key| == 32
  }

  /** base64 of nonce, ciphertext and tag. */
  function Encrypt(c: Primitives, keys: Keys, nonce: Bytes, plaintext: string): Option<string> {
    if !IsAESKey(keys.enc) then None
    else Some(c.toBase64(nonce + c.seal(keys.enc, nonce, plaintext)))
  }

  function Decrypt(c: Primitives, keys: Keys, payload: string): Option<string> {
    match c.fromBase64(payload)
    case None => None
    case Some(raw) =>
      if !IsAESKey(keys.enc) || |raw| < NONCE_SIZE then None
      else c.open(keys.enc, raw[..NONCE_SIZE], raw[NONCE_SIZE..])
  }

  function Sign(c: Primitives, keys: Keys, message: string): string {
    Encode(c.mac(keys.hmac, message))
  }

  predicate Verify(c: Primitives, keys: Keys, message: string, hmacHex: string) {
    match Decode(hmacHex)
    case None => false
    case Some(expected) => expected == c.mac(keys.hmac, message)
  }

  /** Keys that agree on the encryption key undo each other's encryption, for every nonce. */
  lemma DecryptUndoesEncrypt(c: Primitives, sender: Keys, receiver: Keys, nonce: Bytes, plaintext: string)
    requires LawfulPrimitives(c) && |nonce| == NONCE_SIZE && sender.enc == receiver.enc && IsAESKey(sender.enc)
    ensures Encrypt(c, sender, nonce, plaintext).Some?
    ensures Decrypt(c, receiver, Encrypt(c, sender, nonce, plaintext).value) == Some(plaintext)
  {
  }

  /** A payload is the base64 of a 12-byte nonce and what AES-GCM makes of the text, for an AES key only. */
  lemma PayloadLayout(c: Primitives, keys: Keys, nonce: Bytes, plaintext: string)
    requires LawfulPrimitives(c) && |nonce| == 12
    ensures Encrypt(c, keys, nonce, plaintext).Some? <==> |keys.enc| == 16 || |keys.enc| == 24 || |keys.enc| == 32
    ensures Encrypt(c, keys, nonce, plaintext).Some? ==>
              var raw := c.fromBase64(Encrypt(c, keys, nonce, plaintext).value);
              raw.Some? && raw.value[..12] == nonce && raw.value[12..] == c.seal(keys.enc, nonce, plaintext)
  {
  }

  /** A payload that is no base64, is shorter than a nonce, or does not open is not decrypted. */
  lemma DecryptedExactlyWhen(c: Primitives, keys: Keys, payload: string, plaintext: string)
    ensures Decrypt(c, keys, payload) == Some(plaintext) <==>
              var raw := c.fromBase64(payload);
              raw.Some? && IsAESKey(keys.enc) && |raw.value| >= 12
              && c.open(keys.enc, raw.value[..12], raw.value[12..]) == Some(plaintext)
  {
  }

  /** A signature is accepted exactly when it is hex for the MAC itself. */
  lemma VerifiedExactlyWhen(c: Primitives, keys: Keys, message: string, hmacHex: string)
    ensures Verify(c, keys, message, hmacHex) <==> Decode(hmacHex) == Some(c.mac(keys.hmac, message))
  {
  }

  lemma VerifyAcceptsSign(c: Primitives, sender: Keys, receiver: Keys, message: string)
    requires sender.hmac == receiver.hmac
    ensures Verify(c, receiver, message, Sign(c, sender, message))
  {
    RoundTrip(c.mac(sender.hmac, message));
  }
}
