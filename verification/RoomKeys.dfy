/**
 Key derivation: the five places in the relay and the client that compute a room's keys.
 argon2id and HKDF are opaque deterministic functions, the fields of a `Kdf`.
 */
module RoomKeys {
  import opened Wrappers
  import opened Hex

  /** `hkdf(ikm, salt, info)` is the first 32 bytes of HKDF-SHA256 (sections 2.2 and 2.3 of RFC 5869). */
  datatype Kdf = Kdf(argon2id: (string, string) -> Bytes, hkdf: (Bytes, Bytes, string) -> Bytes)

  /** Both functions return 32 bytes: the only law agreement needs. */
  ghost predicate Lawful(k: Kdf) {
    && (forall p, s :: |k.argon2id(p, s)| == 32)
    && (forall ikm, salt, info :: |k.hkdf(ikm, salt, info)| == 32)
  }

  const ENC_INFO := "p2p-messenger-enc"
  const HMAC_INFO := "p2p-messenger-hmac"

  datatype Keys = Keys(auth: Bytes, enc: Bytes, hmac: Bytes)

  /** What the room's members are meant to share. */
  function GroupKeys(k: Kdf, auth: Bytes, secret: Bytes): Keys {
    Keys(auth, k.hkdf(auth, secret, ENC_INFO), k.hkdf(auth, secret, HMAC_INFO))
  }

  /** The password, or the room name when there is none. */
  function AuthKey(k: Kdf, roomName: string, password: string): Bytes {
    k.argon2id(if password == "" then roomName else password, roomName)
  }

  /** DeriveRoomKeys; the empty secret stands for nil and leaves the derived keys empty. */
  function DeriveRoomKeys(k: Kdf, roomName: string, password: string, secret: Bytes): Keys {
    var material := if password == "" then roomName else password;
    var auth := k.argon2id(material, roomName);
    if |secret| > 0
    then Keys(auth, k.hkdf(auth, secret, ENC_INFO), k.hkdf(auth, secret, HMAC_INFO))
    else Keys(auth, [], [])
  }

  /** The derivation inside CreateRoom. */
  function CreateRoomKeys(k: Kdf, given: Keys, secret: Bytes): Keys {
    var ownerAuthKey := given.auth;
    var encKey := k.hkdf(ownerAuthKey, secret, ENC_INFO);
    var hmacKey := k.hkdf(ownerAuthKey, secret, HMAC_INFO);
    Keys(ownerAuthKey, encKey, hmacKey)
  }

  /** The derivation inside joinRoom, for a room that did not exist. */
  function JoinRoomKeys(k: Kdf, roomName: string, given: Keys, hasAuth: bool, secret: Bytes): Keys {
    if hasAuth then
      var ownerAuthKey := given.auth;
      Keys(ownerAuthKey, k.hkdf(ownerAuthKey, secret, ENC_INFO), k.hkdf(ownerAuthKey, secret, HMAC_INFO))
    else
      DeriveRoomKeys(k, roomName, "", secret)
  }

  /** The derivation inside rotateRoomSecret. */
  function RotateKeys(k: Kdf, roomName: string, hasAuth: bool, ownerAuthKey: Bytes, secret: Bytes): Keys {
    var auth := if hasAuth && |ownerAuthKey| > 0 then ownerAuthKey else k.argon2id(roomName, roomName);
    Keys(auth, k.hkdf(auth, secret, ENC_INFO), k.hkdf(auth, secret, HMAC_INFO))
  }

  /** UpdateRoomKeys: the client's keys after a SECRET line, or None when the hex is malformed. */
  function UpdateRoomKeys(k: Kdf, current: Keys, roomName: string, password: string, secretHex: string)
    : Option<Keys>
  {
    match Decode(secretHex)
    case None => None
    case Some(secret) =>
      var auth := if password != "" then k.argon2id(password, roomName) else current.auth;
      Some(Keys(auth, k.hkdf(auth, secret, ENC_INFO), k.hkdf(auth, secret, HMAC_INFO)))
  }

  /**
   The five derivation sites compute one function: for a room created with a password, by the
   operator or by its first joiner, and for a room created without one, every rotation and every
   client that typed the same password (or none) arrives at the same three keys, also through
   the hex text that carries the secret. A client without a password needs the right keys to begin
   with, one with a password does not.
   */
  lemma FiveSitesAgree(k: Kdf, name: string, password: string, current: Keys, secret: Bytes)
    requires Lawful(k) && secret != []
    requires password == "" ==> current.auth == k.argon2id(name, name)
    ensures var given := DeriveRoomKeys(k, name, password, []);
            var auth := k.argon2id(if password == "" then name else password, name);
            var shared := Keys(auth, k.hkdf(auth, secret, "p2p-messenger-enc"),
                               k.hkdf(auth, secret, "p2p-messenger-hmac"));
            && CreateRoomKeys(k, given, secret) == shared
            && JoinRoomKeys(k, name, given, password != "", secret) == shared
            && RotateKeys(k, name, password != "", given.auth, secret) == shared
            && UpdateRoomKeys(k, current, name, password, Encode(secret)) == Some(shared)
            && DeriveRoomKeys(k, name, password, secret) == shared
  {
    RoundTrip(secret);
  }

  /** Neither function collides on these two passwords of one room under this secret. */
  ghost predicate NoCollision(k: Kdf, name: string, p: string, q: string, secret: Bytes) {
    var a, b := k.argon2id(p, name), k.argon2id(q, name);
    && (a == b ==> p == q)
    && (k.hkdf(a, secret, ENC_INFO) == k.hkdf(b, secret, ENC_INFO) ==> a == b)
    && (k.hkdf(a, secret, HMAC_INFO) == k.hkdf(b, secret, HMAC_INFO) ==> a == b)
  }
}
