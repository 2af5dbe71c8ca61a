/** The FROM line: built and signed by a sender, checked and passed on by the relay, read by a peer. */
module FromLine {
  import opened CollectionFacts
  import opened Wrappers
  import opened Hex
  import opened RoomKeys
  import opened Text
  import opened MessageCrypto

  /** sanitiseField. */
  function Sanitise(s: string): string {
    Without(Without(Without(s, '|'), '\n'), '\r')
  }

  /** Exactly the other characters stay, and sanitising again changes nothing. */
  lemma SanitiseMembers(s: string)
    ensures forall d :: d in Sanitise(s) <==> d in s && d != '|' && d != '\n' && d != '\r'
    ensures Sanitise(Sanitise(s)) == Sanitise(s)
  {
    WithoutMembers(s, '|');
    WithoutMembers(Without(s, '|'), '\n');
    WithoutMembers(Without(Without(s, '|'), '\n'), '\r');
    var t := Sanitise(s);
    WithoutAbsent(t, '|');
    WithoutAbsent(t, '\n');
    WithoutAbsent(t, '\r');
  }

  /** And it takes out just those characters, one by one, leaving the others in their places. */
  lemma SanitiseOne(c: char)
    ensures Sanitise([c]) == if c == '|' || c == '\n' || c == '\r' then "" else [c]
  {
    WithoutOne(c, '|');
    WithoutOne(c, '\n');
    WithoutOne(c, '\r');
  }

  lemma SanitiseBoth(a: string, b: string)
    ensures Sanitise(a + b) == Sanitise(a) + Sanitise(b)
  {
    WithoutBoth(a, b, '|');
    WithoutBoth(Without(a, '|'), Without(b, '|'), '\n');
    WithoutBoth(Without(Without(a, '|'), '\n'), Without(Without(b, '|'), '\n'), '\r');
  }

  // ---------------------------------------------------------------- sender, relay, receiver

  function Unsigned(alias: string, payload: string, nonce: string): string {
    "FROM:" + alias + "|" + payload + "|" + nonce
  }

  /** Send, given the two nonces it draws. */
  function SendLine(c: Primitives, keys: Keys, localAlias: string, message: string, gcmNonce: Bytes, nonce: Bytes)
    : Option<string>
  {
    match Encrypt(c, keys, gcmNonce, Sanitise(message))
    case None => None
    case Some(payload) =>
      var unsigned := Unsigned(Sanitise(localAlias), payload, Encode(nonce));
      Some(unsigned + "|" + Sign(c, keys, unsigned) + "\n")
  }

  /**
   The line broadcastToRoom makes: FROM with the sender's alias, or its address for want of one,
   and SYSTEM when there is no sender at all.
   */
  function Emitted(senderAlias: string, senderAddr: string, message: string): string {
    var from := if senderAlias == "" && senderAddr != "" then senderAddr else senderAlias;
    if from == "" then "SYSTEM:" + message + "\n" else "FROM:" + from + "|" + message + "\n"
  }

  /** What the relay does with a FROM line: the sender's alias from now on, and the line for the room. */
  datatype Relayed = Relayed(alias: string, line: string)

  /** handleMessage on a FROM line, up to the line it has broadcast; None is a dropped line. */
  function Relay(c: Primitives, keys: Keys, senderAddr: string, isMember: bool, raw: string): Option<Relayed> {
    var message := TrimSpace(raw);
    if !HasPrefix(message, "FROM:") then None
    else
      var parts := SplitN(TrimPrefix(message, "FROM:"), '|', 2);
      if |parts| != 2 then None
      else
        var content := parts[1];
        var enc := SplitN(content, '|', 3);
        if |enc| != 3 || !Verify(c, keys, Unsigned(parts[0], enc[0], enc[1]), enc[2]) then None
        else
          Some(Relayed(parts[0], Emitted(if isMember then parts[0] else "", senderAddr, content)))
  }

  datatype Message = Message(sender: string, payload: string, nonce: string, hmacHex: string)

  /** readLoop's split and HMAC check of a FROM line. */
  function Checked(c: Primitives, keys: Keys, raw: string): Option<Message> {
    var line := TrimSpace(raw);
    if !HasPrefix(line, "FROM:") then None
    else
      var parts := SplitN(TrimPrefix(line, "FROM:"), '|', 4);
      if |parts| != 4 || !Verify(c, keys, Unsigned(parts[0], parts[1], parts[2]), parts[3]) then None
      else Some(Message(parts[0], parts[1], parts[2], parts[3]))
  }

  // ---------------------------------------------------------------- splitting a message line

  /** A first part followed by others has no separator, so a finer split starts with it as well. */
  lemma {:induction false} SplitNFirst(s: string, n: nat)
    requires n >= 2 && |SplitN(s, '|', 2)| == 2
    ensures var parts := SplitN(s, '|', 2);
            '|' !in parts[0] && SplitN(s, '|', n) == [parts[0]] + SplitN(parts[1], '|', n - 1)
            && s == parts[0] + "|" + parts[1]
  {
    if s[0] != '|' {
      SplitNFirst(s[1..], n);
      var rest := SplitN(s[1..], '|', 2);
      assert s == [s[0]] + s[1..];
      assert [s[0]] + (rest[0] + "|" + rest[1]) == ([s[0]] + rest[0]) + "|" + rest[1];
    } else {
      assert s == "" + "|" + s[1..];
    }
  }

  // ---------------------------------------------------------------- the relay passes lines on verbatim

  lemma TrimmedLineKeeps(raw: string)
    requires TrimSpace(raw) != ""
    ensures TrimSpace(TrimSpace(raw) + "\n") == TrimSpace(raw)
  {
    TrimmedEnds(raw);
    TrimSpaceLine(TrimSpace(raw));
  }

  /** Lines with the same content are the same only if the names in front are. */
  lemma HeadersDiffer(a: string, b: string, content: string)
    ensures "FROM:" + a + "|" + content + "\n" == "FROM:" + (b + "|" + content) + "\n" <==> a == b
  {
    var x, y := "FROM:" + a + "|" + content + "\n", "FROM:" + (b + "|" + content) + "\n";
    if x == y {
      assert |a| == |b|;
      assert a == x[5..5 + |a|] == y[5..5 + |b|] == b;
    } else if a == b {
      Assoc("FROM:", a, "|");
      Assoc("FROM:", a + "|", content);
    }
  }

  /**
   Every line the relay accepts it re-emits, trimmed and newline-ended, byte for byte exactly when
   the name it puts in front is the one the line carries: for a member, when the line's alias is not
   empty. This includes a line that changes the alias.
   */
  lemma RelayIsVerbatim(c: Primitives, keys: Keys, senderAddr: string, isMember: bool, raw: string)
    requires senderAddr != "" && Relay(c, keys, senderAddr, isMember, raw).Some?
    ensures var out := Relay(c, keys, senderAddr, isMember, raw).value;
      && (out.line == TrimSpace(raw) + "\n" <==> (isMember && out.alias != "") || out.alias == senderAddr)
      && Checked(c, keys, raw).Some? && Checked(c, keys, raw).value.sender == out.alias
      && (out.line == TrimSpace(raw) + "\n" ==> Checked(c, keys, out.line) == Checked(c, keys, raw))
  {
    var message := TrimSpace(raw);
    var rest := message[5..];
    var parts := SplitN(rest, '|', 2);
    SplitNFirst(rest, 4);
    assert message == "FROM:" + rest;
    Assoc("FROM:", parts[0] + "|", parts[1]);
    var name := if isMember && parts[0] != "" then parts[0] else senderAddr;
    HeadersDiffer(name, parts[0], parts[1]);
    TrimmedLineKeeps(raw);
  }

  // ---------------------------------------------------------------- end to end

  lemma HexIsPlain(b: Bytes)
    ensures forall i :: 0 <= i < |Encode(b)| ==> Encode(b)[i] != '|' && !IsSpace(Encode(b)[i])
  {
  }

  /** The line a sender builds, without its newline, and the part of it the relay calls content. */
  function Line(alias: string, payload: string, nonce: string, sig: string): string {
    Unsigned(alias, payload, nonce) + "|" + sig
  }

  function Content(payload: string, nonce: string, sig: string): string {
    payload + "|" + nonce + "|" + sig
  }

  lemma LineHasContent(alias: string, payload: string, nonce: string, sig: string)
    ensures Line(alias, payload, nonce, sig) == "FROM:" + (alias + "|" + Content(payload, nonce, sig))
  {
  }

  /** Splitting what a sender built gives the four fields it was built from. */
  lemma FieldsOfLine(alias: string, payload: string, nonce: string, sig: string)
    requires '|' !in alias && '|' !in payload && '|' !in nonce && '|' !in sig
    ensures var content := Content(payload, nonce, sig);
      && SplitN(alias + "|" + content, '|', 2) == [alias, content]
      && SplitN(content, '|', 3) == [payload, nonce, sig]
      && SplitN(alias + "|" + content, '|', 4) == [alias, payload, nonce, sig]
  {
    var tail, content := nonce + "|" + sig, Content(payload, nonce, sig);
    Assoc(payload + "|", nonce, "|");
    Assoc(payload + "|", nonce + "|", sig);
    assert content == payload + "|" + tail;
    SplitNField(alias, content, '|', 2);
    SplitNField(alias, content, '|', 4);
    SplitNField(payload, tail, '|', 3);
    SplitNField(nonce, sig, '|', 2);
    SplitNLast(sig, '|', 1);
  }

  /** Relay and receiver take a well-formed signed line apart, and the relay puts it together again. */
  lemma LineCrosses(c: Primitives, keys: Keys, alias: string, payload: string, nonce: string, sig: string,
                    senderAddr: string)
    requires '|' !in alias && '|' !in payload && '|' !in nonce && '|' !in sig
    requires sig != "" && !IsSpace(sig[|sig| - 1])
    requires Verify(c, keys, Unsigned(alias, payload, nonce), sig)
    ensures var line := Line(alias, payload, nonce, sig) + "\n";
      && Checked(c, keys, line) == Some(Message(alias, payload, nonce, sig))
      && Relay(c, keys, senderAddr, true, line)
           == Some(Relayed(alias, Emitted(alias, senderAddr, Content(payload, nonce, sig))))
      && (alias != "" ==> Emitted(alias, senderAddr, Content(payload, nonce, sig)) == line)
  {
    var line, content := Line(alias, payload, nonce, sig), Content(payload, nonce, sig);
    LineHasContent(alias, payload, nonce, sig);
    FieldsOfLine(alias, payload, nonce, sig);
    assert line[0] == 'F' && line[|line| - 1] == sig[|sig| - 1];
    TrimSpaceLine(line);
    assert line[..5] == "FROM:" && line[5..] == alias + "|" + content;
    Assoc("FROM:", alias, "|");
    Assoc("FROM:", alias + "|", content);
  }

  /**
   A signed message crosses the relay verbatim: for every alias that is not empty once sanitised,
   every text and every choice of nonces, the relay accepts the line Send builds, re-emits it byte
   for byte whatever alias it knew before, and a receiver on the same keys finds the sanitised alias,
   accepts the signature and decrypts the sanitised text.
   */
  lemma SignedMessageCrosses(c: Primitives, keys: Keys, localAlias: string, text: string, gcmNonce: Bytes, nonce: Bytes,
                             senderAddr: string)
    requires LawfulPrimitives(c) && IsAESKey(keys.enc) && |gcmNonce| == NONCE_SIZE
    requires Sanitise(localAlias) != ""
    ensures var sent := SendLine(c, keys, localAlias, text, gcmNonce, nonce);
      && sent.Some?
      && Relay(c, keys, senderAddr, true, sent.value) == Some(Relayed(Sanitise(localAlias), sent.value))
      && Checked(c, keys, sent.value).Some?
      && Checked(c, keys, sent.value).value.sender == Sanitise(localAlias)
      && Checked(c, keys, sent.value).value.nonce == Encode(nonce)
      && Decrypt(c, keys, Checked(c, keys, sent.value).value.payload) == Some(Sanitise(text))
  {
    var alias, hex := Sanitise(localAlias), Encode(nonce);
    DecryptUndoesEncrypt(c, keys, keys, gcmNonce, Sanitise(text));
    var payload := Encrypt(c, keys, gcmNonce, Sanitise(text)).value;
    var unsigned := Unsigned(alias, payload, hex);
    SanitiseMembers(localAlias);
    HexIsPlain(nonce);
    HexIsPlain(c.mac(keys.hmac, unsigned));
    EncodeAlphabet(c.mac(keys.hmac, unsigned));
    VerifyAcceptsSign(c, keys, keys, unsigned);
    LineCrosses(c, keys, alias, payload, hex, Sign(c, keys, unsigned), senderAddr);
  }

  /** A receiver accepts a well-formed line exactly when the MAC it carries is the one its own key gives. */
  lemma CheckedExactlyWhen(c: Primitives, keys: Keys, name: string, payload: string, nonce: string, mac: Bytes)
    requires '|' !in name && '|' !in payload && '|' !in nonce && mac != []
    ensures var line := Line(name, payload, nonce, Encode(mac)) + "\n";
      && (Checked(c, keys, line).Some? <==> mac == c.mac(keys.hmac, Unsigned(name, payload, nonce)))
      && (Checked(c, keys, line).Some? ==> Checked(c, keys, line).value == Message(name, payload, nonce, Encode(mac)))
  {
    var sig := Encode(mac);
    var line := Line(name, payload, nonce, sig);
    HexIsPlain(mac);
    EncodeAlphabet(mac);
    RoundTrip(mac);
    LineHasContent(name, payload, nonce, sig);
    FieldsOfLine(name, payload, nonce, sig);
    assert line[0] == 'F' && line[|line| - 1] == sig[|sig| - 1];
    TrimSpaceLine(line);
    assert line[..5] == "FROM:" && line[5..] == name + "|" + Content(payload, nonce, sig);
  }

  /** The line Send builds from these, and the text it signs. */
  function SignedText(c: Primitives, keys: Keys, localAlias: string, message: string, gcmNonce: Bytes, nonce: Bytes)
    : string
  {
    match Encrypt(c, keys, gcmNonce, Sanitise(message))
    case None => ""
    case Some(payload) => Unsigned(Sanitise(localAlias), payload, Encode(nonce))
  }

  /** Whatever keys a reader holds, it accepts a message exactly when both HMAC keys sign it alike. */
  lemma SentIsReadExactlyWhen(c: Primitives, keys: Keys, reader: Keys, localAlias: string, text: string,
                              gcmNonce: Bytes, nonce: Bytes)
    requires LawfulPrimitives(c) && IsAESKey(keys.enc) && |gcmNonce| == NONCE_SIZE
    ensures var sent, signed := SendLine(c, keys, localAlias, text, gcmNonce, nonce),
                                SignedText(c, keys, localAlias, text, gcmNonce, nonce);
      && sent.Some?
      && (Checked(c, reader, sent.value).Some? <==> c.mac(keys.hmac, signed) == c.mac(reader.hmac, signed))
  {
    var alias, hex := Sanitise(localAlias), Encode(nonce);
    DecryptUndoesEncrypt(c, keys, keys, gcmNonce, Sanitise(text));
    var payload := Encrypt(c, keys, gcmNonce, Sanitise(text)).value;
    SanitiseMembers(localAlias);
    HexIsPlain(nonce);
    CheckedExactlyWhen(c, reader, alias, payload, hex, c.mac(keys.hmac, Unsigned(alias, payload, hex)));
  }

  /**
   The failing case: an alias of which nothing is left once sanitised. The relay accepts the line Send
   builds and puts the sender's address in front, so that no receiver on the same keys accepts the
   signature, unless HMAC collides on the two lines.
   */
  lemma EmptyAliasIsUnreadable(c: Primitives, keys: Keys, localAlias: string, text: string, gcmNonce: Bytes,
                               nonce: Bytes, senderAddr: string)
    requires LawfulPrimitives(c) && IsAESKey(keys.enc) && |gcmNonce| == NONCE_SIZE
    requires Sanitise(localAlias) == "" && senderAddr != "" && '|' !in senderAddr
    requires var payload := Encrypt(c, keys, gcmNonce, Sanitise(text)).value;
      c.mac(keys.hmac, Unsigned("", payload, Encode(nonce)))
        != c.mac(keys.hmac, Unsigned(senderAddr, payload, Encode(nonce)))
    ensures var sent := SendLine(c, keys, localAlias, text, gcmNonce, nonce);
      && sent.Some? && Relay(c, keys, senderAddr, true, sent.value).Some?
      && Relay(c, keys, senderAddr, true, sent.value).value.line != sent.value
      && Checked(c, keys, Relay(c, keys, senderAddr, true, sent.value).value.line) == None
  {
    var hex := Encode(nonce);
    DecryptUndoesEncrypt(c, keys, keys, gcmNonce, Sanitise(text));
    var payload := Encrypt(c, keys, gcmNonce, Sanitise(text)).value;
    var unsigned := Unsigned("", payload, hex);
    var sig := Sign(c, keys, unsigned);
    HexIsPlain(nonce);
    HexIsPlain(c.mac(keys.hmac, unsigned));
    EncodeAlphabet(c.mac(keys.hmac, unsigned));
    VerifyAcceptsSign(c, keys, keys, unsigned);
    LineCrosses(c, keys, "", payload, hex, sig, senderAddr);
    LineHasContent(senderAddr, payload, hex, sig);
    Assoc("FROM:", senderAddr, "|");
    Assoc("FROM:", senderAddr + "|", Content(payload, hex, sig));
    CheckedExactlyWhen(c, keys, senderAddr, payload, hex, c.mac(keys.hmac, unsigned));
  }
}
