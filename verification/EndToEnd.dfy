/** The protocol's purpose, from one user's text to another's screen. */
module EndToEnd {
  import opened Wrappers
  import opened Hex
  import opened RoomKeys
  import opened Relay
  import opened Protocol
  import opened RelayInvariant
  import opened KeyAgreement
  import opened MessageCrypto
  import Broadcast
  import Epochs
  import FromLine
  import JoinLine

  /** The connection got in by the handshake its client sent, which the relay reads correctly. */
  ghost predicate JoinedBy(sys: System, p: PeerId, f: JoinFields) {
    && p in sys.clients && sys.clients[p].roomName == f.room && sys.clients[p].password == f.password
    && p in sys.joined && sys.joined[p] == JoinLine.Received(JoinLine.Handshake(f))
    && JoinLine.Clean(f) && !JoinLine.Ambiguous(f)
  }

  /** A member with an open connection and no secret on its way to it. */
  ghost predicate Settled(s: State, r: RoomId, a: string) {
    && r in s.heap && a in s.heap[r].members
    && s.heap[r].members[a] in s.peers && s.peers[s.heap[r].members[a]].open
    && s.heap[r].members[a] in s.wires && LastSecret(s.wires[s.heap[r].members[a]]) == None
  }

  /** Such a member has the room's keys, if the room has auth or it joined without a password. */
  lemma SettledMemberHasRoomKeys(env: Env, run: seq<System>, events: seq<Event>, i: nat, r: RoomId, a: string,
                                 f: JoinFields)
    requires Lawful(env.kdf) && IsRun(env, run, events) && i < |run|
    requires Settled(run[i].relay, r, a) && JoinedBy(run[i], run[i].relay.heap[r].members[a], f)
    requires run[i].relay.heap[r].hasAuth || f.password == ""
    ensures run[i].clients[run[i].relay.heap[r].members[a]].keys == run[i].relay.heap[r].keys
    ensures IsAESKey(run[i].relay.heap[r].keys.enc)
  {
    JoinLine.JoinRoundTrip(f);
    MembersAgree(env, run, events, i, r, a);
    RunKeeps(env, run, events, i);
    assert RoomSound(env, run[i].relay, run[i].relay.heap[r]);
  }

  /**
   In every reachable state, whatever was created, joined, kicked, banned, lost and received before:
   what one settled member of a room sends, under the alias it joined with or one it took since, the
   relay accepts and passes on byte for byte, and any other settled member verifies and decrypts to
   the sanitised text.
   */
  lemma MembersUnderstandEachOther(env: Env, c: Primitives, run: seq<System>, events: seq<Event>, i: nat, r: RoomId,
                                   a: string, f: JoinFields, b: string, g: JoinFields,
                                   alias: string, text: string, gcmNonce: Bytes, nonce: Bytes)
    requires Lawful(env.kdf) && LawfulPrimitives(c) && IsRun(env, run, events) && i < |run|
    requires Settled(run[i].relay, r, a) && JoinedBy(run[i], run[i].relay.heap[r].members[a], f)
    requires Settled(run[i].relay, r, b) && JoinedBy(run[i], run[i].relay.heap[r].members[b], g)
    requires run[i].relay.heap[r].hasAuth || (f.password == "" && g.password == "")
    requires |gcmNonce| == NONCE_SIZE && FromLine.Sanitise(alias) != ""
    ensures var sys, room := run[i], run[i].relay.heap[r];
            var sender, receiver := sys.clients[room.members[a]].keys, sys.clients[room.members[b]].keys;
            var sent := FromLine.SendLine(c, sender, alias, text, gcmNonce, nonce);
      && sent.Some?
      && FromLine.Relay(c, room.keys, a, true, sent.value)
           == Some(FromLine.Relayed(FromLine.Sanitise(alias), sent.value))
      && (var got := FromLine.Checked(c, receiver, sent.value);
          got.Some? && got.value.sender == FromLine.Sanitise(alias)
          && Decrypt(c, receiver, got.value.payload) == Some(FromLine.Sanitise(text)))
  {
    SettledMemberHasRoomKeys(env, run, events, i, r, a, f);
    SettledMemberHasRoomKeys(env, run, events, i, r, b, g);
    FromLine.SignedMessageCrosses(c, run[i].relay.heap[r].keys, alias, text, gcmNonce, nonce, a);
  }

  /**
   The line the relay passes on is put on the queue of every other member whose queue takes it, just as
   it was sent, and on nobody else's.
   */
  lemma MessageIsQueued(env: Env, c: Primitives, run: seq<System>, events: seq<Event>, i: nat, r: RoomId,
                        a: string, f: JoinFields, alias: string, text: string, gcmNonce: Bytes, nonce: Bytes,
                        pool: map<string, Broadcast.Queue>)
    requires Lawful(env.kdf) && LawfulPrimitives(c) && IsRun(env, run, events) && i < |run|
    requires Settled(run[i].relay, r, a) && JoinedBy(run[i], run[i].relay.heap[r].members[a], f)
    requires run[i].relay.heap[r].hasAuth || f.password == ""
    requires |gcmNonce| == NONCE_SIZE && FromLine.Sanitise(alias) != ""
    ensures var room := run[i].relay.heap[r];
            var sent := FromLine.SendLine(c, run[i].clients[room.members[a]].keys, alias, text, gcmNonce, nonce);
      && sent.Some? && FromLine.Relay(c, room.keys, a, true, sent.value).Some?
      && (var line := FromLine.Relay(c, room.keys, a, true, sent.value).value.line;
          var after := Broadcast.After(pool, Broadcast.Recipients(room.members.Keys, a), line);
          forall b :: b in pool ==>
            after[b] == if b in room.members && b != a && !pool[b].done && |pool[b].out| < 1024
                        then pool[b].(out := pool[b].out + [sent.value]) else pool[b])
  {
    SettledMemberHasRoomKeys(env, run, events, i, r, a, f);
    FromLine.SignedMessageCrosses(c, run[i].relay.heap[r].keys, alias, text, gcmNonce, nonce, a);
    var room := run[i].relay.heap[r];
    var sent := FromLine.SendLine(c, room.keys, alias, text, gcmNonce, nonce).value;
    Broadcast.CopiesExactly(pool, room.members.Keys, a, sent);
  }

  /** With its secret a room keeps its keys. */
  lemma SameSecretSameKeys(env: Env, run: seq<System>, events: seq<Event>, i: nat, j: nat, r: RoomId)
    requires Lawful(env.kdf) && IsRun(env, run, events) && i <= j < |run| && r in run[i].relay.heap
    ensures r in run[j].relay.heap && run[j].relay.heap[r].hasAuth == run[i].relay.heap[r].hasAuth
    ensures run[j].relay.heap[r].secret == run[i].relay.heap[r].secret ==>
              run[j].relay.heap[r].keys == run[i].relay.heap[r].keys
  {
    RunKeeps(env, run, events, i);
    RunKeeps(env, run, events, j);
    Epochs.RunSameRooms(env, run, events, i, j);
    assert RoomSound(env, run[i].relay, run[i].relay.heap[r]);
    assert RoomSound(env, run[j].relay, run[j].relay.heap[r]);
  }

  /**
   A message may wait in a queue while a SECRET line, which is written directly, overtakes it. A member
   settled at the later time still reads it if the room's secret is the same; and, whatever happened in
   between, it accepts it exactly when the HMAC keys of then and now sign it alike. So after a rotation
   what was queued before it is dropped, unless HMAC collides.
   */
  lemma QueuedMessageReadExactlyWhen(env: Env, c: Primitives, run: seq<System>, events: seq<Event>, i: nat, j: nat,
                                     r: RoomId, a: string, f: JoinFields, b: string, g: JoinFields,
                                     alias: string, text: string, gcmNonce: Bytes, nonce: Bytes)
    requires Lawful(env.kdf) && LawfulPrimitives(c) && IsRun(env, run, events) && i <= j < |run|
    requires Settled(run[i].relay, r, a) && JoinedBy(run[i], run[i].relay.heap[r].members[a], f)
    requires Settled(run[j].relay, r, b) && JoinedBy(run[j], run[j].relay.heap[r].members[b], g)
    requires run[i].relay.heap[r].hasAuth || (f.password == "" && g.password == "")
    requires |gcmNonce| == NONCE_SIZE && FromLine.Sanitise(alias) != ""
    ensures var sentIn, readIn := run[i].relay.heap[r], run[j].relay.heap[r];
            var sent := FromLine.SendLine(c, run[i].clients[sentIn.members[a]].keys, alias, text, gcmNonce, nonce);
            var signed := FromLine.SignedText(c, sentIn.keys, alias, text, gcmNonce, nonce);
            var reader := run[j].clients[readIn.members[b]].keys;
      && sent.Some?
      && (FromLine.Checked(c, reader, sent.value).Some? <==>
            c.mac(sentIn.keys.hmac, signed) == c.mac(readIn.keys.hmac, signed))
      && (readIn.secret == sentIn.secret ==>
            FromLine.Checked(c, reader, sent.value).Some?
            && Decrypt(c, reader, FromLine.Checked(c, reader, sent.value).value.payload)
                 == Some(FromLine.Sanitise(text)))
  {
    SameSecretSameKeys(env, run, events, i, j, r);
    SettledMemberHasRoomKeys(env, run, events, i, r, a, f);
    SettledMemberHasRoomKeys(env, run, events, j, r, b, g);
    var sentIn, readIn := run[i].relay.heap[r].keys, run[j].relay.heap[r].keys;
    FromLine.SentIsReadExactlyWhen(c, sentIn, readIn, alias, text, gcmNonce, nonce);
    FromLine.SignedMessageCrosses(c, sentIn, alias, text, gcmNonce, nonce, a);
  }
}
