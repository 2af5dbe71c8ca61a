/** Who a JOIN lets in, what the first one makes of a room, and what every later one changes. */
module Admissions {
  import opened Wrappers
  import opened Hex
  import opened RoomKeys
  import opened Relay
  import opened Protocol
  import opened RelayInvariant
  import Bans
  import Epochs

  // ---------------------------------------------------------------- the verdict

  /** The ban list names the connection's address or its device. */
  predicate Banned(s: State, addr: string, deviceID: string) {
    addr in s.banned || (deviceID != "" && "device:" + deviceID in s.banned)
  }

  /** The room asks for a password, and this is not the one its keys came from. */
  predicate WrongPassword(env: Env, room: Room, name: string, password: string) {
    room.hasAuth && (password == "" || env.kdf.argon2id(password, name) != room.keys.auth)
  }

  /** A member of the room goes by this alias, but for letter case. */
  ghost predicate Clashes(env: Env, s: State, room: Room, alias: string) {
    exists a :: a in room.members && room.members[a] in s.peers
             && env.equalFold(s.peers[room.members[a]].alias, alias)
  }

  /**
   A JOIN is admitted exactly when neither its address nor its device is banned and, if the room is
   there, the password is right where one is needed and no member has the alias. It is refused as
   banned exactly when it is, and for its alias exactly when nothing else is wrong with it.
   */
  lemma AdmittedExactlyWhen(env: Env, s: State, peer: Peer, f: JoinFields)
    requires Closed(s)
    ensures var verdict, isBanned := Admission(env, s, peer, f), Banned(s, peer.addr, peer.deviceID);
      && (verdict == Refused("Banned") <==> isBanned)
      && (verdict == Admitted <==>
            !isBanned
            && (f.room in s.rooms ==>
                  !WrongPassword(env, s.heap[s.rooms[f.room]], f.room, f.password)
                  && !Clashes(env, s, s.heap[s.rooms[f.room]], peer.alias)))
      && (verdict == Refused("Alias already in use") <==>
            !isBanned && f.room in s.rooms
            && !WrongPassword(env, s.heap[s.rooms[f.room]], f.room, f.password)
            && Clashes(env, s, s.heap[s.rooms[f.room]], peer.alias))
  {
  }

  /** Whatever the verdict, alias and device ID given by a JOIN are taken over, and missing ones kept. */
  lemma JoinerIsIdentified(env: Env, s: State, p: PeerId, f: JoinFields, id: RoomId, secret: Bytes)
    requires Closed(s) && p in s.peers
    ensures var peer, t := s.peers[p], Join(env, s, p, f, id, secret);
      && p in t.peers && t.peers[p].addr == peer.addr
      && t.peers[p].alias == (if f.alias == "" then peer.alias else f.alias)
      && t.peers[p].deviceID == (if f.deviceID == "" then peer.deviceID else f.deviceID)
  {
  }

  /** The JOIN on record for a connection is the one that let it in. */
  lemma AdmittedIsRemembered(env: Env, sys: System, e: Event)
    requires Closed(sys.relay) && Enabled(sys, e)
    ensures var next := Next(env, sys, e);
      if e.JoinRoom? && e.p in next.relay.peers && next.relay.peers[e.p].room.Some?
      then next.joined == sys.joined[e.p := e.fields] else next.joined == sys.joined
  {
  }

  // ---------------------------------------------------------------- the first joiner

  /** The first joiner's password decides whether the room has auth, and with which key. */
  lemma FirstJoinerFounds(env: Env, s: State, p: PeerId, f: JoinFields, id: RoomId, secret: Bytes)
    requires Closed(s) && p in s.peers && f.room !in s.rooms
    ensures var t := LetIn(env, s, p, f, id, secret);
      && t.rooms == s.rooms[f.room := id] && t.heap.Keys == s.heap.Keys + {id} && t.drawn == s.drawn + {secret}
      && (forall r :: r in s.heap && r != id ==> t.heap[r] == s.heap[r])
      && t.heap[id].name == f.room && t.heap[id].owner == s.peers[p].addr && t.heap[id].secret == secret
      && t.heap[id].members == map[s.peers[p].addr := p] && !t.heap[id].createdLocally
      && (t.heap[id].hasAuth <==> f.password != "")
      && t.heap[id].ownerAuthKey == (if f.password == "" then [] else env.kdf.argon2id(f.password, f.room))
  {
  }

  /** A room made beforehand always has auth: the key is its password's, or its name's for want of one. */
  lemma CreatedRoomIs(env: Env, s: State, name: string, password: string, id: RoomId, secret: Bytes)
    requires name !in s.rooms && id !in s.heap
    ensures var t := Create(env, s, name, password, id, secret);
      && t == s.(rooms := s.rooms[name := id], heap := t.heap, drawn := s.drawn + {secret})
      && t.heap.Keys == s.heap.Keys + {id} && (forall r :: r in s.heap ==> t.heap[r] == s.heap[r])
      && t.heap[id].name == name && t.heap[id].hasAuth && t.heap[id].createdLocally
      && t.heap[id].owner == "" && t.heap[id].members == map[] && t.heap[id].secret == secret
      && t.heap[id].ownerAuthKey == env.kdf.argon2id(if password == "" then name else password, name)
  {
  }

  lemma CreatedOnce(env: Env, s: State, name: string, password: string, id: RoomId, secret: Bytes)
    requires name in s.rooms
    ensures Create(env, s, name, password, id, secret) == s
  {
  }

  // ---------------------------------------------------------------- later joiners

  /**
   A later joiner becomes a member, and the owner if there was none; it is sent the room's secret,
   and nothing else changes.
   */
  lemma LaterJoinerEnters(env: Env, s: State, p: PeerId, f: JoinFields, id: RoomId, secret: Bytes)
    requires Closed(s) && p in s.peers && p in s.wires && f.room in s.rooms
    ensures var r, addr, t := s.rooms[f.room], s.peers[p].addr, LetIn(env, s, p, f, id, secret);
      && t == s.(heap := t.heap, peers := s.peers[p := s.peers[p].(room := Some(r))], wires := t.wires)
      && t.heap == s.heap[r := s.heap[r].(members := s.heap[r].members[addr := p],
                                          owner := if s.heap[r].owner == "" then addr else s.heap[r].owner)]
      && t.wires.Keys == s.wires.Keys && (forall q :: q in s.wires && q != p ==> t.wires[q] == s.wires[q])
      && (s.peers[p].open ==> t.wires[p] == s.wires[p] + [Secret(Encode(s.heap[r].secret))])
  {
  }

  // ---------------------------------------------------------------- over whole runs

  /** The event is a JOIN that made the room `id` with a password. */
  ghost predicate Founds(run: seq<System>, events: seq<Event>, i: nat, id: RoomId)
    requires |run| == |events| + 1 && i < |events|
  {
    var e := events[i];
    && e.JoinRoom? && e.id == id && e.fields.room !in run[i].relay.rooms && e.fields.password != ""
    && e.p in run[i + 1].relay.peers && run[i + 1].relay.peers[e.p].room == Some(id)
  }

  lemma RefusedStaysOut(s: State, p: PeerId, reason: string)
    requires p in s.peers
    ensures p in TurnedAway(s, p, reason).peers && TurnedAway(s, p, reason).peers[p].room == s.peers[p].room
  {
  }

  lemma FoundedRoomIs(env: Env, run: seq<System>, events: seq<Event>, i: nat, id: RoomId)
    requires Lawful(env.kdf) && IsRun(env, run, events) && i < |events| && Founds(run, events, i, id)
    ensures id in run[i + 1].relay.heap && run[i + 1].relay.heap[id].hasAuth
    ensures run[i + 1].relay.heap[id].ownerAuthKey
         == env.kdf.argon2id(events[i].fields.password, events[i].fields.room)
  {
    Bans.JoinerConnected(env, run, events, i);
    var e, s := events[i], run[i].relay;
    var s1 := WithPeer(s, e.p, Identified(s.peers[e.p], e.fields));
    match Admission(env, s1, s1.peers[e.p], e.fields)
    case Refused(reason) => RefusedStaysOut(s1, e.p, reason);
    case Admitted => FirstJoinerFounds(env, s1, e.p, e.fields, id, e.secret);
  }

  /** A password, and the same room later asked for by a JOIN without that password. */
  ghost predicate AsksWithout(env: Env, run: seq<System>, events: seq<Event>, i: nat, j: nat, id: RoomId)
    requires |run| == |events| + 1 && i < j < |events| && events[i].JoinRoom?
  {
    var f := events[i].fields;
    && events[j].JoinRoom? && events[j].fields.room == f.room
    && f.room in run[j].relay.rooms && run[j].relay.rooms[f.room] == id
    && (events[j].fields.password == ""
        || env.kdf.argon2id(events[j].fields.password, f.room) != env.kdf.argon2id(f.password, f.room))
  }

  lemma FoundedKeyStays(env: Env, run: seq<System>, events: seq<Event>, i: nat, j: nat, id: RoomId)
    requires Lawful(env.kdf) && IsRun(env, run, events) && i < j < |run| && i < |events| && Founds(run, events, i, id)
    ensures id in run[j].relay.heap && run[j].relay.heap[id].hasAuth
    ensures run[j].relay.heap[id].keys.auth
         == env.kdf.argon2id(events[i].fields.password, events[i].fields.room)
  {
    FoundedRoomIs(env, run, events, i, id);
    Epochs.AuthKeyStays(env, run, events, i + 1, j, id);
  }

  lemma KeyIsWrong(env: Env, run: seq<System>, events: seq<Event>, i: nat, j: nat, id: RoomId)
    requires Lawful(env.kdf) && IsRun(env, run, events) && i < j < |events| && Founds(run, events, i, id)
    requires AsksWithout(env, run, events, i, j, id)
    ensures id in run[j].relay.heap
    ensures WrongPassword(env, run[j].relay.heap[id], events[j].fields.room, events[j].fields.password)
  {
    FoundedKeyStays(env, run, events, i, j, id);
  }

  lemma RefusedSomehow(env: Env, s: State, p: PeerId, f: JoinFields, id: RoomId, secret: Bytes)
    returns (reason: string)
    requires Closed(s) && p in s.peers && p in s.wires && f.room in s.rooms
    requires WrongPassword(env, s.heap[s.rooms[f.room]], f.room, f.password)
    ensures Bans.OnlyRefused(s, p, reason, Join(env, s, p, f, id, secret))
  {
    var s1 := WithPeer(s, p, Identified(s.peers[p], f));
    AdmittedExactlyWhen(env, s1, s1.peers[p], f);
    reason := Admission(env, s1, s1.peers[p], f).reason;
    Bans.TurnedAwayOnly(s1, p, reason);
  }

  /**
   A room that its first joiner made with a password stays closed to everybody without it: at any
   later time of any run, a JOIN with no password, or one that derives another key, is refused, and
   neither changes a room nor puts a secret on any wire.
   */
  lemma PasswordRoomStaysClosed(env: Env, run: seq<System>, events: seq<Event>, i: nat, j: nat, id: RoomId)
    returns (reason: string)
    requires Lawful(env.kdf) && IsRun(env, run, events) && i < j < |events| && Founds(run, events, i, id)
    requires AsksWithout(env, run, events, i, j, id)
    ensures events[j].p in run[j].relay.peers && events[j].p in run[j].relay.wires
    ensures Bans.OnlyRefused(run[j].relay, events[j].p, reason, run[j + 1].relay)
  {
    KeyIsWrong(env, run, events, i, j, id);
    Bans.JoinerConnected(env, run, events, j);
    var e := events[j];
    reason := RefusedSomehow(env, run[j].relay, e.p, e.fields, e.id, e.secret);
  }
}
