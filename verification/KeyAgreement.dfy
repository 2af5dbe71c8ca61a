/**
 Every member of a room ends up with the room's keys: in each reachable state the last SECRET
 line on its way to it carries the room's secret, or, with none on its way, its keys are already
 the ones that secret and its own password derive.
 */
module KeyAgreement {
  import opened Wrappers
  import opened Hex
  import opened RoomKeys
  import opened Relay
  import opened Protocol
  import opened RelayInvariant

  // ---------------------------------------------------------------- the last secret on a wire

  function LastSecret(wire: seq<Line>): Option<string> {
    if wire == [] then None
    else if wire[|wire| - 1].Secret? then Some(wire[|wire| - 1].hex)
    else LastSecret(wire[..|wire| - 1])
  }

  lemma LastSecretAppended(wire: seq<Line>, hex: string)
    ensures LastSecret(wire + [Secret(hex)]) == Some(hex)
  {
  }

  /** Reading the oldest line changes the last secret only if that line was it. */
  lemma {:induction false} LastSecretRead(wire: seq<Line>)
    requires wire != []
    ensures LastSecret(wire[1..]).Some? ==> LastSecret(wire) == LastSecret(wire[1..])
    ensures LastSecret(wire[1..]).None? ==>
              LastSecret(wire) == if wire[0].Secret? then Some(wire[0].hex) else None
  {
    var n := |wire| - 1;
    if n == 0 {
    } else if !wire[n].Secret? {
      LastSecretRead(wire[..n]);
      assert wire[1..][..n - 1] == wire[..n][1..];
    }
  }

  // ---------------------------------------------------------------- the invariant

  /** Each connection has a client whose auth key comes from what its user typed. */
  ghost predicate ClientsSound(env: Env, s: State, clients: map<PeerId, Client>) {
    && s.wires.Keys == clients.Keys
    && forall p :: p in clients ==>
         clients[p].keys.auth == AuthKey(env.kdf, clients[p].roomName, clients[p].password)
  }

  /** What a client's keys must become from a secret. */
  function KeysFrom(env: Env, c: Client, secret: Bytes): Keys {
    GroupKeys(env.kdf, AuthKey(env.kdf, c.roomName, c.password), secret)
  }

  predicate InSync(env: Env, s: State, clients: map<PeerId, Client>, p: PeerId, secret: Bytes) {
    p in clients && p in s.wires && p in s.peers && s.peers[p].open ==>
      match LastSecret(s.wires[p])
      case None => clients[p].keys == KeysFrom(env, clients[p], secret)
      case Some(hex) => hex == Encode(secret)
  }

  ghost predicate MembersInSync(env: Env, s: State, clients: map<PeerId, Client>) {
    forall r, a :: r in s.heap && a in s.heap[r].members ==>
      InSync(env, s, clients, s.heap[r].members[a], s.heap[r].secret)
  }

  /** The JOIN that let a member in named its room and, in an auth room, had the owner's auth key. */
  ghost predicate JoinOK(env: Env, room: Room, joined: map<PeerId, JoinFields>, p: PeerId) {
    && p in joined && joined[p].room == room.name
    && (room.hasAuth ==>
          joined[p].password != "" && AuthKey(env.kdf, room.name, joined[p].password) == room.ownerAuthKey)
  }

  ghost predicate JoinsSound(env: Env, s: State, joined: map<PeerId, JoinFields>) {
    forall r, a :: r in s.heap && a in s.heap[r].members ==> JoinOK(env, s.heap[r], joined, s.heap[r].members[a])
  }

  ghost predicate SystemOK(env: Env, sys: System) {
    && RelayOK(env, sys.relay)
    && ClientsSound(env, sys.relay, sys.clients)
    && MembersInSync(env, sys.relay, sys.clients)
    && JoinsSound(env, sys.relay, sys.joined)
  }

  // ---------------------------------------------------------------- what a step may leave alone

  /** Every member of `t` was one in `s`, and its room kept its name, auth setting and owner key. */
  ghost predicate NoNewMembers(s: State, t: State) {
    forall r, a :: r in t.heap && a in t.heap[r].members ==>
      && r in s.heap && a in s.heap[r].members && t.heap[r].members[a] == s.heap[r].members[a]
      && t.heap[r].name == s.heap[r].name && t.heap[r].hasAuth == s.heap[r].hasAuth
      && t.heap[r].ownerAuthKey == s.heap[r].ownerAuthKey
  }

  /** Nor was a connection opened, a secret rotated, or a line written to or read from a member. */
  ghost predicate Quiet(s: State, t: State) {
    && NoNewMembers(s, t)
    && t.wires.Keys == s.wires.Keys
    && (forall p :: p in t.peers && t.peers[p].open ==> p in s.peers && s.peers[p].open)
    && (forall r, a :: r in t.heap && a in t.heap[r].members ==>
          t.heap[r].secret == s.heap[r].secret
          && (t.heap[r].members[a] in t.wires ==>
                t.wires[t.heap[r].members[a]] == s.wires[t.heap[r].members[a]]))
  }

  lemma QuietSync(env: Env, s: State, t: State, clients: map<PeerId, Client>)
    requires MembersInSync(env, s, clients) && Quiet(s, t)
    ensures MembersInSync(env, t, clients)
  {
  }

  lemma QuietJoins(env: Env, s: State, t: State, joined: map<PeerId, JoinFields>)
    requires JoinsSound(env, s, joined) && NoNewMembers(s, t)
    ensures JoinsSound(env, t, joined)
  {
  }

  lemma CreateQuiet(env: Env, s: State, name: string, password: string, id: RoomId, secret: Bytes)
    requires id !in s.heap
    ensures Quiet(s, Create(env, s, name, password, id, secret))
  {
  }

  lemma OpenedQuiet(env: Env, s: State, f: JoinFields, addr: string, id: RoomId, secret: Bytes)
    requires id !in s.heap
    ensures Quiet(s, Opened(env, s, f, addr, id, secret))
  {
  }

  lemma DepartureQuiet(s: State, p: PeerId, owner: string, t: State)
    requires Closed(s) && p in s.peers && IsDeparture(s, p, owner, t)
    ensures Quiet(s, t)
  {
  }

  /** Steps that neither add a member, nor rotate a secret, nor write or read a line. */
  lemma QuietStep(env: Env, sys: System, e: Event)
    requires Closed(sys.relay) && Enabled(sys, e)
    requires e.CreateRoom? || e.Rename? || e.Unban? || e.ReaderExit? || e.LinkFailure?
    ensures Quiet(sys.relay, Next(env, sys, e).relay)
    ensures Next(env, sys, e) == sys.(relay := Next(env, sys, e).relay)
  {
    var s := sys.relay;
    match e
    case CreateRoom(name, password, id, secret) => CreateQuiet(env, s, name, password, id, secret);
    case ReaderExit(p) =>
      DepartedIsDeparture(s, p, OwnerAfter(s, p));
      DepartureQuiet(s, p, OwnerAfter(s, p), Exited(s, p));
    case _ =>
  }

  // ---------------------------------------------------------------- steps

  lemma AcceptSync(env: Env, s: State, clients: map<PeerId, Client>, p: PeerId, addr: string, alias: string, c: Client)
    requires Membership(s) && MembersInSync(env, s, clients) && p !in s.peers
    ensures MembersInSync(env, Accept(s, p, addr, alias), clients[p := c])
  {
  }

  lemma TurnedAwaySync(env: Env, s: State, clients: map<PeerId, Client>, p: PeerId, reason: string)
    requires Membership(s) && MembersInSync(env, s, clients) && p in s.peers && s.peers[p].room.None?
    ensures MembersInSync(env, TurnedAway(s, p, reason), clients)
  {
  }

  /** The joiner's last line is the room's secret; the others' wires are untouched. */
  lemma EnteredSync(env: Env, s: State, clients: map<PeerId, Client>, p: PeerId, r: RoomId)
    requires Membership(s) && MembersInSync(env, s, clients)
    requires p in s.peers && r in s.heap && s.peers[p].room.None?
    ensures MembersInSync(env, Entered(s, p, r), clients)
  {
  }

  lemma EnteredJoins(env: Env, s: State, joined: map<PeerId, JoinFields>, p: PeerId, r: RoomId, f: JoinFields)
    requires Membership(s) && JoinsSound(env, s, joined)
    requires p in s.peers && r in s.heap && s.peers[p].room.None?
    requires JoinOK(env, s.heap[r], joined[p := f], p)
    ensures JoinsSound(env, Entered(s, p, r), joined[p := f])
  {
  }

  lemma OpenedMembership(env: Env, s: State, f: JoinFields, addr: string, id: RoomId, secret: Bytes)
    requires Membership(s) && id !in s.heap
    ensures Membership(Opened(env, s, f, addr, id, secret))
  {
  }

  /** The password check of an admitted JOIN compares with the owner's auth key. */
  lemma AdmittedJoin(env: Env, s: State, p: PeerId, f: JoinFields, id: RoomId, secret: Bytes,
                     joined: map<PeerId, JoinFields>)
    requires Registry(s) && KeysSound(env, s) && p in s.peers && id !in s.heap
    requires Admission(env, s, s.peers[p], f) == Admitted
    ensures var o := Opened(env, s, f, s.peers[p].addr, id, secret);
            JoinOK(env, o.heap[o.rooms[f.room]], joined[p := f], p)
  {
    if f.room in s.rooms { assert RoomSound(env, s, s.heap[s.rooms[f.room]]); }
  }

  lemma LetInSync(env: Env, s: State, clients: map<PeerId, Client>, joined: map<PeerId, JoinFields>,
                  p: PeerId, f: JoinFields, id: RoomId, secret: Bytes)
    requires RelayOK(env, s) && MembersInSync(env, s, clients) && JoinsSound(env, s, joined)
    requires p in s.peers && s.peers[p].room.None? && id !in s.heap
    requires Admission(env, s, s.peers[p], f) == Admitted
    ensures var t := LetIn(env, s, p, f, id, secret);
            MembersInSync(env, t, clients) && JoinsSound(env, t, joined[p := f])
  {
    var o := Opened(env, s, f, s.peers[p].addr, id, secret);
    OpenedQuiet(env, s, f, s.peers[p].addr, id, secret);
    OpenedMembership(env, s, f, s.peers[p].addr, id, secret);
    QuietSync(env, s, o, clients);
    QuietJoins(env, s, o, joined);
    AdmittedJoin(env, s, p, f, id, secret, joined);
    EnteredSync(env, o, clients, p, o.rooms[f.room]);
    EnteredJoins(env, o, joined, p, o.rooms[f.room], f);
  }

  /** Whoever is left after an eviction has the new secret as its last one. */
  lemma EvictionSync(env: Env, s: State, clients: map<PeerId, Client>, r: RoomId, target: string,
                     secret: Bytes, t: State)
    requires Membership(s) && MembersInSync(env, s, clients)
    requires Targets(s, r, target) && IsEviction(env, s, r, target, secret, t)
    ensures MembersInSync(env, t, clients)
  {
    assert IsMember(s, r, target, s.heap[r].members[target]);
    forall r', a | r' in t.heap && a in t.heap[r'].members
      ensures InSync(env, t, clients, t.heap[r'].members[a], t.heap[r'].secret)
    {
      var p := t.heap[r'].members[a];
      assert IsMember(s, r', a, p);
      assert InSync(env, s, clients, p, s.heap[r'].secret);
      LastSecretAppended(s.wires[p], Encode(secret));
    }
  }

  lemma EvictedSync(env: Env, s: State, clients: map<PeerId, Client>, r: RoomId, target: string, why: string,
                    secret: Bytes)
    requires Membership(s) && MembersInSync(env, s, clients) && Targets(s, r, target)
    ensures MembersInSync(env, Evicted(env, s, r, target, why, secret), clients)
  {
    EvictedIsEviction(env, s, r, target, why, secret);
    EvictionSync(env, s, clients, r, target, secret, Evicted(env, s, r, target, why, secret));
  }

  /** One line read by a client in sync leaves it in sync. */
  lemma ProcessedSync(env: Env, wire: seq<Line>, c: Client, secret: Bytes)
    requires wire != [] && secret != []
    requires c.keys.auth == AuthKey(env.kdf, c.roomName, c.password)
    requires match LastSecret(wire)
             case None => c.keys == KeysFrom(env, c, secret)
             case Some(hex) => hex == Encode(secret)
    ensures match LastSecret(wire[1..])
            case None => Processed(env, c, wire[0]).keys == KeysFrom(env, c, secret)
            case Some(hex) => hex == Encode(secret)
  {
    LastSecretRead(wire);
    RoundTrip(secret);
    EncodeAlphabet(secret);
  }

  lemma DeliveredSync(env: Env, s: State, clients: map<PeerId, Client>, p: PeerId)
    requires KeysSound(env, s) && ClientsSound(env, s, clients) && MembersInSync(env, s, clients)
    requires p in clients && p in s.wires && s.wires[p] != []
    ensures MembersInSync(env, Delivered(s, p), clients[p := Processed(env, clients[p], s.wires[p][0])])
  {
    var t := Delivered(s, p);
    var clients' := clients[p := Processed(env, clients[p], s.wires[p][0])];
    forall r, a | r in t.heap && a in t.heap[r].members
      ensures InSync(env, t, clients', t.heap[r].members[a], t.heap[r].secret)
    {
      var q := s.heap[r].members[a];
      assert InSync(env, s, clients, q, s.heap[r].secret);
      if q == p && p in s.peers && s.peers[p].open {
        assert RoomSound(env, s, s.heap[r]);
        ProcessedSync(env, s.wires[p], clients[p], s.heap[r].secret);
      }
    }
  }

  lemma ProcessedAuth(env: Env, c: Client, line: Line)
    requires c.keys.auth == AuthKey(env.kdf, c.roomName, c.password)
    ensures var d := Processed(env, c, line);
            d.roomName == c.roomName && d.password == c.password
            && d.keys.auth == AuthKey(env.kdf, d.roomName, d.password)
  {
  }

  // ---------------------------------------------------------------- every step

  lemma TurnedAwayJoins(env: Env, s: State, joined: map<PeerId, JoinFields>, p: PeerId, reason: string)
    requires JoinsSound(env, s, joined) && p in s.peers && s.peers[p].room.None?
    ensures var t := TurnedAway(s, p, reason);
            JoinsSound(env, t, joined) && p in t.peers && t.peers[p].room.None?
  {
  }

  lemma JoinSync(env: Env, s: State, clients: map<PeerId, Client>, joined: map<PeerId, JoinFields>,
                 p: PeerId, f: JoinFields, id: RoomId, secret: Bytes)
    requires RelayOK(env, s) && MembersInSync(env, s, clients) && JoinsSound(env, s, joined)
    requires p in s.peers && s.peers[p].room.None? && id !in s.heap
    ensures var t := Join(env, s, p, f, id, secret);
      && MembersInSync(env, t, clients)
      && p in t.peers && JoinsSound(env, t, if t.peers[p].room.Some? then joined[p := f] else joined)
  {
    var s1 := WithPeer(s, p, Identified(s.peers[p], f));
    IdentifiedKeeps(env, s, p, f);
    assert Quiet(s, s1);
    QuietSync(env, s, s1, clients);
    QuietJoins(env, s, s1, joined);
    match Admission(env, s1, s1.peers[p], f)
    case Refused(reason) =>
      TurnedAwaySync(env, s1, clients, p, reason);
      TurnedAwayJoins(env, s1, joined, p, reason);
    case Admitted =>
      LetInSync(env, s1, clients, joined, p, f, id, secret);
  }

  lemma EvictedJoins(env: Env, s: State, joined: map<PeerId, JoinFields>, r: RoomId, target: string, why: string,
                     secret: Bytes)
    requires JoinsSound(env, s, joined) && r in s.heap && target in s.heap[r].members
    ensures JoinsSound(env, Evicted(env, s, r, target, why, secret), joined)
  {
  }

  lemma BanishedSync(env: Env, s: State, clients: map<PeerId, Client>, joined: map<PeerId, JoinFields>,
                     r: RoomId, target: string, why: string, secret: Bytes)
    requires Membership(s) && MembersInSync(env, s, clients) && JoinsSound(env, s, joined)
    requires Targets(s, r, target)
    ensures var t := Banished(env, s, r, target, why, secret);
            MembersInSync(env, t, clients) && JoinsSound(env, t, joined)
  {
    var l := Listed(s, target, s.peers[s.heap[r].members[target]]);
    assert Quiet(s, l);
    MembersKeep(s, l);
    QuietSync(env, s, l, clients);
    QuietJoins(env, s, l, joined);
    EvictedSync(env, l, clients, r, target, why, secret);
    EvictedJoins(env, l, joined, r, target, why, secret);
  }

  lemma JoinWires(env: Env, s: State, p: PeerId, f: JoinFields, id: RoomId, secret: Bytes)
    requires Closed(s) && p in s.peers
    ensures Join(env, s, p, f, id, secret).wires.Keys == s.wires.Keys
  {
  }

  /** No step loses a connection's wire, and only Connect makes one. */
  lemma StepWires(env: Env, sys: System, e: Event)
    requires Closed(sys.relay) && Enabled(sys, e)
    ensures Next(env, sys, e).relay.wires.Keys
         == sys.relay.wires.Keys + (if e.Connect? then {e.p} else {})
  {
    match e
    case JoinRoom(p, f, id, secret) => JoinWires(env, sys.relay, p, f, id, secret);
    case CreateRoom(_, _, _, _) => QuietStep(env, sys, e);
    case ReaderExit(_) => QuietStep(env, sys, e);
    case _ =>
  }

  lemma ClientsKept(env: Env, sys: System, e: Event)
    requires Closed(sys.relay) && ClientsSound(env, sys.relay, sys.clients) && Enabled(sys, e)
    ensures ClientsSound(env, Next(env, sys, e).relay, Next(env, sys, e).clients)
  {
    StepWires(env, sys, e);
    if e.Receive? { ProcessedAuth(env, sys.clients[e.p], sys.relay.wires[e.p][0]); }
  }

  lemma StepInSync(env: Env, sys: System, e: Event)
    requires SystemOK(env, sys) && Enabled(sys, e)
    ensures var next := Next(env, sys, e);
            MembersInSync(env, next.relay, next.clients) && JoinsSound(env, next.relay, next.joined)
  {
    var s := sys.relay;
    match e
    case Connect(p, addr, alias, roomName, password) =>
      AcceptSync(env, s, sys.clients, p, addr, alias, NewClient(env, roomName, password));
      QuietJoins(env, s, Accept(s, p, addr, alias), sys.joined);
    case JoinRoom(p, f, id, secret) =>
      JoinSync(env, s, sys.clients, sys.joined, p, f, id, secret);
    case Kick(_, r, target, secret) =>
      EvictedSync(env, s, sys.clients, r, target, KickNotice(s.heap[r]), secret);
      EvictedJoins(env, s, sys.joined, r, target, KickNotice(s.heap[r]), secret);
    case Ban(_, r, target, secret) =>
      BanishedSync(env, s, sys.clients, sys.joined, r, target, BanNotice(s.heap[r]), secret);
    case Receive(p) =>
      DeliveredSync(env, s, sys.clients, p);
      QuietJoins(env, s, Delivered(s, p), sys.joined);
    case _ =>
      QuietStep(env, sys, e);
      QuietSync(env, s, Next(env, sys, e).relay, sys.clients);
      QuietJoins(env, s, Next(env, sys, e).relay, sys.joined);
  }

  lemma NextInSync(env: Env, sys: System, e: Event)
    requires Lawful(env.kdf) && SystemOK(env, sys) && Enabled(sys, e)
    ensures SystemOK(env, Next(env, sys, e))
  {
    StepKeeps(env, sys, e);
    ClientsKept(env, sys, e);
    StepInSync(env, sys, e);
  }

  lemma EmptySystemOK(env: Env)
    ensures SystemOK(env, EMPTY)
  {
    EmptyRelayOK(env);
  }

  lemma {:induction false} RunInSync(env: Env, run: seq<System>, events: seq<Event>, i: nat)
    requires Lawful(env.kdf) && IsRun(env, run, events) && i < |run|
    ensures SystemOK(env, run[i])
  {
    if i == 0 {
      EmptySystemOK(env);
    } else {
      RunInSync(env, run, events, i - 1);
      NextInSync(env, run[i - 1], events[i - 1]);
      assert run[i] == Next(env, run[i - 1], events[i - 1]);
    }
  }

  // ---------------------------------------------------------------- the theorems

  /** The relay parsed the JOIN into the room and password the client uses. */
  predicate SameConfig(c: Client, f: JoinFields) {
    c.roomName == f.room && c.password == f.password
  }

  /**
   Key agreement over every run: a member with an open connection, in a room with auth or with no
   password in a room without, either has the room's keys, or the last secret on its way to it
   decodes to the room's secret.
   */
  lemma MembersAgree(env: Env, run: seq<System>, events: seq<Event>, i: nat, r: RoomId, a: string)
    requires Lawful(env.kdf) && IsRun(env, run, events) && i < |run|
    requires r in run[i].relay.heap && a in run[i].relay.heap[r].members
    ensures var s, room := run[i].relay, run[i].relay.heap[r];
            var p := room.members[a];
      && p in s.peers && p in s.wires && p in run[i].clients && p in run[i].joined
      && (s.peers[p].open && SameConfig(run[i].clients[p], run[i].joined[p])
          && (room.hasAuth || run[i].joined[p].password == "") ==>
            match LastSecret(s.wires[p])
            case None => run[i].clients[p].keys == room.keys
            case Some(hex) => Decode(hex) == Some(room.secret))
  {
    RunInSync(env, run, events, i);
    var s := run[i].relay;
    var p := s.heap[r].members[a];
    assert IsMember(s, r, a, p);
    assert RoomSound(env, s, s.heap[r]);
    assert JoinOK(env, s.heap[r], run[i].joined, p);
    assert InSync(env, s, run[i].clients, p, s.heap[r].secret);
    RoundTrip(s.heap[r].secret);
  }

  /**
   Exactly when a settled member has the room's keys, if the derivation functions do not collide
   on its password: the room has auth, or the member gave no password, or it gave the room's name.
   A password given to a room without auth is let in and silently derives other keys.
   */
  lemma AgreesExactlyWhen(env: Env, run: seq<System>, events: seq<Event>, i: nat, r: RoomId, a: string)
    requires Lawful(env.kdf) && IsRun(env, run, events) && i < |run|
    requires r in run[i].relay.heap && a in run[i].relay.heap[r].members
    requires var s, room := run[i].relay, run[i].relay.heap[r];
             var p := room.members[a];
      && p in s.peers && s.peers[p].open && p in s.wires && LastSecret(s.wires[p]) == None
      && p in run[i].clients && p in run[i].joined && SameConfig(run[i].clients[p], run[i].joined[p])
      && NoCollision(env.kdf, room.name, run[i].joined[p].password, room.name, room.secret)
    ensures var room := run[i].relay.heap[r];
            var c := run[i].clients[room.members[a]];
      && (c.keys.enc == room.keys.enc <==> room.hasAuth || c.password == "" || c.password == room.name)
      && (c.keys.hmac == room.keys.hmac <==> room.hasAuth || c.password == "" || c.password == room.name)
  {
    RunInSync(env, run, events, i);
    var s := run[i].relay;
    var room := s.heap[r];
    var p := room.members[a];
    assert IsMember(s, r, a, p);
    assert RoomSound(env, s, room);
    assert JoinOK(env, room, run[i].joined, p);
    assert InSync(env, s, run[i].clients, p, room.secret);
  }
}
