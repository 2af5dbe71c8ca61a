/** What holds in every reachable state, predicate by predicate, and that each step keeps it. */
module RelayInvariant {
  import opened Wrappers
  import opened Hex
  import opened RoomKeys
  import opened Relay
  import opened Protocol

  // ---------------------------------------------------------------- the invariant

  /** Rooms are registered under their own name, and a room with members is registered. */
  ghost predicate Registry(s: State) {
    && Closed(s)
    && (forall n :: n in s.rooms ==> s.heap[s.rooms[n]].name == n)
    && (forall r :: r in s.heap && s.heap[r].members != map[] ==>
          s.heap[r].name in s.rooms && s.rooms[s.heap[r].name] == r)
  }

  predicate IsMember(s: State, r: RoomId, a: string, p: PeerId) {
    p in s.peers && s.peers[p].addr == a && s.peers[p].room == Some(r)
  }

  /** Live addresses are distinct; members are keyed by their address and point back. */
  ghost predicate Membership(s: State) {
    && (forall p :: p in s.peers ==> p in s.wires && PlainAddr(s.peers[p].addr))
    && (forall p, q :: p in s.peers && q in s.peers && s.peers[p].addr == s.peers[q].addr ==> p == q)
    && (forall r, a :: r in s.heap && a in s.heap[r].members ==> IsMember(s, r, a, s.heap[r].members[a]))
  }

  /** The connection's reader runs and its room is `r`: a member, or evicted with removal pending. */
  predicate Attached(s: State, p: PeerId, r: RoomId) {
    p in s.peers && s.peers[p].room == Some(r)
  }

  /** Evicted, but its removePeer has not run yet. */
  predicate Pending(s: State, p: PeerId, r: RoomId) {
    Attached(s, p, r) && r in s.heap && s.peers[p].addr !in s.heap[r].members
  }

  ghost predicate OwnerAttached(s: State, r: RoomId)
    requires r in s.heap
  {
    exists p :: Attached(s, p, r) && s.peers[p].addr == s.heap[r].owner
  }

  /** Empty, and neither kept for its creator nor beyond collection for want of a name. */
  predicate Vacant(room: Room) {
    room.name != "" && !room.createdLocally && room.members == map[]
  }

  ghost predicate OwnerSound(s: State, r: RoomId)
    requires r in s.heap
  {
    if s.heap[r].owner == "" then s.heap[r].members == map[] else OwnerAttached(s, r)
  }

  ghost predicate VacancySound(s: State, n: string)
    requires n in s.rooms && s.rooms[n] in s.heap
  {
    Vacant(s.heap[s.rooms[n]]) ==> exists p :: Attached(s, p, s.rooms[n])
  }

  ghost predicate Ownership(s: State)
    requires Closed(s)
  {
    && (forall r :: r in s.heap ==> OwnerSound(s, r))
    && (forall n :: n in s.rooms ==> VacancySound(s, n))
  }

  /** The auth key a room's keys descend from. */
  function RoomAuth(env: Env, room: Room): Bytes {
    if room.hasAuth then room.ownerAuthKey else env.kdf.argon2id(room.name, room.name)
  }

  ghost predicate RoomSound(env: Env, s: State, room: Room) {
    && room.keys == GroupKeys(env.kdf, RoomAuth(env, room), room.secret)
    && |room.secret| == 32 && room.secret in s.drawn
    && (room.hasAuth ==> |room.ownerAuthKey| == 32)
  }

  ghost predicate KeysSound(env: Env, s: State) {
    forall r :: r in s.heap ==> RoomSound(env, s, s.heap[r])
  }

  /** No banned address has a member; aliases on record with a device still have their entry. */
  ghost predicate BansHold(s: State) {
    && (forall r, a :: r in s.heap && a in s.heap[r].members ==> a !in s.banned)
    && (forall alias :: alias in s.deviceOf && s.deviceOf[alias] != "" ==> ("alias:" + alias) in s.banned)
  }

  ghost predicate RelayOK(env: Env, s: State) {
    Registry(s) && Membership(s) && Ownership(s) && KeysSound(env, s) && BansHold(s)
  }

  // ---------------------------------------------------------------- what a step may leave alone

  /** Every connection of `s` is still there with its address, and with its room if it had one. */
  ghost predicate AttachmentsKept(s: State, t: State) {
    forall p :: p in s.peers ==>
      p in t.peers && t.peers[p].addr == s.peers[p].addr
      && (s.peers[p].room.Some? ==> t.peers[p].room == s.peers[p].room)
  }

  lemma MembersKeep(s: State, t: State)
    requires Membership(s) && AttachmentsKept(s, t)
    requires forall p :: p in t.peers ==> p in s.peers && p in t.wires
    requires forall r, a :: r in t.heap && a in t.heap[r].members ==>
               IsMember(t, r, a, t.heap[r].members[a])
               || (r in s.heap && a in s.heap[r].members && t.heap[r].members[a] == s.heap[r].members[a])
    ensures Membership(t)
  {
  }

  lemma OwnersKeep(s: State, t: State)
    requires Closed(s) && Closed(t) && Ownership(s) && AttachmentsKept(s, t)
    requires forall r :: r in t.heap ==>
               OwnerSound(t, r)
               || (r in s.heap && t.heap[r].owner == s.heap[r].owner != "")
    requires forall n :: n in t.rooms ==>
               VacancySound(t, n)
               || (n in s.rooms && t.rooms[n] == s.rooms[n] && Vacant(s.heap[s.rooms[n]]))
    ensures Ownership(t)
  {
    forall r | r in t.heap ensures OwnerSound(t, r) {
      if r in s.heap && t.heap[r].owner == s.heap[r].owner != "" {
        assert OwnerSound(s, r);
        var p :| Attached(s, p, r) && s.peers[p].addr == s.heap[r].owner;
        assert Attached(t, p, r);
      }
    }
    forall n | n in t.rooms ensures VacancySound(t, n) {
      if n in s.rooms && t.rooms[n] == s.rooms[n] && Vacant(s.heap[s.rooms[n]]) {
        assert VacancySound(s, n);
        var p :| Attached(s, p, s.rooms[n]);
        assert Attached(t, p, t.rooms[n]);
      }
    }
  }

  // ---------------------------------------------------------------- steps

  /** Only wires, link state, aliases and device IDs differ. */
  ghost predicate SameButLinks(s: State, t: State) {
    && t.rooms == s.rooms && t.heap == s.heap && t.banned == s.banned && t.deviceOf == s.deviceOf
    && t.drawn == s.drawn && t.wires.Keys == s.wires.Keys && t.peers.Keys == s.peers.Keys
    && forall p :: p in s.peers ==> t.peers[p].addr == s.peers[p].addr && t.peers[p].room == s.peers[p].room
  }

  lemma LinksOwnership(s: State, t: State)
    requires Closed(s) && Ownership(s) && SameButLinks(s, t)
    ensures Closed(t) && Ownership(t)
  {
    forall r | r in t.heap && t.heap[r].owner == "" ensures OwnerSound(t, r) { assert OwnerSound(s, r); }
    forall n | n in t.rooms && !Vacant(s.heap[s.rooms[n]]) ensures VacancySound(t, n) {}
    OwnersKeep(s, t);
  }

  lemma LinksKeep(env: Env, s: State, t: State)
    requires RelayOK(env, s) && SameButLinks(s, t)
    ensures RelayOK(env, t)
  {
    MembersKeep(s, t);
    LinksOwnership(s, t);
  }

  lemma SentKeeps(env: Env, s: State, to: set<PeerId>, line: Line)
    requires RelayOK(env, s)
    ensures RelayOK(env, Sent(s, to, line))
  {
    LinksKeep(env, s, Sent(s, to, line));
  }

  lemma HangupSame(s: State, p: PeerId)
    ensures SameButLinks(s, Hangup(s, p))
  {
  }

  lemma HangupKeeps(env: Env, s: State, p: PeerId)
    requires RelayOK(env, s)
    ensures RelayOK(env, Hangup(s, p))
  {
    HangupSame(s, p);
    LinksKeep(env, s, Hangup(s, p));
  }

  lemma DeliveredKeeps(env: Env, s: State, p: PeerId)
    requires RelayOK(env, s) && p in s.wires && s.wires[p] != []
    ensures RelayOK(env, Delivered(s, p))
  {
    LinksKeep(env, s, Delivered(s, p));
  }

  lemma RenamedKeeps(env: Env, s: State, p: PeerId, alias: string)
    requires RelayOK(env, s) && p in s.peers
    ensures RelayOK(env, Renamed(s, p, alias))
  {
    LinksKeep(env, s, Renamed(s, p, alias));
  }

  lemma AcceptMembership(s: State, p: PeerId, addr: string, alias: string)
    requires Membership(s)
    requires p !in s.peers && PlainAddr(addr) && forall q :: q in s.peers ==> s.peers[q].addr != addr
    ensures Membership(Accept(s, p, addr, alias))
  {
  }

  lemma AcceptOwnership(s: State, p: PeerId, addr: string, alias: string)
    requires Closed(s) && Ownership(s) && p !in s.peers
    ensures Closed(Accept(s, p, addr, alias)) && Ownership(Accept(s, p, addr, alias))
  {
    var t := Accept(s, p, addr, alias);
    forall r | r in t.heap && t.heap[r].owner == "" ensures OwnerSound(t, r) { assert OwnerSound(s, r); }
    OwnersKeep(s, t);
  }

  lemma AcceptKeeps(env: Env, s: State, p: PeerId, addr: string, alias: string)
    requires RelayOK(env, s)
    requires p !in s.peers && PlainAddr(addr) && forall q :: q in s.peers ==> s.peers[q].addr != addr
    ensures RelayOK(env, Accept(s, p, addr, alias))
  {
    AcceptMembership(s, p, addr, alias);
    AcceptOwnership(s, p, addr, alias);
  }

  /** A room entered in the registry under an unused name. */
  function Registered(s: State, id: RoomId, room: Room): State {
    s.(rooms := s.rooms[room.name := id], heap := s.heap[id := room], drawn := s.drawn + {room.secret})
  }

  lemma RegisteredOwnership(s: State, id: RoomId, room: Room)
    requires Closed(s) && Ownership(s) && room.name !in s.rooms && id !in s.heap
    requires room.members == map[] && room.owner == "" && !Vacant(room)
    ensures Closed(Registered(s, id, room)) && Ownership(Registered(s, id, room))
  {
    var t := Registered(s, id, room);
    forall r | r in t.heap && t.heap[r].owner == "" ensures OwnerSound(t, r) {
      if r != id { assert OwnerSound(s, r); }
    }
    OwnersKeep(s, t);
  }

  lemma RegisteredMembership(s: State, id: RoomId, room: Room)
    requires Membership(s) && id !in s.heap && room.members == map[]
    ensures Membership(Registered(s, id, room))
  {
  }

  lemma RegisteredRegistry(s: State, id: RoomId, room: Room)
    requires Registry(s) && room.name !in s.rooms && id !in s.heap && room.members == map[]
    ensures Registry(Registered(s, id, room))
  {
  }

  lemma RegisteredKeys(env: Env, s: State, id: RoomId, room: Room)
    requires KeysSound(env, s) && id !in s.heap
    requires RoomSound(env, Registered(s, id, room), room)
    ensures KeysSound(env, Registered(s, id, room))
  {
  }

  lemma RegisteredBans(s: State, id: RoomId, room: Room)
    requires BansHold(s) && id !in s.heap && room.members == map[]
    ensures BansHold(Registered(s, id, room))
  {
  }

  lemma CreateKeeps(env: Env, s: State, name: string, password: string, id: RoomId, secret: Bytes)
    requires Lawful(env.kdf) && RelayOK(env, s) && id !in s.heap && FreshSecret(s, secret)
    ensures RelayOK(env, Create(env, s, name, password, id, secret))
  {
    if name !in s.rooms {
      var t := Create(env, s, name, password, id, secret);
      assert t == Registered(s, id, t.heap[id]);
      RegisteredRegistry(s, id, t.heap[id]);
      RegisteredOwnership(s, id, t.heap[id]);
      RegisteredMembership(s, id, t.heap[id]);
      RegisteredKeys(env, s, id, t.heap[id]);
      RegisteredBans(s, id, t.heap[id]);
    }
  }

  // ---------------------------------------------------------------- JOIN

  lemma EnteredRegistry(s: State, p: PeerId, r: RoomId)
    requires Registry(s) && p in s.peers && r in s.heap
    requires s.heap[r].name in s.rooms && s.rooms[s.heap[r].name] == r
    ensures Registry(Entered(s, p, r))
  {
  }

  lemma EnteredMembership(s: State, p: PeerId, r: RoomId)
    requires Membership(s) && p in s.peers && r in s.heap && s.peers[p].room.None?
    ensures Membership(Entered(s, p, r))
  {
    var t := Entered(s, p, r);
    forall r', a | r' in t.heap && a in t.heap[r'].members
      ensures IsMember(t, r', a, t.heap[r'].members[a])
    {
      if r' != r || a != s.peers[p].addr { assert IsMember(s, r', a, s.heap[r'].members[a]); }
    }
  }

  /** For a room just made, the joiner is its owner before it is a member. */
  lemma EnteredOwnership(s: State, p: PeerId, r: RoomId)
    requires Closed(s) && p in s.peers && r in s.heap && s.peers[p].room.None? && s.peers[p].addr != ""
    requires forall r' :: r' in s.heap && r' != r ==> OwnerSound(s, r')
    requires s.heap[r].owner == s.peers[p].addr || OwnerSound(s, r)
    requires forall n :: n in s.rooms && s.rooms[n] != r ==> VacancySound(s, n)
    ensures Closed(Entered(s, p, r)) && Ownership(Entered(s, p, r))
  {
    var t := Entered(s, p, r);
    forall r' | r' in t.heap ensures OwnerSound(t, r') {
      if r' == r && (s.heap[r].owner == "" || s.heap[r].owner == s.peers[p].addr) {
        assert Attached(t, p, r);
      } else if s.heap[r'].owner != "" {
        var q :| Attached(s, q, r') && s.peers[q].addr == s.heap[r'].owner;
        assert Attached(t, q, r');
      }
    }
    forall n | n in t.rooms ensures VacancySound(t, n) {
      if t.rooms[n] == r {
        assert s.peers[p].addr in t.heap[r].members;
      } else if Vacant(s.heap[s.rooms[n]]) {
        var q :| Attached(s, q, s.rooms[n]);
        assert Attached(t, q, t.rooms[n]);
      }
    }
  }

  lemma EnteredKeys(env: Env, s: State, p: PeerId, r: RoomId)
    requires KeysSound(env, s) && p in s.peers && r in s.heap
    ensures KeysSound(env, Entered(s, p, r))
  {
  }

  lemma EnteredBans(s: State, p: PeerId, r: RoomId)
    requires BansHold(s) && p in s.peers && r in s.heap && s.peers[p].addr !in s.banned
    ensures BansHold(Entered(s, p, r))
  {
  }

  /** Joining a room that is registered. */
  lemma EnteredKeeps(env: Env, s: State, p: PeerId, r: RoomId)
    requires RelayOK(env, s) && p in s.peers && r in s.heap && s.peers[p].room.None?
    requires s.heap[r].name in s.rooms && s.rooms[s.heap[r].name] == r
    requires s.peers[p].addr !in s.banned
    ensures RelayOK(env, Entered(s, p, r))
  {
    EnteredRegistry(s, p, r);
    EnteredMembership(s, p, r);
    EnteredOwnership(s, p, r);
    EnteredKeys(env, s, p, r);
    EnteredBans(s, p, r);
  }

  lemma FirstRoomSound(env: Env, s: State, f: JoinFields, addr: string, secret: Bytes)
    requires Lawful(env.kdf) && |secret| == 32 && secret in s.drawn
    ensures RoomSound(env, s, FirstRoom(env, f, addr, secret))
  {
  }

  lemma OpenedOwnership(s: State, p: PeerId, id: RoomId, room: Room)
    requires Closed(s) && Ownership(s) && p in s.peers && s.peers[p].room.None? && s.peers[p].addr != ""
    requires room.name !in s.rooms && id !in s.heap && room.owner == s.peers[p].addr
    ensures var t := Entered(Registered(s, id, room), p, id); Closed(t) && Ownership(t)
  {
    var o := Registered(s, id, room);
    forall r | r in o.heap && r != id ensures OwnerSound(o, r) {
      assert OwnerSound(s, r);
      if s.heap[r].owner != "" {
        var q :| Attached(s, q, r) && s.peers[q].addr == s.heap[r].owner;
        assert Attached(o, q, r);
      }
    }
    forall n | n in o.rooms && o.rooms[n] != id ensures VacancySound(o, n) {
      if Vacant(s.heap[s.rooms[n]]) {
        assert VacancySound(s, n);
        var q :| Attached(s, q, s.rooms[n]);
        assert Attached(o, q, o.rooms[n]);
      }
    }
    EnteredOwnership(o, p, id);
  }

  /** Joining under a name that is not registered makes the room. */
  lemma FoundedKeeps(env: Env, s: State, p: PeerId, f: JoinFields, id: RoomId, secret: Bytes)
    requires Lawful(env.kdf) && RelayOK(env, s) && p in s.peers && s.peers[p].room.None?
    requires f.room !in s.rooms && id !in s.heap && FreshSecret(s, secret)
    requires s.peers[p].addr !in s.banned
    ensures RelayOK(env, Entered(Opened(env, s, f, s.peers[p].addr, id, secret), p, id))
  {
    var room := FirstRoom(env, f, s.peers[p].addr, secret);
    var o := Registered(s, id, room);
    assert o == Opened(env, s, f, s.peers[p].addr, id, secret);
    RegisteredRegistry(s, id, room);
    RegisteredMembership(s, id, room);
    FirstRoomSound(env, o, f, s.peers[p].addr, secret);
    RegisteredKeys(env, s, id, room);
    RegisteredBans(s, id, room);
    OpenedOwnership(s, p, id, room);
    EnteredRegistry(o, p, id);
    EnteredMembership(o, p, id);
    EnteredKeys(env, o, p, id);
    EnteredBans(o, p, id);
  }

  lemma LetInKeeps(env: Env, s: State, p: PeerId, f: JoinFields, id: RoomId, secret: Bytes)
    requires Lawful(env.kdf) && RelayOK(env, s) && p in s.peers && s.peers[p].room.None?
    requires id !in s.heap && FreshSecret(s, secret)
    requires Admission(env, s, s.peers[p], f) == Admitted
    ensures RelayOK(env, LetIn(env, s, p, f, id, secret))
  {
    if f.room in s.rooms {
      EnteredKeeps(env, s, p, s.rooms[f.room]);
    } else {
      FoundedKeeps(env, s, p, f, id, secret);
    }
  }

  lemma TurnedAwayKeeps(env: Env, s: State, p: PeerId, reason: string)
    requires RelayOK(env, s)
    ensures RelayOK(env, TurnedAway(s, p, reason))
  {
    var line := Notice("AUTH:FAILED|" + reason);
    SentKeeps(env, s, {p}, line);
    HangupKeeps(env, Sent(s, {p}, line), p);
  }

  lemma IdentifiedKeeps(env: Env, s: State, p: PeerId, f: JoinFields)
    requires RelayOK(env, s) && p in s.peers
    ensures RelayOK(env, WithPeer(s, p, Identified(s.peers[p], f)))
  {
    LinksKeep(env, s, WithPeer(s, p, Identified(s.peers[p], f)));
  }

  lemma JoinKeeps(env: Env, s: State, p: PeerId, f: JoinFields, id: RoomId, secret: Bytes)
    requires Lawful(env.kdf) && RelayOK(env, s) && p in s.peers && s.peers[p].room.None?
    requires id !in s.heap && FreshSecret(s, secret)
    ensures RelayOK(env, Join(env, s, p, f, id, secret))
  {
    var s1 := WithPeer(s, p, Identified(s.peers[p], f));
    IdentifiedKeeps(env, s, p, f);
    match Admission(env, s1, s1.peers[p], f)
    case Refused(reason) => TurnedAwayKeeps(env, s1, p, reason);
    case Admitted => LetInKeeps(env, s1, p, f, id, secret);
  }

  // ---------------------------------------------------------------- KICK and BAN

  /** What an eviction changes, item by item. */
  ghost predicate IsEviction(env: Env, s: State, r: RoomId, target: string, secret: Bytes, t: State)
    requires Targets(s, r, target)
  {
    var room, p := s.heap[r], s.heap[r].members[target];
    var rest := room.members - {target};
    && t == State(s.rooms, t.heap, t.peers, s.banned, s.deviceOf, t.wires, s.drawn + {secret})
    && t.heap == s.heap[r := room.(members := rest, secret := secret,
                                   keys := RotateKeys(env.kdf, room.name, room.hasAuth, room.ownerAuthKey, secret))]
    && t.peers == s.peers[p := s.peers[p].(open := false)]
    && t.wires.Keys == s.wires.Keys
    && forall q :: q in s.wires && q != p ==>
         t.wires[q] == if q in rest.Values && q in s.peers && s.peers[q].open
                       then s.wires[q] + [Secret(Encode(secret))] else s.wires[q]
  }

  lemma EvictedIsEviction(env: Env, s: State, r: RoomId, target: string, why: string, secret: Bytes)
    requires Targets(s, r, target)
    ensures IsEviction(env, s, r, target, secret, Evicted(env, s, r, target, why, secret))
  {
  }

  lemma EvictionRegistry(env: Env, s: State, r: RoomId, target: string, secret: Bytes, t: State)
    requires Registry(s) && Targets(s, r, target) && IsEviction(env, s, r, target, secret, t)
    ensures Registry(t)
  {
  }

  lemma EvictionMembership(env: Env, s: State, r: RoomId, target: string, secret: Bytes, t: State)
    requires Membership(s) && Targets(s, r, target) && IsEviction(env, s, r, target, secret, t)
    ensures Membership(t)
  {
    assert IsMember(s, r, target, s.heap[r].members[target]);
    MembersKeep(s, t);
  }

  lemma EvictionOwnership(env: Env, s: State, r: RoomId, target: string, secret: Bytes, t: State)
    requires Closed(s) && Ownership(s)
    requires Targets(s, r, target) && IsMember(s, r, target, s.heap[r].members[target])
    requires IsEviction(env, s, r, target, secret, t)
    ensures Closed(t) && Ownership(t)
  {
    assert Closed(t) && AttachmentsKept(s, t);
    forall r' | r' in t.heap ensures OwnerSound(t, r') || t.heap[r'].owner == s.heap[r'].owner != "" {
      assert OwnerSound(s, r');
    }
    forall n | n in t.rooms ensures VacancySound(t, n) || Vacant(s.heap[s.rooms[n]]) {
      if t.rooms[n] == r { assert Attached(t, s.heap[r].members[target], r); }
    }
    OwnersKeep(s, t);
  }

  lemma EvictionKeys(env: Env, s: State, r: RoomId, target: string, secret: Bytes, t: State)
    requires KeysSound(env, s) && Targets(s, r, target) && |secret| == 32
    requires IsEviction(env, s, r, target, secret, t)
    ensures KeysSound(env, t)
  {
  }

  /** After an eviction nobody with a banned address is left, if only the target had one. */
  lemma EvictionBans(env: Env, s: State, r: RoomId, target: string, secret: Bytes, t: State)
    requires Targets(s, r, target) && IsEviction(env, s, r, target, secret, t)
    requires forall r', a :: r' in s.heap && a in s.heap[r'].members && (r' != r || a != target) ==> a !in s.banned
    requires forall a :: a in s.deviceOf && s.deviceOf[a] != "" ==> ("alias:" + a) in s.banned
    ensures BansHold(t)
  {
  }

  lemma EvictedKeeps(env: Env, s: State, r: RoomId, target: string, why: string, secret: Bytes)
    requires RelayOK(env, s) && Targets(s, r, target) && FreshSecret(s, secret)
    ensures RelayOK(env, Evicted(env, s, r, target, why, secret))
  {
    var t := Evicted(env, s, r, target, why, secret);
    EvictedIsEviction(env, s, r, target, why, secret);
    assert IsMember(s, r, target, s.heap[r].members[target]);
    EvictionRegistry(env, s, r, target, secret, t);
    EvictionMembership(env, s, r, target, secret, t);
    EvictionOwnership(env, s, r, target, secret, t);
    EvictionKeys(env, s, r, target, secret, t);
    EvictionBans(env, s, r, target, secret, t);
  }

  /** Nobody but the target is banned: the new entries are its address and tagged names. */
  lemma ListedBans(s: State, r: RoomId, target: string, peer: Peer)
    requires Membership(s) && BansHold(s) && Targets(s, r, target)
    ensures var t := Listed(s, target, peer);
      && (forall r', a :: r' in t.heap && a in t.heap[r'].members && (r' != r || a != target) ==> a !in t.banned)
      && (forall a :: a in t.deviceOf && t.deviceOf[a] != "" ==> ("alias:" + a) in t.banned)
  {
  }

  /** The ban list and alias records concern none of the other predicates. */
  lemma ListedRest(env: Env, s: State, t: State)
    requires Registry(s) && Membership(s) && Ownership(s) && KeysSound(env, s)
    requires t == s.(banned := t.banned, deviceOf := t.deviceOf)
    ensures Registry(t) && Membership(t) && Ownership(t) && KeysSound(env, t)
  {
    MembersKeep(s, t);
    forall r | r in t.heap && t.heap[r].owner == "" ensures OwnerSound(t, r) { assert OwnerSound(s, r); }
    OwnersKeep(s, t);
    forall r | r in t.heap ensures RoomSound(env, t, t.heap[r]) { assert RoomSound(env, s, s.heap[r]); }
  }

  lemma BanishedKeeps(env: Env, s: State, r: RoomId, target: string, why: string, secret: Bytes)
    requires RelayOK(env, s) && Targets(s, r, target) && FreshSecret(s, secret)
    ensures RelayOK(env, Banished(env, s, r, target, why, secret))
  {
    var peer := s.peers[s.heap[r].members[target]];
    var l, t := Listed(s, target, peer), Banished(env, s, r, target, why, secret);
    ListedBans(s, r, target, peer);
    ListedRest(env, s, l);
    EvictedIsEviction(env, l, r, target, why, secret);
    assert IsMember(l, r, target, l.heap[r].members[target]);
    EvictionRegistry(env, l, r, target, secret, t);
    EvictionMembership(env, l, r, target, secret, t);
    EvictionOwnership(env, l, r, target, secret, t);
    EvictionKeys(env, l, r, target, secret, t);
    EvictionBans(env, l, r, target, secret, t);
  }

  // ---------------------------------------------------------------- UNBAN

  lemma TagInjective(a: string, b: string)
    requires "alias:" + a == "alias:" + b
    ensures a == b
  {
    assert ("alias:" + a)[6..] == a && ("alias:" + b)[6..] == b;
  }

  /** An alias entry goes only together with the alias's device record. */
  lemma UnbannedAliases(s: State, target: string)
    requires BansHold(s)
    ensures BansHold(Unbanned(s, target))
  {
    var t := Unbanned(s, target);
    forall alias | alias in t.deviceOf && t.deviceOf[alias] != "" ensures ("alias:" + alias) in t.banned {
      var entry := "alias:" + alias;
      forall a | "alias:" + a == entry ensures a == alias { TagInjective(a, alias); }
      assert entry[6..] == alias && entry[0] == 'a';
      assert entry !in Cleared(s.deviceOf, target);
    }
  }

  lemma UnbannedKeeps(env: Env, s: State, target: string)
    requires RelayOK(env, s)
    ensures RelayOK(env, Unbanned(s, target))
  {
    ListedRest(env, s, Unbanned(s, target));
    UnbannedAliases(s, target);
  }

  // ---------------------------------------------------------------- reader exit

  /** The owner removePeer leaves: no one in an empty room, else a remaining member or the old owner. */
  predicate ProperOwner(s: State, p: PeerId, owner: string)
    requires Closed(s) && p in s.peers
  {
    s.peers[p].room.Some? ==>
      var room, addr := s.heap[s.peers[p].room.value], s.peers[p].addr;
      var members := room.members - {addr};
      if members == map[] then owner == ""
      else owner in members || (owner == room.owner && owner != addr)
  }

  lemma OwnerAfterProper(s: State, p: PeerId)
    requires Closed(s) && p in s.peers
    ensures ProperOwner(s, p, OwnerAfter(s, p))
  {
  }

  /** What a departure changes, item by item. */
  ghost predicate IsDeparture(s: State, p: PeerId, owner: string, t: State)
    requires Closed(s) && p in s.peers
  {
    && t == State(t.rooms, t.heap, s.peers - {p}, s.banned, s.deviceOf, s.wires, s.drawn)
    && t.heap.Keys == s.heap.Keys
    && (forall r :: r in s.heap ==>
          t.heap[r] == if s.peers[p].room == Some(r)
                       then s.heap[r].(members := s.heap[r].members - {s.peers[p].addr}, owner := owner)
                       else s.heap[r])
    && (forall n :: n in t.rooms ==> n in s.rooms && t.rooms[n] == s.rooms[n])
    && (forall n :: n in s.rooms && n !in t.rooms ==> t.heap[s.rooms[n]].members == map[])
    && (forall n :: n in t.rooms && s.peers[p].room == Some(s.rooms[n]) && s.heap[s.rooms[n]].name == n ==>
          !Vacant(t.heap[s.rooms[n]]))
  }

  lemma DepartedIsDeparture(s: State, p: PeerId, owner: string)
    requires Closed(s) && p in s.peers
    ensures IsDeparture(s, p, owner, Departed(s, p, owner))
  {
  }

  lemma DepartureRegistry(s: State, p: PeerId, owner: string, t: State)
    requires Registry(s) && p in s.peers && IsDeparture(s, p, owner, t)
    ensures Registry(t)
  {
    forall r | r in t.heap && t.heap[r].members != map[]
      ensures t.heap[r].name in t.rooms && t.rooms[t.heap[r].name] == r
    {
      assert s.heap[r].members != map[];
    }
  }

  lemma DepartureMembership(s: State, p: PeerId, owner: string, t: State)
    requires Closed(s) && Membership(s) && p in s.peers && IsDeparture(s, p, owner, t)
    ensures Membership(t)
  {
    forall r, a | r in t.heap && a in t.heap[r].members
      ensures IsMember(t, r, a, t.heap[r].members[a])
    {
      assert IsMember(s, r, a, s.heap[r].members[a]);
    }
  }

  lemma DepartureOwners(s: State, p: PeerId, owner: string, t: State, r: RoomId)
    requires Closed(s) && Membership(s) && p in s.peers && r in s.heap && OwnerSound(s, r)
    requires ProperOwner(s, p, owner) && IsDeparture(s, p, owner, t)
    ensures OwnerSound(t, r)
  {
    var a := t.heap[r].owner;
    if a != "" {
      if a in t.heap[r].members {
        assert IsMember(s, r, a, s.heap[r].members[a]);
        assert Attached(t, s.heap[r].members[a], r);
      } else {
        var q :| Attached(s, q, r) && s.peers[q].addr == s.heap[r].owner;
        assert Attached(t, q, r);
      }
    }
  }

  lemma DepartureVacancy(s: State, p: PeerId, owner: string, t: State, n: string)
    requires Registry(s) && p in s.peers && IsDeparture(s, p, owner, t)
    requires n in t.rooms && VacancySound(s, n)
    ensures VacancySound(t, n)
  {
    if s.peers[p].room != Some(s.rooms[n]) && Vacant(s.heap[s.rooms[n]]) {
      var q :| Attached(s, q, s.rooms[n]);
      assert Attached(t, q, t.rooms[n]);
    }
  }

  lemma DepartureKeys(env: Env, s: State, p: PeerId, owner: string, t: State)
    requires Closed(s) && KeysSound(env, s) && p in s.peers && IsDeparture(s, p, owner, t)
    ensures KeysSound(env, t)
  {
  }

  lemma DepartureOwnership(s: State, p: PeerId, owner: string, t: State)
    requires Registry(s) && Membership(s) && Ownership(s) && p in s.peers
    requires ProperOwner(s, p, owner) && IsDeparture(s, p, owner, t) && Closed(t)
    ensures Ownership(t)
  {
    forall r | r in t.heap ensures OwnerSound(t, r) { DepartureOwners(s, p, owner, t, r); }
    forall n | n in t.rooms ensures VacancySound(t, n) { DepartureVacancy(s, p, owner, t, n); }
  }

  lemma DepartureBans(s: State, p: PeerId, owner: string, t: State)
    requires Closed(s) && BansHold(s) && p in s.peers && IsDeparture(s, p, owner, t)
    ensures BansHold(t)
  {
  }

  lemma DepartureKeeps(env: Env, s: State, p: PeerId, owner: string, t: State)
    requires RelayOK(env, s) && p in s.peers && ProperOwner(s, p, owner) && IsDeparture(s, p, owner, t)
    ensures RelayOK(env, t)
  {
    DepartureRegistry(s, p, owner, t);
    DepartureMembership(s, p, owner, t);
    DepartureOwnership(s, p, owner, t);
    DepartureKeys(env, s, p, owner, t);
    DepartureBans(s, p, owner, t);
  }

  lemma ExitedKeeps(env: Env, s: State, p: PeerId)
    requires RelayOK(env, s) && p in s.peers
    ensures RelayOK(env, Exited(s, p))
  {
    OwnerAfterProper(s, p);
    DepartedIsDeparture(s, p, OwnerAfter(s, p));
    DepartureKeeps(env, s, p, OwnerAfter(s, p), Exited(s, p));
  }

  // ---------------------------------------------------------------- every step

  lemma StepKeeps(env: Env, sys: System, e: Event)
    requires Lawful(env.kdf) && RelayOK(env, sys.relay) && Enabled(sys, e)
    ensures RelayOK(env, Next(env, sys, e).relay)
  {
    var s := sys.relay;
    match e
    case Connect(p, addr, alias, _, _) => AcceptKeeps(env, s, p, addr, alias);
    case CreateRoom(name, password, id, secret) => CreateKeeps(env, s, name, password, id, secret);
    case JoinRoom(p, f, id, secret) => JoinKeeps(env, s, p, f, id, secret);
    case Rename(p, alias) => RenamedKeeps(env, s, p, alias);
    case Kick(_, r, target, secret) => EvictedKeeps(env, s, r, target, KickNotice(s.heap[r]), secret);
    case Ban(_, r, target, secret) => BanishedKeeps(env, s, r, target, BanNotice(s.heap[r]), secret);
    case Unban(_, _, entry) => UnbannedKeeps(env, s, entry);
    case ReaderExit(p) => ExitedKeeps(env, s, p);
    case LinkFailure(p) => HangupKeeps(env, s, p);
    case Receive(p) => DeliveredKeeps(env, s, p);
  }

  lemma EmptyRelayOK(env: Env)
    ensures RelayOK(env, EMPTY.relay)
  {
  }

  /** The relay invariant holds in every state of every run. */
  lemma {:induction false} RunKeeps(env: Env, run: seq<System>, events: seq<Event>, i: nat)
    requires Lawful(env.kdf) && IsRun(env, run, events) && i < |run|
    ensures RelayOK(env, run[i].relay)
  {
    if i == 0 {
      EmptyRelayOK(env);
    } else {
      RunKeeps(env, run, events, i - 1);
      StepKeeps(env, run[i - 1], events[i - 1]);
      assert run[i] == Next(env, run[i - 1], events[i - 1]);
    }
  }
}
