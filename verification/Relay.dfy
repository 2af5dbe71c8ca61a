/**
 The relay's state and what each handler call does to it, as functions from state to state.
 Rooms and connections have identities (`RoomId`, `PeerId`), so a connection whose room was
 deleted and created again under the same name still points at the old room.
 */
module Relay {
  import opened Wrappers
  import opened Hex
  import opened RoomKeys
  import opened AddressOrder

  type RoomId = nat
  type PeerId = nat

  /** The opaque functions the relay depends on. */
  datatype Env = Env(kdf: Kdf, equalFold: (string, string) -> bool)

  /** A line from the relay to one peer: a room secret in hex, or anything else. */
  datatype Line = Secret(hex: string) | Notice(text: string)

  datatype Room = Room(
    name: string,
    hasAuth: bool,
    keys: Keys,
    ownerAuthKey: Bytes,
    secret: Bytes,
    owner: string,
    members: map<string, PeerId>,
    createdLocally: bool)

  /** A connection whose reader runs; `open` until the relay closes it or the link fails. */
  datatype Peer = Peer(addr: string, alias: string, deviceID: string, room: Option<RoomId>, open: bool)

  /**
   `rooms` is the registry by name; `heap` holds every room ever made; `wires` holds what was
   written to each connection and not yet read by its client; `drawn` the secrets generated so far.
   */
  datatype State = State(
    rooms: map<string, RoomId>,
    heap: map<RoomId, Room>,
    peers: map<PeerId, Peer>,
    banned: set<string>,
    deviceOf: map<string, string>,
    wires: map<PeerId, seq<Line>>,
    drawn: set<Bytes>)

  /** The fields of a JOIN line as the relay parsed them. */
  datatype JoinFields = JoinFields(room: string, alias: string, password: string, deviceID: string)

  datatype Verdict = Admitted | Refused(reason: string)

  // ---------------------------------------------------------------- the registry's shape

  /** Registry entries and the peers' rooms lead to rooms that exist. */
  ghost predicate Closed(s: State) {
    && (forall n :: n in s.rooms ==> s.rooms[n] in s.heap)
    && (forall p :: p in s.peers && s.peers[p].room.Some? ==> s.peers[p].room.value in s.heap)
  }

  // ---------------------------------------------------------------- writing to peers

  /** A line written to every open connection of `to`. */
  function Sent(s: State, to: set<PeerId>, line: Line): State {
    s.(wires := map q | q in s.wires ::
         if q in to && q in s.peers && s.peers[q].open then s.wires[q] + [line] else s.wires[q])
  }

  function WithPeer(s: State, p: PeerId, peer: Peer): State {
    s.(peers := s.peers[p := peer])
  }

  function Hangup(s: State, p: PeerId): State {
    if p in s.peers then WithPeer(s, p, s.peers[p].(open := false)) else s
  }

  /** The client has read the oldest line written to it. */
  function Delivered(s: State, p: PeerId): State
    requires p in s.wires && s.wires[p] != []
  {
    s.(wires := s.wires[p := s.wires[p][1..]])
  }

  // ---------------------------------------------------------------- connections

  function Accept(s: State, p: PeerId, addr: string, alias: string): State {
    WithPeer(s, p, Peer(addr, alias, "", None, true)).(wires := s.wires[p := []])
  }

  // ---------------------------------------------------------------- CreateRoom

  function Create(env: Env, s: State, name: string, password: string, id: RoomId, secret: Bytes): State {
    if name in s.rooms then s
    else
      var given := DeriveRoomKeys(env.kdf, name, password, []);
      var room := Room(name, true, CreateRoomKeys(env.kdf, given, secret), given.auth, secret,
                       "", map[], true);
      s.(rooms := s.rooms[name := id], heap := s.heap[id := room], drawn := s.drawn + {secret})
  }

  // ---------------------------------------------------------------- JOIN

  /** The peer after the relay took alias and device ID from its JOIN line. */
  function Identified(peer: Peer, f: JoinFields): Peer {
    peer.(alias := if f.alias != "" then f.alias else peer.alias,
          deviceID := if f.deviceID != "" then f.deviceID else peer.deviceID)
  }

  predicate IsBanned(s: State, peer: Peer) {
    peer.addr in s.banned || (peer.deviceID != "" && ("device:" + peer.deviceID) in s.banned)
  }

  ghost predicate AliasTaken(env: Env, s: State, room: Room, alias: string) {
    exists a :: a in room.members && room.members[a] in s.peers
             && env.equalFold(s.peers[room.members[a]].alias, alias)
  }

  /** The checks a JOIN passes through, in their order. */
  ghost function Admission(env: Env, s: State, peer: Peer, f: JoinFields): Verdict
    requires Closed(s)
  {
    if IsBanned(s, peer) then Refused("Banned")
    else if f.room !in s.rooms then Admitted
    else
      var room := s.heap[s.rooms[f.room]];
      if room.hasAuth && f.password == "" then Refused("Room requires a password")
      else if room.hasAuth && room.keys.auth != AuthKey(env.kdf, f.room, f.password)
      then Refused("Incorrect password")
      else if AliasTaken(env, s, room, peer.alias) then Refused("Alias already in use")
      else Admitted
  }

  /** A room made by its first joiner. */
  function FirstRoom(env: Env, f: JoinFields, addr: string, secret: Bytes): Room {
    var given := DeriveRoomKeys(env.kdf, f.room, f.password, []);
    var hasAuth := f.password != "";
    Room(f.room, hasAuth, JoinRoomKeys(env.kdf, f.room, given, hasAuth, secret),
         if hasAuth then given.auth else [], secret, addr, map[], false)
  }

  /** joinRoom's first half: the registered room, made if there is none. */
  function Opened(env: Env, s: State, f: JoinFields, addr: string, id: RoomId, secret: Bytes): State {
    if f.room in s.rooms then s
    else s.(rooms := s.rooms[f.room := id], heap := s.heap[id := FirstRoom(env, f, addr, secret)],
            drawn := s.drawn + {secret})
  }

  /** joinRoom's second half: the peer becomes a member, and the owner of an ownerless room. */
  function Entered(s: State, p: PeerId, r: RoomId): State
    requires p in s.peers && r in s.heap
  {
    var peer, room := s.peers[p], s.heap[r];
    var room' := room.(members := room.members[peer.addr := p],
                       owner := if room.owner == "" then peer.addr else room.owner);
    Sent(WithPeer(s.(heap := s.heap[r := room']), p, peer.(room := Some(r))),
         {p}, Secret(Encode(room.secret)))
  }

  /** A refused JOIN: the reason is sent, then the connection closed. */
  function TurnedAway(s: State, p: PeerId, reason: string): State {
    Hangup(Sent(s, {p}, Notice("AUTH:FAILED|" + reason)), p)
  }

  /** joinRoom. */
  function LetIn(env: Env, s: State, p: PeerId, f: JoinFields, id: RoomId, secret: Bytes): State
    requires Closed(s) && p in s.peers
  {
    var s1 := Opened(env, s, f, s.peers[p].addr, id, secret);
    Entered(s1, p, s1.rooms[f.room])
  }

  ghost function Join(env: Env, s: State, p: PeerId, f: JoinFields, id: RoomId, secret: Bytes): State
    requires Closed(s) && p in s.peers
  {
    var s1 := WithPeer(s, p, Identified(s.peers[p], f));
    match Admission(env, s1, s1.peers[p], f)
    case Refused(reason) => TurnedAway(s1, p, reason)
    case Admitted => LetIn(env, s1, p, f, id, secret)
  }

  // ---------------------------------------------------------------- FROM

  /** A verified FROM line may carry a new alias. */
  function Renamed(s: State, p: PeerId, alias: string): State
    requires p in s.peers
  {
    WithPeer(s, p, s.peers[p].(alias := alias))
  }

  // ---------------------------------------------------------------- KICK and BAN

  /** rotateRoomSecret: fresh secret, fresh keys, and a SECRET line to whoever is still a member. */
  function Rotate(env: Env, s: State, r: RoomId, secret: Bytes): State
    requires r in s.heap
  {
    var room := s.heap[r];
    var room' := room.(secret := secret,
                       keys := RotateKeys(env.kdf, room.name, room.hasAuth, room.ownerAuthKey, secret));
    Sent(s.(heap := s.heap[r := room'], drawn := s.drawn + {secret}),
         room.members.Values, Secret(Encode(secret)))
  }

  function KickNotice(room: Room): string {
    "SYSTEM:You were kicked from room '" + room.name + "' by the owner"
  }

  function BanNotice(room: Room): string {
    "SYSTEM:You were banned from room '" + room.name + "' by the owner"
  }

  /** Eviction: out of the members, told why, keys rotated for the others, connection closed. */
  function Evicted(env: Env, s: State, r: RoomId, target: string, why: string, secret: Bytes): State
    requires r in s.heap && target in s.heap[r].members
  {
    var room := s.heap[r];
    var p := room.members[target];
    var s1 := s.(heap := s.heap[r := room.(members := room.members - {target})]);
    Hangup(Rotate(env, Sent(s1, {p}, Notice(why)), r, secret), p)
  }

  /** The ban list entries for a peer: its address, its device when known, its alias. */
  function BanEntries(addr: string, peer: Peer): set<string> {
    {addr, "alias:" + peer.alias} + (if peer.deviceID != "" then {"device:" + peer.deviceID} else {})
  }

  function Listed(s: State, addr: string, peer: Peer): State {
    s.(banned := s.banned + BanEntries(addr, peer), deviceOf := s.deviceOf[peer.alias := peer.deviceID])
  }

  function Banished(env: Env, s: State, r: RoomId, target: string, why: string, secret: Bytes): State
    requires r in s.heap && target in s.heap[r].members && s.heap[r].members[target] in s.peers
  {
    Evicted(env, Listed(s, target, s.peers[s.heap[r].members[target]]), r, target, why, secret)
  }

  // ---------------------------------------------------------------- UNBAN

  predicate IsTagged(target: string) {
    "device:" <= target || "alias:" <= target
  }

  /** The device an alias was banned with, if one is on record. */
  function KnownDevice(deviceOf: map<string, string>, alias: string): set<string> {
    if alias in deviceOf && deviceOf[alias] != "" then {"device:" + deviceOf[alias]} else {}
  }

  /** The ban list entries an UNBAN of this target is meant to clear. */
  function Cleared(deviceOf: map<string, string>, target: string): set<string> {
    {target} + (
      if "device:" <= target then set a | a in deviceOf && deviceOf[a] == target[7..] :: "alias:" + a
      else if "alias:" <= target then KnownDevice(deviceOf, target[6..])
      else {"alias:" + target} + KnownDevice(deviceOf, target))
  }

  /** The alias records it drops. */
  function Forgotten(deviceOf: map<string, string>, target: string): set<string> {
    if "device:" <= target then set a | a in deviceOf && deviceOf[a] == target[7..]
    else
      var alias := if "alias:" <= target then target[6..] else target;
      if alias in deviceOf && deviceOf[alias] != "" then {alias} else {}
  }

  function Unbanned(s: State, target: string): State {
    s.(banned := s.banned - Cleared(s.deviceOf, target),
       deviceOf := s.deviceOf - Forgotten(s.deviceOf, target))
  }

  // ---------------------------------------------------------------- reader exit

  /** The owner once a member has left: no one, the least remaining address, or the same. */
  ghost function Successor(owner: string, leaver: string, members: map<string, PeerId>): string {
    if members == map[] then "" else if owner == leaver then Least(members.Keys) else owner
  }

  /** The heap once a peer's address is out of its room and the room has this owner. */
  function HeapWithout(s: State, p: PeerId, owner: string): map<RoomId, Room>
    requires Closed(s) && p in s.peers
  {
    var peer := s.peers[p];
    if peer.room.None? then s.heap
    else
      var room := s.heap[peer.room.value];
      s.heap[peer.room.value := room.(members := room.members - {peer.addr}, owner := owner)]
  }

  /** An empty room's name is looked up again, and goes only if what is there is empty and not local. */
  function Collected(rooms: map<string, RoomId>, heap: map<RoomId, Room>, name: string): map<string, RoomId>
    requires forall n :: n in rooms ==> rooms[n] in heap
  {
    if name != "" && name in rooms && !heap[rooms[name]].createdLocally && heap[rooms[name]].members == map[]
    then rooms - {name} else rooms
  }

  /** removePeer, given the owner it leaves in the peer's room. */
  function Departed(s: State, p: PeerId, owner: string): State
    requires Closed(s) && p in s.peers
  {
    var heap, room := HeapWithout(s, p, owner), s.peers[p].room;
    s.(heap := heap, peers := s.peers - {p},
       rooms := if room.Some? && heap[room.value].members == map[]
                then Collected(s.rooms, heap, heap[room.value].name) else s.rooms)
  }

  /** The owner of the peer's room once it is gone. */
  ghost function OwnerAfter(s: State, p: PeerId): string
    requires Closed(s) && p in s.peers
  {
    var peer := s.peers[p];
    if peer.room.None? then ""
    else
      var room := s.heap[peer.room.value];
      Successor(room.owner, peer.addr, room.members - {peer.addr})
  }

  /** removePeer. */
  ghost function Exited(s: State, p: PeerId): State
    requires Closed(s) && p in s.peers
  {
    Departed(s, p, OwnerAfter(s, p))
  }
}
