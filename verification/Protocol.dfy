/**
 The whole system, relay and remote clients, as a state machine: which steps can happen, what
 each does, and what a run is. One handler call is one step; a kick or ban is one step and the
 evicted peer's reader exit is another, later one.
 */
module Protocol {
  import opened Wrappers
  import opened Hex
  import opened RoomKeys
  import opened Relay

  /** A remote ConnectionManager. `known` is every room secret it ever decoded. */
  datatype Client = Client(roomName: string, password: string, keys: Keys, known: set<Bytes>)

  /** `joined` remembers the JOIN by which each admitted connection got in. */
  datatype System = System(
    relay: State,
    clients: map<PeerId, Client>,
    joined: map<PeerId, JoinFields>)

  /** Who asks for a moderation step: a connected peer or the relay's own operator. */
  datatype Actor = Member(p: PeerId) | Operator

  datatype Event =
    | Connect(p: PeerId, addr: string, alias: string, roomName: string, password: string)
    | CreateRoom(name: string, password: string, id: RoomId, secret: Bytes)
    | JoinRoom(p: PeerId, fields: JoinFields, id: RoomId, secret: Bytes)
    | Rename(p: PeerId, alias: string)
    | Kick(who: Actor, r: RoomId, target: string, secret: Bytes)
    | Ban(who: Actor, r: RoomId, target: string, secret: Bytes)
    | Unban(who: Actor, r: RoomId, entry: string)
    | ReaderExit(p: PeerId)
    | LinkFailure(p: PeerId)
    | Receive(p: PeerId)

  // ---------------------------------------------------------------- assumptions on the environment

  /** Addresses are "ip:port": not empty, not the operator's name, no ban list tag. */
  predicate PlainAddr(addr: string) {
    addr != "" && addr != "creator" && !("device:" <= addr) && !("alias:" <= addr)
  }

  /** GenerateRoomSecret draws 32 bytes that were never drawn before. */
  predicate FreshSecret(s: State, secret: Bytes) {
    |secret| == 32 && secret !in s.drawn
  }

  /** The ownership test of KICK, BAN and UNBAN. */
  predicate MayModerate(s: State, who: Actor, r: RoomId) {
    && r in s.heap
    && (who.Member? ==>
          who.p in s.peers && s.peers[who.p].room == Some(r) && s.heap[r].owner == s.peers[who.p].addr)
  }

  predicate Targets(s: State, r: RoomId, target: string) {
    r in s.heap && target in s.heap[r].members && s.heap[r].members[target] in s.peers
  }

  ghost predicate Enabled(sys: System, e: Event) {
    var s := sys.relay;
    match e
    case Connect(p, addr, _, _, _) =>
      p !in sys.clients && p !in s.peers && PlainAddr(addr) && forall q :: q in s.peers ==> s.peers[q].addr != addr
    case CreateRoom(_, _, id, secret) => id !in s.heap && FreshSecret(s, secret)
    case JoinRoom(p, _, id, secret) =>
      p in s.peers && s.peers[p].room.None? && id !in s.heap && FreshSecret(s, secret)
    case Rename(p, _) => p in s.peers && s.peers[p].room.Some?
    case Kick(who, r, target, secret) => MayModerate(s, who, r) && Targets(s, r, target) && FreshSecret(s, secret)
    case Ban(who, r, target, secret) => MayModerate(s, who, r) && Targets(s, r, target) && FreshSecret(s, secret)
    case Unban(who, r, _) => MayModerate(s, who, r)
    case ReaderExit(p) => p in s.peers
    case LinkFailure(p) => p in s.peers
    case Receive(p) => p in sys.clients && p in s.wires && s.wires[p] != []
  }

  // ---------------------------------------------------------------- steps

  function NewClient(env: Env, roomName: string, password: string): Client {
    Client(roomName, password, DeriveRoomKeys(env.kdf, roomName, password, []), {})
  }

  /** readLoop on one line: a SECRET line updates the keys, any other line leaves them. */
  function Processed(env: Env, c: Client, line: Line): Client {
    if line.Secret? && line.hex != "" then
      match UpdateRoomKeys(env.kdf, c.keys, c.roomName, c.password, line.hex)
      case None => c
      case Some(keys) => c.(keys := keys, known := c.known + {Decode(line.hex).value})
    else c
  }

  ghost function Next(env: Env, sys: System, e: Event): System
    requires Closed(sys.relay) && Enabled(sys, e)
  {
    var s := sys.relay;
    match e
    case Connect(p, addr, alias, roomName, password) =>
      sys.(relay := Accept(s, p, addr, alias),
           clients := sys.clients[p := NewClient(env, roomName, password)])
    case CreateRoom(name, password, id, secret) =>
      sys.(relay := Create(env, s, name, password, id, secret))
    case JoinRoom(p, f, id, secret) =>
      var relay := Join(env, s, p, f, id, secret);
      sys.(relay := relay,
           joined := if relay.peers[p].room.Some? then sys.joined[p := f] else sys.joined)
    case Rename(p, alias) => sys.(relay := Renamed(s, p, alias))
    case Kick(_, r, target, secret) =>
      sys.(relay := Evicted(env, s, r, target, KickNotice(s.heap[r]), secret))
    case Ban(_, r, target, secret) =>
      sys.(relay := Banished(env, s, r, target, BanNotice(s.heap[r]), secret))
    case Unban(_, _, entry) => sys.(relay := Unbanned(s, entry))
    case ReaderExit(p) => sys.(relay := Exited(s, p))
    case LinkFailure(p) => sys.(relay := Hangup(s, p))
    case Receive(p) =>
      sys.(relay := Delivered(s, p),
           clients := sys.clients[p := Processed(env, sys.clients[p], s.wires[p][0])])
  }

  const EMPTY := System(State(map[], map[], map[], {}, map[], map[], {}), map[], map[])

  /** `run` is the states passed through under `events`, from the empty system on. */
  ghost predicate IsRun(env: Env, run: seq<System>, events: seq<Event>) {
    && |run| == |events| + 1
    && run[0] == EMPTY
    && forall i {:trigger events[i]} :: 0 <= i < |events| ==>
         Closed(run[i].relay) && Enabled(run[i], events[i]) && run[i + 1] == Next(env, run[i], events[i])
  }
}
