/** Who owns a room, when a room is forgotten, and who succeeds an owner that leaves. */
module Ownership {
  import opened Wrappers
  import opened Hex
  import opened RoomKeys
  import opened AddressOrder
  import opened Relay
  import opened Protocol
  import opened RelayInvariant

  /**
   In every reachable state a room without an owner is empty; an owner is a member or was evicted
   and its removal is pending; and with no removal pending, the owner of a non-empty room is a member.
   */
  lemma OwnerIsMemberOrPending(env: Env, run: seq<System>, events: seq<Event>, i: nat, r: RoomId)
    requires Lawful(env.kdf) && IsRun(env, run, events) && i < |run| && r in run[i].relay.heap
    ensures var s, room := run[i].relay, run[i].relay.heap[r];
      && (room.owner == "" ==> room.members == map[])
      && (room.owner != "" ==>
            room.owner in room.members || exists p :: Pending(s, p, r) && s.peers[p].addr == room.owner)
      && ((forall p :: !Pending(s, p, r)) && room.members != map[] ==> room.owner in room.members)
  {
    RunKeeps(env, run, events, i);
    var s := run[i].relay;
    assert OwnerSound(s, r);
    if s.heap[r].owner != "" && s.heap[r].owner !in s.heap[r].members {
      var p :| Attached(s, p, r) && s.peers[p].addr == s.heap[r].owner;
      assert Pending(s, p, r);
    }
  }

  /**
   A registered room that is empty was created locally, or has a removal pending, or has no name.
   Members are keyed by their own address and point back at their room, which is registered.
   */
  lemma EmptyRoomsAccountedFor(env: Env, run: seq<System>, events: seq<Event>, i: nat, n: string)
    requires Lawful(env.kdf) && IsRun(env, run, events) && i < |run| && n in run[i].relay.rooms
    ensures var s := run[i].relay;
      && s.rooms[n] in s.heap && s.heap[s.rooms[n]].name == n
      && (s.heap[s.rooms[n]].members == map[] ==>
            s.heap[s.rooms[n]].createdLocally || n == "" || exists p :: Pending(s, p, s.rooms[n]))
  {
    RunKeeps(env, run, events, i);
    var s := run[i].relay;
    assert VacancySound(s, n);
    if Vacant(s.heap[s.rooms[n]]) {
      var p :| Attached(s, p, s.rooms[n]);
      assert Pending(s, p, s.rooms[n]);
    }
  }

  lemma MembersPointBack(env: Env, run: seq<System>, events: seq<Event>, i: nat, r: RoomId, a: string)
    requires Lawful(env.kdf) && IsRun(env, run, events) && i < |run|
    requires r in run[i].relay.heap && a in run[i].relay.heap[r].members
    ensures var s := run[i].relay;
            IsMember(s, r, a, s.heap[r].members[a]) && s.heap[r].name in s.rooms && s.rooms[s.heap[r].name] == r
  {
    RunKeeps(env, run, events, i);
  }

  /**
   A reader exit, however late, never takes a name from a room that has members afterwards, not
   even when its own room is gone and another has taken the name; and it changes no other room.
   */
  lemma LateRemovalIsHarmless(env: Env, s: State, p: PeerId)
    requires RelayOK(env, s) && p in s.peers
    ensures var t := Exited(s, p);
      && t.heap.Keys == s.heap.Keys
      && (forall n :: n in s.rooms && t.heap[s.rooms[n]].members != map[] ==>
            n in t.rooms && t.rooms[n] == s.rooms[n])
      && (forall r :: r in s.heap && s.peers[p].room != Some(r) ==> t.heap[r] == s.heap[r])
  {
    DepartedIsDeparture(s, p, OwnerAfter(s, p));
  }

  /** The successor of a departing owner is the least remaining address: the only one there is. */
  lemma SuccessorIsLeast(env: Env, s: State, p: PeerId, r: RoomId, least: string)
    requires RelayOK(env, s) && p in s.peers && s.peers[p].room == Some(r) && r in s.heap
    requires s.heap[r].owner == s.peers[p].addr
    requires s.heap[r].members - {s.peers[p].addr} != map[]
    requires IsLeast(least, s.heap[r].members.Keys - {s.peers[p].addr})
    ensures Exited(s, p).heap[r].owner == least
    ensures Exited(s, p).heap[r].members == s.heap[r].members - {s.peers[p].addr}
  {
    DepartedIsDeparture(s, p, OwnerAfter(s, p));
    var members := s.heap[r].members - {s.peers[p].addr};
    assert members.Keys == s.heap[r].members.Keys - {s.peers[p].addr};
    LeastUnique(least, Least(members.Keys), members.Keys);
  }

  // ---------------------------------------------------------------- when ownership changes

  /** A reader exit that the owner's address leaves with, or that leaves the room empty. */
  predicate TakesOwner(s: State, p: PeerId, r: RoomId) {
    && p in s.peers && s.peers[p].room == Some(r) && r in s.heap
    && (s.peers[p].addr == s.heap[r].owner || s.heap[r].members - {s.peers[p].addr} == map[])
  }

  /** Somebody else's exit leaves the owner, the name and everybody else where they are. */
  lemma OtherExitKeepsOwner(env: Env, s: State, p: PeerId, r: RoomId)
    requires Closed(s) && p in s.peers && r in s.heap && !TakesOwner(s, p, r)
    ensures Exited(s, p).heap.Keys == s.heap.Keys && Exited(s, p).heap[r].owner == s.heap[r].owner
  {
  }

  /** A room left empty has no owner. */
  lemma EmptiedRoomHasNoOwner(env: Env, s: State, p: PeerId, r: RoomId)
    requires Closed(s) && p in s.peers && s.peers[p].room == Some(r) && r in s.heap
    requires s.heap[r].members - {s.peers[p].addr} == map[]
    ensures Exited(s, p).heap[r].owner == "" && Exited(s, p).heap[r].members == map[]
  {
  }

  lemma JoinKeepsOwner(env: Env, s: State, p: PeerId, f: JoinFields, id: RoomId, secret: Bytes, r: RoomId)
    requires Closed(s) && p in s.peers && id !in s.heap && r in s.heap
    ensures var t := Join(env, s, p, f, id, secret);
      && r in t.heap
      && (t.heap[r].owner == s.heap[r].owner || (s.heap[r].owner == "" && t.heap[r].owner == s.peers[p].addr))
  {
  }

  lemma EvictionKeepsOwner(env: Env, s: State, q: RoomId, target: string, why: string, secret: Bytes, r: RoomId)
    requires Targets(s, q, target) && r in s.heap
    ensures r in Evicted(env, s, q, target, why, secret).heap
    ensures Evicted(env, s, q, target, why, secret).heap[r].owner == s.heap[r].owner
  {
  }

  /**
   A room's owner changes only when the owner's own reader exits, when the room is left empty, or
   when somebody joins it while it has none; a kick or ban of the owner does not change it.
   */
  lemma OwnerChangesOnlyWhen(env: Env, sys: System, e: Event, r: RoomId)
    requires Closed(sys.relay) && Enabled(sys, e) && r in sys.relay.heap
    ensures var s, t := sys.relay, Next(env, sys, e).relay;
      && r in t.heap
      && (t.heap[r].owner == s.heap[r].owner
          || (e.ReaderExit? && TakesOwner(s, e.p, r))
          || (e.JoinRoom? && s.heap[r].owner == "" && t.heap[r].owner == s.peers[e.p].addr))
  {
    var s := sys.relay;
    match e
    case JoinRoom(p, f, id, secret) => JoinKeepsOwner(env, s, p, f, id, secret, r);
    case Kick(_, q, target, secret) => EvictionKeepsOwner(env, s, q, target, KickNotice(s.heap[q]), secret, r);
    case Ban(_, q, target, secret) =>
      var l := Listed(s, target, s.peers[s.heap[q].members[target]]);
      EvictionKeepsOwner(env, l, q, target, BanNotice(s.heap[q]), secret, r);
    case ReaderExit(p) =>
      DepartedIsDeparture(s, p, OwnerAfter(s, p));
      if !TakesOwner(s, p, r) { OtherExitKeepsOwner(env, s, p, r); }
    case _ =>
  }

  /** Over whole runs: an owner keeps the room until it leaves itself or the room is left empty. */
  lemma {:induction false} OwnerStays(env: Env, run: seq<System>, events: seq<Event>, i: nat, j: nat, r: RoomId)
    requires IsRun(env, run, events) && i <= j < |run|
    requires r in run[i].relay.heap && run[i].relay.heap[r].owner != ""
    requires forall k {:trigger events[k]} :: i <= k < j && events[k].ReaderExit? ==>
               !TakesOwner(run[k].relay, events[k].p, r)
    ensures r in run[j].relay.heap && run[j].relay.heap[r].owner == run[i].relay.heap[r].owner
  {
    if i == j {
    } else {
      OwnerStays(env, run, events, i, j - 1, r);
      OwnerChangesOnlyWhen(env, run[j - 1], events[j - 1], r);
      assert run[j] == Next(env, run[j - 1], events[j - 1]);
    }
  }

  /**
   When a reader exit leaves a registered room empty, the room stays registered exactly when it was
   created locally or has no name.
   */
  lemma EmptiedRoomStaysExactlyWhen(env: Env, s: State, p: PeerId, r: RoomId)
    requires RelayOK(env, s) && p in s.peers && s.peers[p].room == Some(r) && r in s.heap
    requires s.heap[r].name in s.rooms && s.rooms[s.heap[r].name] == r
    requires s.heap[r].members - {s.peers[p].addr} == map[]
    ensures s.heap[r].name in Exited(s, p).rooms <==> s.heap[r].createdLocally || s.heap[r].name == ""
  {
  }

  lemma JoinKeepsUnnamed(env: Env, s: State, p: PeerId, f: JoinFields, id: RoomId, secret: Bytes)
    requires Closed(s) && p in s.peers && "" in s.rooms
    ensures var t := Join(env, s, p, f, id, secret); "" in t.rooms && t.rooms[""] == s.rooms[""]
  {
  }

  lemma ExitKeepsUnnamed(s: State, p: PeerId)
    requires Closed(s) && p in s.peers && "" in s.rooms
    ensures "" in Exited(s, p).rooms && Exited(s, p).rooms[""] == s.rooms[""]
  {
  }

  lemma StepKeepsUnnamed(env: Env, sys: System, e: Event)
    requires Closed(sys.relay) && Enabled(sys, e) && "" in sys.relay.rooms
    ensures "" in Next(env, sys, e).relay.rooms && Next(env, sys, e).relay.rooms[""] == sys.relay.rooms[""]
  {
    match e
    case JoinRoom(p, f, id, secret) => JoinKeepsUnnamed(env, sys.relay, p, f, id, secret);
    case ReaderExit(p) => ExitKeepsUnnamed(sys.relay, p);
    case _ =>
  }

  /**
   So a room with an empty name is never forgotten: in every run, once the name is registered, that
   very room has it in every later state, with members or without.
   */
  lemma {:induction false} UnnamedRoomIsNeverForgotten(env: Env, run: seq<System>, events: seq<Event>, i: nat, j: nat)
    requires IsRun(env, run, events) && i <= j < |run| && "" in run[i].relay.rooms
    ensures "" in run[j].relay.rooms && run[j].relay.rooms[""] == run[i].relay.rooms[""]
  {
    if i == j {
    } else {
      UnnamedRoomIsNeverForgotten(env, run, events, i, j - 1);
      StepKeepsUnnamed(env, run[j - 1], events[j - 1]);
    }
  }

  /** A relay with one connection, which has not joined yet. */
  function Lobby(addr: string): State {
    State(map[], map[], map[0 := Peer(addr, "Fox", "", None, true)], {}, map[], map[0 := []], {})
  }

  const UNNAMED := JoinFields("", "", "", "")

  /** Its JOIN without a room name makes it the owner and only member of a room called "". */
  lemma UnnamedJoin(env: Env, addr: string, secret: Bytes)
    requires addr != ""
    ensures Closed(Lobby(addr))
    ensures var t := Join(env, Lobby(addr), 0, UNNAMED, 0, secret);
      && Closed(t) && t.rooms == map["" := 0] && 0 in t.heap && t.peers.Keys == {0}
      && t.peers[0].addr == addr && t.peers[0].room == Some(0)
      && t.heap[0].members == map[addr := 0] && t.heap[0].name == "" && !t.heap[0].createdLocally
  {
  }

  /** When it leaves, the room stays registered. */
  lemma UnnamedExit(s: State, addr: string)
    requires Closed(s) && s.rooms == map["" := 0] && 0 in s.heap && s.peers.Keys == {0}
    requires s.peers[0].addr == addr && s.peers[0].room == Some(0)
    requires s.heap[0].members == map[addr := 0] && s.heap[0].name == "" && !s.heap[0].createdLocally
    ensures var t := Exited(s, 0);
      && t.peers == map[] && t.rooms == s.rooms && 0 in t.heap
      && t.heap[0].members == map[] && !t.heap[0].createdLocally
  {
  }

  lemma ConnectStep(env: Env, addr: string)
    requires PlainAddr(addr)
    ensures var e := Connect(0, addr, "Fox", "", "");
            Closed(EMPTY.relay) && Enabled(EMPTY, e) && Next(env, EMPTY, e).relay == Lobby(addr)
  {
  }

  lemma JoinStep(env: Env, sys: System, addr: string, secret: Bytes)
    requires addr != "" && sys.relay == Lobby(addr) && |secret| == 32
    ensures var e := JoinRoom(0, UNNAMED, 0, secret);
            Closed(sys.relay) && Enabled(sys, e)
            && Next(env, sys, e).relay == Join(env, Lobby(addr), 0, UNNAMED, 0, secret)
  {
  }

  lemma ExitStep(env: Env, sys: System)
    requires Closed(sys.relay) && 0 in sys.relay.peers
    ensures Enabled(sys, ReaderExit(0)) && Next(env, sys, ReaderExit(0)).relay == Exited(sys.relay, 0)
  {
  }

  /**
   And such rooms come about: "JOIN:" with no name makes one, and it stays registered after its only
   member has gone and nothing is pending.
   */
  lemma UnnamedRoomLeftEmpty(env: Env, addr: string, secret: Bytes)
    returns (run: seq<System>, events: seq<Event>)
    requires PlainAddr(addr) && |secret| == 32
    ensures IsRun(env, run, events) && |run| == 4
    ensures var s := run[3].relay;
            s.peers == map[] && "" in s.rooms && s.rooms[""] in s.heap
            && s.heap[s.rooms[""]].members == map[] && !s.heap[s.rooms[""]].createdLocally
  {
    var connect, join := Connect(0, addr, "Fox", "", ""), JoinRoom(0, UNNAMED, 0, secret);
    ConnectStep(env, addr);
    var s1 := Next(env, EMPTY, connect);
    JoinStep(env, s1, addr, secret);
    UnnamedJoin(env, addr, secret);
    var s2 := Next(env, s1, join);
    ExitStep(env, s2);
    UnnamedExit(s2.relay, addr);
    run, events := [EMPTY, s1, s2, Next(env, s2, ReaderExit(0))], [connect, join, ReaderExit(0)];
  }
}
