/** Who may kick, ban and unban, and what an eviction does, said without the protocol's own terms. */
module Moderation {
  import opened Wrappers
  import opened Hex
  import opened RoomKeys
  import opened Relay
  import opened Protocol
  import opened RelayInvariant

  predicate IsModeration(e: Event) {
    e.Kick? || e.Ban? || e.Unban?
  }

  // ---------------------------------------------------------------- rights

  /** Whoever moderates a room over a connection is in that room and has the owner's address. */
  lemma ModeratorIsOwner(sys: System, e: Event, p: PeerId)
    requires Enabled(sys, e) && IsModeration(e) && e.who == Member(p)
    ensures p in sys.relay.peers && sys.relay.peers[p].room == Some(e.r) && e.r in sys.relay.heap
    ensures sys.relay.heap[e.r].owner == sys.relay.peers[p].addr
  {
  }

  /** So in no run does any such step come from a member that is not the owner. */
  lemma OthersNeverModerate(env: Env, run: seq<System>, events: seq<Event>, i: nat, p: PeerId)
    requires IsRun(env, run, events) && i < |events| && p in run[i].relay.peers && IsModeration(events[i])
    requires events[i].r in run[i].relay.heap && run[i].relay.heap[events[i].r].owner != run[i].relay.peers[p].addr
    ensures events[i].who != Member(p)
  {
    if events[i].who == Member(p) { ModeratorIsOwner(run[i], events[i], p); }
  }

  /** The owner, and the relay's operator, may kick and ban every member and lift every entry. */
  lemma OwnerMayModerate(sys: System, who: Actor, r: RoomId, target: string, secret: Bytes, entry: string)
    requires r in sys.relay.heap
    requires who.Member? ==>
               who.p in sys.relay.peers && sys.relay.peers[who.p].room == Some(r)
               && sys.relay.heap[r].owner == sys.relay.peers[who.p].addr
    ensures Enabled(sys, Unban(who, r, entry))
    ensures target in sys.relay.heap[r].members && sys.relay.heap[r].members[target] in sys.relay.peers
            && |secret| == 32 && secret !in sys.relay.drawn ==>
              Enabled(sys, Kick(who, r, target, secret)) && Enabled(sys, Ban(who, r, target, secret))
  {
  }

  /** The other steps depend on nothing but the connections and rooms they are about. */
  lemma OthersMayHappen(sys: System, p: PeerId, name: string, alias: string, id: RoomId, secret: Bytes, f: JoinFields)
    requires id !in sys.relay.heap && |secret| == 32 && secret !in sys.relay.drawn
    ensures Enabled(sys, CreateRoom(name, alias, id, secret))
    ensures p in sys.relay.peers ==> Enabled(sys, ReaderExit(p)) && Enabled(sys, LinkFailure(p))
    ensures p in sys.relay.peers && sys.relay.peers[p].room.None? ==> Enabled(sys, JoinRoom(p, f, id, secret))
    ensures p in sys.relay.peers && sys.relay.peers[p].room.Some? ==> Enabled(sys, Rename(p, alias))
    ensures p in sys.clients && p in sys.relay.wires && sys.relay.wires[p] != [] ==> Enabled(sys, Receive(p))
  {
  }

  /** What the plain steps change, and that they change nothing else. */
  lemma PlainStepsMean(env: Env, sys: System, p: PeerId, addr: string, alias: string, name: string, password: string)
    requires Closed(sys.relay)
    ensures Enabled(sys, Connect(p, addr, alias, name, password)) ==>
              var t := Next(env, sys, Connect(p, addr, alias, name, password)).relay;
              t == sys.relay.(peers := sys.relay.peers[p := Peer(addr, alias, "", None, true)],
                              wires := sys.relay.wires[p := []])
    ensures Enabled(sys, Rename(p, alias)) ==>
              var t := Next(env, sys, Rename(p, alias)).relay;
              t == sys.relay.(peers := sys.relay.peers[p := sys.relay.peers[p].(alias := alias)])
    ensures Enabled(sys, LinkFailure(p)) ==>
              var t := Next(env, sys, LinkFailure(p)).relay;
              t == sys.relay.(peers := sys.relay.peers[p := sys.relay.peers[p].(open := false)])
  {
  }

  // ---------------------------------------------------------------- what an eviction does

  /** The target and nobody else stops being a member, of this room alone, and its connection is closed. */
  ghost predicate OnlyTargetIsOut(s: State, r: RoomId, target: string, t: State)
    requires Targets(s, r, target)
  {
    var p := s.heap[r].members[target];
    && t.rooms == s.rooms && t.heap.Keys == s.heap.Keys
    && (forall r' :: r' in s.heap && r' != r ==> t.heap[r'] == s.heap[r'])
    && (forall a :: a in t.heap[r].members <==> a in s.heap[r].members && a != target)
    && (forall a :: a in t.heap[r].members ==> t.heap[r].members[a] == s.heap[r].members[a])
    && t.heap[r].owner == s.heap[r].owner
    && t.peers.Keys == s.peers.Keys && (forall q :: q in s.peers && q != p ==> t.peers[q] == s.peers[q])
    && t.peers[p] == s.peers[p].(open := false)
  }

  /** The target is told, the remaining members are sent the new secret, and nobody else anything. */
  ghost predicate ToldAndRekeyed(s: State, r: RoomId, target: string, verb: string, secret: Bytes, t: State)
    requires Targets(s, r, target)
  {
    var p := s.heap[r].members[target];
    var text := "SYSTEM:You were " + verb + " from room '" + s.heap[r].name + "' by the owner";
    && t.heap.Keys == s.heap.Keys && t.heap[r].secret == secret && t.wires.Keys == s.wires.Keys
    && (p in s.wires && s.peers[p].open ==> t.wires[p] == s.wires[p] + [Notice(text)])
    && (forall q :: q in s.wires && q != p ==>
          t.wires[q] == if (exists a :: a in s.heap[r].members && a != target && s.heap[r].members[a] == q)
                           && q in s.peers && s.peers[q].open
                        then s.wires[q] + [Secret(Encode(secret))] else s.wires[q])
  }

  lemma EvictionRemovesOne(env: Env, s: State, r: RoomId, target: string, secret: Bytes, t: State)
    requires Targets(s, r, target) && IsEviction(env, s, r, target, secret, t)
    ensures OnlyTargetIsOut(s, r, target, t)
  {
  }

  lemma EvictedIsTold(env: Env, s: State, r: RoomId, target: string, why: string, secret: Bytes)
    requires Membership(s) && Targets(s, r, target)
    ensures var p, t := s.heap[r].members[target], Evicted(env, s, r, target, why, secret);
      p in s.wires && s.peers[p].open ==> p in t.wires && t.wires[p] == s.wires[p] + [Notice(why)]
  {
    var p := s.heap[r].members[target];
    forall a | a in s.heap[r].members && a != target ensures s.heap[r].members[a] != p {
      assert IsMember(s, r, a, s.heap[r].members[a]) && IsMember(s, r, target, p);
    }
  }

  /** The target's own wire after an eviction. */
  predicate Told(s: State, p: PeerId, why: string, t: State) {
    p in s.wires && p in s.peers && s.peers[p].open ==> p in t.wires && t.wires[p] == s.wires[p] + [Notice(why)]
  }

  lemma OthersAreRekeyed(env: Env, s: State, r: RoomId, target: string, secret: Bytes, t: State, q: PeerId)
    requires Targets(s, r, target) && IsEviction(env, s, r, target, secret, t)
    requires q in s.wires && q != s.heap[r].members[target]
    ensures t.wires[q] == if (exists a :: a in s.heap[r].members && a != target && s.heap[r].members[a] == q)
                             && q in s.peers && s.peers[q].open
                          then s.wires[q] + [Secret(Encode(secret))] else s.wires[q]
  {
    var rest := s.heap[r].members - {target};
    if a :| a in s.heap[r].members && a != target && s.heap[r].members[a] == q {
      assert a in rest && rest[a] == q;
    }
  }

  lemma EvictionTells(env: Env, s: State, r: RoomId, target: string, verb: string, why: string, secret: Bytes, t: State)
    requires Targets(s, r, target) && IsEviction(env, s, r, target, secret, t)
    requires Told(s, s.heap[r].members[target], why, t)
    requires why == "SYSTEM:You were " + verb + " from room '" + s.heap[r].name + "' by the owner"
    ensures ToldAndRekeyed(s, r, target, verb, secret, t)
  {
    forall q | q in s.wires && q != s.heap[r].members[target]
      ensures t.wires[q] == if (exists a :: a in s.heap[r].members && a != target && s.heap[r].members[a] == q)
                               && q in s.peers && s.peers[q].open
                            then s.wires[q] + [Secret(Encode(secret))] else s.wires[q]
    {
      OthersAreRekeyed(env, s, r, target, secret, t, q);
    }
  }

  lemma KickIsEviction(env: Env, sys: System, e: Event)
    requires Closed(sys.relay) && Membership(sys.relay) && Enabled(sys, e) && e.Kick?
    ensures IsEviction(env, sys.relay, e.r, e.target, e.secret, Next(env, sys, e).relay)
    ensures Told(sys.relay, sys.relay.heap[e.r].members[e.target], KickNotice(sys.relay.heap[e.r]),
                 Next(env, sys, e).relay)
  {
    EvictedIsEviction(env, sys.relay, e.r, e.target, KickNotice(sys.relay.heap[e.r]), e.secret);
    EvictedIsTold(env, sys.relay, e.r, e.target, KickNotice(sys.relay.heap[e.r]), e.secret);
  }

  lemma EvictionMeans(env: Env, s: State, r: RoomId, target: string, verb: string, why: string, secret: Bytes, t: State)
    requires Targets(s, r, target) && IsEviction(env, s, r, target, secret, t)
    requires Told(s, s.heap[r].members[target], why, t)
    requires why == "SYSTEM:You were " + verb + " from room '" + s.heap[r].name + "' by the owner"
    ensures OnlyTargetIsOut(s, r, target, t) && ToldAndRekeyed(s, r, target, verb, secret, t)
    ensures t.banned == s.banned && t.deviceOf == s.deviceOf
  {
    EvictionRemovesOne(env, s, r, target, secret, t);
    EvictionTells(env, s, r, target, verb, why, secret, t);
  }

  lemma KickText(room: Room)
    ensures KickNotice(room) == "SYSTEM:You were " + "kicked" + " from room '" + room.name + "' by the owner"
    ensures BanNotice(room) == "SYSTEM:You were " + "banned" + " from room '" + room.name + "' by the owner"
  {
  }

  /** A kick does this and leaves the ban list alone. */
  lemma KickMeans(env: Env, sys: System, e: Event, next: System)
    requires Closed(sys.relay) && Membership(sys.relay) && Enabled(sys, e) && e.Kick? && next == Next(env, sys, e)
    ensures var s, t := sys.relay, next.relay;
      && OnlyTargetIsOut(s, e.r, e.target, t) && ToldAndRekeyed(s, e.r, e.target, "kicked", e.secret, t)
      && t.banned == s.banned && t.deviceOf == s.deviceOf
  {
    var s := sys.relay;
    KickIsEviction(env, sys, e);
    KickText(s.heap[e.r]);
    EvictionMeans(env, s, e.r, e.target, "kicked", KickNotice(s.heap[e.r]), e.secret, next.relay);
  }

  /** The state a ban evicts from: the target is on the list already. */
  function AfterListing(sys: System, e: Event): State
    requires e.Ban? && Enabled(sys, e)
  {
    Listed(sys.relay, e.target, sys.relay.peers[sys.relay.heap[e.r].members[e.target]])
  }

  lemma BanIsEviction(env: Env, sys: System, e: Event)
    requires Closed(sys.relay) && Membership(sys.relay) && Enabled(sys, e) && e.Ban?
    ensures var l := AfterListing(sys, e);
      && IsEviction(env, l, e.r, e.target, e.secret, Next(env, sys, e).relay)
      && Told(l, l.heap[e.r].members[e.target], BanNotice(l.heap[e.r]), Next(env, sys, e).relay)
  {
    var l := AfterListing(sys, e);
    MembersKeep(sys.relay, l);
    EvictedIsEviction(env, l, e.r, e.target, BanNotice(l.heap[e.r]), e.secret);
    EvictedIsTold(env, l, e.r, e.target, BanNotice(l.heap[e.r]), e.secret);
  }

  /** The ban list plays no part in an eviction. */
  lemma ListPlaysNoPart(s: State, l: State, r: RoomId, target: string, verb: string, secret: Bytes, t: State)
    requires Targets(s, r, target) && l == s.(banned := l.banned, deviceOf := l.deviceOf)
    requires OnlyTargetIsOut(l, r, target, t) && ToldAndRekeyed(l, r, target, verb, secret, t)
    ensures OnlyTargetIsOut(s, r, target, t) && ToldAndRekeyed(s, r, target, verb, secret, t)
  {
  }

  /** A ban does the same; what it lists is said by Bans.BanLists. */
  lemma BanMeans(env: Env, sys: System, e: Event, next: System)
    requires Closed(sys.relay) && Membership(sys.relay) && Enabled(sys, e) && e.Ban? && next == Next(env, sys, e)
    ensures var s, t := sys.relay, next.relay;
      OnlyTargetIsOut(s, e.r, e.target, t) && ToldAndRekeyed(s, e.r, e.target, "banned", e.secret, t)
  {
    var s, l := sys.relay, AfterListing(sys, e);
    BanIsEviction(env, sys, e);
    KickText(l.heap[e.r]);
    EvictionMeans(env, l, e.r, e.target, "banned", BanNotice(l.heap[e.r]), e.secret, next.relay);
    ListPlaysNoPart(s, l, e.r, e.target, "banned", e.secret, next.relay);
  }
}
