/**
 Eviction separates epochs: whoever holds a room secret was a member while that secret was the
 room's, so an evicted connection never learns a later one; and across all rotations an auth
 room keeps the auth key it was made with.
 */
module Epochs {
  import opened Wrappers
  import opened Hex
  import opened RoomKeys
  import opened Relay
  import opened Protocol
  import opened RelayInvariant
  import opened KeyAgreement

  predicate Carries(line: Line, x: Bytes) {
    line.Secret? && Decode(line.hex) == Some(x)
  }

  /** The client decoded the secret once, or a line carrying it is on its way. */
  ghost predicate Holds(sys: System, p: PeerId, x: Bytes) {
    || (p in sys.clients && x in sys.clients[p].known)
    || (p in sys.relay.wires && exists line :: line in sys.relay.wires[p] && Carries(line, x))
  }

  /** The connection is a member of a room whose secret is `x`. */
  ghost predicate MemberUnder(s: State, p: PeerId, x: Bytes) {
    exists r, a :: r in s.heap && a in s.heap[r].members && s.heap[r].members[a] == p && s.heap[r].secret == x
  }

  // ---------------------------------------------------------------- how a step spreads secrets

  /** `t`'s wires carry to a member of `t` its room's secret, or nothing that was not on them in `s`. */
  ghost predicate SpreadsToMembers(s: State, t: State) {
    forall q, line :: q in t.wires && line in t.wires[q] && line.Secret? ==>
      || (q in s.wires && line in s.wires[q])
      || exists r, a :: r in t.heap && a in t.heap[r].members && t.heap[r].members[a] == q
                     && line.hex == Encode(t.heap[r].secret)
  }

  lemma EnteredSpreads(s: State, p: PeerId, r: RoomId)
    requires p in s.peers && r in s.heap
    ensures SpreadsToMembers(s, Entered(s, p, r))
  {
    var t := Entered(s, p, r);
    forall q, line | q in t.wires && line in t.wires[q] && line.Secret? && line !in s.wires[q]
      ensures exists r, a :: r in t.heap && a in t.heap[r].members && t.heap[r].members[a] == q
                          && line.hex == Encode(t.heap[r].secret)
    {
      assert t.heap[r].members[s.peers[p].addr] == q;
    }
  }

  lemma TurnedAwaySpreads(s: State, p: PeerId, reason: string)
    ensures SpreadsToMembers(s, TurnedAway(s, p, reason))
  {
  }

  lemma JoinSpreads(env: Env, s: State, p: PeerId, f: JoinFields, id: RoomId, secret: Bytes)
    requires Closed(s) && p in s.peers
    ensures SpreadsToMembers(s, Join(env, s, p, f, id, secret))
  {
    var s1 := WithPeer(s, p, Identified(s.peers[p], f));
    match Admission(env, s1, s1.peers[p], f)
    case Refused(reason) => TurnedAwaySpreads(s1, p, reason);
    case Admitted =>
      var o := Opened(env, s1, f, s1.peers[p].addr, id, secret);
      EnteredSpreads(o, p, o.rooms[f.room]);
  }

  /** Secrets come onto wires by a rotation only to the members it is for. */
  lemma RotateSpreads(env: Env, s: State, r: RoomId, secret: Bytes)
    requires r in s.heap
    ensures SpreadsToMembers(s, Rotate(env, s, r, secret))
  {
    var t := Rotate(env, s, r, secret);
    forall q, line | q in t.wires && line in t.wires[q] && line.Secret? && line !in s.wires[q]
      ensures exists r, a :: r in t.heap && a in t.heap[r].members && t.heap[r].members[a] == q
                          && line.hex == Encode(t.heap[r].secret)
    {
      assert q in t.heap[r].members.Values;
      var a :| a in t.heap[r].members && t.heap[r].members[a] == q;
      assert t.heap[r].secret == secret;
    }
  }

  /** The secrets on `t`'s wires were on `s`'s. */
  ghost predicate NoNewSecrets(s: State, t: State) {
    forall q, line :: q in t.wires && line in t.wires[q] && line.Secret? ==> q in s.wires && line in s.wires[q]
  }

  lemma NoticeIsNoSecret(s: State, to: set<PeerId>, text: string)
    ensures NoNewSecrets(s, Sent(s, to, Notice(text)))
  {
  }

  lemma SpreadsFurther(s: State, s2: State, t: State, u: State)
    requires NoNewSecrets(s, s2) && SpreadsToMembers(s2, t) && u.wires == t.wires && u.heap == t.heap
    ensures SpreadsToMembers(s, u)
  {
  }

  lemma EvictedSpreads(env: Env, s: State, r: RoomId, target: string, why: string, secret: Bytes)
    requires Targets(s, r, target)
    ensures SpreadsToMembers(s, Evicted(env, s, r, target, why, secret))
  {
    var room := s.heap[r];
    var p := room.members[target];
    var s1 := s.(heap := s.heap[r := room.(members := room.members - {target})]);
    var s2 := Sent(s1, {p}, Notice(why));
    NoticeIsNoSecret(s1, {p}, why);
    RotateSpreads(env, s2, r, secret);
    SpreadsFurther(s, s2, Rotate(env, s2, r, secret), Evicted(env, s, r, target, why, secret));
  }

  lemma QuietWires(env: Env, sys: System, e: Event)
    requires Closed(sys.relay) && Enabled(sys, e) && (e.ReaderExit? || e.CreateRoom?)
    ensures Next(env, sys, e).relay.wires == sys.relay.wires
  {
  }

  lemma StepSpreads(env: Env, sys: System, e: Event)
    requires Closed(sys.relay) && Enabled(sys, e)
    ensures SpreadsToMembers(sys.relay, Next(env, sys, e).relay)
  {
    var s := sys.relay;
    match e
    case JoinRoom(p, f, id, secret) => JoinSpreads(env, s, p, f, id, secret);
    case Kick(_, r, target, secret) => EvictedSpreads(env, s, r, target, KickNotice(s.heap[r]), secret);
    case Ban(_, r, target, secret) =>
      var l := Listed(s, target, s.peers[s.heap[r].members[target]]);
      EvictedSpreads(env, l, r, target, BanNotice(s.heap[r]), secret);
    case Connect(p, addr, alias, _, _) => assert Accept(s, p, addr, alias).wires == s.wires[p := []];
    case Receive(p) => assert forall line :: line in s.wires[p][1..] ==> line in s.wires[p];
    case ReaderExit(_) => QuietWires(env, sys, e);
    case CreateRoom(_, _, _, _) => QuietWires(env, sys, e);
    case _ =>
  }

  lemma KnownGrows(env: Env, sys: System, e: Event, p: PeerId, x: Bytes)
    requires Closed(sys.relay) && Enabled(sys, e)
    requires p in Next(env, sys, e).clients && x in Next(env, sys, e).clients[p].known
    ensures Holds(sys, p, x)
  {
    if e.Receive? && e.p == p && x !in sys.clients[p].known {
      assert Carries(sys.relay.wires[p][0], x);
    }
  }

  /** A secret newly held is the secret of a room its holder is a member of. */
  lemma StepHolds(env: Env, sys: System, e: Event, p: PeerId, x: Bytes)
    requires Closed(sys.relay) && Enabled(sys, e) && Holds(Next(env, sys, e), p, x)
    ensures Holds(sys, p, x) || MemberUnder(Next(env, sys, e).relay, p, x)
  {
    var next := Next(env, sys, e);
    StepSpreads(env, sys, e);
    if p in next.relay.wires && exists line :: line in next.relay.wires[p] && Carries(line, x) {
      var line :| line in next.relay.wires[p] && Carries(line, x);
      if p !in sys.relay.wires || line !in sys.relay.wires[p] {
        var r, a :| r in next.relay.heap && a in next.relay.heap[r].members
                 && next.relay.heap[r].members[a] == p && line.hex == Encode(next.relay.heap[r].secret);
        RoundTrip(next.relay.heap[r].secret);
      }
    } else {
      KnownGrows(env, sys, e, p, x);
    }
  }

  /** In every run, whoever holds a secret was, in some state passed through, a member of a room that then had it. */
  lemma {:induction false} HoldersWereMembers(env: Env, run: seq<System>, events: seq<Event>, n: nat,
                                              p: PeerId, x: Bytes)
    requires IsRun(env, run, events) && n < |run| && Holds(run[n], p, x)
    ensures exists i :: 0 <= i <= n && MemberUnder(run[i].relay, p, x)
  {
    if n == 0 {
    } else if !MemberUnder(run[n].relay, p, x) {
      StepHolds(env, run[n - 1], events[n - 1], p, x);
      HoldersWereMembers(env, run, events, n - 1, p, x);
    }
  }

  /** A client that reads a line with a secret knows it from then on, and only such a line teaches it one. */
  lemma ReadingTeaches(env: Env, sys: System, p: PeerId, x: Bytes)
    requires Closed(sys.relay) && Enabled(sys, Receive(p))
    ensures var before, after := sys.clients[p], Next(env, sys, Receive(p)).clients[p];
            var line := sys.relay.wires[p][0];
      && (x in after.known <==> x in before.known || (line.Secret? && line.hex != "" && Decode(line.hex) == Some(x)))
      && after.roomName == before.roomName && after.password == before.password
      && Next(env, sys, Receive(p)).relay.wires[p] == sys.relay.wires[p][1..]
  {
  }

  /** It then has the keys that follow from that secret; a line without a readable secret leaves it as it is. */
  lemma ReadingRekeys(env: Env, sys: System, p: PeerId)
    requires Closed(sys.relay) && Enabled(sys, Receive(p))
    ensures var before, after := sys.clients[p], Next(env, sys, Receive(p)).clients[p];
            var line := sys.relay.wires[p][0];
      if line.Secret? && line.hex != "" && Decode(line.hex).Some? then
        var auth, secret := after.keys.auth, Decode(line.hex).value;
        && auth == (if before.password == "" then before.keys.auth
                    else env.kdf.argon2id(before.password, before.roomName))
        && after.keys.enc == env.kdf.hkdf(auth, secret, "p2p-messenger-enc")
        && after.keys.hmac == env.kdf.hkdf(auth, secret, "p2p-messenger-hmac")
      else after == before
  {
  }

  /** A client begins with its password's auth key, or its room's name's, and knows no secret. */
  lemma ConnectedClientIs(env: Env, sys: System, e: Event)
    requires Closed(sys.relay) && Enabled(sys, e) && e.Connect?
    ensures Next(env, sys, e).clients[e.p]
         == Client(e.roomName, e.password,
                   Keys(env.kdf.argon2id(if e.password == "" then e.roomName else e.password, e.roomName), [], []), {})
  {
  }

  /** Nothing else changes what a client knows or which keys it has. */
  lemma OthersTeachNothing(env: Env, sys: System, e: Event, p: PeerId)
    requires Closed(sys.relay) && Enabled(sys, e) && e != Receive(p) && p in sys.clients
    ensures p in Next(env, sys, e).clients && Next(env, sys, e).clients[p] == sys.clients[p]
  {
  }

  // ---------------------------------------------------------------- secrets are drawn once

  lemma StepDraws(env: Env, sys: System, e: Event)
    requires Closed(sys.relay) && Enabled(sys, e)
    ensures sys.relay.drawn <= Next(env, sys, e).relay.drawn
  {
  }

  lemma {:induction false} DrawnGrows(env: Env, run: seq<System>, events: seq<Event>, i: nat, j: nat)
    requires IsRun(env, run, events) && i <= j < |run|
    ensures run[i].relay.drawn <= run[j].relay.drawn
  {
    if i == j {
    } else {
      DrawnGrows(env, run, events, i, j - 1);
      StepDraws(env, run[j - 1], events[j - 1]);
    }
  }

  /** The one room a step may give a secret to. */
  function Redrawn(e: Event): Option<RoomId> {
    match e
    case CreateRoom(_, _, id, _) => Some(id)
    case JoinRoom(_, _, id, _) => Some(id)
    case Kick(_, r, _, _) => Some(r)
    case Ban(_, r, _, _) => Some(r)
    case _ => None
  }

  /** Rooms keep their secret, but for at most one, which has a secret never drawn before. */
  ghost predicate FreshAt(s: State, t: State, id: Option<RoomId>) {
    forall r :: r in t.heap ==>
      || (r in s.heap && t.heap[r].secret == s.heap[r].secret)
      || (id == Some(r) && t.heap[r].secret !in s.drawn)
  }

  lemma LetInFresh(env: Env, s: State, p: PeerId, f: JoinFields, id: RoomId, secret: Bytes)
    requires Closed(s) && p in s.peers && FreshSecret(s, secret)
    ensures FreshAt(s, LetIn(env, s, p, f, id, secret), Some(id))
  {
  }

  lemma JoinFresh(env: Env, s: State, p: PeerId, f: JoinFields, id: RoomId, secret: Bytes)
    requires Closed(s) && p in s.peers && FreshSecret(s, secret)
    ensures FreshAt(s, Join(env, s, p, f, id, secret), Some(id))
  {
    var s1 := WithPeer(s, p, Identified(s.peers[p], f));
    if Admission(env, s1, s1.peers[p], f).Admitted? { LetInFresh(env, s1, p, f, id, secret); }
  }

  lemma EvictedFresh(env: Env, s: State, r: RoomId, target: string, why: string, secret: Bytes)
    requires Targets(s, r, target) && FreshSecret(s, secret)
    ensures FreshAt(s, Evicted(env, s, r, target, why, secret), Some(r))
  {
  }

  lemma StepFresh(env: Env, sys: System, e: Event)
    requires Closed(sys.relay) && Enabled(sys, e)
    ensures FreshAt(sys.relay, Next(env, sys, e).relay, Redrawn(e))
  {
    match e
    case JoinRoom(p, f, id, secret) => JoinFresh(env, sys.relay, p, f, id, secret);
    case Kick(_, r, target, secret) =>
      EvictedFresh(env, sys.relay, r, target, KickNotice(sys.relay.heap[r]), secret);
    case Ban(_, r, target, secret) =>
      var s := sys.relay;
      var l := Listed(s, target, s.peers[s.heap[r].members[target]]);
      EvictedFresh(env, l, r, target, BanNotice(s.heap[r]), secret);
    case ReaderExit(p) => DepartedIsDeparture(sys.relay, p, OwnerAfter(sys.relay, p));
    case _ =>
  }

  /** No two rooms share a secret. */
  ghost predicate SecretsDistinct(s: State) {
    forall r, r' :: r in s.heap && r' in s.heap && s.heap[r].secret == s.heap[r'].secret ==> r == r'
  }

  lemma DistinctKept(env: Env, s: State, t: State, id: Option<RoomId>)
    requires SecretsDistinct(s) && KeysSound(env, s) && FreshAt(s, t, id)
    ensures SecretsDistinct(t)
  {
  }

  lemma StepSecretsDistinct(env: Env, sys: System, e: Event)
    requires RelayOK(env, sys.relay) && Enabled(sys, e) && SecretsDistinct(sys.relay)
    ensures SecretsDistinct(Next(env, sys, e).relay)
  {
    StepFresh(env, sys, e);
    DistinctKept(env, sys.relay, Next(env, sys, e).relay, Redrawn(e));
  }

  lemma {:induction false} RunSecretsDistinct(env: Env, run: seq<System>, events: seq<Event>, i: nat)
    requires Lawful(env.kdf) && IsRun(env, run, events) && i < |run|
    ensures SecretsDistinct(run[i].relay)
  {
    if i == 0 {
    } else {
      RunSecretsDistinct(env, run, events, i - 1);
      RunKeeps(env, run, events, i - 1);
      StepSecretsDistinct(env, run[i - 1], events[i - 1]);
    }
  }

  /** A room whose secret had been drawn by an earlier state had that secret then. */
  lemma {:induction false} SecretWasItsOwn(env: Env, run: seq<System>, events: seq<Event>, i: nat, j: nat, r: RoomId)
    requires IsRun(env, run, events) && i <= j < |run|
    requires r in run[j].relay.heap && run[j].relay.heap[r].secret in run[i].relay.drawn
    ensures r in run[i].relay.heap && run[i].relay.heap[r].secret == run[j].relay.heap[r].secret
  {
    if i == j {
    } else {
      StepFresh(env, run[j - 1], events[j - 1]);
      DrawnGrows(env, run, events, i, j - 1);
      SecretWasItsOwn(env, run, events, i, j - 1, r);
    }
  }

  /** The connection is a member of this very room while its secret is `x`. */
  ghost predicate MemberOf(s: State, p: PeerId, r: RoomId, x: Bytes) {
    r in s.heap && s.heap[r].secret == x && exists a :: a in s.heap[r].members && s.heap[r].members[a] == p
  }

  /**
   Whoever holds a room's current secret was a member of that room at or after the rotation that
   drew it: in some state passed through, the room had this secret and the holder among its members.
   */
  lemma CurrentSecretHolders(env: Env, run: seq<System>, events: seq<Event>, n: nat, p: PeerId, r: RoomId)
    requires Lawful(env.kdf) && IsRun(env, run, events) && n < |run| && r in run[n].relay.heap
    requires Holds(run[n], p, run[n].relay.heap[r].secret)
    ensures exists i :: 0 <= i <= n && MemberOf(run[i].relay, p, r, run[n].relay.heap[r].secret)
  {
    var x := run[n].relay.heap[r].secret;
    HoldersWereMembers(env, run, events, n, p, x);
    var i :| 0 <= i <= n && MemberUnder(run[i].relay, p, x);
    RunKeeps(env, run, events, i);
    var r', a :| r' in run[i].relay.heap && a in run[i].relay.heap[r'].members
              && run[i].relay.heap[r'].members[a] == p && run[i].relay.heap[r'].secret == x;
    assert RoomSound(env, run[i].relay, run[i].relay.heap[r']);
    SecretWasItsOwn(env, run, events, i, n, r);
    RunSecretsDistinct(env, run, events, i);
    assert MemberOf(run[i].relay, p, r, x);
  }

  lemma HeldWasDrawn(env: Env, run: seq<System>, events: seq<Event>, n: nat, p: PeerId, x: Bytes)
    requires Lawful(env.kdf) && IsRun(env, run, events) && n < |run| && Holds(run[n], p, x)
    ensures x in run[n].relay.drawn
  {
    HoldersWereMembers(env, run, events, n, p, x);
    var i :| 0 <= i <= n && MemberUnder(run[i].relay, p, x);
    RunKeeps(env, run, events, i);
    var r, a :| r in run[i].relay.heap && a in run[i].relay.heap[r].members
             && run[i].relay.heap[r].members[a] == p && run[i].relay.heap[r].secret == x;
    assert RoomSound(env, run[i].relay, run[i].relay.heap[r]);
    DrawnGrows(env, run, events, i, n);
  }

  // ---------------------------------------------------------------- out is out

  /** The connection is no member, and cannot become one: it has used its JOIN or is gone. */
  ghost predicate Out(sys: System, p: PeerId) {
    && p in sys.clients
    && (p in sys.relay.peers ==> sys.relay.peers[p].room.Some?)
    && forall r, a :: r in sys.relay.heap && a in sys.relay.heap[r].members ==> sys.relay.heap[r].members[a] != p
  }

  /** Nobody becomes a member but the joiner of a JOIN; nobody's room is taken away. */
  ghost predicate OnlyJoins(s: State, t: State, joiner: Option<PeerId>) {
    && (forall r, a :: r in t.heap && a in t.heap[r].members ==>
          || (r in s.heap && a in s.heap[r].members && s.heap[r].members[a] == t.heap[r].members[a])
          || joiner == Some(t.heap[r].members[a]))
    && (forall p :: p in t.peers && p in s.peers && s.peers[p].room.Some? ==> t.peers[p].room == s.peers[p].room)
  }

  lemma EnteredOnly(s: State, p: PeerId, r: RoomId)
    requires p in s.peers && r in s.heap && s.peers[p].room.None?
    ensures OnlyJoins(s, Entered(s, p, r), Some(p)) && Entered(s, p, r).peers.Keys == s.peers.Keys
  {
  }

  lemma LetInOnly(env: Env, s: State, p: PeerId, f: JoinFields, id: RoomId, secret: Bytes)
    requires Closed(s) && p in s.peers && s.peers[p].room.None? && id !in s.heap
    ensures var t := LetIn(env, s, p, f, id, secret); OnlyJoins(s, t, Some(p)) && t.peers.Keys == s.peers.Keys
  {
    var o := Opened(env, s, f, s.peers[p].addr, id, secret);
    assert OnlyJoins(s, o, None);
    EnteredOnly(o, p, o.rooms[f.room]);
  }

  lemma JoinOnly(env: Env, s: State, p: PeerId, f: JoinFields, id: RoomId, secret: Bytes)
    requires Closed(s) && p in s.peers && s.peers[p].room.None? && id !in s.heap
    ensures var t := Join(env, s, p, f, id, secret); OnlyJoins(s, t, Some(p)) && t.peers.Keys == s.peers.Keys
  {
    var s1 := WithPeer(s, p, Identified(s.peers[p], f));
    if Admission(env, s1, s1.peers[p], f).Admitted? { LetInOnly(env, s1, p, f, id, secret); }
  }

  lemma EvictedOnly(env: Env, s: State, r: RoomId, target: string, why: string, secret: Bytes)
    requires Targets(s, r, target)
    ensures var t := Evicted(env, s, r, target, why, secret);
            OnlyJoins(s, t, None) && t.peers.Keys == s.peers.Keys
  {
  }

  lemma StepOnlyJoins(env: Env, sys: System, e: Event)
    requires Closed(sys.relay) && Enabled(sys, e)
    ensures OnlyJoins(sys.relay, Next(env, sys, e).relay, if e.JoinRoom? then Some(e.p) else None)
    ensures Next(env, sys, e).relay.peers.Keys <= sys.relay.peers.Keys + (if e.Connect? then {e.p} else {})
    ensures sys.clients.Keys <= Next(env, sys, e).clients.Keys
  {
    match e
    case JoinRoom(p, f, id, secret) => JoinOnly(env, sys.relay, p, f, id, secret);
    case Kick(_, r, target, secret) =>
      EvictedOnly(env, sys.relay, r, target, KickNotice(sys.relay.heap[r]), secret);
    case Ban(_, r, target, secret) =>
      var s := sys.relay;
      var l := Listed(s, target, s.peers[s.heap[r].members[target]]);
      EvictedOnly(env, l, r, target, BanNotice(s.heap[r]), secret);
    case ReaderExit(p) => QuietStep(env, sys, e);
    case CreateRoom(_, _, _, _) => QuietStep(env, sys, e);
    case _ =>
  }

  lemma StepStaysOut(env: Env, sys: System, e: Event, p: PeerId)
    requires Closed(sys.relay) && Enabled(sys, e) && Out(sys, p)
    ensures Out(Next(env, sys, e), p)
  {
    StepOnlyJoins(env, sys, e);
  }

  lemma EvictionEnds(env: Env, s: State, r: RoomId, target: string, secret: Bytes, t: State)
    requires Membership(s) && Targets(s, r, target) && IsEviction(env, s, r, target, secret, t)
    ensures var p := s.heap[r].members[target];
      && t.peers[p].room.Some?
      && forall r', a :: r' in t.heap && a in t.heap[r'].members ==> t.heap[r'].members[a] != p
  {
  }

  lemma EvictedIsOut(env: Env, sys: System, e: Event, p: PeerId)
    requires Closed(sys.relay) && Membership(sys.relay) && Enabled(sys, e) && p in sys.clients
    requires (e.Kick? || e.Ban?) && sys.relay.heap[e.r].members[e.target] == p
    ensures Out(Next(env, sys, e), p)
  {
    var s, t := sys.relay, Next(env, sys, e).relay;
    if e.Kick? {
      EvictedIsEviction(env, s, e.r, e.target, KickNotice(s.heap[e.r]), e.secret);
      EvictionEnds(env, s, e.r, e.target, e.secret, t);
    } else {
      var l := Listed(s, e.target, s.peers[p]);
      MembersKeep(s, l);
      EvictedIsEviction(env, l, e.r, e.target, BanNotice(s.heap[e.r]), e.secret);
      EvictionEnds(env, l, e.r, e.target, e.secret, t);
    }
  }

  /** A step that leaves a connection out of every room gives it no secret. */
  lemma OutLearnsNothing(env: Env, sys: System, e: Event, p: PeerId, x: Bytes)
    requires Closed(sys.relay) && Enabled(sys, e) && Out(Next(env, sys, e), p) && Holds(Next(env, sys, e), p, x)
    ensures Holds(sys, p, x)
  {
    StepHolds(env, sys, e, p, x);
  }

  lemma {:induction false} StaysOut(env: Env, run: seq<System>, events: seq<Event>, i: nat, j: nat, p: PeerId, x: Bytes)
    requires IsRun(env, run, events) && i <= j < |run| && Out(run[i], p)
    ensures Out(run[j], p)
    ensures Holds(run[j], p, x) ==> Holds(run[i], p, x)
  {
    if i == j {
    } else {
      StaysOut(env, run, events, i, j - 1, p, x);
      StepStaysOut(env, run[j - 1], events[j - 1], p);
      if Holds(run[j], p, x) { OutLearnsNothing(env, run[j - 1], events[j - 1], p, x); }
    }
  }

  lemma OutAfterEviction(env: Env, run: seq<System>, events: seq<Event>, i: nat, p: PeerId)
    requires Lawful(env.kdf) && IsRun(env, run, events) && i < |events|
    requires (events[i].Kick? || events[i].Ban?) && run[i].relay.heap[events[i].r].members[events[i].target] == p
    ensures Out(run[i + 1], p)
  {
    RunInSync(env, run, events, i);
    assert IsMember(run[i].relay, events[i].r, events[i].target, p);
    EvictedIsOut(env, run[i], events[i], p);
  }

  /**
   A connection removed by a kick or ban never again holds a secret that was not drawn before
   its eviction: not the rotation's, nor any later one, however the run goes on. To hold one its
   user has to join again, on a new connection.
   */
  lemma EvictionSeparatesEpochs(env: Env, run: seq<System>, events: seq<Event>, i: nat, j: nat, p: PeerId, x: Bytes)
    requires Lawful(env.kdf) && IsRun(env, run, events) && i < j < |run|
    requires (events[i].Kick? || events[i].Ban?) && run[i].relay.heap[events[i].r].members[events[i].target] == p
    requires Holds(run[j], p, x)
    ensures x in run[i].relay.drawn && x != events[i].secret
  {
    OutAfterEviction(env, run, events, i, p);
    StaysOut(env, run, events, i + 1, j, p, x);
    OutLearnsNothing(env, run[i], events[i], p, x);
    HeldWasDrawn(env, run, events, i, p, x);
  }

  // ---------------------------------------------------------------- the auth key

  /** A room keeps its name, its auth setting, its owner's auth key and its origin. */
  ghost predicate SameRooms(s: State, t: State) {
    forall r :: r in s.heap ==>
      && r in t.heap && t.heap[r].name == s.heap[r].name && t.heap[r].hasAuth == s.heap[r].hasAuth
      && t.heap[r].ownerAuthKey == s.heap[r].ownerAuthKey && t.heap[r].createdLocally == s.heap[r].createdLocally
  }

  lemma LetInSameRooms(env: Env, s: State, p: PeerId, f: JoinFields, id: RoomId, secret: Bytes)
    requires Closed(s) && p in s.peers && id !in s.heap
    ensures SameRooms(s, LetIn(env, s, p, f, id, secret))
  {
  }

  lemma JoinSameRooms(env: Env, s: State, p: PeerId, f: JoinFields, id: RoomId, secret: Bytes)
    requires Closed(s) && p in s.peers && id !in s.heap
    ensures SameRooms(s, Join(env, s, p, f, id, secret))
  {
    var s1 := WithPeer(s, p, Identified(s.peers[p], f));
    if Admission(env, s1, s1.peers[p], f).Admitted? { LetInSameRooms(env, s1, p, f, id, secret); }
  }

  lemma EvictedSameRooms(env: Env, s: State, r: RoomId, target: string, why: string, secret: Bytes)
    requires Targets(s, r, target)
    ensures SameRooms(s, Evicted(env, s, r, target, why, secret))
  {
  }

  lemma StepSameRooms(env: Env, sys: System, e: Event)
    requires Closed(sys.relay) && Enabled(sys, e)
    ensures SameRooms(sys.relay, Next(env, sys, e).relay)
  {
    match e
    case JoinRoom(p, f, id, secret) => JoinSameRooms(env, sys.relay, p, f, id, secret);
    case Kick(_, r, target, secret) =>
      EvictedSameRooms(env, sys.relay, r, target, KickNotice(sys.relay.heap[r]), secret);
    case Ban(_, r, target, secret) =>
      var s := sys.relay;
      var l := Listed(s, target, s.peers[s.heap[r].members[target]]);
      EvictedSameRooms(env, l, r, target, BanNotice(s.heap[r]), secret);
    case ReaderExit(p) => DepartedIsDeparture(sys.relay, p, OwnerAfter(sys.relay, p));
    case _ =>
  }

  lemma {:induction false} RunSameRooms(env: Env, run: seq<System>, events: seq<Event>, i: nat, j: nat)
    requires IsRun(env, run, events) && i <= j < |run|
    ensures SameRooms(run[i].relay, run[j].relay)
  {
    if i == j {
    } else {
      RunSameRooms(env, run, events, i, j - 1);
      StepSameRooms(env, run[j - 1], events[j - 1]);
    }
  }

  /** The password half of the admission check, in a room with auth. */
  lemma PasswordGate(env: Env, s: State, peer: Peer, f: JoinFields)
    requires Closed(s) && KeysSound(env, s) && f.room in s.rooms && s.heap[s.rooms[f.room]].hasAuth
    ensures var verdict := Admission(env, s, peer, f);
      && (verdict == Refused("Room requires a password") <==> !IsBanned(s, peer) && f.password == "")
      && (verdict == Refused("Incorrect password") <==>
            !IsBanned(s, peer) && f.password != ""
            && AuthKey(env.kdf, f.room, f.password) != s.heap[s.rooms[f.room]].ownerAuthKey)
  {
  }

  /** Across any number of rotations an auth room's auth key stays the owner's. */
  lemma AuthKeyStays(env: Env, run: seq<System>, events: seq<Event>, i: nat, j: nat, r: RoomId)
    requires Lawful(env.kdf) && IsRun(env, run, events) && i <= j < |run|
    requires r in run[i].relay.heap && run[i].relay.heap[r].hasAuth
    ensures r in run[j].relay.heap && run[j].relay.heap[r].hasAuth
    ensures run[j].relay.heap[r].keys.auth == run[j].relay.heap[r].ownerAuthKey
         == run[i].relay.heap[r].ownerAuthKey == run[i].relay.heap[r].keys.auth
  {
    RunKeeps(env, run, events, i);
    RunKeeps(env, run, events, j);
    RunSameRooms(env, run, events, i, j);
    assert RoomSound(env, run[i].relay, run[i].relay.heap[r]);
    assert RoomSound(env, run[j].relay, run[j].relay.heap[r]);
  }

  /**
   So a password that derives the auth key the room was made with is never refused as missing or
   incorrect, however often the keys were rotated since, and any other password is.
   */
  lemma SamePasswordAdmitted(env: Env, run: seq<System>, events: seq<Event>, i: nat, j: nat, r: RoomId,
                             peer: Peer, f: JoinFields)
    requires Lawful(env.kdf) && IsRun(env, run, events) && i <= j < |run|
    requires r in run[i].relay.heap && run[i].relay.heap[r].hasAuth
    requires f.room in run[j].relay.rooms && run[j].relay.rooms[f.room] == r && f.password != ""
    ensures Closed(run[j].relay)
    ensures !IsBanned(run[j].relay, peer) ==>
              (Admission(env, run[j].relay, peer, f) == Refused("Incorrect password")
               <==> AuthKey(env.kdf, f.room, f.password) != run[i].relay.heap[r].ownerAuthKey)
    ensures Admission(env, run[j].relay, peer, f) != Refused("Room requires a password")
  {
    RunKeeps(env, run, events, j);
    AuthKeyStays(env, run, events, i, j, r);
    PasswordGate(env, run[j].relay, peer, f);
  }
}
