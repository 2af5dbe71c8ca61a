/**
 Rooms without auth: they take any password, and a member that gave one ends up with other keys than
 the room's. The last lemma is a run that gets there.
 */
module OpenRooms {
  import opened Wrappers
  import opened Hex
  import opened RoomKeys
  import opened Relay
  import opened Protocol
  import opened RelayInvariant
  import opened KeyAgreement

  /** Without auth the password plays no part in the verdict on a JOIN. */
  lemma AnyPasswordIsAdmitted(env: Env, s: State, peer: Peer, f: JoinFields, password: string)
    requires Closed(s) && f.room in s.rooms && !s.heap[s.rooms[f.room]].hasAuth
    ensures Admission(env, s, peer, f.(password := password)) == Admission(env, s, peer, f)
    ensures Admission(env, s, peer, f) == Admitted <==>
              !IsBanned(s, peer) && !AliasTaken(env, s, s.heap[s.rooms[f.room]], peer.alias)
  {
  }

  // ---------------------------------------------------------------- a run that gets there

  /** Two users, the first of whom makes the room without a password. */
  datatype Script = Script(
    name: string,
    password: string,
    addr0: string,
    alias0: string,
    addr1: string,
    alias1: string,
    secret0: Bytes,
    secret1: Bytes)

  /** Everything differs that has to. */
  ghost predicate Proper(env: Env, c: Script) {
    && PlainAddr(c.addr0) && PlainAddr(c.addr1) && c.addr0 != c.addr1
    && c.alias0 != "" && c.alias1 != "" && !env.equalFold(c.alias0, c.alias1)
    && c.password != "" && c.password != c.name
    && |c.secret0| == 32 && |c.secret1| == 32 && c.secret0 != c.secret1
  }

  function Founding(c: Script): JoinFields {
    JoinFields(c.name, c.alias0, "", "")
  }

  function Following(c: Script): JoinFields {
    JoinFields(c.name, c.alias1, c.password, "")
  }

  function Unfounded(env: Env, c: Script): Room {
    FirstRoom(env, Founding(c), c.addr0, c.secret0)
  }

  /** The room with its founder in it. */
  function Founded(env: Env, c: Script): Room {
    Unfounded(env, c).(members := Unfounded(env, c).members[c.addr0 := 0])
  }

  function Arrived(addr: string, alias: string): Peer {
    Peer(addr, alias, "", None, true)
  }

  function Lobby(c: Script): State {
    State(map[], map[], map[0 := Arrived(c.addr0, c.alias0)], {}, map[], map[0 := []], {})
  }

  /** The room just made, its founder not in it yet. */
  function Made(env: Env, c: Script): State {
    Lobby(c).(rooms := map[c.name := 0], heap := map[0 := Unfounded(env, c)], drawn := {c.secret0})
  }

  /** A connection that was sent nothing yet as a member: its address among the members, its first line the secret. */
  function Inside(s: State, p: PeerId, room: Room): State
    requires p in s.peers
  {
    s.(heap := s.heap[0 := room], peers := s.peers[p := s.peers[p].(room := Some(0))],
       wires := s.wires[p := [Secret(Encode(room.secret))]])
  }

  function Alone(env: Env, c: Script): State {
    Inside(Made(env, c), 0, Founded(env, c))
  }

  function Waiting(env: Env, c: Script): State {
    Accept(Alone(env, c), 1, c.addr1, c.alias1)
  }

  function Together(env: Env, c: Script): State {
    Inside(Waiting(env, c), 1, Founded(env, c).(members := Founded(env, c).members[c.addr1 := 1]))
  }

  /** Entering an owned room with nothing on the wire. */
  lemma EntersInside(s: State, p: PeerId)
    requires p in s.peers && 0 in s.heap && p in s.wires && s.wires[p] == [] && s.peers[p].open
    requires s.heap[0].owner != ""
    ensures Entered(s, p, 0) == Inside(s, p, s.heap[0].(members := s.heap[0].members[s.peers[p].addr := p]))
  {
    var line := Secret(Encode(s.heap[0].secret));
    assert [] + [line] == [line];
    assert Entered(s, p, 0).wires == s.wires[p := [line]];
  }

  lemma FounderMakes(env: Env, c: Script)
    ensures Opened(env, Lobby(c), Founding(c), c.addr0, 0, c.secret0) == Made(env, c)
  {
  }

  lemma FounderJoins(env: Env, c: Script)
    requires Proper(env, c)
    ensures Closed(Lobby(c)) && Join(env, Lobby(c), 0, Founding(c), 0, c.secret0) == Alone(env, c)
  {
    var s := Lobby(c);
    assert WithPeer(s, 0, Identified(s.peers[0], Founding(c))) == s;
    assert Admission(env, s, s.peers[0], Founding(c)) == Admitted;
    FounderMakes(env, c);
    EntersInside(Made(env, c), 0);
  }

  lemma FollowerIsAdmitted(env: Env, c: Script)
    requires Proper(env, c)
    ensures Closed(Waiting(env, c))
    ensures Admission(env, Waiting(env, c), Arrived(c.addr1, c.alias1), Following(c)) == Admitted
  {
    var s := Waiting(env, c);
    AnyPasswordIsAdmitted(env, s, Arrived(c.addr1, c.alias1), Following(c), "");
  }

  lemma FollowerJoins(env: Env, c: Script)
    requires Proper(env, c)
    ensures Closed(Waiting(env, c)) && Join(env, Waiting(env, c), 1, Following(c), 1, c.secret1) == Together(env, c)
  {
    var s := Waiting(env, c);
    assert WithPeer(s, 1, Identified(s.peers[1], Following(c))) == s;
    FollowerIsAdmitted(env, c);
    EntersInside(s, 1);
  }

  function First(env: Env, c: Script): Client {
    NewClient(env, c.name, "")
  }

  function Second(env: Env, c: Script): Client {
    NewClient(env, c.name, c.password)
  }

  /** The states of the run after the first, one for each step. */
  function AtLobby(env: Env, c: Script): System {
    System(Lobby(c), map[0 := First(env, c)], map[])
  }

  function AtAlone(env: Env, c: Script): System {
    System(Alone(env, c), map[0 := First(env, c)], map[0 := Founding(c)])
  }

  function AtWaiting(env: Env, c: Script): System {
    AtAlone(env, c).(relay := Waiting(env, c), clients := AtAlone(env, c).clients[1 := Second(env, c)])
  }

  function AtTogether(env: Env, c: Script): System {
    AtWaiting(env, c).(relay := Together(env, c), joined := AtWaiting(env, c).joined[1 := Following(c)])
  }

  function AtEnd(env: Env, c: Script): System {
    var s, line := AtTogether(env, c), Secret(Encode(c.secret0));
    s.(relay := s.relay.(wires := s.relay.wires[1 := []]),
       clients := s.clients[1 := Processed(env, Second(env, c), line)])
  }

  ghost predicate IsStep(env: Env, s: System, e: Event, t: System) {
    Closed(s.relay) && Enabled(s, e) && t == Next(env, s, e)
  }

  /** An admitted JOIN, as a step. */
  lemma JoiningStep(env: Env, sys: System, p: PeerId, f: JoinFields, id: RoomId, secret: Bytes, relay: State)
    requires Closed(sys.relay) && Enabled(sys, JoinRoom(p, f, id, secret))
    requires Join(env, sys.relay, p, f, id, secret) == relay && p in relay.peers && relay.peers[p].room.Some?
    ensures IsStep(env, sys, JoinRoom(p, f, id, secret), sys.(relay := relay, joined := sys.joined[p := f]))
  {
  }

  /** Reading the only line on a wire, as a step. */
  lemma ReadingStep(env: Env, sys: System, p: PeerId, line: Line)
    requires Closed(sys.relay) && p in sys.clients && p in sys.relay.wires && sys.relay.wires[p] == [line]
    ensures IsStep(env, sys, Receive(p),
                   sys.(relay := sys.relay.(wires := sys.relay.wires[p := []]),
                        clients := sys.clients[p := Processed(env, sys.clients[p], line)]))
  {
    assert [line][1..] == [];
  }

  lemma FounderArrives(env: Env, c: Script)
    requires Proper(env, c)
    ensures IsStep(env, EMPTY, Connect(0, c.addr0, c.alias0, c.name, ""), AtLobby(env, c))
  {
  }

  lemma FounderStep(env: Env, c: Script)
    requires Proper(env, c)
    ensures IsStep(env, AtLobby(env, c), JoinRoom(0, Founding(c), 0, c.secret0), AtAlone(env, c))
  {
    FounderJoins(env, c);
    JoiningStep(env, AtLobby(env, c), 0, Founding(c), 0, c.secret0, Alone(env, c));
    assert map[][0 := Founding(c)] == map[0 := Founding(c)];
  }

  lemma FollowerArrives(env: Env, c: Script)
    requires Proper(env, c)
    ensures IsStep(env, AtAlone(env, c), Connect(1, c.addr1, c.alias1, c.name, c.password), AtWaiting(env, c))
  {
  }

  lemma FollowerMayJoin(env: Env, c: Script)
    requires Proper(env, c)
    ensures Enabled(AtWaiting(env, c), JoinRoom(1, Following(c), 1, c.secret1))
    ensures 1 in Together(env, c).peers && Together(env, c).peers[1].room.Some?
  {
  }

  lemma FollowerStep(env: Env, c: Script)
    requires Proper(env, c)
    ensures IsStep(env, AtWaiting(env, c), JoinRoom(1, Following(c), 1, c.secret1), AtTogether(env, c))
  {
    FollowerMayJoin(env, c);
    FollowerJoins(env, c);
    JoiningStep(env, AtWaiting(env, c), 1, Following(c), 1, c.secret1, Together(env, c));
  }

  lemma FollowerReads(env: Env, c: Script)
    requires Proper(env, c)
    ensures IsStep(env, AtTogether(env, c), Receive(1), AtEnd(env, c))
  {
    ReadingStep(env, AtTogether(env, c), 1, Secret(Encode(c.secret0)));
  }

  lemma RunExtends(env: Env, run: seq<System>, events: seq<Event>, s: System, e: Event, t: System)
    requires IsRun(env, run, events) && run[|events|] == s && IsStep(env, s, e, t)
    ensures IsRun(env, run + [t], events + [e])
  {
    var longer, more := run + [t], events + [e];
    forall i | 0 <= i < |more| ensures IsStep(env, longer[i], more[i], longer[i + 1]) {
      if i < |events| { assert more[i] == events[i] && longer[i] == run[i] && longer[i + 1] == run[i + 1]; }
    }
    forall i | 0 <= i < |more|
      ensures Closed(longer[i].relay) && Enabled(longer[i], more[i]) && longer[i + 1] == Next(env, longer[i], more[i])
    {
      assert IsStep(env, longer[i], more[i], longer[i + 1]);
    }
  }

  /** The founder's half of the run. */
  lemma FounderRun(env: Env, c: Script) returns (run: seq<System>, events: seq<Event>)
    requires Proper(env, c)
    ensures IsRun(env, run, events) && |events| == 2 && run[2] == AtAlone(env, c)
  {
    FounderArrives(env, c);
    RunExtends(env, [EMPTY], [], EMPTY, Connect(0, c.addr0, c.alias0, c.name, ""), AtLobby(env, c));
    run, events := [EMPTY] + [AtLobby(env, c)], [] + [Connect(0, c.addr0, c.alias0, c.name, "")];
    FounderStep(env, c);
    RunExtends(env, run, events, AtLobby(env, c), JoinRoom(0, Founding(c), 0, c.secret0), AtAlone(env, c));
    run, events := run + [AtAlone(env, c)], events + [JoinRoom(0, Founding(c), 0, c.secret0)];
  }

  lemma FollowerRun(env: Env, c: Script) returns (run: seq<System>, events: seq<Event>)
    requires Proper(env, c)
    ensures IsRun(env, run, events) && |events| == 4 && run[4] == AtTogether(env, c)
  {
    run, events := FounderRun(env, c);
    FollowerArrives(env, c);
    RunExtends(env, run, events, AtAlone(env, c), Connect(1, c.addr1, c.alias1, c.name, c.password), AtWaiting(env, c));
    run, events := run + [AtWaiting(env, c)], events + [Connect(1, c.addr1, c.alias1, c.name, c.password)];
    FollowerStep(env, c);
    RunExtends(env, run, events, AtWaiting(env, c), JoinRoom(1, Following(c), 1, c.secret1), AtTogether(env, c));
    run, events := run + [AtTogether(env, c)], events + [JoinRoom(1, Following(c), 1, c.secret1)];
  }

  lemma WholeRun(env: Env, c: Script) returns (run: seq<System>, events: seq<Event>)
    requires Proper(env, c)
    ensures IsRun(env, run, events) && |events| == 5 && run[5] == AtEnd(env, c)
  {
    run, events := FollowerRun(env, c);
    FollowerReads(env, c);
    RunExtends(env, run, events, AtTogether(env, c), Receive(1), AtEnd(env, c));
    run, events := run + [AtEnd(env, c)], events + [Receive(1)];
  }

  /** Where the run ends, as far as it matters. */
  lemma EndOfRun(env: Env, c: Script)
    requires Proper(env, c)
    ensures var sys := AtEnd(env, c);
      && sys.relay.heap.Keys == {0} && sys.relay.peers.Keys == {0, 1} && sys.clients.Keys == {0, 1}
      && sys.relay.heap[0].members == map[c.addr0 := 0, c.addr1 := 1] && sys.relay.peers[1].open
      && 1 in sys.relay.wires && sys.relay.wires[1] == []
      && 1 in sys.joined && SameConfig(sys.clients[1], sys.joined[1]) && sys.joined[1].password == c.password
      && sys.relay.heap[0].name == c.name && !sys.relay.heap[0].hasAuth && sys.relay.heap[0].secret == c.secret0
  {
  }

  /**
   The failing case of AgreesExactlyWhen comes about: the second user typed a password nobody asked
   for, was admitted, has read everything sent to it, and has neither of the room's two keys.
   */
  lemma PasswordMismatchReached(env: Env, c: Script) returns (run: seq<System>, events: seq<Event>)
    requires Lawful(env.kdf) && Proper(env, c) && NoCollision(env.kdf, c.name, c.password, c.name, c.secret0)
    ensures IsRun(env, run, events) && |run| == 6
    ensures var s, clients := run[5].relay, run[5].clients;
      && 0 in s.heap && c.addr1 in s.heap[0].members && s.heap[0].members[c.addr1] == 1
      && 1 in s.peers && s.peers[1].open && 1 in s.wires && s.wires[1] == [] && 1 in clients
      && clients[1].keys.enc != s.heap[0].keys.enc && clients[1].keys.hmac != s.heap[0].keys.hmac
  {
    run, events := WholeRun(env, c);
    EndOfRun(env, c);
    AgreesExactlyWhen(env, run, events, 5, 0, c.addr1);
  }
}
