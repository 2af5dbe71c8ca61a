/**
 The relay's handlers as they run: one field at a time, with loops over maps in whatever order
 they come. Each handler is proved to take the state exactly where the step functions say.
 */
module Server {
  import opened Wrappers
  import opened Hex
  import opened RoomKeys
  import opened AddressOrder
  import opened Relay
  import opened Protocol
  import opened RelayInvariant
  import opened CollectionFacts
  import opened MessageCrypto
  import FromLine
  import Text

  // ---------------------------------------------------------------- what the loops build up

  /** Writing a line to one more connection. */
  lemma SentOneMore(s: State, written: set<PeerId>, p: PeerId, line: Line)
    requires p !in written
    ensures Sent(Sent(s, written, line), {p}, line) == Sent(s, written + {p}, line)
  {
  }

  lemma SentNone(s: State, line: Line)
    ensures Sent(s, {}, line) == s
  {
  }

  /** Some member of the room goes by this alias. */
  ghost predicate HasAlias(s: State, r: RoomId, alias: string)
    requires r in s.heap
  {
    exists a :: a in s.heap[r].members && s.heap[r].members[a] in s.peers
             && s.peers[s.heap[r].members[a]].alias == alias
  }

  function Tagged(aliases: set<string>): set<string> {
    set a | a in aliases :: "alias:" + a
  }

  lemma TaggedUnion(aliases: set<string>, more: set<string>)
    ensures Tagged(aliases + more) == Tagged(aliases) + Tagged(more)
  {
  }

  /** The aliases among `done` that were banned under the device. */
  function BannedUnder(deviceOf: map<string, string>, done: set<string>, device: string): set<string> {
    set a | a in done && a in deviceOf && deviceOf[a] == device
  }

  lemma BannedUnderOneMore(deviceOf: map<string, string>, done: set<string>, a: string, device: string)
    requires a in deviceOf
    ensures BannedUnder(deviceOf, done + {a}, device)
         == BannedUnder(deviceOf, done, device) + (if deviceOf[a] == device then {a} else {})
  {
  }

  lemma ClearedByBareName(deviceOf: map<string, string>, target: string)
    requires !IsTagged(target)
    ensures Cleared(deviceOf, target) == {target} + {"alias:" + target} + KnownDevice(deviceOf, target)
    ensures Forgotten(deviceOf, target) == if KnownDevice(deviceOf, target) == {} then {} else {target}
  {
  }

  /** A device's UNBAN clears its own entry and the tagged aliases banned under it. */
  lemma ClearedByDevice(deviceOf: map<string, string>, target: string)
    requires "device:" <= target
    ensures var aliases := BannedUnder(deviceOf, deviceOf.Keys, target[7..]);
            Cleared(deviceOf, target) == {target} + Tagged(aliases) && Forgotten(deviceOf, target) == aliases
  {
  }

  /** What an UNBAN leaves of the ban list and the alias records. */
  lemma UnbannedParts(s: State, target: string, banned: set<string>, deviceOf: map<string, string>)
    requires banned == s.banned - Cleared(s.deviceOf, target)
    requires deviceOf == s.deviceOf - Forgotten(s.deviceOf, target)
    ensures s.(banned := banned, deviceOf := deviceOf) == Unbanned(s, target)
  {
  }

  /** A connection's address, if it is a member of the connection's room, leads to the connection. */
  lemma MemberIsSelf(s: State, p: PeerId)
    requires Closed(s) && Membership(s) && p in s.peers && s.peers[p].room.Some?
    ensures var room, addr := s.heap[s.peers[p].room.value], s.peers[p].addr;
            addr in room.members ==> room.members[addr] == p
  {
    var r, addr := s.peers[p].room.value, s.peers[p].addr;
    if addr in s.heap[r].members { assert IsMember(s, r, addr, s.heap[r].members[addr]); }
  }

  class Server {
    const env: Env
    var rooms: map<string, RoomId>
    var heap: map<RoomId, Room>
    var peers: map<PeerId, Peer>
    var banned: set<string>
    var deviceOf: map<string, string>
    var wires: map<PeerId, seq<Line>>
    ghost var drawn: set<Bytes>

    ghost function View(): State
      reads this
    {
      State(rooms, heap, peers, banned, deviceOf, wires, drawn)
    }

    ghost predicate Valid()
      reads this
    {
      RelayOK(env, View())
    }

    constructor (env: Env)
      ensures Valid() && this.env == env && View() == EMPTY.relay
    {
      this.env := env;
      rooms, heap, peers, banned, deviceOf, wires, drawn := map[], map[], map[], {}, map[], map[], {};
    }

    // -------------------------------------------------------------- writing

    /** conn.Write: reaches the client only over an open connection. */
    method Write(p: PeerId, line: Line)
      requires p in wires
      modifies this`wires
      ensures View() == Sent(old(View()), {p}, line)
    {
      if p in peers && peers[p].open {
        wires := wires[p := wires[p] + [line]];
      }
    }

    method Close(p: PeerId)
      modifies this`peers
      ensures View() == Hangup(old(View()), p)
    {
      if p in peers {
        peers := peers[p := peers[p].(open := false)];
      }
    }

    // -------------------------------------------------------------- connections

    /** handlePeerConnection, up to its read loop. */
    method Accept(p: PeerId, addr: string, alias: string)
      requires Valid()
      requires p !in peers && PlainAddr(addr) && forall q :: q in peers ==> peers[q].addr != addr
      modifies this
      ensures Valid() && View() == Relay.Accept(old(View()), p, addr, alias)
    {
      AcceptKeeps(env, View(), p, addr, alias);
      peers := peers[p := Peer(addr, alias, "", None, true)];
      wires := wires[p := []];
    }

    // -------------------------------------------------------------- CreateRoom

    method CreateRoom(name: string, password: string, id: RoomId, secret: Bytes)
      requires Lawful(env.kdf) && Valid() && id !in heap && FreshSecret(View(), secret)
      modifies this
      ensures Valid() && View() == Create(env, old(View()), name, password, id, secret)
    {
      CreateKeeps(env, View(), name, password, id, secret);
      var keys := DeriveRoomKeys(env.kdf, name, password, []);
      if name in rooms { return; }
      var roomKeys := CreateRoomKeys(env.kdf, keys, secret);
      heap := heap[id := Room(name, true, roomKeys, keys.auth, secret, "", map[], true)];
      rooms := rooms[name := id];
      drawn := drawn + {secret};
    }

    // -------------------------------------------------------------- JOIN

    /** The loop over the room's peers that looks for an alias in use. */
    method IsAliasTaken(room: Room, alias: string) returns (taken: bool)
      requires forall a :: a in room.members ==> room.members[a] in peers
      ensures taken <==> AliasTaken(env, View(), room, alias)
    {
      var rest := room.members.Keys;
      taken := false;
      while rest != {}
        invariant rest <= room.members.Keys
        invariant taken ==> AliasTaken(env, View(), room, alias)
        invariant !taken ==> forall a :: a in room.members && a !in rest ==>
                    !env.equalFold(peers[room.members[a]].alias, alias)
      {
        var a :| a in rest;
        if env.equalFold(peers[room.members[a]].alias, alias) { return true; }
        rest := rest - {a};
      }
    }

    /** The checks of a JOIN, in the order the handler makes them. */
    method Check(peer: Peer, f: JoinFields) returns (verdict: Verdict)
      requires Closed(View()) && Membership(View())
      ensures verdict == Admission(env, View(), peer, f)
    {
      var isBanned := peer.addr in banned;
      if !isBanned && peer.deviceID != "" {
        isBanned := "device:" + peer.deviceID in banned;
      }
      if isBanned { return Refused("Banned"); }
      if f.room !in rooms { return Admitted; }
      var room := heap[rooms[f.room]];
      var keys := DeriveRoomKeys(env.kdf, f.room, f.password, room.secret);
      if room.hasAuth {
        if f.password == "" { return Refused("Room requires a password"); }
        if room.keys.auth != keys.auth { return Refused("Incorrect password"); }
      }
      forall a | a in room.members ensures room.members[a] in peers {
        assert IsMember(View(), rooms[f.room], a, room.members[a]);
      }
      var taken := IsAliasTaken(room, peer.alias);
      verdict := if taken then Refused("Alias already in use") else Admitted;
    }

    method JoinRoom(p: PeerId, f: JoinFields, id: RoomId, secret: Bytes)
      requires Closed(View()) && p in peers && p in wires
      modifies this
      ensures View() == LetIn(env, old(View()), p, f, id, secret)
    {
      var addr := peers[p].addr;
      if f.room !in rooms {
        var given, hasAuth := DeriveRoomKeys(env.kdf, f.room, f.password, []), f.password != "";
        var keys := JoinRoomKeys(env.kdf, f.room, given, hasAuth, secret);
        rooms := rooms[f.room := id];
        heap := heap[id := Room(f.room, hasAuth, keys, if hasAuth then given.auth else [], secret,
                                addr, map[], false)];
        drawn := drawn + {secret};
      }
      var r := rooms[f.room];
      var room := heap[r];
      room := room.(members := room.members[addr := p]);
      if room.owner == "" {
        room := room.(owner := addr);
      }
      heap := heap[r := room];
      peers := peers[p := peers[p].(room := Some(r))];
      Write(p, Secret(Encode(room.secret)));
    }

    /** The peer takes over the alias and device ID its JOIN gives. */
    method Identify(p: PeerId, f: JoinFields)
      requires p in peers
      modifies this`peers
      ensures View() == WithPeer(old(View()), p, Identified(old(peers[p]), f))
    {
      var peer := peers[p];
      if f.alias != "" { peer := peer.(alias := f.alias); }
      if f.deviceID != "" { peer := peer.(deviceID := f.deviceID); }
      peers := peers[p := peer];
    }

    method TurnAway(p: PeerId, reason: string)
      requires p in wires
      modifies this`wires, this`peers
      ensures View() == TurnedAway(old(View()), p, reason)
    {
      Write(p, Notice("AUTH:FAILED|" + reason));
      Close(p);
    }

    /** The part of a JOIN after the peer is identified. */
    method Decide(p: PeerId, f: JoinFields, id: RoomId, secret: Bytes)
      requires Closed(View()) && Membership(View()) && p in peers && p in wires
      modifies this
      ensures View() == match Admission(env, old(View()), old(peers[p]), f)
                        case Refused(reason) => TurnedAway(old(View()), p, reason)
                        case Admitted => LetIn(env, old(View()), p, f, id, secret)
    {
      var verdict := Check(peers[p], f);
      match verdict
      case Refused(reason) => TurnAway(p, reason);
      case Admitted => JoinRoom(p, f, id, secret);
    }

    /** handleMessage on a parsed JOIN line. */
    method HandleJoin(p: PeerId, f: JoinFields, id: RoomId, secret: Bytes)
      requires Lawful(env.kdf) && Valid() && p in peers && peers[p].room.None?
      requires id !in heap && FreshSecret(View(), secret)
      modifies this
      ensures Valid() && View() == Join(env, old(View()), p, f, id, secret)
    {
      JoinKeeps(env, View(), p, f, id, secret);
      IdentifiedKeeps(env, View(), p, f);
      Identify(p, f);
      Decide(p, f, id, secret);
    }

    // -------------------------------------------------------------- FROM

    /** The line broadcastToRoom makes for a sender: its alias is looked up among the members. */
    method Format(r: RoomId, senderAddr: string, message: string) returns (line: string)
      requires r in heap && Membership(View())
      ensures senderAddr in heap[r].members ==> heap[r].members[senderAddr] in peers
      ensures line == FromLine.Emitted(
                        if senderAddr in heap[r].members then peers[heap[r].members[senderAddr]].alias else "",
                        senderAddr, message)
    {
      var senderAlias := "";
      if senderAddr in heap[r].members {
        assert IsMember(View(), r, senderAddr, heap[r].members[senderAddr]);
        senderAlias := peers[heap[r].members[senderAddr]].alias;
      }
      line := FromLine.Emitted(senderAlias, senderAddr, message);
    }

    /** What the relay specification makes of a FROM line from this connection. */
    ghost function RelayedFrom(c: Primitives, p: PeerId, raw: string): Option<FromLine.Relayed>
      requires Closed(View()) && p in peers
      reads this
    {
      if peers[p].room.None? then None
      else
        var room := heap[peers[p].room.value];
        FromLine.Relay(c, room.keys, peers[p].addr, peers[p].addr in room.members, raw)
    }

    /** The sender takes the alias its line gives, and the line is made for the room. */
    method Reemit(p: PeerId, alias: string, content: string) returns (line: string)
      requires Valid() && p in peers && peers[p].room.Some?
      modifies this`peers
      ensures Valid() && View() == Renamed(old(View()), p, alias)
      ensures var isMember := old(peers[p]).addr in heap[old(peers[p]).room.value].members;
        line == FromLine.Emitted(if isMember then alias else "", old(peers[p]).addr, content)
    {
      ghost var renamed := Renamed(View(), p, alias);
      assert RelayOK(env, renamed) by { RenamedKeeps(env, View(), p, alias); }
      peers := peers[p := peers[p].(alias := alias)];
      assert View() == renamed;
      MemberIsSelf(renamed, p);
      line := Format(peers[p].room.value, peers[p].addr, content);
    }

    /**
     handleMessage on a FROM line, up to the line it has broadcast to the room: an unsigned, wrongly
     signed or malformed line changes nothing, and so does any line from outside a room.
     */
    method HandleFrom(c: Primitives, p: PeerId, raw: string) returns (line: Option<string>)
      requires Valid() && p in peers
      modifies this`peers
      ensures Valid()
      ensures match old(RelayedFrom(c, p, raw))
        case None => line == None && View() == old(View())
        case Some(out) => line == Some(out.line) && View() == Renamed(old(View()), p, out.alias)
    {
      var message := Text.TrimSpace(raw);
      if !Text.HasPrefix(message, "FROM:") { return None; }
      var parts := Text.SplitN(Text.TrimPrefix(message, "FROM:"), '|', 2);
      if |parts| != 2 || peers[p].room.None? { return None; }
      var content := parts[1];
      var enc := Text.SplitN(content, '|', 3);
      if |enc| != 3 { return None; }
      var unsigned := FromLine.Unsigned(parts[0], enc[0], enc[1]);
      if !Verify(c, heap[peers[p].room.value].keys, unsigned, enc[2]) { return None; }
      var out := Reemit(p, parts[0], content);
      return Some(out);
    }

    // -------------------------------------------------------------- KICK and BAN

    /** The loop over the room's peers that looks a target up by alias. */
    method FindByAlias(r: RoomId, alias: string) returns (target: Option<string>)
      requires r in heap && Membership(View())
      ensures target.Some? ==>
                Targets(View(), r, target.value) && peers[heap[r].members[target.value]].alias == alias
      ensures target.Some? <==> HasAlias(View(), r, alias)
    {
      forall a | a in heap[r].members ensures heap[r].members[a] in peers {
        assert IsMember(View(), r, a, heap[r].members[a]);
      }
      var rest := heap[r].members.Keys;
      while rest != {}
        invariant rest <= heap[r].members.Keys
        invariant forall a :: a in heap[r].members && a !in rest ==> peers[heap[r].members[a]].alias != alias
      {
        var a :| a in rest;
        if peers[heap[r].members[a]].alias == alias { return Some(a); }
        rest := rest - {a};
      }
      return None;
    }

    /** rotateRoomSecret: new secret and keys, then one SECRET line to each remaining member. */
    method RotateRoomSecret(r: RoomId, secret: Bytes)
      requires Membership(View()) && r in heap
      modifies this`heap, this`drawn, this`wires
      ensures View() == Rotate(env, old(View()), r, secret)
    {
      var room := heap[r];
      heap := heap[r := room.(secret := secret,
                              keys := RotateKeys(env.kdf, room.name, room.hasAuth, room.ownerAuthKey, secret))];
      drawn := drawn + {secret};
      var line := Secret(Encode(secret));
      var rest := room.members.Keys;
      ghost var start, written := View(), {};
      SentNone(start, line);
      while rest != {}
        invariant rest <= room.members.Keys
        invariant written == set a | a in room.members && a !in rest :: room.members[a]
        invariant View() == Sent(start, written, line)
      {
        var a :| a in rest;
        var p := room.members[a];
        assert IsMember(old(View()), r, a, p);
        assert p !in written by {
          forall b | b in room.members && b !in rest ensures room.members[b] != p {
            assert IsMember(old(View()), r, b, room.members[b]);
          }
        }
        Write(p, line);
        SentOneMore(start, written, p, line);
        written := written + {p};
        rest := rest - {a};
      }
      assert written == room.members.Values;
    }

    /** The common part of KICK and BAN, from deleting the target to closing its connection. */
    method Evict(r: RoomId, target: string, why: string, secret: Bytes)
      requires Membership(View()) && Targets(View(), r, target)
      modifies this
      ensures View() == Evicted(env, old(View()), r, target, why, secret)
    {
      var room := heap[r];
      var p := room.members[target];
      assert IsMember(View(), r, target, p);
      heap := heap[r := room.(members := room.members - {target})];
      Write(p, Notice(why));
      MembersKeep(old(View()), View());
      RotateRoomSecret(r, secret);
      Close(p);
    }

    /** handleKick. */
    method HandleKick(who: Actor, r: RoomId, alias: string, secret: Bytes) returns (target: Option<string>)
      requires Valid() && r in heap && FreshSecret(View(), secret)
      requires who.Member? ==> who.p in peers && peers[who.p].room == Some(r)
      modifies this
      ensures Valid()
      ensures target.Some? <==>
                (who.Operator? || old(heap[r].owner) == old(peers[who.p].addr)) && HasAlias(old(View()), r, alias)
      ensures target.None? ==> View() == old(View())
      ensures target.Some? ==>
                Targets(old(View()), r, target.value)
                && old(peers)[old(heap[r].members)[target.value]].alias == alias
                && View() == Evicted(env, old(View()), r, target.value, KickNotice(old(heap[r])), secret)
    {
      var isOwner := who.Operator? || heap[r].owner == peers[who.p].addr;
      if !isOwner { return None; }
      target := FindByAlias(r, alias);
      if target.Some? {
        EvictedKeeps(env, View(), r, target.value, KickNotice(heap[r]), secret);
        Evict(r, target.value, KickNotice(heap[r]), secret);
      }
    }

    /** The ban list part of handleBan. */
    method List(addr: string, peer: Peer)
      modifies this`banned, this`deviceOf
      ensures View() == Listed(old(View()), addr, peer)
    {
      banned := banned + {addr};
      if peer.deviceID != "" {
        banned := banned + {"device:" + peer.deviceID};
      }
      banned := banned + {"alias:" + peer.alias};
      deviceOf := deviceOf[peer.alias := peer.deviceID];
    }

    /** handleBan: listed before the rotation, so that the target cannot come back for the new secret. */
    method HandleBan(who: Actor, r: RoomId, alias: string, secret: Bytes) returns (target: Option<string>)
      requires Valid() && r in heap && FreshSecret(View(), secret)
      requires who.Member? ==> who.p in peers && peers[who.p].room == Some(r)
      modifies this
      ensures Valid()
      ensures target.Some? <==>
                (who.Operator? || old(heap[r].owner) == old(peers[who.p].addr)) && HasAlias(old(View()), r, alias)
      ensures target.None? ==> View() == old(View())
      ensures target.Some? ==>
                Targets(old(View()), r, target.value)
                && old(peers)[old(heap[r].members)[target.value]].alias == alias
                && View() == Banished(env, old(View()), r, target.value, BanNotice(old(heap[r])), secret)
    {
      var isOwner := who.Operator? || heap[r].owner == peers[who.p].addr;
      if !isOwner { return None; }
      target := FindByAlias(r, alias);
      if target.Some? {
        BanishedKeeps(env, View(), r, target.value, BanNotice(heap[r]), secret);
        List(target.value, peers[heap[r].members[target.value]]);
        MembersKeep(old(View()), View());
        Evict(r, target.value, BanNotice(heap[r]), secret);
      }
    }

    // -------------------------------------------------------------- UNBAN

    /** Deletes one entry if it is there, and says how many that was. */
    method Unlist(entry: string) returns (n: nat)
      modifies this`banned
      ensures banned == old(banned) - {entry}
      ensures n == |old(banned)| - |banned|
    {
      n := if entry in banned then 1 else 0;
      banned := banned - {entry};
    }

    /** The part of handleUnban on an alias's device record, for a bare or a tagged alias. */
    method ForgetDevice(alias: string) returns (n: nat)
      modifies this`banned, this`deviceOf
      ensures banned == old(banned) - KnownDevice(old(deviceOf), alias)
      ensures deviceOf == old(deviceOf) - (if KnownDevice(old(deviceOf), alias) == {} then {} else {alias})
      ensures n == |old(banned)| - |banned|
    {
      n := 0;
      if alias in deviceOf && deviceOf[alias] != "" {
        n := Unlist("device:" + deviceOf[alias]);
        deviceOf := deviceOf - {alias};
      }
    }

    /** One turn of the loop below. */
    method ForgetIfUnder(alias: string, device: string) returns (n: nat)
      requires alias in deviceOf
      modifies this`banned, this`deviceOf
      ensures var gone := if old(deviceOf)[alias] == device then {alias} else {};
              banned == old(banned) - Tagged(gone) && deviceOf == old(deviceOf) - gone
      ensures n == |old(banned)| - |banned|
    {
      n := 0;
      if deviceOf[alias] == device {
        n := Unlist("alias:" + alias);
        deviceOf := deviceOf - {alias};
        assert Tagged({alias}) == {"alias:" + alias};
      }
    }

    /** The loop that drops every alias banned under a device, in any order. */
    method ForgetAliases(device: string) returns (n: nat)
      modifies this`banned, this`deviceOf
      ensures var aliases := BannedUnder(old(deviceOf), old(deviceOf).Keys, device);
              banned == old(banned) - Tagged(aliases) && deviceOf == old(deviceOf) - aliases
      ensures n == |old(banned)| - |banned|
    {
      var rest := deviceOf.Keys;
      ghost var done, gone: set<string>, tags: set<string> := {}, {}, {};
      n := 0;
      while rest != {}
        invariant done + rest == old(deviceOf).Keys && done !! rest && gone <= done
        invariant gone == BannedUnder(old(deviceOf), done, device) && tags == Tagged(gone)
        invariant deviceOf == old(deviceOf) - gone && banned == old(banned) - tags
        invariant n + |banned| == |old(banned)|
        decreases rest
      {
        var alias :| alias in rest;
        ghost var more: set<string> := if old(deviceOf)[alias] == device then {alias} else {};
        BannedUnderOneMore(old(deviceOf), done, alias, device);
        TaggedUnion(gone, more);
        MovedOver(done, rest, alias);
        TwiceMap(old(deviceOf), gone, more);
        Twice(old(banned), tags, Tagged(more));
        var m := ForgetIfUnder(alias, device);
        n := n + m;
        rest := rest - {alias};
        done, gone, tags := done + {alias}, gone + more, tags + Tagged(more);
      }
      assert done == old(deviceOf).Keys;
    }

    /** An UNBAN without a tag. */
    method UnbanBare(target: string) returns (removed: nat)
      requires !IsTagged(target)
      modifies this`banned, this`deviceOf
      ensures View() == Unbanned(old(View()), target)
      ensures removed == |old(banned)| - |banned|
    {
      removed := Unlist(target);
      var n := Unlist("alias:" + target);
      removed := removed + n;
      n := ForgetDevice(target);
      removed := removed + n;
      ClearedByBareName(old(deviceOf), target);
      Thrice(old(banned), {target}, {"alias:" + target}, KnownDevice(old(deviceOf), target));
      UnbannedParts(old(View()), target, banned, deviceOf);
    }

    /** An UNBAN of a device. */
    method UnbanDevice(target: string) returns (removed: nat)
      requires "device:" <= target
      modifies this`banned, this`deviceOf
      ensures View() == Unbanned(old(View()), target)
      ensures removed == |old(banned)| - |banned|
    {
      removed := Unlist(target);
      var n := ForgetAliases(target[7..]);
      removed := removed + n;
      ClearedByDevice(old(deviceOf), target);
      Twice(old(banned), {target}, Tagged(BannedUnder(old(deviceOf), old(deviceOf).Keys, target[7..])));
      UnbannedParts(old(View()), target, banned, deviceOf);
    }

    /** An UNBAN of a tagged alias. */
    method UnbanAlias(target: string) returns (removed: nat)
      requires "alias:" <= target
      modifies this`banned, this`deviceOf
      ensures View() == Unbanned(old(View()), target)
      ensures removed == |old(banned)| - |banned|
    {
      removed := Unlist(target);
      var n := ForgetDevice(target[6..]);
      removed := removed + n;
      assert target[0] == 'a' && "device:"[0] == 'd';
      assert Cleared(old(deviceOf), target) == {target} + KnownDevice(old(deviceOf), target[6..]);
    }

    /** handleUnban, with the number of entries it removed from the ban list. */
    method HandleUnban(who: Actor, r: RoomId, target: string) returns (removed: nat)
      requires Valid() && r in heap
      requires who.Member? ==> who.p in peers && peers[who.p].room == Some(r)
      modifies this`banned, this`deviceOf
      ensures Valid()
      ensures View() == if who.Operator? || old(heap[r].owner) == old(peers[who.p].addr)
                        then Unbanned(old(View()), target) else old(View())
      ensures removed == |old(banned)| - |banned|
    {
      UnbannedKeeps(env, View(), target);
      var isOwner := who.Operator? || heap[r].owner == peers[who.p].addr;
      if !isOwner { return 0; }
      if "device:" <= target {
        removed := UnbanDevice(target);
      } else if "alias:" <= target {
        removed := UnbanAlias(target);
      } else {
        removed := UnbanBare(target);
      }
    }

    // -------------------------------------------------------------- reader exit

    /** The loop over the remaining members that finds the least address. */
    method LeastAddress(members: map<string, PeerId>) returns (least: string)
      requires members != map[] && "" !in members
      ensures least == Least(members.Keys)
    {
      var rest := members.Keys;
      least := "";
      while rest != {}
        invariant rest <= members.Keys
        invariant least == "" ==> rest == members.Keys
        invariant least != "" ==> IsLeast(least, members.Keys - rest)
      {
        var addr :| addr in rest;
        var seen := members.Keys - rest;
        if least == "" {
          least := addr;
          assert members.Keys - (rest - {addr}) == {addr};
        } else {
          LeastOfTwo(addr, least, seen);
          if Less(addr, least) { least := addr; }
          assert members.Keys - (rest - {addr}) == seen + {addr};
        }
        rest := rest - {addr};
      }
      assert members.Keys - rest == members.Keys;
      LeastUnique(least, Least(members.Keys), members.Keys);
    }

    /** removePeer's room half: out of the members, ownership handed on, an empty room collected. */
    method LeaveRoom(p: PeerId)
      requires Closed(View()) && Membership(View()) && p in peers && peers[p].room.Some?
      modifies this`heap, this`rooms
      ensures View() == Departed(old(View()), p, OwnerAfter(old(View()), p)).(peers := old(peers))
    {
      var peer := peers[p];
      var r := peer.room.value;
      var room := heap[r];
      var wasOwner := room.owner == peer.addr;
      var members := room.members - {peer.addr};
      var empty := members == map[];
      var roomName := "";
      var owner := room.owner;
      if wasOwner && !empty {
        forall a | a in members ensures a != "" {
          assert IsMember(View(), r, a, heap[r].members[a]);
        }
        owner := LeastAddress(members);
      } else if empty {
        owner := "";
        roomName := room.name;
      }
      heap := heap[r := room.(members := members, owner := owner)];
      if empty && roomName != "" && roomName in rooms {
        var registered := heap[rooms[roomName]];
        if !registered.createdLocally && registered.members == map[] {
          rooms := rooms - {roomName};
        }
      }
    }

    /** removePeer. */
    method RemovePeer(p: PeerId)
      requires Valid() && p in peers
      modifies this
      ensures Valid() && View() == Exited(old(View()), p)
    {
      ExitedKeeps(env, View(), p);
      if peers[p].room.Some? {
        LeaveRoom(p);
      }
      peers := peers - {p};
    }
  }
}
