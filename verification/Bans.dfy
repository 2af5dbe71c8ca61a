/** What a ban list entry guarantees, and what lifting one does. */
module Bans {
  import opened Hex
  import opened RoomKeys
  import opened Relay
  import opened Protocol
  import opened RelayInvariant

  // ---------------------------------------------------------------- ban safety

  /** The only step that takes an entry off the ban list is an UNBAN that clears it. */
  lemma StepKeepsEntry(env: Env, sys: System, e: Event, entry: string)
    requires Closed(sys.relay) && Enabled(sys, e) && entry in sys.relay.banned
    requires e.Unban? ==> entry !in Cleared(sys.relay.deviceOf, e.entry)
    ensures entry in Next(env, sys, e).relay.banned
  {
  }

  /** No UNBAN between the two points of the run clears the entry. */
  ghost predicate NotLifted(run: seq<System>, events: seq<Event>, i: nat, j: nat, entry: string)
    requires |run| == |events| + 1 && j <= |events|
  {
    forall k {:trigger events[k]} :: i <= k < j && events[k].Unban? ==>
      entry !in Cleared(run[k].relay.deviceOf, events[k].entry)
  }

  lemma {:induction false} EntryStays(env: Env, run: seq<System>, events: seq<Event>, i: nat, j: nat, entry: string)
    requires IsRun(env, run, events) && i <= j < |run| && entry in run[i].relay.banned
    requires NotLifted(run, events, i, j, entry)
    ensures entry in run[j].relay.banned
  {
    if i == j {
    } else {
      EntryStays(env, run, events, i, j - 1, entry);
      StepKeepsEntry(env, run[j - 1], events[j - 1], entry);
    }
  }

  /** What a BAN lists of its target: the address, the alias, and the device when it is known. */
  predicate IsListedFor(addr: string, alias: string, deviceID: string, entry: string) {
    entry == addr || entry == "alias:" + alias || (deviceID != "" && entry == "device:" + deviceID)
  }

  /** A BAN adds exactly these entries, and puts the alias on record with the device. */
  lemma BanLists(env: Env, sys: System, e: Event)
    requires Closed(sys.relay) && Enabled(sys, e) && e.Ban?
    ensures var s, t := sys.relay, Next(env, sys, e).relay;
            var target := s.peers[s.heap[e.r].members[e.target]];
      && (forall x :: x in t.banned <==> x in s.banned || IsListedFor(e.target, target.alias, target.deviceID, x))
      && t.deviceOf == s.deviceOf[target.alias := target.deviceID]
  {
  }

  /** No other step adds any. */
  lemma OnlyBanLists(env: Env, sys: System, e: Event)
    requires Closed(sys.relay) && Enabled(sys, e) && !e.Ban?
    ensures Next(env, sys, e).relay.banned <= sys.relay.banned
  {
  }

  /** Only the joiner's own record changed, and only the refusal was written. */
  ghost predicate OnlyRefused(s: State, p: PeerId, reason: string, t: State)
    requires p in s.peers && p in s.wires
  {
    && t == s.(peers := t.peers, wires := t.wires)
    && t.peers.Keys == s.peers.Keys && (forall q :: q in s.peers && q != p ==> t.peers[q] == s.peers[q])
    && t.peers[p].room == s.peers[p].room && !t.peers[p].open
    && t.wires.Keys == s.wires.Keys && (forall q :: q in s.wires && q != p ==> t.wires[q] == s.wires[q])
    && t.wires[p] == s.wires[p] + (if s.peers[p].open then [Notice("AUTH:FAILED|" + reason)] else [])
  }

  lemma TurnedAwayOnly(s: State, p: PeerId, reason: string)
    requires p in s.peers && p in s.wires
    ensures OnlyRefused(s, p, reason, TurnedAway(s, p, reason))
  {
    assert s.wires[p] + [] == s.wires[p];
  }

  /** What the ban list knows a joiner by: its address, and the device ID it gave now or on an earlier JOIN. */
  predicate GoesBy(peer: Peer, f: JoinFields, entry: string) {
    var device := if f.deviceID != "" then f.deviceID else peer.deviceID;
    entry == peer.addr || (device != "" && entry == "device:" + device)
  }

  /** A JOIN from a banned address or with a banned device ID is refused before anything else. */
  lemma BannedJoinRefused(env: Env, s: State, p: PeerId, f: JoinFields, id: RoomId, secret: Bytes, entry: string)
    requires Closed(s) && p in s.peers && p in s.wires && GoesBy(s.peers[p], f, entry) && entry in s.banned
    ensures OnlyRefused(s, p, "Banned", Join(env, s, p, f, id, secret))
  {
    var s1 := WithPeer(s, p, Identified(s.peers[p], f));
    assert Admission(env, s1, s1.peers[p], f) == Refused("Banned");
    TurnedAwayOnly(s1, p, "Banned");
  }

  /** The entry is one a BAN step makes for its target. */
  predicate IsMadeBy(sys: System, e: Event, entry: string)
    requires e.Ban? && Enabled(sys, e)
  {
    var target := sys.relay.peers[sys.relay.heap[e.r].members[e.target]];
    IsListedFor(e.target, target.alias, target.deviceID, entry)
  }

  lemma JoinerConnected(env: Env, run: seq<System>, events: seq<Event>, j: nat)
    requires Lawful(env.kdf) && IsRun(env, run, events) && j < |events| && events[j].JoinRoom?
    ensures var e, s := events[j], run[j].relay;
      && Closed(s) && e.p in s.peers && e.p in s.wires
      && run[j + 1].relay == Join(env, s, e.p, e.fields, e.id, e.secret)
  {
    RunKeeps(env, run, events, j);
    assert run[j + 1] == Next(env, run[j], events[j]);
    match events[j] case JoinRoom(p, f, id, secret) =>
  }

  lemma BannedEntryAt(env: Env, run: seq<System>, events: seq<Event>, i: nat, j: nat, entry: string)
    requires IsRun(env, run, events) && i < j < |events| && events[i].Ban?
    requires IsMadeBy(run[i], events[i], entry)
    requires NotLifted(run, events, i + 1, j, entry)
    ensures entry in run[j].relay.banned
  {
    BanLists(env, run[i], events[i]);
    EntryStays(env, run, events, i + 1, j, entry);
  }

  /**
   Ban safety over whole runs: from a ban on, until an UNBAN clears the entry, no JOIN from that
   address or with that device ID changes any room or puts a secret on any wire.
   */
  lemma BannedStayOut(env: Env, run: seq<System>, events: seq<Event>, i: nat, j: nat, entry: string)
    requires Lawful(env.kdf) && IsRun(env, run, events) && i < j < |events|
    requires events[i].Ban? && IsMadeBy(run[i], events[i], entry)
    requires NotLifted(run, events, i + 1, j, entry)
    requires events[j].JoinRoom? && Enabled(run[j], events[j])
    requires GoesBy(run[j].relay.peers[events[j].p], events[j].fields, entry)
    ensures events[j].p in run[j].relay.wires
    ensures OnlyRefused(run[j].relay, events[j].p, "Banned", run[j + 1].relay)
  {
    BannedEntryAt(env, run, events, i, j, entry);
    JoinerConnected(env, run, events, j);
    var e := events[j];
    BannedJoinRefused(env, run[j].relay, e.p, e.fields, e.id, e.secret, entry);
  }

  /** And in no reachable state has any room a member with a banned address. */
  lemma NoBannedMember(env: Env, run: seq<System>, events: seq<Event>, i: nat, r: RoomId, a: string)
    requires Lawful(env.kdf) && IsRun(env, run, events) && i < |run|
    requires r in run[i].relay.heap && a in run[i].relay.heap[r].members
    ensures a !in run[i].relay.banned
  {
    RunKeeps(env, run, events, i);
  }

  // ---------------------------------------------------------------- what UNBAN clears

  /** The entry of the device an alias is on record with, if it is. */
  predicate IsRecordedDevice(s: State, alias: string, entry: string) {
    alias in s.deviceOf && s.deviceOf[alias] != "" && entry == "device:" + s.deviceOf[alias]
  }

  /** The alias's record goes if it names a device, and every other record stays as it is. */
  ghost predicate RecordDropped(s: State, alias: string, t: State) {
    && (forall b :: b in t.deviceOf <==> b in s.deviceOf && !(b == alias && s.deviceOf[b] != ""))
    && (forall b :: b in t.deviceOf ==> t.deviceOf[b] == s.deviceOf[b])
  }

  /** A bare alias: an entry of that very name, its alias entry and its recorded device go, and no more. */
  lemma UnbanAlias(s: State, alias: string)
    requires !IsTagged(alias)
    ensures var t := Unbanned(s, alias);
      && (forall e :: e in t.banned <==>
            e in s.banned && e != alias && e != "alias:" + alias && !IsRecordedDevice(s, alias, e))
      && RecordDropped(s, alias, t)
  {
  }

  /** The entry of an alias on record with this device. */
  predicate IsAliasUnder(s: State, device: string, entry: string) {
    "alias:" <= entry && entry[6..] in s.deviceOf && s.deviceOf[entry[6..]] == device
  }

  /** device:D: its entry goes, with the entries and records of every alias on record with D, and no more. */
  lemma UnbanDevice(s: State, device: string)
    ensures var t := Unbanned(s, "device:" + device);
      && (forall e :: e in t.banned <==> e in s.banned && e != "device:" + device && !IsAliasUnder(s, device, e))
      && (forall b :: b in t.deviceOf <==> b in s.deviceOf && s.deviceOf[b] != device)
      && (forall b :: b in t.deviceOf ==> t.deviceOf[b] == s.deviceOf[b])
  {
    var target := "device:" + device;
    assert target[7..] == device;
    forall e | e in s.banned ensures e in Cleared(s.deviceOf, target) <==> e == target || IsAliasUnder(s, device, e) {
      if IsAliasUnder(s, device, e) { assert e == "alias:" + e[6..]; }
      forall a | e == "alias:" + a ensures e[6..] == a { }
    }
  }

  /** alias:A: its entry and its recorded device go, and no more. */
  lemma UnbanTaggedAlias(s: State, alias: string)
    ensures var t := Unbanned(s, "alias:" + alias);
      && (forall e :: e in t.banned <==> e in s.banned && e != "alias:" + alias && !IsRecordedDevice(s, alias, e))
      && RecordDropped(s, alias, t)
  {
    var target := "alias:" + alias;
    assert target[0] == 'a' && target[6..] == alias;
    assert !("device:" <= target) by { assert "device:"[0] == 'd'; }
  }

  predicate HasDevice(s: State, alias: string) {
    alias in s.deviceOf && s.deviceOf[alias] != ""
  }

  /** The records an UNBAN of this device drops. */
  function Under(s: State, device: string): set<string> {
    set b | b in s.deviceOf && s.deviceOf[b] == device
  }

  /** Neither the name nor the alias entry of the name is on the list, and the name has no device. */
  predicate Unlisted(s: State, alias: string) {
    alias !in s.banned && ("alias:" + alias) !in s.banned && !HasDevice(s, alias)
  }

  /**
   When naming an alias with its tag comes to the same as naming it bare. For an alias that itself
   starts with a tag, the bare form means the device or the alias after that tag.
   */
  predicate TagMakesNoDifference(s: State, alias: string) {
    if "device:" <= alias then
      (Unlisted(s, alias) && Under(s, alias[7..]) == {}) || (HasDevice(s, alias) && Under(s, alias[7..]) == {alias})
    else if "alias:" <= alias then Unlisted(s, alias) && !HasDevice(s, alias[6..])
    else alias !in s.banned
  }

  lemma BareAlike(s: State, alias: string)
    requires !IsTagged(alias)
    ensures Unbanned(s, "alias:" + alias) == Unbanned(s, alias) <==> alias !in s.banned
  {
    UnbanAlias(s, alias);
    UnbanTaggedAlias(s, alias);
    var t, u := Unbanned(s, "alias:" + alias), Unbanned(s, alias);
    assert !IsRecordedDevice(s, alias, alias);
    assert t.deviceOf == u.deviceOf;
    if alias in s.banned {
      assert alias in t.banned && alias !in u.banned;
    } else {
      assert t.banned == u.banned;
    }
  }

  lemma AliasTagAlike(s: State, name: string)
    ensures var alias := "alias:" + name;
      Unbanned(s, "alias:" + alias) == Unbanned(s, alias) <==> Unlisted(s, alias) && !HasDevice(s, name)
  {
    var alias := "alias:" + name;
    UnbanTaggedAlias(s, alias);
    UnbanTaggedAlias(s, name);
    var t, u := Unbanned(s, "alias:" + alias), Unbanned(s, alias);
    assert |alias| > |name| && |"alias:" + alias| > |alias|;
    assert alias[0] == 'a' && ("alias:" + alias)[0] == 'a' && forall d :: ("device:" + d)[0] == 'd';
    if HasDevice(s, alias) {
      assert alias !in t.deviceOf && alias in u.deviceOf;
    } else if HasDevice(s, name) {
      assert name in t.deviceOf && name !in u.deviceOf;
    } else {
      assert t.deviceOf == u.deviceOf;
      if alias in s.banned {
        assert alias in t.banned && alias !in u.banned;
      } else if "alias:" + alias in s.banned {
        assert "alias:" + alias !in t.banned && "alias:" + alias in u.banned;
      } else {
        assert t.banned == u.banned;
      }
    }
  }

  /** The alias "device:D" with a device on record: the same only if that is D and nobody else has it. */
  lemma DeviceRecorded(s: State, device: string, t: State, u: State)
    requires t == Unbanned(s, "alias:" + ("device:" + device)) && u == Unbanned(s, "device:" + device)
    requires HasDevice(s, "device:" + device)
    ensures t == u <==> Under(s, device) == {"device:" + device}
  {
    var alias := "device:" + device;
    UnbanTaggedAlias(s, alias);
    UnbanDevice(s, device);
    if Under(s, device) == {alias} {
      assert alias in Under(s, device);
      forall b | b in s.deviceOf ensures s.deviceOf[b] == device <==> b == alias {
        assert b in Under(s, device) <==> b == alias;
      }
      assert t.deviceOf == u.deviceOf;
      forall e ensures IsAliasUnder(s, device, e) <==> e == "alias:" + alias {
        assert ("alias:" + alias)[6..] == alias;
        if "alias:" <= e && e[6..] == alias { assert e == "alias:" + e[6..]; }
      }
      assert t.banned == u.banned;
    } else if alias !in Under(s, device) {
      assert alias !in t.deviceOf && alias in u.deviceOf;
    } else {
      assert Under(s, device) != {alias};
      var b :| b in Under(s, device) && b != alias;
      assert b in t.deviceOf && b !in u.deviceOf;
    }
  }

  lemma DeviceTagAlike(s: State, device: string)
    ensures var alias := "device:" + device;
      Unbanned(s, "alias:" + alias) == Unbanned(s, alias) <==>
        (Unlisted(s, alias) && Under(s, device) == {}) || (HasDevice(s, alias) && Under(s, device) == {alias})
  {
    var alias := "device:" + device;
    UnbanTaggedAlias(s, alias);
    UnbanDevice(s, device);
    var t, u := Unbanned(s, "alias:" + alias), Unbanned(s, alias);
    assert ("alias:" + alias)[6..] == alias;
    assert alias[0] == 'd' && ("alias:" + alias)[0] == 'a';
    if HasDevice(s, alias) {
      DeviceRecorded(s, device, t, u);
    } else if b :| b in Under(s, device) {
      assert b in t.deviceOf && b !in u.deviceOf;
    } else {
      forall b | b in s.deviceOf ensures s.deviceOf[b] != device { assert b !in Under(s, device); }
      assert t.deviceOf == u.deviceOf;
      assert forall e :: !IsAliasUnder(s, device, e);
      if alias in s.banned {
        assert alias in t.banned && alias !in u.banned;
      } else if "alias:" + alias in s.banned {
        assert "alias:" + alias !in t.banned && "alias:" + alias in u.banned;
      } else {
        assert t.banned == u.banned;
      }
    }
  }

  /** Exactly when UNBAN alias:A does what UNBAN A does, for every A. */
  lemma TaggedLikeBareExactlyWhen(s: State, alias: string)
    ensures Unbanned(s, "alias:" + alias) == Unbanned(s, alias) <==> TagMakesNoDifference(s, alias)
  {
    if "device:" <= alias {
      assert alias == "device:" + alias[7..];
      DeviceTagAlike(s, alias[7..]);
    } else if "alias:" <= alias {
      assert alias == "alias:" + alias[6..];
      AliasTagAlike(s, alias[6..]);
    } else {
      BareAlike(s, alias);
    }
  }

  /** An alias with a tag that is no entry of the list, and whose two forms differ all the same. */
  lemma TaggedAliasDiffers(s: State)
    requires s.banned == {"alias:alias:b", "device:D"} && s.deviceOf == map["alias:b" := "D"]
    ensures "alias:b" !in s.banned && Unbanned(s, "alias:" + "alias:b") != Unbanned(s, "alias:b")
    ensures "device:D" !in Unbanned(s, "alias:" + "alias:b").banned && "device:D" in Unbanned(s, "alias:b").banned
  {
    UnbanTaggedAlias(s, "alias:b");
    assert "alias:" + "b" == "alias:b" && "device:" + "D" == "device:D";
    UnbanTaggedAlias(s, "b");
    assert IsRecordedDevice(s, "alias:b", "device:D");
  }

  /** Every alias on record with a device still has its entry, in every reachable state. */
  lemma RecordedAliasesAreListed(env: Env, run: seq<System>, events: seq<Event>, i: nat, alias: string)
    requires Lawful(env.kdf) && IsRun(env, run, events) && i < |run|
    requires alias in run[i].relay.deviceOf && run[i].relay.deviceOf[alias] != ""
    ensures ("alias:" + alias) in run[i].relay.banned
  {
    RunKeeps(env, run, events, i);
  }
}
