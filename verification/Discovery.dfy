/**
 Discovery soft state: peers and relays heard announcing on the local network, refreshed by each
 announcement and swept every 3 s of those silent for more than 15 s. Times are in seconds.
 */
module Discovery {
  import opened Sweeping

  const EXPIRY := 15
  const PERIOD := 3

  datatype MessageType = Announce | Query | Other

  /** The fields of a packet that matter, with the address it came from. */
  datatype Packet = Packet(addr: string, kind: MessageType, room: string, isRelay: bool)

  /** `heard` is history: when each address last announced our room. */
  datatype Table = Table(
    now: int,
    lastSweep: int,
    peers: map<string, int>,
    relays: map<string, int>,
    heard: map<string, int>)

  const START := Table(0, 0, map[], map[], map[])

  datatype Event = Receive(packet: Packet) | Sweep | Advance(d: int)

  /** An announcement of our own room by somebody else. */
  predicate Counts(room: string, localAddrs: set<string>, p: Packet) {
    p.addr !in localAddrs && p.kind == Announce && p.room == room
  }

  /** listenLoop on one packet, with one timestamp for both tables. */
  function Heard(room: string, localAddrs: set<string>, t: Table, p: Packet): Table {
    if !Counts(room, localAddrs, p) then t
    else t.(peers := t.peers[p.addr := t.now],
            relays := if p.isRelay then t.relays[p.addr := t.now] else t.relays,
            heard := t.heard[p.addr := t.now])
  }

  /** cleanupPeers. */
  function Swept(t: Table): Table {
    t.(lastSweep := t.now, peers := Kept(t.peers, t.now - EXPIRY), relays := Kept(t.relays, t.now - EXPIRY))
  }

  predicate Enabled(t: Table, e: Event) {
    match e
    case Receive(_) => true
    case Sweep => t.now == t.lastSweep + PERIOD
    case Advance(d) => d > 0 && t.now + d <= t.lastSweep + PERIOD
  }

  function Next(room: string, localAddrs: set<string>, t: Table, e: Event): Table
    requires Enabled(t, e)
  {
    match e
    case Receive(p) => Heard(room, localAddrs, t, p)
    case Sweep => Swept(t)
    case Advance(d) => t.(now := t.now + d)
  }

  ghost predicate IsRun(room: string, localAddrs: set<string>, run: seq<Table>, events: seq<Event>) {
    && |run| == |events| + 1 && run[0] == START
    && forall i {:trigger events[i]} :: 0 <= i < |events| ==>
         Enabled(run[i], events[i]) && run[i + 1] == Next(room, localAddrs, run[i], events[i])
  }

  ghost predicate Current(t: Table) {
    && t.lastSweep <= t.now <= t.lastSweep + PERIOD
    && (forall a :: a in t.heard ==> t.heard[a] <= t.now)
    && (forall a :: a in t.peers ==>
          a in t.heard && t.peers[a] == t.heard[a] && t.lastSweep - t.peers[a] <= EXPIRY)
    && (forall a :: a in t.heard && t.now - t.heard[a] <= EXPIRY ==> a in t.peers)
    && (forall a :: a in t.relays ==> a in t.peers && t.relays[a] <= t.peers[a])
  }

  lemma StepCurrent(room: string, localAddrs: set<string>, t: Table, e: Event)
    requires Current(t) && Enabled(t, e)
    ensures Current(Next(room, localAddrs, t, e))
  {
  }

  lemma {:induction false} RunCurrent(room: string, localAddrs: set<string>, run: seq<Table>, events: seq<Event>,
                                      i: nat)
    requires IsRun(room, localAddrs, run, events) && i < |run|
    ensures Current(run[i])
  {
    if i == 0 {
    } else {
      RunCurrent(room, localAddrs, run, events, i - 1);
      StepCurrent(room, localAddrs, run[i - 1], events[i - 1]);
    }
  }

  /** The event is an announcement of this room from this address, which is not one of our own. */
  predicate Announces(room: string, localAddrs: set<string>, e: Event, addr: string) {
    && e.Receive? && e.packet.addr == addr && addr !in localAddrs
    && e.packet.kind == Announce && e.packet.room == room
  }

  /** When each address last announced our room, read off the run itself. */
  ghost predicate LastHeard(room: string, localAddrs: set<string>, run: seq<Table>, events: seq<Event>, i: nat,
                            addr: string, k: nat)
  {
    && k < i <= |events| && |run| == |events| + 1
    && Announces(room, localAddrs, events[k], addr)
    && forall m {:trigger events[m]} :: k < m < i ==> !Announces(room, localAddrs, events[m], addr)
  }

  lemma {:induction false} HeardIsLastHeard(room: string, localAddrs: set<string>, run: seq<Table>, events: seq<Event>,
                                            i: nat, addr: string, k: nat)
    requires IsRun(room, localAddrs, run, events) && i < |run| && LastHeard(room, localAddrs, run, events, i, addr, k)
    ensures addr in run[i].heard && run[i].heard[addr] == run[k].now
    decreases i
  {
    if k + 1 < i {
      HeardIsLastHeard(room, localAddrs, run, events, i - 1, addr, k);
      assert run[i] == Next(room, localAddrs, run[i - 1], events[i - 1]);
    } else {
      assert run[k + 1] == Next(room, localAddrs, run[k], events[k]);
    }
  }

  /**
   In every state of every run: an address that announced within the last 15 s is listed, one that
   has been silent for more than 18 s is not, and a listed relay is a listed peer.
   */
  lemma SoftState(room: string, localAddrs: set<string>, run: seq<Table>, events: seq<Event>, i: nat,
                  addr: string, k: nat)
    requires IsRun(room, localAddrs, run, events) && i < |run| && LastHeard(room, localAddrs, run, events, i, addr, k)
    ensures run[i].now - run[k].now <= 15 ==> addr in run[i].peers
    ensures run[i].now - run[k].now > 18 ==> addr !in run[i].peers && addr !in run[i].relays
    ensures addr in run[i].relays ==> addr in run[i].peers && run[i].relays[addr] <= run[i].peers[addr] == run[k].now
  {
    RunCurrent(room, localAddrs, run, events, i);
    HeardIsLastHeard(room, localAddrs, run, events, i, addr, k);
  }

  /** When each address last announced our room as a relay. */
  ghost predicate LastHeardAsRelay(room: string, localAddrs: set<string>, run: seq<Table>, events: seq<Event>, i: nat,
                                   addr: string, k: nat)
  {
    && k < i <= |events| && |run| == |events| + 1
    && Announces(room, localAddrs, events[k], addr) && events[k].packet.isRelay
    && forall m {:trigger events[m]} :: k < m < i && Announces(room, localAddrs, events[m], addr) ==>
         !events[m].packet.isRelay
  }

  lemma {:induction false} RelayUntilExpiry(room: string, localAddrs: set<string>, run: seq<Table>,
                                            events: seq<Event>, i: nat, addr: string, k: nat)
    requires IsRun(room, localAddrs, run, events) && i < |run|
    requires LastHeardAsRelay(room, localAddrs, run, events, i, addr, k)
    ensures run[k].now <= run[i].now && run[i].lastSweep <= run[i].now <= run[i].lastSweep + PERIOD
    ensures addr in run[i].relays ==> run[i].relays[addr] == run[k].now && run[i].lastSweep - run[k].now <= EXPIRY
    ensures run[i].now - run[k].now <= EXPIRY ==> addr in run[i].relays
    decreases i
  {
    RunCurrent(room, localAddrs, run, events, i - 1);
    if k + 1 < i {
      RelayUntilExpiry(room, localAddrs, run, events, i - 1, addr, k);
      assert run[i] == Next(room, localAddrs, run[i - 1], events[i - 1]);
    } else {
      assert run[k + 1] == Next(room, localAddrs, run[k], events[k]);
    }
  }

  /**
   Relays likewise: an address that announced as a relay within the last 15 s is listed as one, with the
   time of that announcement, and one that has not for more than 18 s is not.
   */
  lemma RelaySoftState(room: string, localAddrs: set<string>, run: seq<Table>, events: seq<Event>, i: nat,
                       addr: string, k: nat)
    requires IsRun(room, localAddrs, run, events) && i < |run|
    requires LastHeardAsRelay(room, localAddrs, run, events, i, addr, k)
    ensures run[i].now - run[k].now <= 15 ==> addr in run[i].relays
    ensures run[i].now - run[k].now > 18 ==> addr !in run[i].relays
    ensures addr in run[i].relays ==> run[i].relays[addr] == run[k].now
  {
    RelayUntilExpiry(room, localAddrs, run, events, i, addr, k);
  }

  /** An address that never announced itself as a relay is not listed as one. */
  lemma {:induction false} NeverRelayed(room: string, localAddrs: set<string>, run: seq<Table>, events: seq<Event>,
                                        i: nat, addr: string)
    requires IsRun(room, localAddrs, run, events) && i < |run|
    requires forall m {:trigger events[m]} :: 0 <= m < i && Announces(room, localAddrs, events[m], addr) ==>
               !events[m].packet.isRelay
    ensures addr !in run[i].relays
  {
    if i == 0 {
    } else {
      NeverRelayed(room, localAddrs, run, events, i - 1, addr);
      assert run[i] == Next(room, localAddrs, run[i - 1], events[i - 1]);
    }
  }

  /** No announcement of our room from this address so far. */
  ghost predicate NeverHeard(room: string, localAddrs: set<string>, events: seq<Event>, i: nat, addr: string) {
    forall m {:trigger events[m]} :: 0 <= m < i && m < |events| ==> !Announces(room, localAddrs, events[m], addr)
  }

  lemma {:induction false} NothingHeard(room: string, localAddrs: set<string>, run: seq<Table>, events: seq<Event>,
                                        i: nat, addr: string)
    requires IsRun(room, localAddrs, run, events) && i < |run| && NeverHeard(room, localAddrs, events, i, addr)
    ensures addr !in run[i].heard
  {
    if i == 0 {
    } else {
      NothingHeard(room, localAddrs, run, events, i - 1, addr);
      assert run[i] == Next(room, localAddrs, run[i - 1], events[i - 1]);
    }
  }

  /** And an address that never announced our room is listed nowhere; no address of our own ever is. */
  lemma UnheardIsAbsent(room: string, localAddrs: set<string>, run: seq<Table>, events: seq<Event>, i: nat,
                        addr: string)
    requires IsRun(room, localAddrs, run, events) && i < |run|
    requires addr in localAddrs || NeverHeard(room, localAddrs, events, i, addr)
    ensures addr !in run[i].peers && addr !in run[i].relays
  {
    RunCurrent(room, localAddrs, run, events, i);
    NothingHeard(room, localAddrs, run, events, i, addr);
  }

  /** Packets may come at any moment, and time goes on or the sweep, every 3 s, is due. */
  lemma NeverStuck(t: Table, packet: Packet)
    requires t.now <= t.lastSweep + 3
    ensures Enabled(t, Receive(packet)) && (Enabled(t, Sweep) || Enabled(t, Advance(1)))
  {
  }

  // ---------------------------------------------------------------- the service as it runs

  class DiscoveryService {
    const roomName: string
    const localAddrs: set<string>
    var peers: map<string, int>
    var relayPeers: map<string, int>
    ghost var now: int
    ghost var lastSweep: int
    ghost var heard: map<string, int>

    ghost function View(): Table
      reads this
    {
      Table(now, lastSweep, peers, relayPeers, heard)
    }

    constructor (roomName: string, localAddrs: set<string>)
      ensures View() == START && Current(View())
      ensures this.roomName == roomName && this.localAddrs == localAddrs
    {
      this.roomName, this.localAddrs := roomName, localAddrs;
      peers, relayPeers, now, lastSweep, heard := map[], map[], 0, 0, map[];
    }

    /** One turn of listenLoop. */
    method Listen(p: Packet, time: int)
      requires Current(View()) && time == now
      modifies this
      ensures Current(View()) && View() == Heard(roomName, localAddrs, old(View()), p)
    {
      StepCurrent(roomName, localAddrs, View(), Receive(p));
      if p.addr in localAddrs { return; }
      match p.kind
      case Announce =>
        if p.room == roomName {
          peers := peers[p.addr := time];
          heard := heard[p.addr := time];
          if p.isRelay {
            relayPeers := relayPeers[p.addr := time];
          }
        }
      case _ =>
    }

    /** cleanupPeers. */
    method CleanupPeers(time: int)
      requires Current(View()) && time == now == lastSweep + PERIOD
      modifies this
      ensures Current(View()) && View() == Swept(old(View()))
    {
      StepCurrent(roomName, localAddrs, View(), Sweep);
      var cutoff := time - EXPIRY;
      peers := Expire(peers, cutoff);
      relayPeers := Expire(relayPeers, cutoff);
      lastSweep := time;
    }
  }
}
