/**
 The ping/pong health check. A tick copies the connection map, then acts on the copy while peers
 connect, answer and disconnect; the PINGs themselves are written by goroutines that run later.
 Times are in seconds.
 */
module HealthCheck {
  const TICK := 5
  const TIMEOUT := 10

  /** How far the tick in progress has come: copied, or marked with removals and pings still to do. */
  datatype Tick = Idle | Copied(snapshot: set<string>) | Marked(dead: set<string>, needPing: set<string>)

  /** A goroutine spawned to ping `addr` by the tick at `since`. */
  datatype Pinger = Pinger(addr: string, since: int)

  /**
   `live` are the addresses with a connection; `unanswered` is history: when the oldest PING
   without a PONG was written to each address since it connected.
   */
  datatype Check = Check(
    now: int,
    lastTick: int,
    live: set<string>,
    pending: map<string, int>,
    tick: Tick,
    pingers: set<Pinger>,
    unanswered: map<string, int>)

  const START := Check(0, 0, {}, map[], Idle, {}, map[])

  datatype Event =
    | Copy                       // the ticker fires: connections are copied
    | Mark                       // the locked pass over the copy
    | Reap(addr: string)         // one timed-out peer is removed
    | Spawn                      // the ping goroutines are started
    | PingGone(g: Pinger)        // a goroutine finds no connection
    | PingSent(g: Pinger)        // it writes PING
    | PingFailed(g: Pinger)      // its write fails
    | Pong(addr: string)
    | Connect(addr: string)
    | Disconnect(addr: string)   // removeConnection for any other reason
    | Advance(d: int)            // time passes

  /** The copy's addresses with a PING pending for more than the timeout. */
  function TimedOut(c: Check, snapshot: set<string>): set<string> {
    set a | a in snapshot && a in c.pending && c.now - c.pending[a] > TIMEOUT
  }

  function Unpinged(c: Check, snapshot: set<string>): set<string> {
    set a | a in snapshot && a !in c.pending
  }

  predicate Enabled(c: Check, e: Event) {
    match e
    case Copy => c.tick.Idle? && c.now == c.lastTick + TICK
    case Mark => c.tick.Copied?
    case Reap(a) => c.tick.Marked? && a in c.tick.dead
    case Spawn => c.tick.Marked? && c.tick.dead == {}
    case PingGone(g) => g in c.pingers && g.addr !in c.live
    case PingSent(g) => g in c.pingers && g.addr in c.live
    case PingFailed(g) => g in c.pingers && g.addr in c.live
    case Pong(_) => true
    case Connect(a) => a !in c.live
    case Disconnect(a) => a in c.live
    case Advance(d) => c.tick.Idle? && d > 0
  }

  /** removeConnection: the connection goes, and its pending ping with it. */
  function Removed(c: Check, a: string): Check {
    c.(live := c.live - {a}, pending := c.pending - {a}, unanswered := c.unanswered - {a})
  }

  function Next(c: Check, e: Event): Check
    requires Enabled(c, e)
  {
    match e
    case Copy => c.(tick := Copied(c.live), lastTick := c.now)
    case Mark =>
      var need := Unpinged(c, c.tick.snapshot);
      c.(tick := Marked(TimedOut(c, c.tick.snapshot), need),
         pending := c.pending + (map a | a in need :: c.now))
    case Reap(a) => Removed(c, a).(tick := Marked(c.tick.dead - {a}, c.tick.needPing))
    case Spawn => c.(tick := Idle, pingers := c.pingers + (set a | a in c.tick.needPing :: Pinger(a, c.now)))
    case PingGone(g) => c.(pending := c.pending - {g.addr}, pingers := c.pingers - {g})
    case PingSent(g) =>
      c.(pingers := c.pingers - {g},
         unanswered := if g.addr in c.unanswered then c.unanswered else c.unanswered[g.addr := c.now])
    case PingFailed(g) => Removed(c, g.addr).(pingers := c.pingers - {g})
    case Pong(a) => c.(pending := c.pending - {a}, unanswered := c.unanswered - {a})
    case Connect(a) => c.(live := c.live + {a})
    case Disconnect(a) => Removed(c, a)
    case Advance(d) => c.(now := c.now + d)
  }

  ghost predicate IsRun(run: seq<Check>, events: seq<Event>) {
    && |run| == |events| + 1 && run[0] == START
    && forall i {:trigger events[i]} :: 0 <= i < |events| ==>
         Enabled(run[i], events[i]) && run[i + 1] == Next(run[i], events[i])
  }

  // ---------------------------------------------------------------- pending pings have an owner

  /** A pending ping's address is connected, about to be pinged by the tick, or a goroutine's to ping. */
  ghost predicate Owned(c: Check, a: string) {
    || a in c.live
    || (c.tick.Marked? && a in c.tick.needPing)
    || exists g :: g in c.pingers && g.addr == a
  }

  ghost predicate AllOwned(c: Check) {
    forall a :: a in c.pending ==> Owned(c, a)
  }

  lemma StepOwned(c: Check, e: Event)
    requires AllOwned(c) && Enabled(c, e)
    ensures AllOwned(Next(c, e))
  {
    var d := Next(c, e);
    forall a | a in d.pending ensures Owned(d, a) {
      if a in c.pending && !(a in c.live) {
        if c.tick.Marked? && a in c.tick.needPing {
          if e.Spawn? { assert Pinger(a, c.now) in d.pingers; }
        } else {
          var g :| g in c.pingers && g.addr == a;
          assert g in d.pingers;
        }
      }
    }
  }

  /**
   Whatever happens between a tick's copy and its consequences, and however long the goroutines
   take, no pending ping is orphaned: its address is a live connection, in the tick's copy and
   about to be pinged, or owned by a goroutine still to run.
   */
  lemma {:induction false} PendingPingsOwned(run: seq<Check>, events: seq<Event>, i: nat)
    requires IsRun(run, events) && i < |run|
    ensures AllOwned(run[i])
  {
    if i == 0 {
    } else {
      PendingPingsOwned(run, events, i - 1);
      StepOwned(run[i - 1], events[i - 1]);
    }
  }

  // ---------------------------------------------------------------- timing

  /**
   The environment: ticks come 5 s apart, a ping goroutine runs within `latency` of its tick, and
   the peers in `prompt` answer every PING within the timeout.
   */
  ghost predicate OnTime(c: Check, latency: int, prompt: set<string>, e: Event) {
    e.Advance? ==>
      && c.now + e.d <= c.lastTick + TICK
      && (forall g :: g in c.pingers ==> c.now + e.d <= g.since + latency)
      && (forall a :: a in prompt && a in c.unanswered ==> c.now + e.d <= c.unanswered[a] + TIMEOUT)
  }

  ghost predicate IsTimedRun(run: seq<Check>, events: seq<Event>, latency: int, prompt: set<string>) {
    && IsRun(run, events) && latency >= 0
    && forall i {:trigger events[i]} :: 0 <= i < |events| ==> OnTime(run[i], latency, prompt, events[i])
  }

  ghost predicate Timely(c: Check, latency: int, prompt: set<string>) {
    && c.lastTick <= c.now <= c.lastTick + TICK
    && (!c.tick.Idle? ==> c.now == c.lastTick && c.pingers == {})
    && (forall g :: g in c.pingers ==> g.since == c.lastTick && c.now <= g.since + latency)
    && (forall a :: a in c.unanswered ==> c.unanswered[a] <= c.now)
    && (forall a :: a in c.unanswered && a in prompt ==> c.now <= c.unanswered[a] + TIMEOUT)
  }

  /** A pending ping was marked by some tick, and is on its way or was written soon after. */
  ghost predicate PingKnown(c: Check, latency: int, a: string)
    requires a in c.pending
  {
    && c.pending[a] <= c.lastTick && (c.lastTick - c.pending[a]) % TICK == 0
    && (|| (a in c.unanswered && c.unanswered[a] <= c.pending[a] + latency)
        || (c.pending[a] == c.lastTick
            && ((c.tick.Marked? && a in c.tick.needPing) || Pinger(a, c.lastTick) in c.pingers)))
  }

  ghost predicate PingsKnown(c: Check, latency: int) {
    && (forall a :: a in c.pending ==> PingKnown(c, latency, a))
    && (forall a :: a in c.pending && Pinger(a, c.lastTick) in c.pingers ==> c.pending[a] == c.lastTick)
    && (c.tick.Marked? ==> forall a :: a in c.tick.needPing && a in c.pending ==> c.pending[a] == c.lastTick)
  }

  ghost predicate PromptSpared(c: Check, prompt: set<string>) {
    c.tick.Marked? ==> c.tick.dead !! prompt
  }

  lemma StepTimely(c: Check, e: Event, latency: int, prompt: set<string>)
    requires Timely(c, latency, prompt) && Enabled(c, e) && OnTime(c, latency, prompt, e) && 0 <= latency < TICK
    ensures Timely(Next(c, e), latency, prompt)
  {
  }

  lemma StepPingKnown(c: Check, e: Event, latency: int, prompt: set<string>, a: string)
    requires Timely(c, latency, prompt) && PingsKnown(c, latency) && Enabled(c, e) && 0 <= latency < TICK
    requires a in Next(c, e).pending
    ensures PingKnown(Next(c, e), latency, a)
  {
    if a in c.pending { assert PingKnown(c, latency, a); }
    if e.Spawn? && a in c.tick.needPing { assert Pinger(a, c.now) in Next(c, e).pingers; }
  }

  lemma StepPingsKnown(c: Check, e: Event, latency: int, prompt: set<string>)
    requires Timely(c, latency, prompt) && PingsKnown(c, latency) && Enabled(c, e) && 0 <= latency < TICK
    ensures PingsKnown(Next(c, e), latency)
  {
    forall a | a in Next(c, e).pending ensures PingKnown(Next(c, e), latency, a) {
      StepPingKnown(c, e, latency, prompt, a);
    }
  }

  lemma StepPromptSpared(c: Check, e: Event, latency: int, prompt: set<string>)
    requires Timely(c, latency, prompt) && PingsKnown(c, latency) && 0 <= latency < TICK
    requires PromptSpared(c, prompt) && Enabled(c, e)
    ensures PromptSpared(Next(c, e), prompt)
  {
  }

  lemma {:induction false} RunTimely(run: seq<Check>, events: seq<Event>, latency: int, prompt: set<string>, i: nat)
    requires IsTimedRun(run, events, latency, prompt) && latency < TICK && i < |run|
    ensures Timely(run[i], latency, prompt) && PingsKnown(run[i], latency) && PromptSpared(run[i], prompt)
  {
    if i == 0 {
    } else {
      RunTimely(run, events, latency, prompt, i - 1);
      var c, e := run[i - 1], events[i - 1];
      StepTimely(c, e, latency, prompt);
      StepPingsKnown(c, e, latency, prompt);
      StepPromptSpared(c, e, latency, prompt);
    }
  }

  /**
   A peer whose every PONG comes within 10 s of its PING is never removed by timeout, as long as every
   PING is written within less than 5 s of the tick that marked it.
   */
  lemma PromptPeerNeverReaped(run: seq<Check>, events: seq<Event>, latency: int, prompt: set<string>, i: nat)
    requires IsTimedRun(run, events, latency, prompt) && latency < TICK && i < |events| && events[i].Reap?
    ensures events[i].addr !in prompt
  {
    RunTimely(run, events, latency, prompt, i);
  }

  // ---------------------------------------------------------------- silence

  /** As long as the address stays connected and no PONG comes, its ping stays pending. */
  lemma {:induction false} PingStays(run: seq<Check>, events: seq<Event>, i: nat, j: nat, a: string)
    requires IsRun(run, events) && i <= j < |run| && a in run[i].pending
    requires forall k :: i <= k <= j ==> a in run[k].live
    requires forall k {:trigger events[k]} :: i <= k < j ==> events[k] != Pong(a)
    ensures a in run[j].pending && run[j].pending[a] == run[i].pending[a]
  {
    if i == j {
    } else {
      PingStays(run, events, i, j - 1, a);
      assert a in run[j - 1].live && a in run[j].live;
      assert events[j - 1] != Pong(a);
    }
  }

  /** A tick takes no time. */
  lemma {:induction false} TickIsInstant(run: seq<Check>, events: seq<Event>, i: nat)
    requires IsRun(run, events) && i < |run|
    ensures !run[i].tick.Idle? ==> run[i].now == run[i].lastTick
  {
    if i == 0 {
    } else {
      TickIsInstant(run, events, i - 1);
      assert run[i] == Next(run[i - 1], events[i - 1]);
    }
  }

  /** A ping marked at `since` that is overdue at the latest tick is about to be found so, or was. */
  predicate Caught(c: Check, a: string, since: int) {
    c.lastTick - since > TIMEOUT ==>
      (c.tick.Copied? && a in c.tick.snapshot) || (c.tick.Marked? && a in c.tick.dead)
  }

  lemma {:induction false} OverdueIsCaught(run: seq<Check>, events: seq<Event>, i: nat, j: nat, a: string)
    requires IsRun(run, events) && i <= j < |run| && a in run[i].pending
    requires forall k :: i <= k <= j ==> a in run[k].live
    requires forall k {:trigger events[k]} :: i <= k < j ==> events[k] != Pong(a)
    requires run[i].lastTick - run[i].pending[a] <= TIMEOUT
    ensures Caught(run[j], a, run[i].pending[a])
  {
    if i == j {
    } else {
      OverdueIsCaught(run, events, i, j - 1, a);
      PingStays(run, events, i, j - 1, a);
      TickIsInstant(run, events, j - 1);
      assert a in run[j - 1].live && a in run[j].live;
      assert run[j] == Next(run[j - 1], events[j - 1]);
    }
  }

  /**
   A silent peer is removed by the third tick after the one that marked its ping, however long the
   goroutines and their writes are held up: once a tick more than 10 s after the mark is over, the
   connection has been gone at some point since.
   */
  lemma SilentPeerRemoved(run: seq<Check>, events: seq<Event>, i: nat, j: nat, a: string)
    requires IsRun(run, events) && i <= j < |run|
    requires a in run[i].pending && run[i].lastTick - run[i].pending[a] <= 10
    requires forall k {:trigger events[k]} :: i <= k < j ==> events[k] != Pong(a)
    requires run[j].tick.Idle? && run[j].lastTick - run[i].pending[a] > 10
    ensures exists k :: i <= k <= j && a !in run[k].live
  {
    if forall k :: i <= k <= j ==> a in run[k].live {
      OverdueIsCaught(run, events, i, j, a);
      assert false;
    }
  }

  /** Right after the pass that marks it, a ping is as old as the tick, so the theorem applies. */
  lemma MarkedThisTick(run: seq<Check>, events: seq<Event>, i: nat, a: string)
    requires IsRun(run, events) && i < |events| && events[i].Mark? && a !in run[i].pending && a in run[i + 1].pending
    ensures run[i + 1].pending[a] == run[i + 1].lastTick == run[i].now
  {
    TickIsInstant(run, events, i);
    assert run[i + 1] == Next(run[i], events[i]);
  }

  /** A tick that is due begins, one that has begun can go on, and so can every ping goroutine. */
  lemma NeverStuck(c: Check, g: Pinger, a: string, d: int)
    ensures c.tick.Idle? && c.now == c.lastTick + 5 ==> Enabled(c, Copy)
    ensures c.tick.Copied? ==> Enabled(c, Mark)
    ensures c.tick.Marked? ==> Enabled(c, Spawn) || exists b :: Enabled(c, Reap(b))
    ensures g in c.pingers ==>
              Enabled(c, PingGone(g)) || (Enabled(c, PingSent(g)) && Enabled(c, PingFailed(g)))
    ensures a in c.live ==> Enabled(c, Disconnect(a))
    ensures a !in c.live ==> Enabled(c, Connect(a))
    ensures Enabled(c, Pong(a)) && (c.tick.Idle? && d > 0 ==> Enabled(c, Advance(d)))
  {
    if c.tick.Marked? && c.tick.dead != {} {
      var b :| b in c.tick.dead;
      assert Enabled(c, Reap(b));
    }
  }

  /** What makes a connection come and go, and when a PING counts as written. */
  lemma ConnectionsComeAndGo(c: Check, g: Pinger, a: string)
    ensures Enabled(c, Connect(a)) ==> Next(c, Connect(a)) == c.(live := c.live + {a})
    ensures Enabled(c, PingFailed(g)) ==>
              var d := Next(c, PingFailed(g));
              d.live == c.live - {g.addr} && d.pending == c.pending - {g.addr} && d.pingers == c.pingers - {g}
    ensures Enabled(c, Disconnect(a)) ==>
              var d := Next(c, Disconnect(a)); d.live == c.live - {a} && d.pending == c.pending - {a}
    ensures Enabled(c, Reap(a)) ==>
              var d := Next(c, Reap(a)); d.live == c.live - {a} && d.pending == c.pending - {a}
    ensures Enabled(c, PingSent(g)) ==>
              var d := Next(c, PingSent(g)); d.live == c.live && d.pending == c.pending && g.addr in d.unanswered
    ensures Enabled(c, PingGone(g)) ==>
              var d := Next(c, PingGone(g)); d.live == c.live && d.pending == c.pending - {g.addr}
    ensures Next(c, Pong(a)).live == c.live && Next(c, Pong(a)).pending == c.pending - {a}
  {
  }

  /** The pass over a copy marks every address without a pending ping, and finds dead exactly the overdue ones. */
  lemma PassFinds(c: Check)
    requires Enabled(c, Mark)
    ensures var d, snapshot := Next(c, Mark), c.tick.snapshot;
      && d.tick.Marked?
      && (forall a :: a in d.tick.dead <==> a in snapshot && a in c.pending && c.now - c.pending[a] > 10)
      && (forall a :: a in d.tick.needPing <==> a in snapshot && a !in c.pending)
      && (forall a :: a in d.pending <==> a in c.pending || a in snapshot)
      && (forall a :: a in d.pending ==> d.pending[a] == if a in c.pending then c.pending[a] else c.now)
      && d == c.(tick := d.tick, pending := d.pending)
  {
  }

  // ---------------------------------------------------------------- the check as it runs

  class HealthChecker {
    var connections: set<string>
    var pendingPings: map<string, int>
    ghost var now: int
    ghost var lastTick: int
    ghost var tick: Tick
    ghost var pingers: set<Pinger>
    ghost var unanswered: map<string, int>

    ghost function View(): Check
      reads this
    {
      Check(now, lastTick, connections, pendingPings, tick, pingers, unanswered)
    }

    /** The locked pass over the copied connections, in any order. */
    method MarkPass(conns: set<string>, time: int) returns (dead: set<string>, needPing: set<string>)
      requires tick == Copied(conns) && time == now
      modifies this`pendingPings, this`tick
      ensures View() == Next(old(View()), Mark) && tick == Marked(dead, needPing)
    {
      var rest := conns;
      ghost var c := View();
      dead, needPing := {}, {};
      while rest != {}
        invariant rest <= conns
        invariant dead == set a | a in conns - rest && a in c.pending && c.now - c.pending[a] > TIMEOUT
        invariant needPing == set a | a in conns - rest && a !in c.pending
        invariant pendingPings == c.pending + (map a | a in needPing :: c.now)
      {
        var addr :| addr in rest;
        assert addr !in needPing;
        if addr in pendingPings {
          if time - pendingPings[addr] > TIMEOUT {
            dead := dead + {addr};
          }
        } else {
          pendingPings := pendingPings[addr := time];
          needPing := needPing + {addr};
        }
        rest := rest - {addr};
      }
      assert conns - rest == conns;
      tick := Marked(dead, needPing);
    }

    /** removeConnection. */
    method RemoveConnection(addr: string) returns (found: bool)
      modifies this`connections, this`pendingPings, this`unanswered
      ensures View() == Removed(old(View()), addr) && found == (addr in old(connections))
    {
      found := addr in connections;
      connections := connections - {addr};
      pendingPings := pendingPings - {addr};
      unanswered := unanswered - {addr};
    }

    /** The ping goroutine, when its turn comes; `fails` is what its write would do. */
    method Ping(addr: string, ghost since: int, fails: bool)
      requires Pinger(addr, since) in pingers
      modifies this
      ensures var g := Pinger(addr, since);
              View() == Next(old(View()), if addr !in old(connections) then PingGone(g)
                                          else if fails then PingFailed(g) else PingSent(g))
    {
      pingers := pingers - {Pinger(addr, since)};
      if addr !in connections {
        pendingPings := pendingPings - {addr};
        return;
      }
      if fails {
        pendingPings := pendingPings - {addr};
        var found := RemoveConnection(addr);
      } else {
        unanswered := if addr in unanswered then unanswered else unanswered[addr := now];
      }
    }

    method ClearPing(addr: string)
      modifies this`pendingPings, this`unanswered
      ensures View() == Next(old(View()), Pong(addr))
    {
      pendingPings := pendingPings - {addr};
      unanswered := unanswered - {addr};
    }
  }
}
