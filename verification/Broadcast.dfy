/** The relay's fan-out: one non-blocking enqueue per member, a drop when a queue is full. */
module Broadcast {
  import opened FromLine
  import opened Outbound
  import opened CollectionFacts

  /** What becomes of one recipient's copy. */
  datatype Outcome = Enqueued | Dropped | Fallback

  /** A managed connection as the fan-out sees it. */
  datatype Queue = Queue(out: seq<string>, done: bool)

  /** Depends on this recipient's own connection and nothing else. */
  function OutcomeFor(pool: map<string, Queue>, addr: string): Outcome {
    if addr !in pool then Fallback
    else if !pool[addr].done && |pool[addr].out| < QUEUE_SIZE then Enqueued
    else Dropped
  }

  /** Everyone in the room but the sender. */
  function Recipients(members: set<string>, sender: string): set<string> {
    members - {sender}
  }

  function Going(pool: map<string, Queue>, to: set<string>, o: Outcome): set<string> {
    set a | a in to && OutcomeFor(pool, a) == o
  }

  /** The pool once the line went to everyone in `to`. */
  function After(pool: map<string, Queue>, to: set<string>, line: string): map<string, Queue> {
    map a | a in pool ::
      if a in to && OutcomeFor(pool, a) == Enqueued then pool[a].(out := pool[a].out + [line]) else pool[a]
  }

  /** The sender's alias is looked up among the members. */
  function Formatted(aliases: map<string, string>, sender: string, message: string): string {
    Emitted(if sender in aliases then aliases[sender] else "", sender, message)
  }

  lemma AfterNone(pool: map<string, Queue>, line: string)
    ensures After(pool, {}, line) == pool
    ensures forall o :: Going(pool, {}, o) == {}
  {
  }

  lemma OneMoreGone(pool: map<string, Queue>, to: set<string>, a: string, line: string)
    requires a !in to
    ensures OutcomeFor(After(pool, to, line), a) == OutcomeFor(pool, a)
    ensures After(pool, to + {a}, line) == After(After(pool, to, line), {a}, line)
    ensures forall o :: Going(pool, to + {a}, o) ==
              if OutcomeFor(pool, a) == o then Going(pool, to, o) + {a} else Going(pool, to, o)
  {
  }

  lemma OneMoreCounted(pool: map<string, Queue>, to: set<string>, a: string, line: string)
    requires a !in to
    ensures forall o :: |Going(pool, to + {a}, o)| == |Going(pool, to, o)| + if OutcomeFor(pool, a) == o then 1 else 0
  {
    OneMoreGone(pool, to, a, line);
  }

  /** The three outcomes share the recipients out: none missed, none counted twice. */
  lemma {:induction false} OutcomesPartition(pool: map<string, Queue>, to: set<string>)
    ensures |Going(pool, to, Enqueued)| + |Going(pool, to, Dropped)| + |Going(pool, to, Fallback)| == |to|
    ensures Going(pool, to, Enqueued) + Going(pool, to, Dropped) + Going(pool, to, Fallback) == to
    decreases |to|
  {
    var e, d, f := Going(pool, to, Enqueued), Going(pool, to, Dropped), Going(pool, to, Fallback);
    assert e + d + f == to;
    assert e !! d && (e + d) !! f;
    assert |e + d| == |e| + |d| && |e + d + f| == |e + d| + |f|;
  }

  lemma SenderExcluded(members: map<string, string>, sender: string)
    ensures |Recipients(members.Keys, sender)| == |members| - (if sender in members then 1 else 0)
  {
  }

  /**
   Who gets what, said of the queues themselves: a copy goes to every member but the sender whose
   connection is managed, not shut down and has fewer than 1024 messages waiting; a member with another
   managed connection is a drop, one without is written to directly; and no other queue changes.
   */
  lemma CopiesExactly(pool: map<string, Queue>, members: set<string>, sender: string, line: string)
    ensures var to := Recipients(members, sender);
            var after := After(pool, to, line);
      && after.Keys == pool.Keys
      && (forall b :: b in pool ==>
            after[b] == if b in members && b != sender && !pool[b].done && |pool[b].out| < 1024
                        then Queue(pool[b].out + [line], pool[b].done) else pool[b])
      && (forall b :: b in Going(pool, to, Enqueued) <==>
            b in members && b != sender && b in pool && !pool[b].done && |pool[b].out| < 1024)
      && (forall b :: b in Going(pool, to, Dropped) <==>
            b in members && b != sender && b in pool && (pool[b].done || |pool[b].out| >= 1024))
      && (forall b :: b in Going(pool, to, Fallback) <==> b in members && b != sender && b !in pool)
  {
  }

  lemma NoneDropped(pool: map<string, Queue>, to: set<string>)
    ensures |Going(pool, to, Dropped)| > 0 <==> exists b :: b in Going(pool, to, Dropped)
  {
    if b :| b in Going(pool, to, Dropped) { assert Going(pool, to, Dropped) != {}; }
  }

  /** The line itself: under the sender's alias, or its address for want of one, or else from the system. */
  lemma FormattedIs(aliases: map<string, string>, sender: string, message: string)
    ensures sender in aliases && aliases[sender] != "" ==>
              Formatted(aliases, sender, message) == "FROM:" + aliases[sender] + "|" + message + "\n"
    ensures (sender !in aliases || aliases[sender] == "") && sender != "" ==>
              Formatted(aliases, sender, message) == "FROM:" + sender + "|" + message + "\n"
    ensures (sender !in aliases || aliases[sender] == "") && sender == "" ==>
              Formatted(aliases, sender, message) == "SYSTEM:" + message + "\n"
  {
  }

  class Pool {
    var connections: map<string, Queue>

    constructor ()
      ensures connections == map[]
    {
      connections := map[];
    }

    /** enqueue on one connection, atomically. */
    method Enqueue(addr: string, line: string) returns (ok: bool)
      requires addr in connections
      modifies this
      ensures ok <==> OutcomeFor(old(connections), addr) == Enqueued
      ensures connections == After(old(connections), {addr}, line)
    {
      var q := connections[addr];
      if q.done || |q.out| >= QUEUE_SIZE {
        assert connections == After(connections, {addr}, line);
        return false;
      }
      connections := connections[addr := q.(out := q.out + [line])];
      return true;
    }

    /** One recipient's turn: enqueue on its connection, or leave it to a direct write. */
    method Deliver(addr: string, line: string) returns (o: Outcome)
      modifies this
      ensures o == OutcomeFor(old(connections), addr)
      ensures connections == After(old(connections), {addr}, line)
    {
      if addr in connections {
        var ok := Enqueue(addr, line);
        return if ok then Enqueued else Dropped;
      }
      assert After(connections, {addr}, line) == connections;
      return Fallback;
    }

    /** The loop over the recipients, in any order. */
    method FanOut(to: set<string>, line: string) returns (enqueued: nat, dropped: nat, fallback: set<string>)
      modifies this
      ensures enqueued == |Going(old(connections), to, Enqueued)|
      ensures dropped == |Going(old(connections), to, Dropped)|
      ensures fallback == Going(old(connections), to, Fallback)
      ensures connections == After(old(connections), to, line)
    {
      var rest := to;
      ghost var pool, gone: set<string> := connections, {};
      enqueued, dropped, fallback := 0, 0, {};
      AfterNone(pool, line);
      while rest != {}
        invariant gone + rest == to && gone !! rest
        invariant enqueued == |Going(pool, gone, Enqueued)| && dropped == |Going(pool, gone, Dropped)|
        invariant fallback == Going(pool, gone, Fallback)
        invariant connections == After(pool, gone, line)
        decreases rest
      {
        var addr :| addr in rest;
        OneMoreGone(pool, gone, addr, line);
        OneMoreCounted(pool, gone, addr, line);
        MovedOver(gone, rest, addr);
        var o := Deliver(addr, line);
        match o {
          case Enqueued => enqueued := enqueued + 1;
          case Dropped => dropped := dropped + 1;
          case Fallback => fallback := fallback + {addr};
        }
        gone, rest := gone + {addr}, rest - {addr};
      }
      assert gone == to;
    }

    /**
     broadcastToRoom over a room's members, given by address with their aliases. Each member other
     than the sender gets exactly one of: a copy on its queue, a counted drop, a fallback write; the
     counts add up to the members, less one if the sender is among them; and nobody else's queue
     changes.
     */
    method BroadcastToRoom(members: map<string, string>, sender: string, message: string)
      returns (enqueued: nat, dropped: nat, fallback: set<string>)
      modifies this
      ensures var to := Recipients(members.Keys, sender);
        && enqueued == |Going(old(connections), to, Enqueued)|
        && dropped == |Going(old(connections), to, Dropped)|
        && fallback == Going(old(connections), to, Fallback)
        && connections == After(old(connections), to, Formatted(members, sender, message))
      ensures connections.Keys == old(connections).Keys
      ensures forall b :: b in connections ==>
        connections[b] == if b in members && b != sender
                             && !old(connections)[b].done && |old(connections)[b].out| < 1024
                          then Queue(old(connections)[b].out + [Formatted(members, sender, message)], false)
                          else old(connections)[b]
      ensures dropped > 0 <==>
        exists b :: b in members && b != sender && b in connections
                 && (old(connections)[b].done || |old(connections)[b].out| >= 1024)
      ensures forall b :: b in fallback <==> b in members && b != sender && b !in connections
      ensures enqueued + dropped + |fallback| == |members| - (if sender in members then 1 else 0)
    {
      var line := Formatted(members, sender, message);
      var to := members.Keys - {sender};
      enqueued, dropped, fallback := FanOut(to, line);
      CopiesExactly(old(connections), members.Keys, sender, line);
      NoneDropped(old(connections), to);
      OutcomesPartition(old(connections), to);
      SenderExcluded(members, sender);
    }
  }
}
