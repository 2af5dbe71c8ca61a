/**
 The load test's shared tracker: every peer registers a message ID before it sends the message, and
 any peer that reads the message back takes the ID out and counts a delivery.
 */
module RttTracker {
  import opened Wrappers
  import opened Text

  /** `matched` is history: the IDs taken out, in order. */
  datatype Tracker = Tracker(
    sendTimes: map<string, int>,
    next: seq<nat>,
    recv: seq<nat>,
    rtts: seq<seq<int>>,
    matched: seq<string>)

  // ---------------------------------------------------------------- message IDs

  /** fmt's %d of a natural number. */
  function Decimal(n: nat): (s: string)
    ensures s != "" && '-' !in s
  {
    var digit := ['0' + (n % 10) as char];
    if n < 10 then digit else Decimal(n / 10) + digit
  }

  function Alias(prefix: string, peer: nat): string {
    prefix + "-" + Decimal(peer)
  }

  function MessageId(prefix: string, peer: nat, index: nat): string {
    Alias(prefix, peer) + "-" + Decimal(index)
  }

  lemma {:induction false} DecimalsDiffer(a: nat, b: nat)
    requires Decimal(a) == Decimal(b)
    ensures a == b
  {
    var s := Decimal(a);
    assert s[|s| - 1] == '0' + (a % 10) as char == '0' + (b % 10) as char;
    if a >= 10 && b >= 10 {
      assert s[..|s| - 1] == Decimal(a / 10) == Decimal(b / 10);
      DecimalsDiffer(a / 10, b / 10);
    } else {
      assert a >= 10 ==> |s| > 1;
      assert b >= 10 ==> |s| > 1;
    }
  }

  lemma TailOfId(prefix: string, peer: nat, index: nat)
    ensures MessageId(prefix, peer, index)[|prefix| + 1..] == Decimal(peer) + "-" + Decimal(index)
  {
  }

  /** No two messages of a test share an ID, whatever the common prefix. */
  lemma IdsDiffer(prefix: string, p: nat, i: nat, q: nat, j: nat)
    requires MessageId(prefix, p, i) == MessageId(prefix, q, j)
    ensures p == q && i == j
  {
    TailOfId(prefix, p, i);
    TailOfId(prefix, q, j);
    FieldCancels(Decimal(p), Decimal(i), Decimal(q), Decimal(j), '-');
    DecimalsDiffer(p, q);
    DecimalsDiffer(i, j);
  }

  /** No alias is a message ID either. */
  lemma AliasIsNoId(prefix: string, p: nat, q: nat, j: nat)
    ensures Alias(prefix, p) != MessageId(prefix, q, j)
  {
    TailOfId(prefix, q, j);
    assert Alias(prefix, p)[|prefix| + 1..] == Decimal(p);
    assert (Decimal(q) + "-" + Decimal(j))[|Decimal(q)|] == '-';
  }

  // ---------------------------------------------------------------- what a reader does with a line

  function FirstField(s: string): string {
    SplitN(s, '|', 2)[0]
  }

  /** The ID the parts of a line name: the second part, or else the first field of the third. */
  function MatchOfParts(sendTimes: map<string, int>, parts: seq<string>): Option<string> {
    var second := if |parts| >= 2 then parts[1] else "";
    if second in sendTimes then Some(second)
    else if |parts| >= 3 && FirstField(parts[2]) in sendTimes then Some(FirstField(parts[2]))
    else None
  }

  /** The outstanding ID a received line is matched to. */
  function MatchOf(sendTimes: map<string, int>, raw: string): Option<string> {
    var line := TrimSpace(raw);
    if !HasPrefix(line, "FROM:") then None
    else MatchOfParts(sendTimes, SplitN(TrimPrefix(line, "FROM:"), '|', 3))
  }

  /** Only a FROM line names a message, and only one that is outstanding. */
  lemma MatchedLineIs(sendTimes: map<string, int>, raw: string)
    requires MatchOf(sendTimes, raw).Some?
    ensures MatchOf(sendTimes, raw).value in sendTimes && "FROM:" <= TrimSpace(raw)
  {
  }

  // ---------------------------------------------------------------- the machine

  datatype Event = Send(peer: nat, time: int) | Receive(peer: nat, line: string, time: int)

  function Start(n: nat): Tracker {
    Tracker(map[], seq(n, _ => 0), seq(n, _ => 0), seq(n, _ => []), [])
  }

  function Registered(prefix: string, t: Tracker, peer: nat, time: int): Tracker
    requires peer < |t.next|
  {
    t.(sendTimes := t.sendTimes[MessageId(prefix, peer, t.next[peer]) := time],
       next := t.next[peer := t.next[peer] + 1])
  }

  function Delivered(t: Tracker, peer: nat, line: string, time: int): Tracker
    requires peer < |t.recv| == |t.rtts|
  {
    match MatchOf(t.sendTimes, line)
    case None => t
    case Some(id) =>
      t.(sendTimes := t.sendTimes - {id}, recv := t.recv[peer := t.recv[peer] + 1],
         rtts := t.rtts[peer := t.rtts[peer] + [time - t.sendTimes[id]]], matched := t.matched + [id])
  }

  predicate Enabled(t: Tracker, e: Event) {
    |t.next| == |t.recv| == |t.rtts| && e.peer < |t.next|
  }

  function Next(prefix: string, t: Tracker, e: Event): Tracker
    requires Enabled(t, e)
  {
    match e
    case Send(peer, time) => Registered(prefix, t, peer, time)
    case Receive(peer, line, time) => Delivered(t, peer, line, time)
  }

  ghost predicate IsRun(prefix: string, n: nat, run: seq<Tracker>, events: seq<Event>) {
    && |run| == |events| + 1 && run[0] == Start(n)
    && forall i {:trigger events[i]} :: 0 <= i < |events| ==>
         Enabled(run[i], events[i]) && run[i + 1] == Next(prefix, run[i], events[i])
  }

  function Sum(s: seq<nat>): nat {
    if s == [] then 0 else s[0] + Sum(s[1..])
  }

  // ---------------------------------------------------------------- conservation

  predicate IsIdBelow(prefix: string, next: seq<nat>, p: nat, i: nat, id: string) {
    p < |next| && i < next[p] && id == MessageId(prefix, p, i)
  }

  /** An ID some peer has registered. */
  ghost predicate Known(prefix: string, next: seq<nat>, id: string) {
    exists p: nat, i: nat :: IsIdBelow(prefix, next, p, i, id)
  }

  function Elements(s: seq<string>): set<string> {
    set id | id in s
  }

  ghost predicate Distinct(s: seq<string>) {
    forall i, j :: 0 <= i < j < |s| ==> s[i] != s[j]
  }

  ghost predicate AllKnown(prefix: string, next: seq<nat>, ids: set<string>) {
    forall id :: id in ids ==> Known(prefix, next, id)
  }

  /** Outstanding and delivered IDs are registered ones, and no ID is both or delivered twice. */
  ghost predicate IdsAccounted(prefix: string, next: seq<nat>, outstanding: set<string>, matched: seq<string>) {
    && AllKnown(prefix, next, outstanding) && AllKnown(prefix, next, Elements(matched))
    && outstanding !! Elements(matched) && Distinct(matched)
  }

  /** The counters agree with the numbers of IDs outstanding and delivered. */
  ghost predicate CountsAccounted(next: seq<nat>, recv: seq<nat>, rtts: seq<seq<int>>,
                                  outstanding: nat, delivered: nat)
  {
    && |next| == |recv| == |rtts|
    && (forall p :: 0 <= p < |recv| ==> |rtts[p]| == recv[p])
    && Sum(recv) == delivered && outstanding + delivered == Sum(next)
  }

  ghost predicate Accounted(prefix: string, t: Tracker) {
    && IdsAccounted(prefix, t.next, t.sendTimes.Keys, t.matched)
    && CountsAccounted(t.next, t.recv, t.rtts, |t.sendTimes|, |t.matched|)
  }

  lemma {:induction false} SumStep(s: seq<nat>, p: nat)
    requires p < |s|
    ensures Sum(s[p := s[p] + 1]) == Sum(s) + 1
  {
    var u := s[p := s[p] + 1];
    if p == 0 {
      assert u[1..] == s[1..];
    } else {
      SumStep(s[1..], p - 1);
      assert u[1..] == s[1..][p - 1 := s[p] + 1];
    }
  }

  lemma {:induction false} SumZero(n: nat)
    ensures Sum(seq(n, _ => 0)) == 0
  {
    if n == 0 {
    } else {
      SumZero(n - 1);
      assert seq(n, _ => 0)[1..] == seq(n - 1, _ => 0);
    }
  }

  lemma StillKnown(prefix: string, next: seq<nat>, p: nat, ids: set<string>)
    requires p < |next| && AllKnown(prefix, next, ids)
    ensures AllKnown(prefix, next[p := next[p] + 1], ids)
  {
    forall id | id in ids ensures Known(prefix, next[p := next[p] + 1], id) {
      var q: nat, i: nat :| IsIdBelow(prefix, next, q, i, id);
      assert IsIdBelow(prefix, next[p := next[p] + 1], q, i, id);
    }
  }

  lemma FreshId(prefix: string, next: seq<nat>, p: nat)
    requires p < |next|
    ensures !Known(prefix, next, MessageId(prefix, p, next[p]))
    ensures Known(prefix, next[p := next[p] + 1], MessageId(prefix, p, next[p]))
  {
    var id := MessageId(prefix, p, next[p]);
    assert IsIdBelow(prefix, next[p := next[p] + 1], p, next[p], id);
    forall q: nat, i: nat ensures !IsIdBelow(prefix, next, q, i, id) {
      if id == MessageId(prefix, q, i) { IdsDiffer(prefix, p, next[p], q, i); }
    }
  }

  lemma SendIds(prefix: string, next: seq<nat>, outstanding: set<string>, matched: seq<string>, peer: nat)
    requires IdsAccounted(prefix, next, outstanding, matched) && peer < |next|
    ensures var id := MessageId(prefix, peer, next[peer]);
      id !in outstanding && IdsAccounted(prefix, next[peer := next[peer] + 1], outstanding + {id}, matched)
  {
    FreshId(prefix, next, peer);
    StillKnown(prefix, next, peer, outstanding);
    StillKnown(prefix, next, peer, Elements(matched));
    assert MessageId(prefix, peer, next[peer]) !in Elements(matched);
  }

  /** The next message's ID is neither outstanding nor delivered. */
  lemma IdIsFresh(prefix: string, t: Tracker, peer: nat)
    requires Accounted(prefix, t) && peer < |t.next|
    ensures var id := MessageId(prefix, peer, t.next[peer]); id !in t.sendTimes && id !in t.matched
  {
    FreshId(prefix, t.next, peer);
    assert MessageId(prefix, peer, t.next[peer]) !in Elements(t.matched);
  }

  lemma ReceiveIds(prefix: string, next: seq<nat>, outstanding: set<string>, matched: seq<string>, id: string)
    requires IdsAccounted(prefix, next, outstanding, matched) && id in outstanding
    ensures IdsAccounted(prefix, next, outstanding - {id}, matched + [id])
  {
  }

  lemma OneMoreSent(next: seq<nat>, recv: seq<nat>, rtts: seq<seq<int>>, outstanding: nat, delivered: nat, peer: nat)
    requires CountsAccounted(next, recv, rtts, outstanding, delivered) && peer < |next|
    ensures CountsAccounted(next[peer := next[peer] + 1], recv, rtts, outstanding + 1, delivered)
  {
    SumStep(next, peer);
  }

  lemma OneMoreDelivered(next: seq<nat>, recv: seq<nat>, rtts: seq<seq<int>>, outstanding: nat, delivered: nat,
                         peer: nat, rtt: int)
    requires CountsAccounted(next, recv, rtts, outstanding, delivered) && peer < |next| && outstanding > 0
    ensures CountsAccounted(next, recv[peer := recv[peer] + 1], rtts[peer := rtts[peer] + [rtt]], outstanding - 1,
                            delivered + 1)
  {
    SumStep(recv, peer);
  }

  lemma MapSizes(m: map<string, int>, id: string, time: int)
    ensures m[id := time].Keys == m.Keys + {id} && (m - {id}).Keys == m.Keys - {id}
    ensures id !in m ==> |m[id := time]| == |m| + 1
    ensures id in m ==> |m| > 0 && |m - {id}| == |m| - 1
  {
    assert |m| == |m.Keys| && |m[id := time]| == |m[id := time].Keys| && |m - {id}| == |(m - {id}).Keys|;
  }

  lemma SendAccounted(prefix: string, t: Tracker, peer: nat, time: int)
    requires Accounted(prefix, t) && peer < |t.next|
    ensures Accounted(prefix, Registered(prefix, t, peer, time))
  {
    var id := MessageId(prefix, peer, t.next[peer]);
    SendIds(prefix, t.next, t.sendTimes.Keys, t.matched, peer);
    MapSizes(t.sendTimes, id, time);
    OneMoreSent(t.next, t.recv, t.rtts, |t.sendTimes|, |t.matched|, peer);
    assert Registered(prefix, t, peer, time)
        == t.(sendTimes := t.sendTimes[id := time], next := t.next[peer := t.next[peer] + 1]);
  }

  lemma ReceiveAccounted(prefix: string, t: Tracker, peer: nat, line: string, time: int)
    requires Accounted(prefix, t) && peer < |t.next|
    ensures Accounted(prefix, Delivered(t, peer, line, time))
  {
    match MatchOf(t.sendTimes, line)
    case None =>
    case Some(id) =>
      ReceiveIds(prefix, t.next, t.sendTimes.Keys, t.matched, id);
      MapSizes(t.sendTimes, id, time);
      OneMoreDelivered(t.next, t.recv, t.rtts, |t.sendTimes|, |t.matched|, peer, time - t.sendTimes[id]);
  }

  lemma {:induction false} RunAccounted(prefix: string, n: nat, run: seq<Tracker>, events: seq<Event>, i: nat)
    requires IsRun(prefix, n, run, events) && i < |run|
    ensures Accounted(prefix, run[i]) && |run[i].next| == n
  {
    if i == 0 {
      SumZero(n);
    } else {
      RunAccounted(prefix, n, run, events, i - 1);
      match events[i - 1]
      case Send(peer, time) => SendAccounted(prefix, run[i - 1], peer, time);
      case Receive(peer, line, time) => ReceiveAccounted(prefix, run[i - 1], peer, line, time);
    }
  }

  /**
   In every state of every interleaving of senders and readers: deliveries counted plus entries
   outstanding are exactly the messages registered, every delivery has its round-trip time, no
   message is delivered twice or while it is still outstanding, and none that was never registered.
   */
  lemma DeliveriesConserved(prefix: string, n: nat, run: seq<Tracker>, events: seq<Event>, i: nat)
    requires IsRun(prefix, n, run, events) && i < |run|
    ensures var t := run[i];
      && Sum(t.recv) + |t.sendTimes| == Sum(t.next)
      && Sum(t.recv) == |t.matched| && Distinct(t.matched)
      && (forall p :: 0 <= p < n ==> |t.recv| == |t.rtts| == n && |t.rtts[p]| == t.recv[p])
      && (forall id :: id in t.matched ==> id !in t.sendTimes && Known(prefix, t.next, id))
  {
    RunAccounted(prefix, n, run, events, i);
    assert forall id :: id in run[i].matched ==> id in Elements(run[i].matched);
  }

  // ---------------------------------------------------------------- round-trip times

  /** The event at `k` sent the message with this ID, at this time. */
  predicate SentAt(prefix: string, run: seq<Tracker>, events: seq<Event>, k: nat, id: string, time: int)
    requires |run| == |events| + 1 && k < |events|
  {
    && events[k].Send? && events[k].peer < |run[k].next| && events[k].time == time
    && id == MessageId(prefix, events[k].peer, run[k].next[events[k].peer])
  }

  /** Every outstanding ID has the time at which its message was sent. */
  lemma {:induction false} OutstandingSince(prefix: string, n: nat, run: seq<Tracker>, events: seq<Event>, i: nat,
                                            id: string)
    returns (k: nat)
    requires IsRun(prefix, n, run, events) && i < |run| && id in run[i].sendTimes
    ensures k < i && SentAt(prefix, run, events, k, id, run[i].sendTimes[id])
  {
    if i == 0 {
      assert false;
    } else {
      assert run[i] == Next(prefix, run[i - 1], events[i - 1]);
      if SentAt(prefix, run, events, i - 1, id, run[i].sendTimes[id]) {
        k := i - 1;
      } else {
        k := OutstandingSince(prefix, n, run, events, i - 1, id);
      }
    }
  }

  /**
   A line that names an outstanding message makes its reader record the time since that message was
   sent, count one delivery, and take the message out; any other line changes nothing.
   */
  lemma RttIsElapsed(prefix: string, n: nat, run: seq<Tracker>, events: seq<Event>, i: nat)
    returns (k: nat)
    requires IsRun(prefix, n, run, events) && i < |events| && events[i].Receive?
    ensures var t, u, e := run[i], run[i + 1], events[i];
      && e.peer < |t.recv| == |t.rtts|
      && match MatchOf(t.sendTimes, e.line)
         case None => u == t
         case Some(id) =>
           && k < i && id in t.sendTimes && SentAt(prefix, run, events, k, id, events[k].time)
           && u.rtts == t.rtts[e.peer := t.rtts[e.peer] + [e.time - events[k].time]]
           && u.recv == t.recv[e.peer := t.recv[e.peer] + 1]
           && u.sendTimes == t.sendTimes - {id} && u.next == t.next
  {
    assert run[i + 1] == Next(prefix, run[i], events[i]);
    k := 0;
    match MatchOf(run[i].sendTimes, events[i].line)
    case None =>
    case Some(id) => k := OutstandingSince(prefix, n, run, events, i, id);
  }

  /** Every peer may send and read at every moment of every run. */
  lemma AnyoneMayAct(prefix: string, n: nat, run: seq<Tracker>, events: seq<Event>, i: nat, e: Event)
    requires IsRun(prefix, n, run, events) && i < |run| && e.peer < n
    ensures Enabled(run[i], e)
  {
    RunAccounted(prefix, n, run, events, i);
  }

  // ---------------------------------------------------------------- the tracker as it runs

  class GlobalTracker {
    var sendTimes: map<string, int>
    var next: seq<nat>
    var recv: seq<nat>
    var rtts: seq<seq<int>>
    ghost var matched: seq<string>
    const prefix: string

    ghost function View(): Tracker
      reads this
    {
      Tracker(sendTimes, next, recv, rtts, matched)
    }

    constructor (prefix: string, n: nat)
      ensures this.prefix == prefix && View() == Start(n) && Accounted(prefix, View())
    {
      this.prefix := prefix;
      sendTimes, next, recv, rtts, matched := map[], seq(n, _ => 0), seq(n, _ => 0), seq(n, _ => []), [];
      SumZero(n);
    }

    /** One turn of a sender's loop, up to the write, which may fail without undoing it. */
    method Register(peer: nat, time: int) returns (msgID: string)
      requires Accounted(prefix, View()) && peer < |next|
      modifies this`sendTimes, this`next
      ensures Accounted(prefix, View()) && View() == Registered(prefix, old(View()), peer, time)
      ensures msgID == MessageId(prefix, peer, old(next[peer])) && msgID !in old(sendTimes) && msgID !in matched
    {
      ghost var target := Registered(prefix, View(), peer, time);
      assert Accounted(prefix, target) by { SendAccounted(prefix, View(), peer, time); }
      msgID := MessageId(prefix, peer, next[peer]);
      assert msgID !in sendTimes && msgID !in matched by { IdIsFresh(prefix, View(), peer); }
      sendTimes := sendTimes[msgID := time];
      next := next[peer := next[peer] + 1];
      assert View() == target;
    }

    /** The reader's search for an outstanding ID in a line. */
    method FindMatch(raw: string) returns (id: Option<string>)
      ensures id == MatchOf(sendTimes, raw)
    {
      var line := TrimSpace(raw);
      if !HasPrefix(line, "FROM:") { return None; }
      var parts := SplitN(TrimPrefix(line, "FROM:"), '|', 3);
      var msgID := "";
      if |parts| >= 2 {
        msgID := parts[1];
      }
      var ok := msgID in sendTimes;
      if !ok && |parts| >= 3 {
        msgID := SplitN(parts[2], '|', 2)[0];
        ok := msgID in sendTimes;
      }
      return if ok then Some(msgID) else None;
    }

    /** What a reader's loop does with a line that is not PING or AUTH:FAILED. */
    method HandleLine(peer: nat, raw: string, time: int)
      requires Accounted(prefix, View()) && peer < |next|
      modifies this`sendTimes, this`recv, this`rtts, this`matched
      ensures Accounted(prefix, View()) && View() == Delivered(old(View()), peer, raw, time)
    {
      ghost var target := Delivered(View(), peer, raw, time);
      assert Accounted(prefix, target) by { ReceiveAccounted(prefix, View(), peer, raw, time); }
      var found := FindMatch(raw);
      if found.Some? {
        var sendTime := sendTimes[found.value];
        sendTimes := sendTimes - {found.value};
        rtts := rtts[peer := rtts[peer] + [time - sendTime]];
        recv := recv[peer := recv[peer] + 1];
        matched := matched + [found.value];
      }
      assert View() == target;
    }
  }
}
