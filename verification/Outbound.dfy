/**
 One connection's outbound side: a bounded queue that never blocks its producers, drained by a
 writer that coalesces whatever is queued into one write. Every interleaving of producers,
 writer, close and write failure is a run of the machine below, and the machine refines a writer
 that writes one message at a time.
 */
module Outbound {
  import opened CollectionFacts
  import opened Wrappers

  const QUEUE_SIZE := 1024

  function Flatten(msgs: seq<string>): string {
    if msgs == [] then "" else msgs[0] + Flatten(msgs[1..])
  }

  lemma {:induction false} FlattenConcat(a: seq<string>, b: seq<string>)
    ensures Flatten(a + b) == Flatten(a) + Flatten(b)
  {
    if a == [] {
      assert a + b == b;
    } else {
      FlattenConcat(a[1..], b);
      assert (a + b)[1..] == a[1..] + b;
      Assoc(a[0], Flatten(a[1..]), Flatten(b));
    }
  }

  lemma FlattenAppend(a: seq<string>, m: string)
    ensures Flatten(a + [m]) == Flatten(a) + m
  {
    FlattenConcat(a, [m]);
    assert Flatten([m]) == m + Flatten([]);
  }

  // ---------------------------------------------------------------- the machine

  /** Where writeLoop is: waiting, coalescing, about to write, or returned. */
  datatype Writer = Waiting | Coalescing | Writing | Stopped

  /**
   `checked` are producers past enqueue's look at `done` and before its send. `accepted`, `parts`
   and `lost` are history: what was queued, what the batch is made of, and what a failed write
   did not deliver.
   */
  datatype Conn = Conn(
    out: seq<string>,
    done: bool,
    writer: Writer,
    batch: string,
    written: string,
    checked: seq<string>,
    accepted: seq<string>,
    parts: seq<string>,
    lost: string)

  const FRESH := Conn([], false, Waiting, "", "", [], [], [], "")

  datatype Event =
    | Check(msg: string)      // enqueue: done is not closed
    | Offer(k: nat)           // enqueue: send, or drop if the queue is full
    | Take                    // writeLoop: first message of a batch
    | More                    // coalesce: another one
    | Seal                    // coalesce: nothing queued right now
    | Flush                   // the write succeeds
    | Fail(n: nat)            // the write fails after n bytes; removeConnection closes done
    | Close                   // signalClosed
    | Return                  // writeLoop sees done

  predicate Enabled(c: Conn, e: Event) {
    match e
    case Check(_) => !c.done
    case Offer(k) => k < |c.checked|
    case Take => c.writer == Waiting && c.out != []
    case More => c.writer == Coalescing && c.out != []
    case Seal => c.writer == Coalescing && c.out == []
    case Flush => c.writer == Writing
    case Fail(n) => c.writer == Writing && n <= |c.batch|
    case Close => true
    case Return => c.writer == Waiting && c.done
  }

  function Next(c: Conn, e: Event): Conn
    requires Enabled(c, e)
  {
    match e
    case Check(msg) => c.(checked := c.checked + [msg])
    case Offer(k) =>
      var msg, waiting := c.checked[k], c.checked[..k] + c.checked[k + 1..];
      if |c.out| < QUEUE_SIZE
      then c.(checked := waiting, out := c.out + [msg], accepted := c.accepted + [msg])
      else c.(checked := waiting)
    case Take => c.(out := c.out[1..], batch := c.out[0], parts := [c.out[0]], writer := Coalescing)
    case More => c.(out := c.out[1..], batch := c.batch + c.out[0], parts := c.parts + [c.out[0]])
    case Seal => c.(writer := Writing)
    case Flush => c.(written := c.written + c.batch, batch := "", parts := [], writer := Waiting)
    case Fail(n) =>
      c.(written := c.written + c.batch[..n], lost := c.batch[n..], batch := "", parts := [],
         writer := Stopped, done := true)
    case Close => c.(done := true)
    case Return => c.(writer := Stopped)
  }

  ghost predicate IsRun(run: seq<Conn>, events: seq<Event>) {
    && |run| == |events| + 1 && run[0] == FRESH
    && forall i {:trigger events[i]} :: 0 <= i < |events| ==>
         Enabled(run[i], events[i]) && run[i + 1] == Next(run[i], events[i])
  }

  // ---------------------------------------------------------------- nothing lost, nothing reordered

  ghost predicate Conserves(c: Conn) {
    && |c.out| <= QUEUE_SIZE
    && c.batch == Flatten(c.parts)
    && c.written + c.lost + c.batch + Flatten(c.out) == Flatten(c.accepted)
    && (c.lost != "" ==> c.writer == Stopped && c.done)
    && (c.writer == Stopped ==> c.done)
    && (c.writer == Waiting || c.writer == Stopped ==> c.parts == [])
  }

  lemma QueuedConserves(c: Conn, msg: string)
    requires Conserves(c) && |c.out| < QUEUE_SIZE
    ensures Conserves(c.(out := c.out + [msg], accepted := c.accepted + [msg]))
  {
    FlattenAppend(c.out, msg);
    FlattenAppend(c.accepted, msg);
    Assoc(c.written + c.lost + c.batch, Flatten(c.out), msg);
  }

  lemma OfferConserves(c: Conn, k: nat)
    requires Conserves(c) && k < |c.checked|
    ensures Conserves(Next(c, Offer(k)))
  {
    if |c.out| < QUEUE_SIZE { QueuedConserves(c, c.checked[k]); }
  }

  lemma TakeConserves(c: Conn)
    requires Conserves(c) && Enabled(c, Take)
    ensures Conserves(Next(c, Take))
  {
  }

  lemma MoreConserves(c: Conn)
    requires Conserves(c) && Enabled(c, More)
    ensures Conserves(Next(c, More))
  {
    FlattenAppend(c.parts, c.out[0]);
    var head := c.written + c.lost;
    Assoc(head + c.batch, c.out[0], Flatten(c.out[1..]));
    Assoc(head, c.batch, c.out[0]);
  }

  lemma FlushConserves(c: Conn)
    requires Conserves(c) && Enabled(c, Flush)
    ensures Conserves(Next(c, Flush))
  {
    assert c.lost == "";
    assert c.written + "" + c.batch == c.written + c.batch + "" + "";
  }

  lemma FailConserves(c: Conn, n: nat)
    requires Conserves(c) && Enabled(c, Fail(n))
    ensures Conserves(Next(c, Fail(n)))
  {
    assert c.lost == "" && c.written + "" == c.written;
    assert c.batch == c.batch[..n] + c.batch[n..];
    Assoc(c.written, c.batch[..n], c.batch[n..]);
    assert c.written + c.batch + "" == c.written + c.batch;
  }

  lemma StepConserves(c: Conn, e: Event)
    requires Conserves(c) && Enabled(c, e)
    ensures Conserves(Next(c, e))
  {
    match e
    case Offer(k) => OfferConserves(c, k);
    case Take => TakeConserves(c);
    case More => MoreConserves(c);
    case Flush => FlushConserves(c);
    case Fail(n) => FailConserves(c, n);
    case _ =>
  }

  /**
   For every interleaving: what was written, what a failed write left undelivered, the batch and
   the queue are, in this order, exactly the accepted messages; bytes go undelivered only once
   the connection is shut down; and the queue keeps its bound.
   */
  lemma {:induction false} RunConserves(run: seq<Conn>, events: seq<Event>, i: nat)
    requires IsRun(run, events) && i < |run|
    ensures Conserves(run[i])
  {
    if i == 0 {
    } else {
      RunConserves(run, events, i - 1);
      StepConserves(run[i - 1], events[i - 1]);
    }
  }

  // ---------------------------------------------------------------- shutting down

  /** A connection shut down stays so, and takes on no message that was not being queued at that moment. */
  lemma StepAfterDone(c: Conn, e: Event)
    requires Enabled(c, e) && c.done
    ensures var d := Next(c, e);
      d.done && |d.accepted| + |d.checked| <= |c.accepted| + |c.checked| && c.accepted <= d.accepted
  {
  }

  lemma {:induction false} ClosedForGood(run: seq<Conn>, events: seq<Event>, i: nat, j: nat)
    requires IsRun(run, events) && i < j < |run| && events[i] == Close
    ensures run[j].done && run[i].accepted <= run[j].accepted
    ensures |run[j].accepted| - |run[i].accepted| <= |run[i].checked|
    ensures |run[j].accepted| + |run[j].checked| <= |run[i].accepted| + |run[i].checked|
  {
    assert run[i + 1] == Next(run[i], events[i]);
    if i + 1 == j {
    } else {
      ClosedForGood(run, events, i, j - 1);
      StepAfterDone(run[j - 1], events[j - 1]);
      assert run[j] == Next(run[j - 1], events[j - 1]);
    }
  }

  /** And only an open connection lets a message past its first look. */
  lemma OnlyOpenChecks(c: Conn, e: Event)
    requires Enabled(c, e)
    ensures |Next(c, e).checked| > |c.checked| ==> !c.done && e.Check? && Next(c, e).checked == c.checked + [e.msg]
    ensures |Next(c, e).accepted| > |c.accepted| ==> e.Offer? && |c.out| < 1024
  {
  }

  // ---------------------------------------------------------------- nobody waits

  /** Whatever the writer is doing, a producer gets past its first look on an open connection, and then on. */
  lemma ProducersNeverBlock(c: Conn, msg: string, k: nat)
    ensures !c.done ==> Enabled(c, Check(msg))
    ensures k < |c.checked| ==> Enabled(c, Offer(k))
  {
  }

  /** The writer always has a step, but for an open connection with nothing queued and a stopped writer. */
  lemma WriterNeverStuck(c: Conn)
    ensures c.writer == Waiting && c.out != [] ==> Enabled(c, Take)
    ensures c.writer == Waiting && c.done ==> Enabled(c, Return)
    ensures c.writer == Coalescing ==> if c.out != [] then Enabled(c, More) else Enabled(c, Seal)
    ensures c.writer == Writing ==> Enabled(c, Flush) && forall n: nat :: n <= |c.batch| ==> Enabled(c, Fail(n))
    ensures Enabled(c, Close)
  {
  }

  // ---------------------------------------------------------------- refinement

  /** The simple writer: a queue of whole messages, each written by a write of its own. */
  datatype Simple = Simple(queue: seq<string>, written: string)

  function Accept(s: Simple, msg: string): Simple {
    s.(queue := s.queue + [msg])
  }

  function WriteOne(s: Simple): Simple
    requires s.queue != []
  {
    Simple(s.queue[1..], s.written + s.queue[0])
  }

  function WriteMany(s: Simple, n: nat): Simple
    requires n <= |s.queue|
    decreases n
  {
    if n == 0 then s else WriteMany(WriteOne(s), n - 1)
  }

  /** What the simple writer would hold where the coalescing one is. */
  function Abstract(c: Conn): Simple {
    Simple(c.parts + c.out, c.written)
  }

  lemma {:induction false} WriteManyFlattens(s: Simple, n: nat)
    requires n <= |s.queue|
    ensures WriteMany(s, n) == Simple(s.queue[n..], s.written + Flatten(s.queue[..n]))
    decreases n
  {
    if n == 0 {
    } else {
      WriteManyFlattens(WriteOne(s), n - 1);
      assert s.queue[..n][1..] == s.queue[1..][..n - 1];
      assert s.written + s.queue[0] + Flatten(s.queue[1..n]) == s.written + (s.queue[0] + Flatten(s.queue[1..n]));
    }
  }

  /** What a step but a failure is for the simple writer. */
  predicate Refines(c: Conn, e: Event, d: Conn)
    requires Enabled(c, e)
  {
    match e
    case Offer(k) => Abstract(d) == if |c.out| < QUEUE_SIZE then Accept(Abstract(c), c.checked[k]) else Abstract(c)
    case Flush => |c.parts| <= |Abstract(c).queue| && Abstract(d) == WriteMany(Abstract(c), |c.parts|)
    case _ => Abstract(d) == Abstract(c)
  }

  lemma TakeRefines(c: Conn)
    requires Conserves(c) && Enabled(c, Take)
    ensures Refines(c, Take, Next(c, Take))
  {
    assert c.parts == [];
    assert [] + c.out == [c.out[0]] + c.out[1..];
  }

  lemma MoreRefines(c: Conn)
    requires Enabled(c, More)
    ensures Refines(c, More, Next(c, More))
  {
    Assoc(c.parts, [c.out[0]], c.out[1..]);
    assert [c.out[0]] + c.out[1..] == c.out;
  }

  lemma FlushRefines(c: Conn)
    requires Conserves(c) && Enabled(c, Flush)
    ensures Refines(c, Flush, Next(c, Flush))
  {
    WriteManyFlattens(Abstract(c), |c.parts|);
    assert (c.parts + c.out)[|c.parts|..] == c.out && (c.parts + c.out)[..|c.parts|] == c.parts;
    assert [] + c.out == c.out;
  }

  /**
   Step for step: queueing a message is queueing it, one coalesced write is as many single
   writes as the batch has messages, and every other step but a failure is none.
   */
  lemma StepRefines(c: Conn, e: Event)
    requires Conserves(c) && Enabled(c, e) && !e.Fail?
    ensures Refines(c, e, Next(c, e))
  {
    match e
    case Offer(k) => Assoc(c.parts, c.out, [c.checked[k]]);
    case Take => TakeRefines(c);
    case More => MoreRefines(c);
    case Flush => FlushRefines(c);
    case _ =>
  }

  /** The first `n` bytes are the first `k` messages and the first `j` bytes of the next. */
  predicate CutAt(parts: seq<string>, n: nat, k: nat, j: nat) {
    && k <= |parts| && n <= |Flatten(parts)|
    && j <= (if k < |parts| then |parts[k]| else 0)
    && Flatten(parts)[..n] == Flatten(parts[..k]) + (if k < |parts| then parts[k][..j] else "")
  }

  lemma {:induction false} CutExists(parts: seq<string>, n: nat)
    requires n <= |Flatten(parts)|
    ensures exists k: nat, j: nat :: CutAt(parts, n, k, j)
  {
    if parts == [] {
      assert CutAt(parts, n, 0, 0);
    } else if n <= |parts[0]| {
      assert CutAt(parts, n, 0, n);
    } else {
      var rest := parts[1..];
      CutExists(rest, n - |parts[0]|);
      var k: nat, j: nat :| CutAt(rest, n - |parts[0]|, k, j);
      assert parts[..k + 1][1..] == rest[..k];
      var tail := if k < |rest| then rest[k][..j] else "";
      assert Flatten(parts)[..n] == parts[0] + Flatten(rest)[..n - |parts[0]|];
      assert parts[0] + (Flatten(rest[..k]) + tail) == Flatten(parts[..k + 1]) + tail;
      assert CutAt(parts, n, k + 1, j);
    }
  }

  // ---------------------------------------------------------------- lines

  /** A message as the relay makes them: text without newlines, then a newline. */
  predicate IsLine(msg: string) {
    msg != "" && msg[|msg| - 1] == '\n' && '\n' !in msg[..|msg| - 1]
  }

  function LinesFrom(begun: string, stream: string): seq<string>
    decreases |stream|
  {
    if stream == "" then []
    else if stream[0] == '\n' then [begun + "\n"] + LinesFrom("", stream[1..])
    else LinesFrom(begun + [stream[0]], stream[1..])
  }

  /** What a reader gets from a stream by ReadString('\n'): the complete lines, newline included. */
  function Lines(stream: string): seq<string> {
    LinesFrom("", stream)
  }

  /** Text without a newline only adds to the line begun. */
  lemma {:induction false} LinesOfText(begun: string, text: string, rest: string)
    requires '\n' !in text
    ensures LinesFrom(begun, text + rest) == LinesFrom(begun + text, rest)
    decreases |text|
  {
    if text == "" {
      assert text + rest == rest && begun + text == begun;
    } else {
      LinesOfText(begun + [text[0]], text[1..], rest);
      assert (text + rest)[1..] == text[1..] + rest;
      assert begun + [text[0]] + text[1..] == begun + text;
    }
  }

  lemma LinesOfLine(msg: string, rest: string)
    requires IsLine(msg)
    ensures Lines(msg + rest) == [msg] + Lines(rest)
  {
    var text := msg[..|msg| - 1];
    assert msg + rest == text + ("\n" + rest);
    LinesOfText("", text, "\n" + rest);
    assert "" + text == text && text + "\n" == msg && ("\n" + rest)[1..] == rest;
  }

  /** Cutting the stream anywhere leaves a reader with the first of the lines that were sent. */
  lemma {:induction false} LinesOfPrefix(msgs: seq<string>, n: nat)
    requires (forall m :: m in msgs ==> IsLine(m)) && n <= |Flatten(msgs)|
    ensures Lines(Flatten(msgs)[..n]) <= msgs
    ensures n == |Flatten(msgs)| ==> Lines(Flatten(msgs)[..n]) == msgs
  {
    if msgs == [] {
    } else {
      var m, rest := msgs[0], msgs[1..];
      assert msgs == [m] + rest && IsLine(m);
      if n < |m| {
        var cut := m[..n];
        assert Flatten(msgs)[..n] == cut + "";
        forall i | 0 <= i < n ensures cut[i] != '\n' { assert m[..|m| - 1][i] == cut[i]; }
        LinesOfText("", cut, "");
      } else {
        LinesOfPrefix(rest, n - |m|);
        assert Flatten(msgs)[..n] == m + Flatten(rest)[..n - |m|];
        LinesOfLine(m, Flatten(rest)[..n - |m|]);
      }
    }
  }

  // ---------------------------------------------------------------- over whole runs

  predicate SplitsAt(c: Conn, sent: seq<string>) {
    c.accepted == sent + (c.parts + c.out) && c.written == Flatten(sent)
  }

  /** Unless a write failed part way: whole messages were written, the rest are batch and queue. */
  ghost predicate Splits(c: Conn) {
    c.lost == "" ==> exists sent :: SplitsAt(c, sent)
  }

  lemma Delivered(c: Conn, d: Conn, sent: seq<string>)
    requires SplitsAt(c, sent) && c.batch == Flatten(c.parts)
    requires d.accepted == c.accepted && d.out == c.out && d.parts == [] && d.written == c.written + c.batch
    ensures SplitsAt(d, sent + c.parts)
  {
    Assoc(sent, c.parts, c.out);
    FlattenConcat(sent, c.parts);
    assert d.parts + d.out == c.out;
  }

  lemma StepSplits(c: Conn, e: Event)
    requires Splits(c) && Conserves(c) && Enabled(c, e)
    ensures Splits(Next(c, e))
  {
    var d := Next(c, e);
    if c.lost == "" {
      var sent :| SplitsAt(c, sent);
      match e
      case Offer(k) =>
        Assoc(c.parts, c.out, [c.checked[k]]);
        Assoc(sent, c.parts + c.out, [c.checked[k]]);
        assert SplitsAt(d, sent);
      case Take =>
        assert c.parts + c.out == d.parts + d.out;
        assert SplitsAt(d, sent);
      case More =>
        Assoc(c.parts, [c.out[0]], c.out[1..]);
        assert [c.out[0]] + c.out[1..] == c.out;
        assert SplitsAt(d, sent);
      case Flush => Delivered(c, d, sent);
      case Fail(n) => if n == |c.batch| { assert c.batch[..n] == c.batch; Delivered(c, d, sent); }
      case _ => assert SplitsAt(d, sent);
    }
  }

  lemma {:induction false} RunSplits(run: seq<Conn>, events: seq<Event>, i: nat)
    requires IsRun(run, events) && i < |run|
    ensures Splits(run[i])
  {
    if i == 0 {
      assert SplitsAt(run[0], []);
    } else {
      RunSplits(run, events, i - 1);
      RunConserves(run, events, i - 1);
      StepSplits(run[i - 1], events[i - 1]);
    }
  }

  /**
   A write that fails, in any run: what was accepted is what earlier writes delivered whole, then the
   batch, then the queue; and the bytes on the wire are then those earlier messages, some whole
   messages of the batch, and at most the beginning of one more.
   */
  lemma FailureInMidMessage(run: seq<Conn>, events: seq<Event>, i: nat)
    returns (sent: seq<string>, k: nat, j: nat)
    requires IsRun(run, events) && i < |events| && events[i].Fail?
    ensures var c, d := run[i], run[i + 1];
      && c.accepted == sent + (c.parts + c.out) && d.accepted == c.accepted && d.writer == Stopped && d.done
      && k <= |c.parts| && j <= (if k < |c.parts| then |c.parts[k]| else 0)
      && d.written == Flatten(sent + c.parts[..k]) + (if k < |c.parts| then c.parts[k][..j] else "")
  {
    RunConserves(run, events, i);
    RunSplits(run, events, i);
    var c, n := run[i], events[i].n;
    sent :| SplitsAt(c, sent);
    CutExists(c.parts, n);
    k, j :| CutAt(c.parts, n, k, j);
    FlattenConcat(sent, c.parts[..k]);
    Assoc(Flatten(sent), Flatten(c.parts[..k]), if k < |c.parts| then c.parts[k][..j] else "");
  }

  /**
   Coalescing refines one write per message: in every state of every run in which no write failed
   part way, the bytes on the wire and the messages waiting are those of the simple writer that was
   given the same messages and has written some number of them, one write each.
   */
  lemma RunRefinesSimple(run: seq<Conn>, events: seq<Event>, i: nat)
    requires IsRun(run, events) && i < |run| && run[i].lost == ""
    ensures exists n :: 0 <= n <= |run[i].accepted|
              && Abstract(run[i]) == WriteMany(Simple(run[i].accepted, ""), n)
  {
    RunSplits(run, events, i);
    var c := run[i];
    var sent :| SplitsAt(c, sent);
    var all := Simple(c.accepted, "");
    WriteManyFlattens(all, |sent|);
    assert c.accepted[..|sent|] == sent && c.accepted[|sent|..] == c.parts + c.out;
    assert "" + Flatten(sent) == Flatten(sent);
    assert Abstract(c) == WriteMany(all, |sent|);
  }

  /**
   What the peer reads, in every state of every run whose messages are lines: the first of the
   accepted lines, each one whole, in order, none twice; and while the writer waits for work, all
   of them but those still queued.
   */
  lemma PeerReadsAcceptedLines(run: seq<Conn>, events: seq<Event>, i: nat)
    requires IsRun(run, events) && i < |run|
    requires forall m :: m in run[i].accepted ==> IsLine(m)
    ensures Lines(run[i].written) <= run[i].accepted
    ensures run[i].writer == Waiting ==> Lines(run[i].written) + run[i].out == run[i].accepted
  {
    RunConserves(run, events, i);
    var c := run[i];
    assert Flatten(c.accepted)[..|c.written|] == c.written;
    LinesOfPrefix(c.accepted, |c.written|);
    if c.writer == Waiting {
      RunSplits(run, events, i);
      var sent :| SplitsAt(c, sent);
      assert c.parts + c.out == c.out;
      assert forall m :: m in sent ==> m in c.accepted;
      LinesOfPrefix(sent, |c.written|);
      assert Flatten(sent)[..|c.written|] == c.written;
    }
  }

  // ---------------------------------------------------------------- the connection as it runs

  /** The goroutine-local variables of writeLoop are fields, so that its steps can interleave. */
  class ManagedConnection {
    var out: seq<string>
    var done: bool
    var writer: Writer
    var batch: string
    ghost var written: string
    ghost var checked: seq<string>
    ghost var accepted: seq<string>
    ghost var parts: seq<string>
    ghost var lost: string

    ghost function View(): Conn
      reads this
    {
      Conn(out, done, writer, batch, written, checked, accepted, parts, lost)
    }

    constructor ()
      ensures View() == FRESH
    {
      out, done, writer, batch := [], false, Waiting, "";
      written, checked, accepted, parts, lost := "", [], [], [], "";
    }

    /** enqueue, when nothing comes between its two selects. */
    method Enqueue(msg: string) returns (ok: bool)
      modifies this`out, this`accepted
      ensures ok <==> !old(done) && |old(out)| < QUEUE_SIZE
      ensures View() == if ok then old(View()).(out := old(out) + [msg], accepted := old(accepted) + [msg])
                              else old(View())
    {
      if done { return false; }
      if |out| < QUEUE_SIZE {
        out := out + [msg];
        accepted := accepted + [msg];
        return true;
      }
      return false;
    }

    /** signalClosed: closing twice is closing once. */
    method SignalClosed()
      modifies this`done
      ensures View() == Next(old(View()), Close)
    {
      done := true;
    }

    /** The receive that starts a batch. */
    method TakeFirst()
      requires Conserves(View()) && writer == Waiting && out != []
      modifies this`out, this`batch, this`parts, this`writer
      ensures Conserves(View()) && View() == Next(old(View()), Take) && parts + out == old(out)
    {
      TakeConserves(View());
      batch, parts, out, writer := out[0], [out[0]], out[1..], Coalescing;
    }

    /** The receive inside the coalescing loop. */
    method TakeMore()
      requires Conserves(View()) && writer == Coalescing && out != []
      modifies this`out, this`batch, this`parts
      ensures Conserves(View()) && View() == Next(old(View()), More) && parts + out == old(parts) + old(out)
    {
      MoreConserves(View());
      Assoc(parts, [out[0]], out[1..]);
      assert [out[0]] + out[1..] == out;
      batch, parts, out := batch + out[0], parts + [out[0]], out[1..];
    }

    /** Another goroutine's enqueue in the meantime; `added` is what it added. */
    method Arrive(msg: string) returns (ghost added: seq<string>)
      requires Conserves(View()) && writer == Coalescing
      modifies this`out, this`accepted
      ensures Conserves(View()) && |added| <= 1
      ensures accepted == old(accepted) + added && out == old(out) + added
    {
      if !done && |out| < QUEUE_SIZE { QueuedConserves(View(), msg); }
      var ok := Enqueue(msg);
      added := if ok then [msg] else [];
    }

    /** The coalescing loop, while other goroutines queue `arrivals` at moments of their choosing. */
    method Coalesce(arrivals: seq<string>) returns (ghost added: seq<string>)
      requires Conserves(View()) && writer == Coalescing
      modifies this`out, this`accepted, this`batch, this`parts
      ensures Conserves(View()) && out == []
      ensures accepted == old(accepted) + added && parts == old(parts) + old(out) + added
    {
      var pending := arrivals;
      added := [];
      while out != []
        invariant Conserves(View())
        invariant accepted == old(accepted) + added && parts + out == old(parts) + old(out) + added
        decreases 2 * |pending| + |out|
      {
        var arrives: bool := *;
        if arrives && pending != [] {
          ghost var before := View();
          ghost var more := Arrive(pending[0]);
          Assoc(parts, before.out, more);
          Assoc(old(parts) + old(out), added, more);
          Assoc(old(accepted), added, more);
          added := added + more;
          pending := pending[1..];
        } else {
          TakeMore();
        }
      }
      assert parts + [] == parts;
    }

    /** The write, all of it or, at a fault, some of it. */
    method WriteBatch(fault: Option<nat>)
      requires Conserves(View()) && writer == Coalescing && out == []
      modifies this`written, this`lost, this`batch, this`parts, this`writer, this`done
      ensures Conserves(View())
      ensures var whole := Flatten(old(parts));
        match fault
        case None => written == old(written) + whole && writer == Waiting && done == old(done)
        case Some(n) =>
          written == old(written) + whole[..if n < |whole| then n else |whole|] && writer == Stopped && done
    {
      writer := Writing;
      match fault
      case None =>
        FlushConserves(View());
        written, batch, parts, writer := written + batch, "", [], Waiting;
      case Some(n) =>
        var k := if n < |batch| then n else |batch|;
        FailConserves(View(), k);
        written, lost := written + batch[..k], batch[k..];
        batch, parts, writer, done := "", [], Stopped, true;
    }

    /**
     One turn of writeLoop, from a message being there. Whatever was queued when the turn began or
     arrived before the queue was seen empty goes out in one write, in order; at a `fault` only
     that many bytes of it do, and the connection is shut down.
     */
    method WriteLoopTurn(arrivals: seq<string>, fault: Option<nat>) returns (ghost added: seq<string>)
      requires Conserves(View()) && writer == Waiting && out != []
      modifies this
      ensures Conserves(View()) && accepted == old(accepted) + added && out == []
      ensures var whole := Flatten(old(out) + added);
        match fault
        case None => written == old(written) + whole && writer == Waiting
        case Some(n) =>
          written == old(written) + whole[..if n < |whole| then n else |whole|] && writer == Stopped && done
    {
      TakeFirst();
      added := Coalesce(arrivals);
      assert parts == old(out) + added;
      WriteBatch(fault);
    }
  }
}
