/**
 Why the pings must be written in time. The clock of a pending ping starts when a tick marks it, not
 when the PING is written, so a PING that is written a whole tick late leaves its peer less than the
 timeout to answer.
 */
module LatePings {
  import opened HealthCheck

  /** The last state of a run. */
  function Last(run: seq<Check>): Check
    requires run != []
  {
    run[|run| - 1]
  }

  lemma TimedRunExtends(run: seq<Check>, events: seq<Event>, latency: int, prompt: set<string>, e: Event)
    requires IsTimedRun(run, events, latency, prompt)
    requires Enabled(Last(run), e) && OnTime(Last(run), latency, prompt, e)
    ensures IsTimedRun(run + [Next(Last(run), e)], events + [e], latency, prompt)
  {
    var longer, more := run + [Next(Last(run), e)], events + [e];
    forall i | 0 <= i < |more|
      ensures Enabled(longer[i], more[i]) && longer[i + 1] == Next(longer[i], more[i])
      ensures OnTime(longer[i], latency, prompt, more[i])
    {
      if i < |events| { assert more[i] == events[i] && longer[i] == run[i] && longer[i + 1] == run[i + 1]; }
    }
  }

  /** One more step, from a run whose last state is `c` to one whose last state is `d`. */
  lemma Step(run: seq<Check>, events: seq<Event>, latency: int, prompt: set<string>, c: Check, e: Event, d: Check)
    returns (run': seq<Check>, events': seq<Event>)
    requires IsTimedRun(run, events, latency, prompt) && Last(run) == c
    requires Enabled(c, e) && OnTime(c, latency, prompt, e) && Next(c, e) == d
    ensures IsTimedRun(run', events', latency, prompt) && Last(run') == d
    ensures events' == events + [e] && run' == run + [d]
  {
    TimedRunExtends(run, events, latency, prompt, e);
    run', events' := run + [d], events + [e];
  }

  // ---------------------------------------------------------------- the run

  /** The peer is connected and nothing was pinged yet. */
  function Quiet(a: string, now: int, lastTick: int, tick: Tick): Check {
    Check(now, lastTick, {a}, map[], tick, {}, map[])
  }

  /** The tick at 5 marked the peer, and its goroutine is held up. */
  function HeldUp(a: string, now: int, tick: Tick, pingers: set<Pinger>): Check {
    Check(now, TICK, {a}, map[a := TICK], tick, pingers, map[])
  }

  /** The PING was written at 10. */
  function Pinged(a: string, now: int, lastTick: int, tick: Tick): Check {
    Check(now, lastTick, {a}, map[a := TICK], tick, {}, map[a := 2 * TICK])
  }

  /** Up to the first tick's copy. */
  lemma Connecting(a: string, latency: int, prompt: set<string>) returns (run: seq<Check>, events: seq<Event>)
    requires latency >= 0
    ensures IsTimedRun(run, events, latency, prompt) && Last(run) == Quiet(a, TICK, TICK, Copied({a}))
  {
    run, events := [START], [];
    run, events := Step(run, events, latency, prompt, START, Connect(a), Quiet(a, 0, 0, Idle));
    run, events := Step(run, events, latency, prompt, Quiet(a, 0, 0, Idle), Advance(TICK), Quiet(a, TICK, 0, Idle));
    run, events := Step(run, events, latency, prompt, Quiet(a, TICK, 0, Idle), Copy,
                        Quiet(a, TICK, TICK, Copied({a})));
  }

  lemma MarkNew(a: string)
    ensures Next(Quiet(a, TICK, TICK, Copied({a})), Mark) == HeldUp(a, TICK, Marked({}, {a}), {})
  {
    var c := Quiet(a, TICK, TICK, Copied({a}));
    assert Unpinged(c, {a}) == {a} && TimedOut(c, {a}) == {};
  }

  lemma SpawnOne(a: string)
    ensures Next(HeldUp(a, TICK, Marked({}, {a}), {}), Spawn) == HeldUp(a, TICK, Idle, {Pinger(a, TICK)})
  {
  }

  lemma WriteLate(a: string)
    ensures Next(HeldUp(a, 2 * TICK, Idle, {Pinger(a, TICK)}), PingSent(Pinger(a, TICK)))
         == Pinged(a, 2 * TICK, TICK, Idle)
  {
  }

  /** The tick marks the peer, and its PING is written when the next tick is due. */
  lemma PingingLate(a: string, latency: int, prompt: set<string>) returns (run: seq<Check>, events: seq<Event>)
    requires latency >= TICK
    ensures IsTimedRun(run, events, latency, prompt) && Last(run) == Pinged(a, 2 * TICK, TICK, Idle)
  {
    run, events := Connecting(a, latency, prompt);
    MarkNew(a);
    var marked := HeldUp(a, TICK, Marked({}, {a}), {});
    run, events := Step(run, events, latency, prompt, Quiet(a, TICK, TICK, Copied({a})), Mark, marked);
    SpawnOne(a);
    var g := Pinger(a, TICK);
    run, events := Step(run, events, latency, prompt, marked, Spawn, HeldUp(a, TICK, Idle, {g}));
    run, events := Step(run, events, latency, prompt, HeldUp(a, TICK, Idle, {g}), Advance(TICK),
                        HeldUp(a, 2 * TICK, Idle, {g}));
    WriteLate(a);
    run, events := Step(run, events, latency, prompt, HeldUp(a, 2 * TICK, Idle, {g}), PingSent(g),
                        Pinged(a, 2 * TICK, TICK, Idle));
  }

  /** A pass over the peer finds its ping pending, and overdue or not. */
  lemma MarkOld(a: string, t: int)
    ensures Next(Pinged(a, t, t, Copied({a})), Mark)
         == Pinged(a, t, t, Marked(if t - TICK > TIMEOUT then {a} else {}, {}))
  {
    var c := Pinged(a, t, t, Copied({a}));
    assert Unpinged(c, {a}) == {} && TimedOut(c, {a}) == if t - TICK > TIMEOUT then {a} else {};
    assert c.pending + (map x | x in Unpinged(c, {a}) :: c.now) == c.pending;
  }

  lemma SpawnNone(a: string, t: int)
    ensures Next(Pinged(a, t, t, Marked({}, {})), Spawn) == Pinged(a, t, t, Idle)
  {
  }

  /** A tick at which the ping is not overdue, and the time to the next one. */
  lemma Waiting(run: seq<Check>, events: seq<Event>, latency: int, prompt: set<string>, a: string, t: int)
    returns (run': seq<Check>, events': seq<Event>)
    requires IsTimedRun(run, events, latency, prompt) && Last(run) == Pinged(a, t, t - TICK, Idle)
    requires t <= 3 * TICK
    ensures IsTimedRun(run', events', latency, prompt) && Last(run') == Pinged(a, t + TICK, t, Idle)
  {
    run', events' := Step(run, events, latency, prompt, Pinged(a, t, t - TICK, Idle), Copy,
                          Pinged(a, t, t, Copied({a})));
    MarkOld(a, t);
    run', events' := Step(run', events', latency, prompt, Pinged(a, t, t, Copied({a})), Mark,
                          Pinged(a, t, t, Marked({}, {})));
    SpawnNone(a, t);
    run', events' := Step(run', events', latency, prompt, Pinged(a, t, t, Marked({}, {})), Spawn,
                          Pinged(a, t, t, Idle));
    run', events' := Step(run', events', latency, prompt, Pinged(a, t, t, Idle), Advance(TICK),
                          Pinged(a, t + TICK, t, Idle));
  }

  /** A run that meets every assumption and removes by timeout a peer that always answers in time. */
  ghost predicate ReapsPrompt(run: seq<Check>, events: seq<Event>, latency: int, prompt: set<string>, i: nat) {
    IsTimedRun(run, events, latency, prompt) && i < |events| && events[i].Reap? && events[i].addr in prompt
  }

  /**
   The failing case: marked at 5, pinged at 10, and removed at 20 with its PONG not yet due, while
   every other assumption on the environment is met.
   */
  lemma LatePingReapsPrompt(a: string, latency: int, prompt: set<string>)
    returns (run: seq<Check>, events: seq<Event>)
    requires latency >= TICK && a in prompt
    ensures IsTimedRun(run, events, latency, prompt) && |events| > 0 && events[|events| - 1] == Reap(a)
    ensures a in run[|events| - 1].unanswered
    ensures run[|events| - 1].now - run[|events| - 1].unanswered[a] <= TIMEOUT
  {
    run, events := PingingLate(a, latency, prompt);
    run, events := Waiting(run, events, latency, prompt, a, 2 * TICK);
    run, events := Waiting(run, events, latency, prompt, a, 3 * TICK);
    var t := 4 * TICK;
    run, events := Step(run, events, latency, prompt, Pinged(a, t, t - TICK, Idle), Copy, Pinged(a, t, t, Copied({a})));
    MarkOld(a, t);
    var c := Pinged(a, t, t, Marked({a}, {}));
    run, events := Step(run, events, latency, prompt, Pinged(a, t, t, Copied({a})), Mark, c);
    run, events := Step(run, events, latency, prompt, c, Reap(a), Next(c, Reap(a)));
  }

  /** Prompt peers are safe from the timeout exactly when pings are written less than a tick late. */
  lemma PromptReapedExactlyWhen(latency: int, prompt: set<string>)
    requires prompt != {}
    ensures (exists run, events, i: nat :: ReapsPrompt(run, events, latency, prompt, i)) <==> latency >= 5
  {
    if latency >= TICK {
      var a :| a in prompt;
      var run, events := LatePingReapsPrompt(a, latency, prompt);
      assert ReapsPrompt(run, events, latency, prompt, |events| - 1);
    } else {
      forall run: seq<Check>, events: seq<Event>, i: nat ensures !ReapsPrompt(run, events, latency, prompt, i) {
        if IsTimedRun(run, events, latency, prompt) && i < |events| && events[i].Reap? {
          PromptPeerNeverReaped(run, events, latency, prompt, i);
        }
      }
    }
  }
}
