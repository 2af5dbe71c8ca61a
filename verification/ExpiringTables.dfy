/**
 Tables that remember a key for a while: message dedup (60 s, swept every 30 s) and replay nonces
 (5 min, swept every 60 s). The table is a cache of its own accept history; times are in seconds.
 */
module ExpiringTables {
  import opened Text
  import opened Sweeping

  datatype Params = Params(maxAge: int, period: int)

  const DEDUP := Params(60, 30)
  const REPLAY := Params(300, 60)

  datatype Accept = Accept(key: string, time: int)

  /** `log` is every accept there ever was, oldest first. */
  datatype Table = Table(now: int, lastSweep: int, seen: map<string, int>, log: seq<Accept>)

  const START := Table(0, 0, map[], [])

  datatype Event = Present(key: string) | Sweep | Advance(d: int)

  /** IsDuplicate's and Check's common part: a key is accepted when it is not in the table. */
  function Presented(t: Table, key: string): Table {
    if key in t.seen then t
    else t.(seen := t.seen[key := t.now], log := t.log + [Accept(key, t.now)])
  }

  function Swept(p: Params, t: Table): Table {
    t.(lastSweep := t.now, seen := Kept(t.seen, t.now - p.maxAge))
  }

  /** The ticker fires every period and time never passes it by. */
  predicate Enabled(p: Params, t: Table, e: Event) {
    match e
    case Present(_) => true
    case Sweep => t.now == t.lastSweep + p.period
    case Advance(d) => d > 0 && t.now + d <= t.lastSweep + p.period
  }

  function Next(p: Params, t: Table, e: Event): Table
    requires Enabled(p, t, e)
  {
    match e
    case Present(key) => Presented(t, key)
    case Sweep => Swept(p, t)
    case Advance(d) => t.(now := t.now + d)
  }

  ghost predicate IsRun(p: Params, run: seq<Table>, events: seq<Event>) {
    && p.maxAge >= 0 && p.period > 0 && |run| == |events| + 1 && run[0] == START
    && forall i {:trigger events[i]} :: 0 <= i < |events| ==>
         Enabled(p, run[i], events[i]) && run[i + 1] == Next(p, run[i], events[i])
  }

  // ---------------------------------------------------------------- the cache agrees with the history

  /** An accept is still in the table, or a later one of its key is, or it is older than maxAge. */
  predicate Remembered(p: Params, t: Table, a: Accept) {
    (a.key in t.seen && t.seen[a.key] >= a.time) || t.now - a.time > p.maxAge
  }

  ghost predicate Faithful(p: Params, t: Table) {
    && t.lastSweep <= t.now
    && (forall i :: 0 <= i < |t.log| ==> t.log[i].time <= t.now && Remembered(p, t, t.log[i]))
    && (forall i, j :: 0 <= i < j < |t.log| && t.log[i].key == t.log[j].key ==>
          t.log[j].time - t.log[i].time > p.maxAge)
    && (forall k :: k in t.seen ==> Accept(k, t.seen[k]) in t.log && t.lastSweep - t.seen[k] <= p.maxAge)
  }

  lemma StepFaithful(p: Params, t: Table, e: Event)
    requires p.maxAge >= 0 && Faithful(p, t) && Enabled(p, t, e)
    ensures Faithful(p, Next(p, t, e))
  {
  }

  lemma {:induction false} RunFaithful(p: Params, run: seq<Table>, events: seq<Event>, i: nat)
    requires IsRun(p, run, events) && i < |run|
    ensures Faithful(p, run[i]) && run[i].now <= run[i].lastSweep + p.period
  {
    if i == 0 {
    } else {
      RunFaithful(p, run, events, i - 1);
      StepFaithful(p, run[i - 1], events[i - 1]);
    }
  }

  /** Two accepts of one key are always more than maxAge apart. */
  lemma AcceptsAreApart(p: Params, run: seq<Table>, events: seq<Event>, n: nat, i: nat, j: nat)
    requires IsRun(p, run, events) && n < |run|
    requires i < j < |run[n].log| && run[n].log[i].key == run[n].log[j].key
    ensures run[n].log[j].time - run[n].log[i].time > p.maxAge
  {
    RunFaithful(p, run, events, n);
  }

  /**
   What a verdict says about the past: a key is refused only if it was accepted within the last
   maxAge plus one period, and accepted only if it was not within the last maxAge.
   */
  lemma VerdictMeans(p: Params, run: seq<Table>, events: seq<Event>, n: nat, key: string)
    requires IsRun(p, run, events) && n < |run|
    ensures key in run[n].seen ==>
              exists a :: a in run[n].log && a.key == key && run[n].now - a.time <= p.maxAge + p.period
    ensures key !in run[n].seen ==>
              forall a :: a in run[n].log && a.key == key ==> run[n].now - a.time > p.maxAge
  {
    RunFaithful(p, run, events, n);
    var t := run[n];
    if key in t.seen {
      assert Accept(key, t.seen[key]) in t.log;
    } else {
      forall a | a in t.log && a.key == key ensures t.now - a.time > p.maxAge {
        var i :| 0 <= i < |t.log| && t.log[i] == a;
        assert Remembered(p, t, t.log[i]);
      }
    }
  }

  /** With its ticker running, the table holds no key for more than 90 s, or 6 min. */
  lemma ForgottenInTime(run: seq<Table>, events: seq<Event>, n: nat, key: string)
    requires n < |run| && key in run[n].seen
    ensures IsRun(DEDUP, run, events) ==> run[n].now - run[n].seen[key] <= 90
    ensures IsRun(REPLAY, run, events) ==> run[n].now - run[n].seen[key] <= 360
  {
    if IsRun(DEDUP, run, events) { RunFaithful(DEDUP, run, events, n); }
    if IsRun(REPLAY, run, events) { RunFaithful(REPLAY, run, events, n); }
  }

  /** A nonce accepted twice on a connection was accepted more than five minutes apart. */
  lemma NoncesAreApart(run: seq<Table>, events: seq<Event>, n: nat, i: nat, j: nat)
    requires IsRun(REPLAY, run, events) && n < |run|
    requires i < j < |run[n].log| && run[n].log[i].key == run[n].log[j].key
    ensures run[n].log[j].time - run[n].log[i].time > 300
  {
    AcceptsAreApart(REPLAY, run, events, n, i, j);
  }

  /**
   A key presented is accepted, at this very moment, if it was not accepted within the last maxAge plus
   one period; and refused, leaving everything as it is, if it was within the last maxAge.
   */
  lemma PresentedIsAccepted(p: Params, run: seq<Table>, events: seq<Event>, n: nat)
    requires IsRun(p, run, events) && n < |events| && events[n].Present?
    ensures var t, u, key := run[n], run[n + 1], events[n].key;
      && ((forall a :: a in t.log && a.key == key ==> t.now - a.time > p.maxAge + p.period) ==>
            u.log == t.log + [Accept(key, t.now)])
      && ((exists a :: a in t.log && a.key == key && t.now - a.time <= p.maxAge) ==> u == t)
      && (u.log == t.log || u.log == t.log + [Accept(key, t.now)])
  {
    VerdictMeans(p, run, events, n, events[n].key);
    assert run[n + 1] == Next(p, run[n], events[n]);
  }

  /** Keys may come at any moment, and time goes on or the sweep is due. */
  lemma NeverStuck(p: Params, t: Table, key: string)
    requires p.period > 0 && t.now <= t.lastSweep + p.period
    ensures Enabled(p, t, Present(key)) && (Enabled(p, t, Sweep) || Enabled(p, t, Advance(1)))
  {
  }

  /** The dedup table is swept every 30 s, the replay table every minute. */
  lemma SweepsComeEvery(t: Table)
    ensures Enabled(DEDUP, t, Sweep) <==> t.now == t.lastSweep + 30
    ensures Enabled(REPLAY, t, Sweep) <==> t.now == t.lastSweep + 60
  {
  }

  // ---------------------------------------------------------------- message dedup

  /** IsDuplicate's key: the truncated hash of sender and text. */
  function MessageKey(digest: string -> string, sender: string, message: string): string {
    digest(sender + "|" + message)
  }

  /** The digest does not collide on these two texts. */
  predicate Separates(digest: string -> string, a: string, b: string) {
    digest(a) == digest(b) ==> a == b
  }

  /**
   A sender/text pair is displayed again only more than 60 s after it was displayed last, and is
   suppressed only if this very pair was displayed within the last 90 s.
   */
  lemma DuplicatesSuppressed(digest: string -> string, run: seq<Table>, events: seq<Event>, n: nat,
                             shown: seq<(string, string)>, sender: string, message: string)
    requires IsRun(DEDUP, run, events) && n < |run|
    requires |shown| == |run[n].log| && '|' !in sender
    requires forall i :: 0 <= i < |shown| ==>
               '|' !in shown[i].0 && run[n].log[i].key == MessageKey(digest, shown[i].0, shown[i].1)
               && Separates(digest, shown[i].0 + "|" + shown[i].1, sender + "|" + message)
    ensures MessageKey(digest, sender, message) !in run[n].seen ==>
              forall i :: 0 <= i < |shown| && shown[i] == (sender, message) ==> run[n].now - run[n].log[i].time > 60
    ensures MessageKey(digest, sender, message) in run[n].seen ==>
              exists i :: 0 <= i < |shown| && shown[i] == (sender, message) && run[n].now - run[n].log[i].time <= 90
  {
    var t, key := run[n], MessageKey(digest, sender, message);
    VerdictMeans(DEDUP, run, events, n, key);
    if key in t.seen {
      var a :| a in t.log && a.key == key && t.now - a.time <= 90;
      var i :| 0 <= i < |t.log| && t.log[i] == a;
      FieldCancels(shown[i].0, shown[i].1, sender, message, '|');
      assert shown[i] == (sender, message);
    } else {
      forall i | 0 <= i < |shown| && shown[i] == (sender, message) ensures t.now - t.log[i].time > 60 {
        assert t.log[i] in t.log;
      }
    }
  }

  // ---------------------------------------------------------------- the table as it runs

  class ExpiringTable {
    const params: Params
    var seen: map<string, int>
    ghost var now: int
    ghost var lastSweep: int
    ghost var log: seq<Accept>

    ghost function View(): Table
      reads this
    {
      Table(now, lastSweep, seen, log)
    }

    ghost predicate Valid()
      reads this
    {
      params.maxAge >= 0 && params.period > 0 && Faithful(params, View())
    }

    constructor (params: Params)
      requires params.maxAge >= 0 && params.period > 0
      ensures Valid() && this.params == params && View() == START
    {
      this.params := params;
      seen, now, lastSweep, log := map[], 0, 0, [];
    }

    /** Check, and the negation of IsDuplicate: true if the key is fresh. */
    method Check(key: string, time: int) returns (isNew: bool)
      requires Valid() && time == now
      modifies this`seen, this`log
      ensures Valid() && View() == Presented(old(View()), key)
      ensures isNew <==> key !in old(seen)
      ensures isNew ==> forall a :: a in old(log) && a.key == key ==> now - a.time > params.maxAge
    {
      StepFaithful(params, View(), Present(key));
      if key in seen { return false; }
      forall a | a in log && a.key == key ensures now - a.time > params.maxAge {
        var i :| 0 <= i < |log| && log[i] == a;
        assert Remembered(params, View(), log[i]);
      }
      seen := seen[key := time];
      log := log + [Accept(key, time)];
      return true;
    }

    /** The body of the cleanup ticker. */
    method Cleanup(time: int)
      requires Valid() && time == now == lastSweep + params.period
      modifies this`seen, this`lastSweep
      ensures Valid() && View() == Swept(params, old(View()))
    {
      ghost var swept := Swept(params, View());
      assert Faithful(params, swept) by { StepFaithful(params, View(), Sweep); }
      seen := Expire(seen, time - params.maxAge);
      lastSweep := time;
      assert View() == swept;
    }
  }
}
