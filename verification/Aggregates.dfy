/** The load test's aggregate over all peers, and why the order of the peers does not matter. */
module Aggregates {
  import opened CollectionFacts
  import opened Wrappers
  import opened Statistics

  datatype PeerResult = PeerResult(
    sent: nat,
    recv: nat,
    errors: nat,
    disconnected: nat,
    dialMs: real,
    joinMs: real,
    rtts: seq<real>)

  /** What the loop over the peers accumulates. */
  datatype Totals = Totals(
    sent: nat,
    recv: nat,
    errors: nat,
    disconnects: nat,
    dials: seq<real>,
    joins: seq<real>,
    rtts: seq<real>)

  datatype Rtt = Rtt(min: real, p50: real, p95: real, p99: real, max: real)

  /** Messages and kilobytes per second and peer; None is a division by zero. */
  datatype Throughput = Throughput(msgs: real, kilobytes: real)

  datatype Config = Config(n: nat, size: nat, duration: nat)

  datatype Aggregate = Aggregate(
    sent: nat,
    recv: nat,
    errors: nat,
    disconnects: nat,
    dialAvg: real,
    dialP95: real,
    joinAvg: real,
    joinP95: real,
    rtt: Option<Rtt>,
    throughput: Option<Throughput>)

  const NOTHING := Totals(0, 0, 0, 0, [], [], [])

  function Plus(t: Totals, r: PeerResult): Totals {
    Totals(t.sent + r.sent, t.recv + r.recv, t.errors + r.errors, t.disconnects + r.disconnected,
           t.dials + [r.dialMs], t.joins + [r.joinMs], t.rtts + r.rtts)
  }

  function Collect(results: seq<PeerResult>): Totals {
    if results == [] then NOTHING else Plus(Collect(results[..|results| - 1]), results[|results| - 1])
  }

  function RttOf(rtts: seq<real>): Option<Rtt> {
    if rtts == [] then None
    else
      var s := Sort(rtts);
      assert |multiset(s)| == |multiset(rtts)|;
      Some(Rtt(s[0], Percentile(s, 50), Percentile(s, 95), Percentile(s, 99), s[|s| - 1]))
  }

  function ThroughputOf(cfg: Config, sent: nat): Option<Throughput> {
    if cfg.n == 0 || cfg.duration == 0 then None
    else
      Some(Throughput(sent as real / cfg.n as real / cfg.duration as real,
                      (sent * cfg.size) as real / 1024.0 / cfg.n as real / cfg.duration as real))
  }

  function AggregateOf(cfg: Config, t: Totals): Aggregate {
    Aggregate(t.sent, t.recv, t.errors, t.disconnects,
              Average(t.dials), Percentile(Sort(t.dials), 95), Average(t.joins), Percentile(Sort(t.joins), 95),
              RttOf(t.rtts), ThroughputOf(cfg, t.sent))
  }

  /** aggregateResults. */
  method AggregateResults(cfg: Config, results: seq<PeerResult>) returns (agg: Aggregate)
    ensures agg == AggregateOf(cfg, Collect(results))
  {
    var t := NOTHING;
    for i := 0 to |results|
      invariant t == Collect(results[..i])
    {
      assert results[..i + 1][..i] == results[..i];
      t := Plus(t, results[i]);
    }
    assert results[..|results|] == results;
    var dialAvg, dialP95 := Stats(t.dials);
    var joinAvg, joinP95 := Stats(t.joins);
    agg := Aggregate(t.sent, t.recv, t.errors, t.disconnects, dialAvg, dialP95, joinAvg, joinP95, RttOf(t.rtts),
                       ThroughputOf(cfg, t.sent));
  }

  // ---------------------------------------------------------------- what is accumulated

  /** One peer's result is taken as it is. */
  lemma CollectsOne(r: PeerResult)
    ensures Collect([r]) == Totals(r.sent, r.recv, r.errors, r.disconnected, [r.dialMs], [r.joinMs], r.rtts)
  {
    assert Collect([r][..0]) == NOTHING;
    assert [] + r.rtts == r.rtts;
  }

  /** `v` is what `t` and `u` come to together, field by field. */
  predicate AddsUp(t: Totals, u: Totals, v: Totals) {
    && v.sent == t.sent + u.sent && v.recv == t.recv + u.recv
    && v.errors == t.errors + u.errors && v.disconnects == t.disconnects + u.disconnects
    && v.dials == t.dials + u.dials && v.joins == t.joins + u.joins && v.rtts == t.rtts + u.rtts
  }

  lemma PlusAddsUp(t: Totals, u: Totals, v: Totals, r: PeerResult)
    requires AddsUp(t, u, v)
    ensures AddsUp(t, Plus(u, r), Plus(v, r))
  {
    Assoc(t.dials, u.dials, [r.dialMs]);
    Assoc(t.joins, u.joins, [r.joinMs]);
    Assoc(t.rtts, u.rtts, r.rtts);
  }

  /** And the totals of two lists of peers are added up. */
  lemma {:induction false} CollectsBoth(a: seq<PeerResult>, b: seq<PeerResult>)
    ensures AddsUp(Collect(a), Collect(b), Collect(a + b))
  {
    if b == [] {
      assert a + b == a;
    } else {
      var n := |b| - 1;
      CollectsBoth(a, b[..n]);
      assert (a + b)[..|a + b| - 1] == a + b[..n];
      PlusAddsUp(Collect(a), Collect(b[..n]), Collect(a + b[..n]), b[n]);
    }
  }

  // ---------------------------------------------------------------- the reported figures

  /**
   What the figures mean, for all round-trip times measured: the least and the greatest of them, and
   the least ones with at least 50, 95 and 99 hundredths at or below; so they are in this order.
   */
  lemma FiguresAre(cfg: Config, results: seq<PeerResult>)
    ensures var rtts := Collect(results).rtts;
      match AggregateOf(cfg, Collect(results)).rtt
      case None => rtts == []
      case Some(f) =>
        && f.min in rtts && f.max in rtts && (forall w :: w in rtts ==> f.min <= w <= f.max)
        && IsPercentile(rtts, 50, f.p50) && IsPercentile(rtts, 95, f.p95) && IsPercentile(rtts, 99, f.p99)
        && f.min <= f.p50 <= f.p95 <= f.p99 <= f.max
  {
    var rtts := Collect(results).rtts;
    if rtts != [] {
      var s := Sort(rtts);
      assert |multiset(s)| == |multiset(rtts)|;
      PercentileOfUnsorted(rtts, 50);
      PercentileOfUnsorted(rtts, 95);
      PercentileOfUnsorted(rtts, 99);
      PercentileMonotone(s, 50, 95);
      PercentileMonotone(s, 95, 99);
      forall w ensures w in s <==> w in rtts { assert w in multiset(s) <==> w in multiset(rtts); }
    }
  }

  /** Dial and join times are reported by their mean and their 95th percentile, counts by their totals. */
  lemma TimesAre(cfg: Config, results: seq<PeerResult>)
    requires results != []
    ensures var t, agg := Collect(results), AggregateOf(cfg, Collect(results));
      && IsMean(t.dials, agg.dialAvg) && IsPercentile(t.dials, 95, agg.dialP95)
      && IsMean(t.joins, agg.joinAvg) && IsPercentile(t.joins, 95, agg.joinP95)
      && agg.sent == t.sent && agg.recv == t.recv && agg.errors == t.errors && agg.disconnects == t.disconnects
  {
    var t := Collect(results);
    AverageIsMean(t.dials);
    AverageIsMean(t.joins);
    PercentileOfUnsorted(t.dials, 95);
    PercentileOfUnsorted(t.joins, 95);
  }

  lemma TwoQuotients(x: real, n: real, d: real)
    requires n > 0.0 && d > 0.0
    ensures x / n / d * n * d == x
  {
    assert x / n / d * d == x / n;
  }

  /** Throughput is given whenever there are peers and seconds, and is per peer and second. */
  lemma ThroughputIs(cfg: Config, sent: nat)
    ensures match ThroughputOf(cfg, sent)
      case None => cfg.n == 0 || cfg.duration == 0
      case Some(t) =>
        && t.msgs * cfg.n as real * cfg.duration as real == sent as real
        && t.kilobytes * 1024.0 * cfg.n as real * cfg.duration as real == (sent * cfg.size) as real
  {
    if cfg.n > 0 && cfg.duration > 0 {
      TwoQuotients(sent as real, cfg.n as real, cfg.duration as real);
      TwoQuotients((sent * cfg.size) as real / 1024.0, cfg.n as real, cfg.duration as real);
    }
  }

  // ---------------------------------------------------------------- the order of the peers

  datatype Bags = Bags(
    sent: nat,
    recv: nat,
    errors: nat,
    disconnects: nat,
    dials: multiset<real>,
    joins: multiset<real>,
    rtts: multiset<real>)

  function BagsOf(t: Totals): Bags {
    Bags(t.sent, t.recv, t.errors, t.disconnects, multiset(t.dials), multiset(t.joins), multiset(t.rtts))
  }

  function Added(b: Bags, r: PeerResult): Bags {
    Bags(b.sent + r.sent, b.recv + r.recv, b.errors + r.errors, b.disconnects + r.disconnected,
         b.dials + multiset{r.dialMs}, b.joins + multiset{r.joinMs}, b.rtts + multiset(r.rtts))
  }

  function Removed<T>(s: seq<T>, k: nat): seq<T>
    requires k < |s|
  {
    s[..k] + s[k + 1..]
  }

  lemma BagsOfPlus(t: Totals, r: PeerResult)
    ensures BagsOf(Plus(t, r)) == Added(BagsOf(t), r)
  {
  }

  lemma AddedInAnyOrder(b: Bags, x: PeerResult, y: PeerResult)
    ensures Added(Added(b, x), y) == Added(Added(b, y), x)
  {
  }

  lemma AddedLater(t: Totals, u: Totals, x: PeerResult, y: PeerResult)
    requires BagsOf(t) == Added(BagsOf(u), x)
    ensures BagsOf(Plus(t, y)) == Added(BagsOf(Plus(u, y)), x)
  {
    BagsOfPlus(t, y);
    BagsOfPlus(u, y);
    AddedInAnyOrder(BagsOf(u), x, y);
  }

  /** Taking one result out of a list. */
  lemma RemovedEnds<T>(s: seq<T>, k: nat)
    requires k < |s|
    ensures k == |s| - 1 ==> Removed(s, k) == s[..|s| - 1]
    ensures k < |s| - 1 ==> Removed(s, k) == Removed(s[..|s| - 1], k) + [s[|s| - 1]]
  {
  }

  lemma CollectLast(results: seq<PeerResult>, r: PeerResult)
    ensures Collect(results + [r]) == Plus(Collect(results), r)
  {
  }

  lemma {:induction false} RemoveOne(results: seq<PeerResult>, k: nat)
    requires k < |results|
    ensures BagsOf(Collect(results)) == Added(BagsOf(Collect(Removed(results, k))), results[k])
  {
    var init, last := results[..|results| - 1], results[|results| - 1];
    RemovedEnds(results, k);
    if k == |results| - 1 {
      BagsOfPlus(Collect(init), last);
    } else {
      RemoveOne(init, k);
      CollectLast(Removed(init, k), last);
      AddedLater(Collect(init), Collect(Removed(init, k)), results[k], last);
    }
  }

  lemma RemovedBag<T>(s: seq<T>, k: nat)
    requires k < |s|
    ensures multiset(s) == multiset(Removed(s, k)) + multiset{s[k]}
  {
    assert s == s[..k] + [s[k]] + s[k + 1..];
  }

  lemma {:induction false} SameBags(a: seq<PeerResult>, b: seq<PeerResult>)
    requires multiset(a) == multiset(b)
    ensures BagsOf(Collect(a)) == BagsOf(Collect(b))
    decreases |a|
  {
    assert |multiset(a)| == |multiset(b)|;
    if a == [] {
    } else {
      assert a[0] in multiset(b);
      var k :| 0 <= k < |b| && b[k] == a[0];
      RemovedBag(a, 0);
      RemovedBag(b, k);
      assert multiset(Removed(a, 0)) == multiset(a) - multiset{a[0]} == multiset(Removed(b, k));
      SameBags(Removed(a, 0), Removed(b, k));
      RemoveOne(a, 0);
      RemoveOne(b, k);
    }
  }

  lemma SameSort(a: seq<real>, b: seq<real>)
    requires multiset(a) == multiset(b)
    ensures Sort(a) == Sort(b) && |a| == |b|
  {
    SortedUnique(Sort(a), Sort(b));
    assert |multiset(a)| == |multiset(b)|;
  }

  /** The aggregate is the same whatever order the peers' results come in. */
  lemma PeerOrderIsIrrelevant(cfg: Config, a: seq<PeerResult>, b: seq<PeerResult>)
    requires multiset(a) == multiset(b)
    ensures AggregateOf(cfg, Collect(a)) == AggregateOf(cfg, Collect(b))
  {
    SameBags(a, b);
    SameSort(Collect(a).dials, Collect(b).dials);
    SameSort(Collect(a).joins, Collect(b).joins);
    SameSort(Collect(a).rtts, Collect(b).rtts);
  }
}
