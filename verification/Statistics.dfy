/**
 The load test's statistics: nearest-rank percentiles of a sorted list, and the aggregate over all
 peers. Measurements are real numbers, so that no rounding happens.
 */
module Statistics {
  predicate Sorted(s: seq<real>) {
    forall i, j :: 0 <= i <= j < |s| ==> s[i] <= s[j]
  }

  /** math.Ceil(n*p/100) in exact arithmetic. */
  function Rank(n: nat, p: int): int {
    (n * p + 99) / 100
  }

  function Percentile(sorted: seq<real>, p: int): real {
    if sorted == [] then 0.0
    else
      var idx := Rank(|sorted|, p) - 1;
      if idx < 0 then sorted[0]
      else if idx >= |sorted| then sorted[|sorted| - 1]
      else sorted[idx]
  }

  function CountAtMost(s: seq<real>, v: real): nat {
    if s == [] then 0 else (if s[0] <= v then 1 else 0) + CountAtMost(s[1..], v)
  }

  // ---------------------------------------------------------------- nearest rank

  lemma {:induction false} CountSplit(a: seq<real>, b: seq<real>, v: real)
    ensures CountAtMost(a + b, v) == CountAtMost(a, v) + CountAtMost(b, v)
  {
    if a == [] {
      assert a + b == b;
    } else {
      CountSplit(a[1..], b, v);
      assert (a + b)[1..] == a[1..] + b;
    }
  }

  lemma {:induction false} CountAll(s: seq<real>, v: real)
    ensures CountAtMost(s, v) <= |s|
    ensures (forall i :: 0 <= i < |s| ==> s[i] <= v) ==> CountAtMost(s, v) == |s|
    ensures (forall i :: 0 <= i < |s| ==> s[i] > v) ==> CountAtMost(s, v) == 0
  {
    if s == [] {
    } else {
      CountAll(s[1..], v);
    }
  }

  lemma CountSuffix(s: seq<real>, k: nat, v: real)
    requires k <= |s| && forall i :: k <= i < |s| ==> s[i] > v
    ensures CountAtMost(s, v) <= k
  {
    assert s == s[..k] + s[k..];
    CountSplit(s[..k], s[k..], v);
    CountAll(s[..k], v);
    CountAll(s[k..], v);
  }

  lemma CountPrefix(s: seq<real>, k: nat, v: real)
    requires k <= |s| && forall i :: 0 <= i < k ==> s[i] <= v
    ensures CountAtMost(s, v) >= k
  {
    assert s == s[..k] + s[k..];
    CountSplit(s[..k], s[k..], v);
    CountAll(s[..k], v);
  }

  lemma RankBounds(n: nat, p: int)
    requires n > 0
    ensures 1 <= p <= 100 ==> 1 <= Rank(n, p) <= n
    ensures p <= 0 ==> Rank(n, p) <= 0
    ensures p > 100 ==> Rank(n, p) > n
  {
  }

  /** A count reaches the rank exactly when it is at least p hundredths of all. */
  lemma RankIsCeiling(n: nat, p: int, count: int)
    ensures count >= Rank(n, p) <==> 100 * count >= n * p
  {
  }

  /** The least element with at least p hundredths of all elements at or below it. */
  ghost predicate IsPercentile(s: seq<real>, p: int, v: real) {
    && v in s && 100 * CountAtMost(s, v) >= |s| * p
    && forall w :: w in s && 100 * CountAtMost(s, w) >= |s| * p ==> v <= w
  }

  /**
   For every list and every p from 1 to 100 the result is the least element that has at least p
   hundredths of all elements at or below it; outside that range it is the least or the greatest.
   */
  lemma NearestRank(s: seq<real>, p: int)
    requires Sorted(s) && s != []
    ensures 1 <= p <= 100 ==> IsPercentile(s, p, Percentile(s, p))
    ensures p <= 0 ==> Percentile(s, p) == s[0]
    ensures p > 100 ==> Percentile(s, p) == s[|s| - 1]
  {
    RankBounds(|s|, p);
    if 1 <= p <= 100 {
      var k := Rank(|s|, p) - 1;
      CountPrefix(s, k + 1, s[k]);
      RankIsCeiling(|s|, p, CountAtMost(s, s[k]));
      forall w | w in s && 100 * CountAtMost(s, w) >= |s| * p ensures s[k] <= w {
        RankIsCeiling(|s|, p, CountAtMost(s, w));
        if w < s[k] { CountSuffix(s, k, w); }
      }
    }
  }

  lemma RankMonotone(n: nat, p: int, q: int)
    requires p <= q
    ensures Rank(n, p) <= Rank(n, q)
  {
  }

  lemma PercentileMonotone(s: seq<real>, p: int, q: int)
    requires Sorted(s) && p <= q
    ensures Percentile(s, p) <= Percentile(s, q)
    ensures s != [] ==> s[0] <= Percentile(s, p) && Percentile(s, q) <= s[|s| - 1]
  {
    RankMonotone(|s|, p, q);
  }

  // ---------------------------------------------------------------- sorting

  lemma LeastFirst(a: seq<real>, b: seq<real>)
    requires Sorted(a) && Sorted(b) && multiset(a) == multiset(b) && a != [] && b != []
    ensures a[0] == b[0]
  {
    assert a[0] in multiset(b) && b[0] in multiset(a);
  }

  lemma TailBag(a: seq<real>)
    requires a != []
    ensures multiset(a) == multiset{a[0]} + multiset(a[1..])
  {
    assert a == [a[0]] + a[1..];
  }

  lemma TailsAgree(a: seq<real>, b: seq<real>)
    requires Sorted(a) && Sorted(b) && multiset(a) == multiset(b) && a != []
    ensures b != [] && a[0] == b[0] && multiset(a[1..]) == multiset(b[1..])
  {
    assert a[0] in multiset(b);
    LeastFirst(a, b);
    TailBag(a);
    TailBag(b);
    assert multiset(a[1..]) == multiset(a) - multiset{a[0]} == multiset(b[1..]);
  }

  /** Two sorted arrangements of the same values are the same list, so any sort will do. */
  lemma {:induction false} SortedUnique(a: seq<real>, b: seq<real>)
    requires Sorted(a) && Sorted(b) && multiset(a) == multiset(b)
    ensures a == b
  {
    if a == [] {
      assert |multiset(b)| == 0;
    } else {
      TailsAgree(a, b);
      SortedUnique(a[1..], b[1..]);
      assert a == [a[0]] + a[1..] && b == [b[0]] + b[1..];
    }
  }

  function Insert(x: real, s: seq<real>): seq<real> {
    if s == [] then [x] else if x <= s[0] then [x] + s else [s[0]] + Insert(x, s[1..])
  }

  lemma {:induction false} InsertSorts(x: real, s: seq<real>)
    requires Sorted(s)
    ensures Sorted(Insert(x, s)) && (forall y :: y in Insert(x, s) ==> y == x || y in s)
  {
    if s == [] {
    } else if x > s[0] {
      InsertSorts(x, s[1..]);
      var rest := Insert(x, s[1..]);
      forall i | 0 <= i < |rest| ensures s[0] <= rest[i] {
        assert rest[i] in rest;
      }
    }
  }

  lemma {:induction false} InsertBag(x: real, s: seq<real>)
    ensures multiset(Insert(x, s)) == multiset{x} + multiset(s)
  {
    if s == [] {
    } else if x > s[0] {
      InsertBag(x, s[1..]);
      TailBag(s);
    }
  }

  /** sort.Float64s. */
  function Sort(values: seq<real>): (r: seq<real>)
    ensures Sorted(r) && multiset(r) == multiset(values)
  {
    if values == [] then []
    else
      InsertSorts(values[0], Sort(values[1..]));
      InsertBag(values[0], Sort(values[1..]));
      TailBag(values);
      Insert(values[0], Sort(values[1..]))
  }

  lemma {:induction false} CountInserted(x: real, s: seq<real>, v: real)
    ensures CountAtMost(Insert(x, s), v) == CountAtMost(s, v) + if x <= v then 1 else 0
  {
    if s == [] {
    } else if x > s[0] {
      CountInserted(x, s[1..], v);
    }
  }

  /** Counting does not depend on the arrangement. */
  lemma {:induction false} CountSorted(values: seq<real>, v: real)
    ensures CountAtMost(Sort(values), v) == CountAtMost(values, v)
  {
    if values == [] {
    } else {
      CountSorted(values[1..], v);
      CountInserted(values[0], Sort(values[1..]), v);
    }
  }

  /** What the percentile of the sorted list says of the list that was given. */
  lemma PercentileOfUnsorted(values: seq<real>, p: int)
    requires values != [] && 1 <= p <= 100
    ensures IsPercentile(values, p, Percentile(Sort(values), p))
  {
    var s := Sort(values);
    assert |multiset(s)| == |multiset(values)|;
    NearestRank(s, p);
    forall w ensures CountAtMost(s, w) == CountAtMost(values, w) && (w in s <==> w in values) {
      CountSorted(values, w);
      assert w in multiset(s) <==> w in multiset(values);
    }
  }

  function Sum(s: seq<real>): real {
    if s == [] then 0.0 else Sum(s[..|s| - 1]) + s[|s| - 1]
  }

  /** Adding up a list from left to right. */
  method AddUp(s: seq<real>) returns (sum: real)
    ensures sum == Sum(s)
  {
    sum := 0.0;
    for i := 0 to |s|
      invariant sum == Sum(s[..i])
    {
      assert s[..i + 1][..i] == s[..i];
      sum := sum + s[i];
    }
    assert s[..|s|] == s;
  }

  lemma {:induction false} SumFirst(x: real, s: seq<real>)
    ensures Sum([x] + s) == x + Sum(s)
  {
    if s == [] {
      assert [x] + s == [x];
    } else {
      SumFirst(x, s[..|s| - 1]);
      assert ([x] + s)[..|s|] == [x] + s[..|s| - 1];
    }
  }

  lemma {:induction false} SumInserted(x: real, s: seq<real>)
    ensures Sum(Insert(x, s)) == x + Sum(s)
  {
    if s == [] {
    } else if x <= s[0] {
      SumFirst(x, s);
    } else {
      SumInserted(x, s[1..]);
      SumFirst(s[0], Insert(x, s[1..]));
      SumFirst(s[0], s[1..]);
      assert s == [s[0]] + s[1..];
    }
  }

  /** Sorting does not change the sum. */
  lemma {:induction false} SumSorted(values: seq<real>)
    ensures Sum(Sort(values)) == Sum(values)
  {
    if values == [] {
    } else {
      SumSorted(values[1..]);
      SumInserted(values[0], Sort(values[1..]));
      SumFirst(values[0], values[1..]);
      assert values == [values[0]] + values[1..];
    }
  }

  function Average(values: seq<real>): real {
    if values == [] then 0.0 else Sum(Sort(values)) / |values| as real
  }

  /** The sum of the values as they were given, divided by their number; zero if there are none. */
  ghost predicate IsMean(values: seq<real>, avg: real) {
    avg == if values == [] then 0.0 else Sum(values) / |values| as real
  }

  lemma AverageIsMean(values: seq<real>)
    ensures IsMean(values, Average(values))
  {
    SumSorted(values);
  }

  /** stats: the values are sorted first and summed in that order. */
  method Stats(values: seq<real>) returns (avg: real, p95: real)
    ensures avg == Average(values) && p95 == Percentile(Sort(values), 95)
    ensures IsMean(values, avg) && (values != [] ==> IsPercentile(values, 95, p95)) && (values == [] ==> p95 == 0.0)
  {
    AverageIsMean(values);
    if values == [] { return 0.0, 0.0; }
    PercentileOfUnsorted(values, 95);
    var sorted := Sort(values);
    var sum := AddUp(sorted);
    avg := sum / |values| as real;
    p95 := Percentile(sorted, 95);
  }
}
