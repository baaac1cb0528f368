/**
 The latency summary of matchmaker/benchmark.go: percentiles that each sort the caller's slice again.
 */
module Benchmark {
  import opened ExchangeSort

  /** int(float64(n) * float64(p) / 100), truncated toward zero, and kept below n. */
  function PercentileIndex(n: nat, p: int): int {
    var index := if n * p >= 0 then n * p / 100 else -(-(n * p) / 100);
    if index >= n then n - 1 else index
  }

  /** A percentile so negative that its index falls below zero is out of range in the source. */
  method CalculatePercentile(values: array<real>, p: int) returns (r: real)
    requires values.Length > 0 ==> PercentileIndex(values.Length, p) >= 0
    modifies values
    ensures multiset(values[..]) == multiset(old(values[..]))
    ensures values.Length == 0 ==> r == 0.0
    ensures values.Length > 0 ==> IsOrderStatistic(old(values[..]), PercentileIndex(values.Length, p), r)
  {
    if values.Length == 0 {
      return 0.0;
    }
    var index := PercentileIndex(values.Length, p);
    Sort(values, (x: real) => x);
    r := values[index];
    SortedGivesOrderStatistic(values[..], index);
    CountIgnoresOrder(values[..], old(values[..]), r, false);
    CountIgnoresOrder(values[..], old(values[..]), r, true);
  }

  function Sum(s: seq<real>): real {
    if s == [] then 0.0 else Sum(s[..|s| - 1]) + s[|s| - 1]
  }

  method CalculateAvg(values: array<real>) returns (avg: real)
    ensures values.Length == 0 ==> avg == 0.0
    ensures values.Length > 0 ==> avg == Sum(values[..]) / (values.Length as real)
  {
    if values.Length == 0 {
      return 0.0;
    }
    var sum := 0.0;
    for i := 0 to values.Length
      invariant sum == Sum(values[..i])
    {
      assert values[..i + 1][..i] == values[..i];
      sum := sum + values[i];
    }
    assert values[..values.Length] == values[..];
    avg := sum / (values.Length as real);
  }

  /** The percentiles RunBenchmark reports, in its order: each re-sorts the same slice, yet each is the order
      statistic of the measurements as first given, and they do not decrease. */
  method Percentiles(latencies: array<real>) returns (p50: real, p95: real, p99: real)
    modifies latencies
    ensures latencies.Length > 0 ==>
              var before := old(latencies[..]);
              && IsOrderStatistic(before, PercentileIndex(|before|, 50), p50)
              && IsOrderStatistic(before, PercentileIndex(|before|, 95), p95)
              && IsOrderStatistic(before, PercentileIndex(|before|, 99), p99)
    ensures p50 <= p95 <= p99
    ensures multiset(latencies[..]) == multiset(old(latencies[..]))
  {
    ghost var before := latencies[..];
    PercentileIndexGrows(latencies.Length, 50, 95);
    PercentileIndexGrows(latencies.Length, 95, 99);
    p50 := CalculatePercentile(latencies, 50);
    ghost var once := latencies[..];
    p95 := CalculatePercentile(latencies, 95);
    ghost var twice := latencies[..];
    p99 := CalculatePercentile(latencies, 99);
    if latencies.Length > 0 {
      SameStatistic(once, before, PercentileIndex(|before|, 95), p95);
      SameStatistic(twice, before, PercentileIndex(|before|, 99), p99);
      PercentilesGrow(before, 50, 95, p50, p95);
      PercentilesGrow(before, 95, 99, p95, p99);
    }
  }

  lemma SameStatistic(s: seq<real>, t: seq<real>, index: nat, r: real)
    requires |s| == |t| && multiset(s) == multiset(t) && IsOrderStatistic(s, index, r)
    ensures IsOrderStatistic(t, index, r)
  {
    CountIgnoresOrder(s, t, r, false);
    CountIgnoresOrder(s, t, r, true);
  }

  lemma PercentileIndexGrows(n: nat, p: int, q: int)
    requires 0 <= p <= q
    ensures n > 0 ==> 0 <= PercentileIndex(n, p) <= PercentileIndex(n, q) < n
  {
    assert n * p <= n * q;
    assert 0 <= n * p;
  }

  /** Percentiles do not decrease in p, whatever the measurements. */
  lemma PercentilesGrow(s: seq<real>, p: int, q: int, x: real, y: real)
    requires 0 <= p <= q && s != []
    requires PercentileIndex(|s|, p) >= 0 && IsOrderStatistic(s, PercentileIndex(|s|, p), x)
    requires PercentileIndex(|s|, q) >= 0 && IsOrderStatistic(s, PercentileIndex(|s|, q), y)
    ensures x <= y
  {
    PercentileIndexGrows(|s|, p, q);
    OrderStatisticsGrow(s, PercentileIndex(|s|, p), PercentileIndex(|s|, q), x, y);
  }

  /** Which index it is: the one whose share of the positions spans p percent, or the last.  The source reads out of
      range exactly when n * p is at most -100. */
  lemma PercentileIndexExactly(n: nat, p: int)
    requires n > 0
    ensures PercentileIndex(n, p) < 0 <==> n * p <= -100
    ensures 0 <= p < 100 ==>
              100 * PercentileIndex(n, p) <= n * p < 100 * PercentileIndex(n, p) + 100 && PercentileIndex(n, p) < n
    ensures p >= 100 ==> PercentileIndex(n, p) == n - 1
  {
    if p >= 100 {
      assert n * p >= n * 100;
    } else if p >= 0 {
      assert n * p < n * 100;
    }
  }

  /** What a percentile means: at most p percent of the measurements are smaller, and more than p percent are no
      greater.  From 100 on it is the greatest measurement. */
  lemma PercentileExactlyWhen(s: seq<real>, p: int, r: real)
    requires s != [] && p >= 0
    ensures PercentileIndex(|s|, p) >= 0
    ensures p < 100 ==>
              (IsOrderStatistic(s, PercentileIndex(|s|, p), r)
               <==> 100 * Count(s, r, false) <= |s| * p < 100 * Count(s, r, true))
    ensures p >= 100 ==>
              (IsOrderStatistic(s, PercentileIndex(|s|, p), r) <==> r in s && forall x | x in s :: x <= r)
  {
    PercentileIndexExactly(|s|, p);
    PercentileIndexGrows(|s|, 0, p);
    if p >= 100 {
      LastIsGreatest(s, r);
    }
  }

  lemma LastIsGreatest(s: seq<real>, r: real)
    requires s != []
    ensures IsOrderStatistic(s, |s| - 1, r) <==> r in s && forall x | x in s :: x <= r
  {
    CountsAll(s, r);
  }

  lemma {:induction false} CountsAll(s: seq<real>, r: real)
    ensures Count(s, r, false) <= Count(s, r, true) <= |s|
    ensures Count(s, r, true) == |s| <==> forall x | x in s :: x <= r
    ensures Count(s, r, false) < Count(s, r, true) <==> r in s
  {
    if s != [] {
      CountsAll(s[1..], r);
      assert s[0] in s && forall x | x in s[1..] :: x in s;
      assert forall x | x in s :: x == s[0] || x in s[1..];
    }
  }
}
