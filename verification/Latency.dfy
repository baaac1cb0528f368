/**
 The latency tracker of matchmaker/latency.go: per node a bounded window of samples with a running sum, and the
 list of the nodes with the lowest averages.
 */
module Latency {
  import opened ExchangeSort
  import opened Wrappers

  datatype NodeLatency = NodeLatency(samples: seq<int>, sum: int, avgLatency: int)

  const FRESH: NodeLatency := NodeLatency([], 0, 0)

  /** Go's integer division, which truncates toward zero. */
  function TruncDiv(a: int, b: int): int
    requires b > 0
  {
    if a >= 0 then a / b else -(-a / b)
  }

  function Sum(s: seq<int>): int {
    if s == [] then 0 else Sum(s[..|s| - 1]) + s[|s| - 1]
  }

  /** The last n samples, or all of them while there are fewer. */
  function Last(s: seq<int>, n: nat): seq<int> {
    if |s| <= n then s else s[|s| - n..]
  }

  /** The window a node's samples are meant to be, with the sum and the average they are meant to have. */
  ghost predicate Faithful(l: NodeLatency, history: seq<int>, maxSamples: nat) {
    && l.samples == Last(history, maxSamples)
    && l.sum == Sum(l.samples)
    && (l.samples != [] ==> l.avgLatency == TruncDiv(l.sum, |l.samples|))
  }

  class LatencyTracker {
    var latencies: map<string, NodeLatency>
    ghost var histories: map<string, seq<int>>
    const maxSamples: nat

    /** A window without room for one sample makes the average divide by zero. */
    constructor (maxSamples: nat)
      requires maxSamples >= 1
      ensures Valid() && this.maxSamples == maxSamples && latencies == map[] && histories == map[]
    {
      this.maxSamples := maxSamples;
      latencies, histories := map[], map[];
    }

    /** Every tracked node's entry is the window of everything recorded for it. */
    ghost predicate Valid()
      reads this
    {
      && maxSamples >= 1
      && latencies.Keys == histories.Keys
      && (forall n | n in latencies :: histories[n] != [] && Faithful(latencies[n], histories[n], maxSamples))
    }

    method RecordLatency(nodeID: string, latencyMs: int)
      requires Valid()
      modifies this
      ensures Valid()
      ensures histories == old(histories)[nodeID := (if nodeID in old(histories) then old(histories)[nodeID] else [])
                                          + [latencyMs]]
    {
      var latency := if nodeID in latencies then latencies[nodeID] else FRESH;
      ghost var before := if nodeID in histories then histories[nodeID] else [];
      latency := latency.(samples := latency.samples + [latencyMs], sum := latency.sum + latencyMs);
      WindowSlides(before, latencyMs, maxSamples);
      if |latency.samples| > maxSamples {
        var oldest := latency.samples[0];
        latency := latency.(samples := latency.samples[1..], sum := latency.sum - oldest);
      }
      latency := latency.(avgLatency := TruncDiv(latency.sum, |latency.samples|));
      latencies := latencies[nodeID := latency];
      histories := histories[nodeID := before + [latencyMs]];
    }

    method GetLatencyStats(nodeID: string) returns (avg: int, min: int, max: int)
      requires Valid()
      ensures nodeID !in latencies ==> avg == min == max == 0
      ensures nodeID in latencies ==>
                var window := Last(histories[nodeID], maxSamples);
                Extremes(window, min, max) && avg == TruncDiv(Sum(window), |window|) && min <= avg <= max
    {
      if nodeID !in latencies {
        return 0, 0, 0;
      }
      var latency := latencies[nodeID];
      assert latency.samples == Last(histories[nodeID], maxSamples) && latency.samples != [];
      avg := latency.avgLatency;
      min, max := MinMax(latency.samples);
      AverageBetween(latency.samples, min, max);
    }

    method MinMax(samples: seq<int>) returns (min: int, max: int)
      requires samples != []
      ensures Extremes(samples, min, max)
    {
      min, max := samples[0], samples[0];
      for i := 0 to |samples|
        invariant exists k | 0 <= k < |samples| :: samples[k] == min
        invariant exists k | 0 <= k < |samples| :: samples[k] == max
        invariant forall k | 0 <= k < i :: min <= samples[k] <= max
        invariant min <= max
      {
        if samples[i] < min {
          min := samples[i];
        }
        if samples[i] > max {
          max := samples[i];
        }
      }
    }

    /** The nodes with the lowest averages, lowest first: as many as asked for or as there are.  With Redis, `ranking`
        is what its ranking query gave, None without Redis or when the query fails; that is taken as it is. */
    method GetTopNodes(count: nat, ranking: Option<seq<string>>) returns (result: seq<string>)
      requires Valid()
      ensures ranking.Some? ==> result == ranking.value
      ensures ranking.None? ==> Lowest(latencies, result, count)
    {
      if ranking.Some? {
        return ranking.value;
      }
      var pairs := SortedPairs();
      result := FirstNames(pairs, count);
      FirstAreLowest(latencies, pairs, result, count);
    }

    static method FirstNames(pairs: seq<Pair>, count: nat) returns (result: seq<string>)
      ensures |result| == if count < |pairs| then count else |pairs|
      ensures forall k | 0 <= k < |result| :: result[k] == pairs[k].nodeID
    {
      result := [];
      var i := 0;
      while i < |pairs| && i < count
        invariant 0 <= i <= |pairs| && i <= count && |result| == i
        invariant forall k | 0 <= k < i :: result[k] == pairs[k].nodeID
      {
        result := result + [pairs[i].nodeID];
        i := i + 1;
      }
    }

    method SortedPairs() returns (pairs: seq<Pair>)
      ensures Complete(latencies, pairs)
      ensures forall i, j | 0 <= i < j < |pairs| :: pairs[i].latency <= pairs[j].latency
    {
      pairs := Pairs();
      var a := new Pair[|pairs|](k requires 0 <= k < |pairs| => pairs[k]);
      assert a[..] == pairs;
      var byLatency := (p: Pair) => p.latency as real;
      Sort(a, byLatency);
      StillComplete(latencies, pairs, a[..]);
      SortedByLatency(a[..], byLatency);
      pairs := a[..];
    }

    /** Reads the map in any order. */
    method Pairs() returns (pairs: seq<Pair>)
      ensures Complete(latencies, pairs)
    {
      pairs := [];
      var left := latencies.Keys;
      while left != {}
        invariant left <= latencies.Keys && |pairs| + |left| == |latencies|
        invariant forall i | 0 <= i < |pairs| ::
                    pairs[i].nodeID in latencies && pairs[i].nodeID !in left
                        && pairs[i].latency == latencies[pairs[i].nodeID].avgLatency
        invariant forall i, j | 0 <= i < j < |pairs| :: pairs[i].nodeID != pairs[j].nodeID
        invariant forall n | n in latencies && n !in left :: Pair(n, latencies[n].avgLatency) in pairs
        decreases left
      {
        var n :| n in left;
        pairs := pairs + [Pair(n, latencies[n].avgLatency)];
        left := left - {n};
      }
    }
  }

  datatype Pair = Pair(nodeID: string, latency: int)

  /** One pair for each tracked node and no other. */
  ghost predicate Complete(latencies: map<string, NodeLatency>, pairs: seq<Pair>) {
    && |pairs| == |latencies|
    && (forall i | 0 <= i < |pairs| ::
        pairs[i].nodeID in latencies && pairs[i].latency == latencies[pairs[i].nodeID].avgLatency)
    && (forall i, j | 0 <= i < j < |pairs| :: pairs[i].nodeID != pairs[j].nodeID)
    && (forall n | n in latencies :: Pair(n, latencies[n].avgLatency) in pairs)
  }

  lemma SortedByLatency(pairs: seq<Pair>, key: Pair -> real)
    requires SortedBy(pairs, key) && forall p :: key(p) == p.latency as real
    ensures forall i, j | 0 <= i < j < |pairs| :: pairs[i].latency <= pairs[j].latency
  {
    forall i, j | 0 <= i < j < |pairs| ensures pairs[i].latency <= pairs[j].latency {
      assert key(pairs[i]) <= key(pairs[j]);
    }
  }

  /** As many distinct tracked nodes as asked for or as there are, in the order of their averages, and no
      node left out has a lower average than one listed. */
  ghost predicate Lowest(latencies: map<string, NodeLatency>, result: seq<string>, count: nat) {
    && |result| == (if count < |latencies| then count else |latencies|)
    && (forall i | 0 <= i < |result| :: result[i] in latencies)
    && (forall i, j | 0 <= i < j < |result| ::
          result[i] != result[j] && latencies[result[i]].avgLatency <= latencies[result[j]].avgLatency)
    && (forall n, i | n in latencies && n !in result && 0 <= i < |result| ::
          latencies[result[i]].avgLatency <= latencies[n].avgLatency)
  }

  lemma FirstAreLowest(latencies: map<string, NodeLatency>, pairs: seq<Pair>, result: seq<string>, count: nat)
    requires Complete(latencies, pairs)
    requires |result| == if count < |pairs| then count else |pairs|
    requires forall i, j | 0 <= i < j < |pairs| :: pairs[i].latency <= pairs[j].latency
    requires forall k | 0 <= k < |result| :: result[k] == pairs[k].nodeID
    ensures Lowest(latencies, result, count)
  {
    forall n, k | n in latencies && n !in result && 0 <= k < |result|
      ensures latencies[result[k]].avgLatency <= latencies[n].avgLatency
    {
      var p := Pair(n, latencies[n].avgLatency);
      var j :| 0 <= j < |pairs| && pairs[j] == p;
      assert j >= |result|;
    }
  }

  lemma {:induction false} OnceEach(pairs: seq<Pair>, p: Pair)
    requires forall i, j | 0 <= i < j < |pairs| :: pairs[i].nodeID != pairs[j].nodeID
    ensures multiset(pairs)[p] <= 1
  {
    if pairs != [] {
      OnceEach(pairs[1..], p);
      assert pairs == [pairs[0]] + pairs[1..];
      if pairs[0] == p {
        assert p !in pairs[1..];
      }
    }
  }

  lemma TwiceThere(pairs: seq<Pair>, i: nat, j: nat)
    requires i < j < |pairs| && pairs[i] == pairs[j]
    ensures multiset(pairs)[pairs[i]] >= 2
  {
    assert pairs == pairs[..j] + pairs[j..];
    assert pairs[i] == pairs[..j][i] && pairs[j] == pairs[j..][0];
    assert pairs[i] in pairs[..j] && pairs[i] in pairs[j..];
  }

  /** Sorting keeps the list of pairs complete. */
  lemma StillComplete(latencies: map<string, NodeLatency>, pairs: seq<Pair>, sorted: seq<Pair>)
    requires Complete(latencies, pairs) && multiset(sorted) == multiset(pairs)
    ensures Complete(latencies, sorted)
  {
    assert |sorted| == |multiset(sorted)|;
    forall i | 0 <= i < |sorted| ensures sorted[i] in pairs {
      assert sorted[i] in multiset(pairs);
    }
    forall n | n in latencies ensures Pair(n, latencies[n].avgLatency) in sorted {
      assert Pair(n, latencies[n].avgLatency) in multiset(sorted);
    }
    forall i, j | 0 <= i < j < |sorted| ensures sorted[i].nodeID != sorted[j].nodeID {
      if sorted[i].nodeID == sorted[j].nodeID {
        assert sorted[i] in pairs && sorted[j] in pairs;
        TwiceThere(sorted, i, j);
        OnceEach(pairs, sorted[i]);
      }
    }
  }

  lemma {:induction false} SumCons(s: seq<int>)
    requires s != []
    ensures Sum(s) == s[0] + Sum(s[1..])
  {
    if |s| > 1 {
      SumCons(s[..|s| - 1]);
      assert s[..|s| - 1][1..] == s[1..][..|s| - 2];
    }
  }

  /** Appending a sample and dropping the oldest one when over the limit is the next window, sum included. */
  lemma WindowSlides(history: seq<int>, x: int, maxSamples: nat)
    requires maxSamples >= 1
    ensures
      var longer := Last(history, maxSamples) + [x];
      && Sum(longer) == Sum(Last(history, maxSamples)) + x
      && (if |longer| > maxSamples then
            Last(history + [x], maxSamples) == longer[1..] && Sum(longer[1..]) == Sum(longer) - longer[0]
          else Last(history + [x], maxSamples) == longer)
  {
    var longer := Last(history, maxSamples) + [x];
    assert longer[..|longer| - 1] == Last(history, maxSamples);
    SumCons(longer);
  }

  /** The smallest and the largest of a window. */
  ghost predicate Extremes(s: seq<int>, min: int, max: int) {
    && (exists k | 0 <= k < |s| :: s[k] == min)
    && (exists k | 0 <= k < |s| :: s[k] == max)
    && (forall k | 0 <= k < |s| :: min <= s[k] <= max)
  }

  lemma {:induction false} SumBetween(s: seq<int>, min: int, max: int)
    requires forall k | 0 <= k < |s| :: min <= s[k] <= max
    ensures |s| * min <= Sum(s) <= |s| * max
  {
    if s != [] {
      var k := |s| - 1;
      SumBetween(s[..k], min, max);
      assert (k + 1) * min == k * min + min && (k + 1) * max == k * max + max;
    }
  }

  lemma Scale(b: nat, x: int, y: int)
    ensures x <= y ==> b * x <= b * y
  {
  }

  lemma DivBetween(a: int, b: int, min: int, max: int)
    requires b > 0 && b * min <= a <= b * max
    ensures min <= a / b <= max
  {
    var q := a / b;
    assert a == b * q + a % b;
    Scale(b, q, min - 1);
    Scale(b, max + 1, q);
    assert b * (min - 1) == b * min - b && b * (max + 1) == b * max + b;
  }

  /** The truncated average of a window lies between its extremes, for samples of either sign. */
  lemma AverageBetween(s: seq<int>, min: int, max: int)
    requires s != [] && Extremes(s, min, max)
    ensures min <= TruncDiv(Sum(s), |s|) <= max
  {
    SumBetween(s, min, max);
    if Sum(s) >= 0 {
      DivBetween(Sum(s), |s|, min, max);
    } else {
      assert |s| * (-max) == -(|s| * max) && |s| * (-min) == -(|s| * min);
      DivBetween(-Sum(s), |s|, -max, -min);
    }
  }

  /** The average times the number of samples is the sum up to less than one per sample, and never beyond it. */
  lemma AverageIsTruncated(s: seq<int>)
    requires s != []
    ensures
      var product := |s| * TruncDiv(Sum(s), |s|);
      && (Sum(s) >= 0 ==> product <= Sum(s) < product + |s|)
      && (Sum(s) <= 0 ==> product - |s| < Sum(s) <= product)
  {
    hide Sum;
    if Sum(s) >= 0 {
      Quotient(Sum(s), |s|);
    } else {
      Quotient(-Sum(s), |s|);
      Negated(|s|, -Sum(s) / |s|);
    }
  }

  lemma Quotient(a: nat, b: nat)
    requires b > 0
    ensures b * (a / b) <= a < b * (a / b) + b
  {
    assert a == b * (a / b) + a % b;
  }

  lemma Negated(b: int, q: int)
    ensures b * -q == -(b * q)
  {
  }
}
