/**
 The nested-loop exchange sort that matchmaker/latency.go and matchmaker/benchmark.go both run in place, and
 what a position of the sorted sequence means in terms of the unsorted one.
 */
module ExchangeSort {

  ghost predicate SortedBy<T>(s: seq<T>, key: T -> real) {
    forall i, j | 0 <= i < j < |s| :: key(s[i]) <= key(s[j])
  }

  method Sort<T>(a: array<T>, key: T -> real)
    modifies a
    ensures SortedBy(a[..], key)
    ensures multiset(a[..]) == multiset(old(a[..]))
  {
    var i := 0;
    while i < a.Length - 1
      invariant 0 <= i <= a.Length
      invariant a.Length > 0 ==> i <= a.Length - 1
      invariant forall p, q | 0 <= p < q < a.Length && p < i :: key(a[p]) <= key(a[q])
      invariant multiset(a[..]) == multiset(old(a[..]))
    {
      var j := i + 1;
      while j < a.Length
        invariant i < j <= a.Length
        invariant forall p, q | 0 <= p < q < a.Length && p < i :: key(a[p]) <= key(a[q])
        invariant forall q | i < q < j :: key(a[i]) <= key(a[q])
        invariant multiset(a[..]) == multiset(old(a[..]))
      {
        if key(a[j]) < key(a[i]) {
          a[i], a[j] := a[j], a[i];
        }
        j := j + 1;
      }
      i := i + 1;
    }
  }

  // ----- Order statistics: the element at a sorted position, described without sorting

  /** How many elements are below x, or, with orEqual, at most x. */
  function Count(s: seq<real>, x: real, orEqual: bool): nat {
    if s == [] then 0
    else (if s[0] < x || (orEqual && s[0] == x) then 1 else 0) + Count(s[1..], x, orEqual)
  }

  /** r is the element with exactly `index` elements before it, ties being free to stand on either side. */
  ghost predicate IsOrderStatistic(s: seq<real>, index: nat, r: real) {
    Count(s, r, false) <= index < Count(s, r, true)
  }

  lemma {:induction false} CountAppends(s: seq<real>, t: seq<real>, x: real, orEqual: bool)
    ensures Count(s + t, x, orEqual) == Count(s, x, orEqual) + Count(t, x, orEqual)
  {
    if s == [] {
      assert s + t == t;
    } else {
      CountAppends(s[1..], t, x, orEqual);
      assert (s + t)[1..] == s[1..] + t;
    }
  }

  lemma RemovedAlike<T>(s: seq<T>, t: seq<T>, i: nat)
    requires s != [] && i < |t| && t[i] == s[0] && multiset(s) == multiset(t)
    ensures multiset(s[1..]) == multiset(t[..i] + t[i + 1..])
  {
    assert s == [s[0]] + s[1..];
    assert t == t[..i] + ([t[i]] + t[i + 1..]);
    assert multiset(s[1..]) == multiset(s) - multiset{s[0]};
    assert multiset(t[..i] + t[i + 1..]) == multiset(t) - multiset{t[i]};
  }

  /** Counts, and so order statistics, do not depend on the order of the elements. */
  lemma {:induction false} CountIgnoresOrder(s: seq<real>, t: seq<real>, x: real, orEqual: bool)
    requires |s| == |t| && multiset(s) == multiset(t)
    ensures Count(s, x, orEqual) == Count(t, x, orEqual)
    decreases s
  {
    if s != [] {
      assert s[0] in multiset(t);
      var i :| 0 <= i < |t| && t[i] == s[0];
      RemovedAlike(s, t, i);
      assert t == t[..i] + ([t[i]] + t[i + 1..]);
      CountIgnoresOrder(s[1..], t[..i] + t[i + 1..], x, orEqual);
      CountAppends(t[..i], [t[i]] + t[i + 1..], x, orEqual);
      CountAppends(t[..i], t[i + 1..], x, orEqual);
      assert ([t[i]] + t[i + 1..])[1..] == t[i + 1..];
    }
  }

  lemma {:induction false} CountAll(s: seq<real>, x: real, orEqual: bool)
    ensures Count(s, x, orEqual) <= |s|
    ensures (forall i | 0 <= i < |s| :: s[i] <= x) && orEqual ==> Count(s, x, orEqual) == |s|
    ensures (forall i | 0 <= i < |s| :: x <= s[i]) && !orEqual ==> Count(s, x, orEqual) == 0
  {
    if s != [] {
      CountAll(s[1..], x, orEqual);
    }
  }

  /** In a sorted sequence the element at a position is the order statistic of that position. */
  lemma SortedGivesOrderStatistic(s: seq<real>, index: nat)
    requires index < |s| && forall i, j | 0 <= i < j < |s| :: s[i] <= s[j]
    ensures IsOrderStatistic(s, index, s[index])
  {
    var r := s[index];
    assert s == s[..index] + s[index..] && s == s[..index + 1] + s[index + 1..];
    CountAppends(s[..index], s[index..], r, false);
    CountAll(s[..index], r, false);
    CountAll(s[index..], r, false);
    CountAppends(s[..index + 1], s[index + 1..], r, true);
    CountAll(s[..index + 1], r, true);
  }

  lemma {:induction false} CountGap(s: seq<real>, x: real, y: real)
    requires x < y
    ensures Count(s, x, true) <= Count(s, y, false)
  {
    if s != [] {
      CountGap(s[1..], x, y);
    }
  }

  /** A later position never holds a smaller element; in particular each position has one value. */
  lemma OrderStatisticsGrow(s: seq<real>, i: nat, j: nat, q: real, r: real)
    requires i <= j && IsOrderStatistic(s, i, q) && IsOrderStatistic(s, j, r)
    ensures q <= r
    ensures i == j ==> q == r
  {
    if r < q {
      CountGap(s, r, q);
    } else if i == j && q < r {
      CountGap(s, q, r);
    }
  }
}
