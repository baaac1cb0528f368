/**
 The in-memory limiter of gateway/ratelimit.go: per client, a count and the end of the current
 window.  A call carries the limit in force when it is decided, because other components change
 the limit between calls.
 */
module FixedWindow {

  const SECOND: int := 1_000_000_000

  datatype Entry = Entry(count: int, resetTime: int)

  type Requests = map<string, Entry>

  datatype Call = Call(client: string, now: int, limit: int)

  function Step(requests: Requests, call: Call, window: int): (Requests, bool) {
    if call.client !in requests || call.now > requests[call.client].resetTime then
      (requests[call.client := Entry(1, call.now + window)], true)
    else
      var entry := requests[call.client];
      if entry.count >= call.limit then (requests, false)
      else (requests[call.client := entry.(count := entry.count + 1)], true)
  }

  /** What one pass of the cleanup loop leaves. */
  function Swept(requests: Requests, now: int): Requests {
    map c | c in requests && !(now > requests[c].resetTime) :: requests[c]
  }

  class LocalRateLimiter {
    var requests: Requests
    var limit: int
    var window: int

    constructor (requestsPerWindow: int, windowSeconds: int)
      ensures requests == map[] && limit == requestsPerWindow && window == windowSeconds * SECOND
    {
      requests := map[];
      limit := requestsPerWindow;
      window := windowSeconds * SECOND;
    }

    method SetLimit(newLimit: int)
      modifies `limit
      ensures limit == newLimit
    {
      limit := newLimit;
    }

    method GetLimit() returns (current: int)
      ensures current == limit
    {
      current := limit;
    }

    method SetWindow(newWindow: int)
      modifies `window
      ensures window == newWindow
    {
      window := newWindow;
    }

    method Allow(clientID: string, now: int) returns (allowed: bool)
      modifies `requests
      ensures (requests, allowed) == Step(old(requests), Call(clientID, now, limit), window)
    {
      if clientID !in requests || now > requests[clientID].resetTime {
        requests := requests[clientID := Entry(1, now + window)];
        return true;
      }
      var client := requests[clientID];
      if client.count >= limit {
        return false;
      }
      requests := requests[clientID := Entry(client.count + 1, client.resetTime)];
      return true;
    }

    /** One tick of the cleanup loop: visits the keys in any order and deletes the expired ones. */
    method Cleanup(now: int)
      modifies `requests
      ensures requests == Swept(old(requests), now)
    {
      var left := requests.Keys;
      while left != {}
        invariant left <= requests.Keys <= old(requests).Keys
        invariant forall c | c in requests :: requests[c] == old(requests)[c]
        invariant forall c | c in old(requests) && c !in left :: c in requests <==> !(now > old(requests)[c].resetTime)
        decreases left
      {
        var key :| key in left;
        if now > requests[key].resetTime {
          requests := requests - {key};
        }
        left := left - {key};
      }
    }
  }

  // ----- Runs: calls interleaved with cleanup ticks, on a clock that never goes back

  datatype Item = Decide(call: Call) | Tick(now: int)

  function Time(item: Item): int {
    match item case Decide(call) => call.now case Tick(now) => now
  }

  ghost predicate Ordered(items: seq<Item>, from: int)
    decreases items
  {
    items == [] || (from <= Time(items[0]) && Ordered(items[1..], Time(items[0])))
  }

  /** The decisions of a run, in order; ticks decide nothing. */
  function Decisions(requests: Requests, items: seq<Item>, window: int): seq<bool>
    decreases items
  {
    if items == [] then [] else
      match items[0]
      case Decide(call) =>
        var (next, ok) := Step(requests, call, window);
        [ok] + Decisions(next, items[1..], window)
      case Tick(now) => Decisions(Swept(requests, now), items[1..], window)
  }

  function WithoutTicks(items: seq<Item>): seq<Item> {
    if items == [] then []
    else (if items[0].Tick? then [] else [items[0]]) + WithoutTicks(items[1..])
  }

  /** All that a call at or after t can see of a client: an entry whose window is over counts as none. */
  ghost predicate SameFrom(a: Requests, b: Requests, t: int) {
    forall c: string :: (c in a && t <= a[c].resetTime) || (c in b && t <= b[c].resetTime) ==>
      c in a && c in b && a[c] == b[c]
  }

  /** Inserting cleanup ticks anywhere in a run changes no decision, even from stores that differ only in
      entries that are already over. */
  lemma {:induction false} CleanupIsInvisible(a: Requests, b: Requests, items: seq<Item>, from: int, window: int)
    requires SameFrom(a, b, from) && Ordered(items, from)
    ensures Decisions(a, items, window) == Decisions(b, WithoutTicks(items), window)
    decreases items
  {
    if items != [] {
      var rest := WithoutTicks(items[1..]);
      match items[0]
      case Decide(call) =>
        CleanupIsInvisible(Step(a, call, window).0, Step(b, call, window).0, items[1..], call.now, window);
        assert WithoutTicks(items) == [items[0]] + rest;
        assert ([items[0]] + rest)[1..] == rest;
      case Tick(now) =>
        CleanupIsInvisible(Swept(a, now), b, items[1..], now, window);
        assert WithoutTicks(items) == rest;
    }
  }

  // ----- Bounds

  ghost predicate Clocked(calls: seq<Call>, from: int)
    decreases calls
  {
    calls == [] || (from <= calls[0].now && Clocked(calls[1..], calls[0].now))
  }

  ghost predicate Capped(calls: seq<Call>, cap: int) {
    forall i | 0 <= i < |calls| :: calls[i].limit <= cap
  }

  /** How many of a client's calls pass in the closed interval [lo, hi]. */
  function Admissions(requests: Requests, calls: seq<Call>, client: string, lo: int, hi: int, window: int): nat
    decreases calls
  {
    if calls == [] then 0 else
      var (next, ok) := Step(requests, calls[0], window);
      (if ok && calls[0].client == client && lo <= calls[0].now <= hi then 1 else 0)
      + Admissions(next, calls[1..], client, lo, hi, window)
  }

  /** The first request of a window passes whatever the limit, so a limit below one still lets one through. */
  function PerWindow(cap: int): int {
    if cap < 1 then 1 else cap
  }

  /** Passes that windows started at or after f can add inside [lo, hi]. */
  function FromNewWindows(f: int, lo: int, hi: int, cap: int): int {
    if f > hi then 0 else if f >= lo then PerWindow(cap) else 2 * PerWindow(cap) - 1
  }

  /** The passes a client can still collect inside [lo, hi] from time t on. */
  function Budget(requests: Requests, client: string, t: int, lo: int, hi: int, cap: int): int {
    if client !in requests || t > requests[client].resetTime then
      FromNewWindows(t, lo, hi, cap)
    else
      var entry := requests[client];
      (if t <= hi && lo <= entry.resetTime && entry.count < cap then cap - entry.count else 0)
      + FromNewWindows(entry.resetTime + 1, lo, hi, cap)
  }

  /** A call spends its own pass out of the client's budget. */
  lemma StepSpends(requests: Requests, call: Call, client: string, t: int, lo: int, hi: int, cap: int, window: int)
    requires t <= call.now && call.limit <= cap && 0 <= hi - lo <= window
    ensures (if Step(requests, call, window).1 && call.client == client && lo <= call.now <= hi then 1 else 0)
            + Budget(Step(requests, call, window).0, client, call.now, lo, hi, cap)
            <= Budget(requests, client, t, lo, hi, cap)
  {
  }

  lemma {:induction false} WithinBudget(requests: Requests, calls: seq<Call>, client: string, t: int, lo: int, hi: int,
                                        cap: int, window: int)
    requires Clocked(calls, t) && Capped(calls, cap) && 0 <= hi - lo <= window
    ensures Admissions(requests, calls, client, lo, hi, window) <= Budget(requests, client, t, lo, hi, cap)
    decreases calls
  {
    if calls != [] {
      StepSpends(requests, calls[0], client, t, lo, hi, cap, window);
      WithinBudget(Step(requests, calls[0], window).0, calls[1..], client, calls[0].now, lo, hi, cap, window);
    }
  }

  /** From an empty table, a client passes fewer than twice its limit times in any closed interval of the window's
      length. */
  lemma AtMostTwicePerInterval(calls: seq<Call>, client: string, lo: int, cap: int, window: int)
    requires window >= 0 && Capped(calls, cap) && (calls != [] ==> Clocked(calls, calls[0].now))
    ensures Admissions(map[], calls, client, lo, lo + window, window) < 2 * PerWindow(cap)
  {
    if calls != [] {
      WithinBudget(map[], calls, client, calls[0].now, lo, lo + window, cap, window);
    }
  }

  /** In whatever state a call opens a window for its client, that window lets at most the limit through. */
  lemma AtMostLimitPerWindow(requests: Requests, calls: seq<Call>, cap: int, window: int)
    requires window >= 0 && Capped(calls, cap) && calls != [] && Clocked(calls, calls[0].now)
    requires calls[0].client in requests ==> calls[0].now > requests[calls[0].client].resetTime
    ensures Admissions(requests, calls, calls[0].client, calls[0].now, calls[0].now + window, window) <= PerWindow(cap)
  {
    var now := calls[0].now;
    WithinBudget(requests, calls, calls[0].client, now, now, now + window, cap, window);
  }

  /** n simultaneous calls with the same limit. */
  function Volley(client: string, now: int, limit: int, n: nat): seq<Call> {
    if n == 0 then [] else [Call(client, now, limit)] + Volley(client, now, limit, n - 1)
  }

  /** The bound is met: with a window opened just before the interval, a volley at its end and one just
      after it all pass. */
  lemma TwiceIsReached(client: string, limit: int, window: int)
    requires limit >= 2 && window >= 1
    ensures
      var calls := [Call(client, 0, limit)] + Volley(client, window, limit, limit - 1)
          + Volley(client, window + 1, limit, limit);
      Admissions(map[], calls, client, window, 2 * window, window) == 2 * limit - 1
  {
    var first := Call(client, 0, limit);
    var ending := Volley(client, window, limit, limit - 1);
    var next := Volley(client, window + 1, limit, limit);
    var started: Requests := map[client := Entry(1, window)];
    assert map[][client := Entry(1, window)] == started;
    assert ([first] + ending + next)[1..] == ending + next;
    VolleyPasses(started, client, window, limit, limit - 1, next, window, 2 * window, window);
    assert next[0] == Call(client, window + 1, limit) && next[1..] == Volley(client, window + 1, limit, limit - 1);
    var full := started[client := Entry(limit, window)];
    var reopened := full[client := Entry(1, 2 * window + 1)];
    assert Step(full, next[0], window) == (reopened, true);
    VolleyPasses(reopened, client, window + 1, limit, limit - 1, [], window, 2 * window, window);
    assert next[1..] + [] == next[1..];
  }

  lemma {:induction false} VolleyPasses(requests: Requests, client: string, now: int,
                                        limit: int, n: nat, rest: seq<Call>,
                                        lo: int, hi: int, window: int)
    requires client in requests && now <= requests[client].resetTime && requests[client].count + n <= limit
    requires lo <= now <= hi
    ensures Admissions(requests, Volley(client, now, limit, n) + rest, client, lo, hi, window)
            == n + Admissions(requests[client := Entry(requests[client].count + n, requests[client].resetTime)], rest,
                              client, lo, hi, window)
    decreases n
  {
    if n == 0 {
      assert requests[client := Entry(requests[client].count, requests[client].resetTime)] == requests;
      assert Volley(client, now, limit, 0) + rest == rest;
    } else {
      var calls := Volley(client, now, limit, n) + rest;
      assert calls[0] == Call(client, now, limit);
      assert calls[1..] == Volley(client, now, limit, n - 1) + rest;
      hide Volley;
      var next := Step(requests, calls[0], window).0;
      assert Admissions(requests, calls, client, lo, hi, window)
             == 1 + Admissions(next, calls[1..], client, lo, hi, window);
      hide Admissions;
      VolleyPasses(next, client, now, limit, n - 1, rest, lo, hi, window);
      var total := Entry(requests[client].count + n, requests[client].resetTime);
      assert next[client := total] == requests[client := total];
    }
  }

  /** Every call carries this limit. */
  ghost predicate Fixed(calls: seq<Call>, limit: int) {
    forall i | 0 <= i < |calls| :: calls[i].limit == limit
  }

  ghost predicate WithinLimit(calls: seq<Call>, client: string, lo: int, limit: int, window: int) {
    Admissions(map[], calls, client, lo, lo + window, window) <= limit
  }

  /** In no run from an empty table does a client pass more often than its limit in a closed interval of the window's
      length. */
  ghost predicate AlwaysWithinLimit(limit: int, window: int) {
    forall calls: seq<Call>, client: string, lo: int
      | Fixed(calls, limit) && (calls != [] ==> Clocked(calls, calls[0].now)) ::
      WithinLimit(calls, client, lo, limit, window)
  }

  lemma {:induction false} VolleyClocked(client: string, now: int, limit: int, n: nat, rest: seq<Call>, t: int)
    requires t <= now && Clocked(rest, now) && Fixed(rest, limit)
    ensures Clocked(Volley(client, now, limit, n) + rest, t) && Fixed(Volley(client, now, limit, n) + rest, limit)
    decreases n
  {
    if n == 0 {
      assert Volley(client, now, limit, 0) + rest == rest;
    } else {
      var calls, after := Volley(client, now, limit, n) + rest, Volley(client, now, limit, n - 1) + rest;
      VolleyClocked(client, now, limit, n - 1, rest, now);
      assert calls == [Call(client, now, limit)] + after;
      assert calls[1..] == after;
      hide Volley;
    }
  }

  /** A fixed window is a limit per interval of its length only for the limit of one. */
  lemma WithinLimitExactlyWhenOne(limit: int, window: int)
    requires window >= 1
    ensures AlwaysWithinLimit(limit, window) <==> limit == 1
  {
    if limit == 1 {
      forall calls: seq<Call>, client: string, lo: int
        | Fixed(calls, limit) && (calls != [] ==> Clocked(calls, calls[0].now))
        ensures WithinLimit(calls, client, lo, limit, window)
      {
        AtMostTwicePerInterval(calls, client, lo, limit, window);
      }
    } else if limit < 1 {
      var calls := [Call("", 0, limit)];
      assert calls[1..] == [];
      assert Clocked(calls, 0);
      assert !WithinLimit(calls, "", 0, limit, window);
    } else {
      var calls := TwiceRun(limit, window);
    }
  }

  lemma TwiceRun(limit: int, window: int) returns (calls: seq<Call>)
    requires limit >= 2 && window >= 1
    ensures calls != [] && Fixed(calls, limit) && Clocked(calls, calls[0].now)
    ensures !WithinLimit(calls, "", window, limit, window)
  {
    calls := [Call("", 0, limit)] + Volley("", window, limit, limit - 1) + Volley("", window + 1, limit, limit);
    TwiceClocked(calls, limit, window);
    TwiceIsReached("", limit, window);
    hide Volley, Clocked, Fixed, Admissions;
    assert 2 * window == window + window;
  }

  lemma TwiceClocked(calls: seq<Call>, limit: int, window: int)
    requires limit >= 2 && window >= 1
    requires calls
             == [Call("", 0, limit)] + Volley("", window, limit, limit - 1) + Volley("", window + 1, limit, limit)
    ensures Fixed(calls, limit) && Clocked(calls, calls[0].now)
  {
    hide Volley;
    var ending, next := Volley("", window, limit, limit - 1), Volley("", window + 1, limit, limit);
    VolleyClocked("", window + 1, limit, limit, [], window);
    assert next + [] == next;
    VolleyClocked("", window, limit, limit - 1, next, 0);
    FirstClocked(calls, ending + next, limit);
  }

  lemma FirstClocked(calls: seq<Call>, rest: seq<Call>, limit: int)
    requires calls == [Call("", 0, limit)] + rest && Clocked(rest, 0) && Fixed(rest, limit)
    ensures Fixed(calls, limit) && Clocked(calls, calls[0].now)
  {
    assert calls[1..] == rest;
  }
}
