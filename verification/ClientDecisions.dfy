/**
 What the two variants of the per-client limiter of gateway/client_ratelimit.go decide on every run, told from the
 requests and the earlier decisions alone.
 */
module ClientDecisions {
  import opened ClientLimiter
  import FixedWindow
  import WindowDecisions

  // ----- The map: the in-memory limiter with a window one nanosecond shorter

  function AsFixed(c: Call): FixedWindow.Call {
    FixedWindow.Call(c.client, c.now, c.limit)
  }

  function FixedCalls(items: seq<Item>): seq<FixedWindow.Call> {
    if items == [] then []
    else (if items[0].Check? then [AsFixed(items[0].call)] else []) + FixedCalls(items[1..])
  }

  /** A client with an open window on either side has the same one on both. */
  ghost predicate Mirrors(cache: map<string, Local>, requests: FixedWindow.Requests, t: int) {
    forall c: string |
      (c in cache && t < cache[c].expiresAt) || (c in requests && t <= requests[c].resetTime) ::
      c in cache && c in requests && requests[c] == FixedWindow.Entry(cache[c].count, cache[c].expiresAt - 1)
  }

  lemma CheckMirrors(cache: map<string, Local>, requests: FixedWindow.Requests, t: int, c: Call, window: int)
    requires Mirrors(cache, requests, t) && t <= c.now
    ensures
      var (next, ok) := LocalStep(cache, c, window);
      var (mirrored, same) := FixedWindow.Step(requests, AsFixed(c), window - 1);
      ok == same && Mirrors(next, mirrored, c.now)
  {
  }

  /** The map ends a window at its last instant, the in-memory limiter after it; otherwise they are one limiter, with
      cleanup anywhere. */
  lemma {:induction false} MapIsFixedWindow(cache: map<string, Local>, requests: FixedWindow.Requests,
                                            items: seq<Item>, from: int, window: int)
    requires Mirrors(cache, requests, from) && Ordered(items, from)
    ensures LocalDecisions(cache, items, window)
            == WindowDecisions.Verdicts(requests, FixedCalls(items), window - 1)
    decreases items
  {
    if items != [] {
      match items[0]
      case Check(c) =>
        CheckMirrors(cache, requests, from, c, window);
        MapIsFixedWindow(LocalStep(cache, c, window).0, FixedWindow.Step(requests, AsFixed(c), window - 1).0,
                         items[1..], c.now, window);
        assert FixedCalls(items)[1..] == FixedCalls(items[1..]);
      case Tick(now) =>
        MapIsFixedWindow(Swept(cache, now), requests, items[1..], now, window);
        assert FixedCalls(items) == FixedCalls(items[1..]);
    }
  }

  /** On every ordered run, with limits that vary, the map variant lets a request pass if and only if its client has no
      window open at that instant, or fewer of its requests passed since that window was opened than its limit. */
  lemma MapPassesExactlyWhen(items: seq<Item>, from: int, window: int, i: nat)
    requires Ordered(items, from) && i < |FixedCalls(items)|
    ensures
      var calls, verdicts := FixedCalls(items), LocalDecisions(map[], items, window);
      && |verdicts| == |calls|
      && (verdicts[i] <==>
          WindowDecisions.MayPass(WindowDecisions.Past(calls, verdicts, i), calls[i], window - 1))
  {
    MapIsFixedWindow(map[], map[], items, from, window);
    WindowDecisions.DecidedAfter(map[], [], FixedCalls(items), window - 1, i);
    var calls, verdicts := FixedCalls(items), LocalDecisions(map[], items, window);
    assert [] + WindowDecisions.Past(calls, verdicts, i) == WindowDecisions.Past(calls, verdicts, i);
  }

  // ----- The counter

  function CallsOf(items: seq<Item>): seq<Call> {
    if items == [] then []
    else (if items[0].Check? then [items[0].call] else []) + CallsOf(items[1..])
  }

  /** Position of the client's last request that found no window open; -1 if there is none. */
  function Opener(calls: seq<Call>, client: string, window: int): (at: int)
    ensures -1 <= at < |calls|
    decreases |calls|
  {
    if calls == [] then -1 else
      var front, last := calls[..|calls| - 1], calls[|calls| - 1];
      var at := Opener(front, client, window);
      if last.client == client && (at < 0 || last.now >= front[at].now + window) then |front| else at
  }

  /** The client's requests from a position on, passed or refused. */
  function RequestsSince(calls: seq<Call>, client: string, at: int): nat
    decreases |calls|
  {
    if calls == [] || at > |calls| - 1 then 0 else
      RequestsSince(calls[..|calls| - 1], client, at) + if calls[|calls| - 1].client == client then 1 else 0
  }

  /** The client's requests in the window its last one fell into. */
  function InWindow(calls: seq<Call>, client: string, window: int): nat {
    RequestsSince(calls, client, Opener(calls, client, window))
  }

  ghost predicate Counted(keys: map<string, Counter>, past: seq<Call>, client: string, window: int) {
    var at := Opener(past, client, window);
    if at < 0 then client !in keys
    else client in keys
         && keys[client] == Counter(RequestsSince(past, client, at), past[at].now + window)
         && keys[client].count >= 1
  }

  lemma StepCounted(keys: map<string, Counter>, past: seq<Call>, c: Call, window: int, client: string)
    requires Counted(keys, past, c.client, window) && Counted(keys, past, client, window)
    ensures
      var (next, ok) := RedisStep(keys, c, window);
      (ok <==> InWindow(past + [c], c.client, window) <= c.limit) && Counted(next, past + [c], client, window)
  {
    OpenerAppends(past, c, client, window);
    OpenerAppends(past, c, c.client, window);
    SinceAppends(past, c, client, Opener(past, client, window));
    SinceAppends(past, c, client, |past|);
    SinceAppends(past, c, c.client, Opener(past, c.client, window));
    SinceAppends(past, c, c.client, |past|);
    hide Opener, RequestsSince;
  }

  lemma OpenerAppends(past: seq<Call>, c: Call, client: string, window: int)
    ensures
      var at := Opener(past, client, window);
      Opener(past + [c], client, window)
      == if c.client == client && (at < 0 || c.now >= past[at].now + window) then |past| else at
  {
    var longer := past + [c];
    assert longer[..|longer| - 1] == past;
  }

  lemma SinceAppends(past: seq<Call>, c: Call, client: string, at: int)
    ensures at <= |past| ==>
              RequestsSince(past + [c], client, at)
              == RequestsSince(past, client, at) + if c.client == client then 1 else 0
    ensures at == |past| ==> RequestsSince(past, client, at) == 0
  {
    var longer := past + [c];
    assert longer[..|longer| - 1] == past;
    NoneSince(past, client, |past|);
  }

  lemma NoneSince(calls: seq<Call>, client: string, at: int)
    requires at >= |calls|
    ensures RequestsSince(calls, client, at) == 0
  {
  }

  lemma {:induction false} CountedAfter(keys: map<string, Counter>, past: seq<Call>, items: seq<Item>, window: int,
                                        i: nat)
    requires i < |CallsOf(items)| && forall client :: Counted(keys, past, client, window)
    ensures |RedisDecisions(keys, items, window)| == |CallsOf(items)|
    ensures
      var calls := CallsOf(items);
      RedisDecisions(keys, items, window)[i]
      <==> InWindow(past + calls[..i + 1], calls[i].client, window) <= calls[i].limit
    decreases items
  {
    OneEach(keys, items, window);
    var calls := CallsOf(items);
    match items[0]
    case Check(c) =>
      forall client ensures Counted(RedisStep(keys, c, window).0, past + [c], client, window) {
        StepCounted(keys, past, c, window, client);
      }
      assert calls[1..] == CallsOf(items[1..]);
      if i == 0 {
        StepCounted(keys, past, c, window, c.client);
        assert past + calls[..1] == past + [c];
      } else {
        CountedAfter(RedisStep(keys, c, window).0, past + [c], items[1..], window, i - 1);
        assert past + [c] + calls[1..][..i] == past + calls[..i + 1];
      }
    case Tick(_) =>
      assert calls == CallsOf(items[1..]);
      CountedAfter(keys, past, items[1..], window, i);
  }

  lemma {:induction false} OneEach(keys: map<string, Counter>, items: seq<Item>, window: int)
    ensures |RedisDecisions(keys, items, window)| == |CallsOf(items)|
    decreases items
  {
    if items != [] {
      match items[0]
      case Check(c) => OneEach(RedisStep(keys, c, window).0, items[1..], window);
      case Tick(_) => OneEach(keys, items[1..], window);
    }
  }

  /** On every run, with limits that vary, the counter variant lets a request pass if and only if the requests its
      client has made in the open window, refused ones and this one included, are no more than its limit. */
  lemma CounterPassesExactlyWhen(items: seq<Item>, window: int, i: nat)
    requires i < |CallsOf(items)|
    ensures |RedisDecisions(map[], items, window)| == |CallsOf(items)|
    ensures
      var calls := CallsOf(items);
      RedisDecisions(map[], items, window)[i]
      <==> InWindow(calls[..i + 1], calls[i].client, window) <= calls[i].limit
  {
    CountedAfter(map[], [], items, window, i);
    var calls := CallsOf(items);
    assert [] + calls[..i + 1] == calls[..i + 1];
  }
}
