/**
 The per-client limiter of gateway/client_ratelimit.go in its two variants: a map kept in memory,
 and a Redis counter that is incremented on every request and expires with its window.
 */
module ClientLimiter {

  datatype Local = Local(count: int, expiresAt: int)

  datatype Counter = Counter(count: int, expiresAt: int)

  datatype Call = Call(client: string, now: int, limit: int)

  /** localCheck. */
  function LocalStep(cache: map<string, Local>, c: Call, window: int): (map<string, Local>, bool) {
    if c.client in cache && c.now < cache[c.client].expiresAt then
      var entry := cache[c.client];
      if entry.count >= c.limit then (cache, false)
      else (cache[c.client := entry.(count := entry.count + 1)], true)
    else (cache[c.client := Local(1, c.now + window)], true)
  }

  /** INCR: a key that is absent or has expired counts from zero. */
  function Incremented(keys: map<string, Counter>, c: Call): int {
    if c.client in keys && c.now < keys[c.client].expiresAt then keys[c.client].count + 1 else 1
  }

  /** checkRateLimit with a Redis client: INCR, and EXPIRE when the counter was new. */
  function RedisStep(keys: map<string, Counter>, c: Call, window: int): (map<string, Counter>, bool) {
    var count := Incremented(keys, c);
    var expiresAt := if count == 1 then c.now + window else keys[c.client].expiresAt;
    (keys[c.client := Counter(count, expiresAt)], count <= c.limit)
  }

  class ClientRateLimiter {
    const distributed: bool
    const window: int
    var localCache: map<string, Local>
    var redis: map<string, Counter>

    constructor (distributed: bool, window: int)
      ensures this.distributed == distributed && this.window == window
      ensures localCache == map[] && redis == map[]
    {
      this.distributed := distributed;
      this.window := window;
      localCache := map[];
      redis := map[];
    }

    ghost predicate Valid() reads this {
      forall c | c in redis :: redis[c].count >= 1
    }

    method CheckRateLimit(clientIP: string, limit: int, now: int) returns (allowed: bool)
      requires Valid()
      modifies this
      ensures Valid()
      ensures distributed ==> localCache == old(localCache)
                              && (redis, allowed) == RedisStep(old(redis), Call(clientIP, now, limit), window)
      ensures !distributed ==> redis == old(redis)
                               && (localCache, allowed)
                                  == LocalStep(old(localCache), Call(clientIP, now, limit), window)
    {
      if !distributed {
        allowed := LocalCheck(clientIP, limit, now);
        return;
      }
      var entry := if clientIP in redis && now < redis[clientIP].expiresAt then redis[clientIP] else Counter(0, now);
      entry := entry.(count := entry.count + 1);
      if entry.count == 1 {
        entry := entry.(expiresAt := now + window);
      }
      redis := redis[clientIP := entry];
      allowed := entry.count <= limit;
    }

    method LocalCheck(clientIP: string, limit: int, now: int) returns (allowed: bool)
      modifies `localCache
      ensures (localCache, allowed) == LocalStep(old(localCache), Call(clientIP, now, limit), window)
    {
      if clientIP in localCache {
        var cl := localCache[clientIP];
        if now < cl.expiresAt {
          if cl.count >= limit {
            return false;
          }
          localCache := localCache[clientIP := cl.(count := cl.count + 1)];
          return true;
        }
      }
      localCache := localCache[clientIP := Local(1, now + window)];
      allowed := true;
    }

    /** One tick of the cleanup loop. */
    method Cleanup(now: int)
      modifies `localCache
      ensures localCache == Swept(old(localCache), now)
    {
      var left := localCache.Keys;
      while left != {}
        invariant left <= localCache.Keys <= old(localCache).Keys
        invariant forall c | c in localCache :: localCache[c] == old(localCache)[c]
        invariant forall c | c in old(localCache) && c !in left ::
                  c in localCache <==> !(now > old(localCache)[c].expiresAt)
        decreases left
      {
        var ip :| ip in left;
        if now > localCache[ip].expiresAt {
          localCache := localCache - {ip};
        }
        left := left - {ip};
      }
    }
  }

  function Swept(cache: map<string, Local>, now: int): map<string, Local> {
    map c | c in cache && !(now > cache[c].expiresAt) :: cache[c]
  }

  // ----- Runs of the two variants on the same requests; the map is also swept

  datatype Item = Check(call: Call) | Tick(now: int)

  function Time(item: Item): int {
    match item case Check(call) => call.now case Tick(now) => now
  }

  ghost predicate Ordered(items: seq<Item>, from: int)
    decreases items
  {
    items == [] || (from <= Time(items[0]) && Ordered(items[1..], Time(items[0])))
  }

  function LocalDecisions(cache: map<string, Local>, items: seq<Item>, window: int): seq<bool>
    decreases items
  {
    if items == [] then [] else
      match items[0]
      case Check(c) =>
        [LocalStep(cache, c, window).1] + LocalDecisions(LocalStep(cache, c, window).0, items[1..], window)
      case Tick(now) => LocalDecisions(Swept(cache, now), items[1..], window)
  }

  function RedisDecisions(keys: map<string, Counter>, items: seq<Item>, window: int): seq<bool>
    decreases items
  {
    if items == [] then [] else
      match items[0]
      case Check(c) => [RedisStep(keys, c, window).1] + RedisDecisions(RedisStep(keys, c, window).0, items[1..], window)
      case Tick(_) => RedisDecisions(keys, items[1..], window)
  }

  // ----- Limits that may change

  /** The limit of a client's last call in its window, and when that window ends. */
  datatype Grant = Grant(limit: int, expiresAt: int)

  predicate Open(grants: map<string, Grant>, c: Call) {
    c.client in grants && c.now < grants[c.client].expiresAt
  }

  function Noted(grants: map<string, Grant>, c: Call, window: int): map<string, Grant> {
    grants[c.client := Grant(c.limit, if Open(grants, c) then grants[c.client].expiresAt else c.now + window)]
  }

  /** Every window opens under a limit of at least one, and inside it the client's limit never rises. */
  ghost predicate Steady(items: seq<Item>, grants: map<string, Grant>, window: int)
    decreases items
  {
    items == [] ||
    match items[0]
    case Check(c) =>
      && (if Open(grants, c) then c.limit <= grants[c.client].limit else c.limit >= 1)
      && Steady(items[1..], Noted(grants, c, window), window)
    case Tick(_) => Steady(items[1..], grants, window)
  }

  /** Both sides hold an entry of the client that ends with its window, and either have counted the same or both
      have counted the client out. */
  predicate Aligned(cache: map<string, Local>, keys: map<string, Counter>, grants: map<string, Grant>, c: string) {
    && c in cache && c in keys && c in grants
    && cache[c].expiresAt == keys[c].expiresAt == grants[c].expiresAt
    && keys[c].count >= 1
    && (cache[c].count == keys[c].count || (cache[c].count >= grants[c].limit && keys[c].count >= grants[c].limit))
  }

  predicate LiveAt(cache: map<string, Local>, keys: map<string, Counter>,
                   grants: map<string, Grant>, c: string, t: int) {
    (c in cache && t < cache[c].expiresAt) || (c in keys && t < keys[c].expiresAt)
        || (c in grants && t < grants[c].expiresAt)
  }

  /** The simulation: a client live on any side is aligned. */
  ghost predicate Matches(cache: map<string, Local>, keys: map<string, Counter>, grants: map<string, Grant>, t: int) {
    forall c: string | LiveAt(cache, keys, grants, c, t) :: Aligned(cache, keys, grants, c)
  }

  lemma CheckKeepsMatch(cache: map<string, Local>, keys: map<string, Counter>,
                        grants: map<string, Grant>, t: int, c: Call, window: int)
    requires Matches(cache, keys, grants, t) && t <= c.now
    requires if Open(grants, c) then c.limit <= grants[c.client].limit else c.limit >= 1
    ensures LocalStep(cache, c, window).1 == RedisStep(keys, c, window).1
    ensures Matches(LocalStep(cache, c, window).0, RedisStep(keys, c, window).0, Noted(grants, c, window), c.now)
  {
    var cache', keys', grants' := LocalStep(cache, c, window).0, RedisStep(keys, c, window).0, Noted(grants, c, window);
    assert LiveAt(cache, keys, grants, c.client, c.now) ==> LiveAt(cache, keys, grants, c.client, t);
    assert LiveAt(cache, keys, grants, c.client, t) ==> Aligned(cache, keys, grants, c.client);
    forall d: string | LiveAt(cache', keys', grants', d, c.now) ensures Aligned(cache', keys', grants', d) {
      assert LiveAt(cache, keys, grants, d, t) ==> Aligned(cache, keys, grants, d);
    }
  }

  lemma TickKeepsMatch(cache: map<string, Local>, keys: map<string, Counter>,
                       grants: map<string, Grant>, t: int, now: int)
    requires Matches(cache, keys, grants, t) && t <= now
    ensures Matches(Swept(cache, now), keys, grants, now)
  {
    forall d: string | LiveAt(Swept(cache, now), keys, grants, d, now)
      ensures Aligned(Swept(cache, now), keys, grants, d)
    {
      assert LiveAt(cache, keys, grants, d, t);
    }
  }

  /** For every time-ordered request sequence, with cleanup ticks anywhere and limits that open a window at one or more
      and do not rise inside it, the two variants decide alike. */
  lemma {:induction false} VariantsAgree(cache: map<string, Local>, keys: map<string, Counter>,
                                         grants: map<string, Grant>, items: seq<Item>, t: int, window: int)
    requires Matches(cache, keys, grants, t) && Ordered(items, t) && Steady(items, grants, window)
    ensures LocalDecisions(cache, items, window) == RedisDecisions(keys, items, window)
    decreases items
  {
    if items != [] {
      var rest := items[1..];
      match items[0]
      case Check(c) =>
        CheckKeepsMatch(cache, keys, grants, t, c, window);
        VariantsAgree(LocalStep(cache, c, window).0, RedisStep(keys, c, window).0, Noted(grants, c, window),
                      rest, c.now, window);
      case Tick(now) =>
        TickKeepsMatch(cache, keys, grants, t, now);
        VariantsAgree(Swept(cache, now), keys, grants, rest, now, window);
    }
  }

  /** Every call carries this limit. */
  ghost predicate Fixed(items: seq<Item>, limit: int) {
    forall i | 0 <= i < |items| :: items[i].Check? ==> items[i].call.limit == limit
  }

  lemma {:induction false} FixedIsSteady(items: seq<Item>, limit: int, grants: map<string, Grant>, window: int)
    requires Fixed(items, limit) && limit >= 1 && forall c | c in grants :: grants[c].limit == limit
    ensures Steady(items, grants, window)
    decreases items
  {
    if items != [] {
      var rest := items[1..];
      assert Fixed(rest, limit) by {
        assert forall i | 0 <= i < |rest| :: rest[i] == items[i + 1];
      }
      FixedIsSteady(rest, limit, if items[0].Check? then Noted(grants, items[0].call, window) else grants, window);
    }
  }

  /** With a fixed limit the variants agree, from empty stores, if and only if it is at least one (the map always lets
      the first request through). */
  lemma AgreeExactlyWhenLimitPositive(items: seq<Item>, limit: int, t: int, window: int)
    requires Ordered(items, t) && Fixed(items, limit)
    requires items != [] && items[0].Check?
    ensures LocalDecisions(map[], items, window) == RedisDecisions(map[], items, window) <==> limit >= 1
  {
    if limit >= 1 {
      FixedIsSteady(items, limit, map[], window);
      VariantsAgree(map[], map[], map[], items, t, window);
    } else {
      assert LocalDecisions(map[], items, window)[0] && !RedisDecisions(map[], items, window)[0];
    }
  }

  // ----- A limit that rises

  /** n calls under one limit, then one under another, in the same window. */
  function Change(client: string, now: int, a: int, b: int, n: nat): seq<Item> {
    if n == 0 then [Check(Call(client, now, b))] else [Check(Call(client, now, a))] + Change(client, now, a, b, n - 1)
  }

  /** However often the client called before the change, the variants decide alike. */
  ghost predicate ChangeAgrees(client: string, now: int, a: int, b: int, window: int) {
    forall n: nat | n >= 1 ::
      LocalDecisions(map[], Change(client, now, a, b, n), window)
          == RedisDecisions(map[], Change(client, now, a, b, n), window)
  }

  lemma {:induction false} LoweredIsSteady(client: string, now: int, a: int, b: int,
                                           n: nat, grants: map<string, Grant>, window: int)
    requires b <= a && window > 0
    requires if client in grants then grants[client].limit == a && now < grants[client].expiresAt else a >= 1 && n >= 1
    ensures Steady(Change(client, now, a, b, n), grants, window) && Ordered(Change(client, now, a, b, n), now)
    decreases n
  {
    var items := Change(client, now, a, b, n);
    if n == 0 {
      assert items[1..] == [];
    } else {
      assert items[1..] == Change(client, now, a, b, n - 1);
      LoweredIsSteady(client, now, a, b, n - 1, Noted(grants, items[0].call, window), window);
    }
  }

  /** Counted out under a, the counter has gone on to b or beyond; the map has not. */
  lemma {:induction false} RaisedDiffers(cache: map<string, Local>,
                                         keys: map<string, Counter>, client: string, now: int,
                                         a: int, b: int, n: nat, window: int)
    requires 1 <= a < b && client in cache && client in keys
    requires now < cache[client].expiresAt && now < keys[client].expiresAt
    requires keys[client].count >= 1 && keys[client].count + n >= b
    requires cache[client].count == if keys[client].count < a then keys[client].count else a
    ensures LocalDecisions(cache, Change(client, now, a, b, n), window)
            != RedisDecisions(keys, Change(client, now, a, b, n), window)
    decreases n
  {
    var items := Change(client, now, a, b, n);
    var c := items[0].call;
    if n == 0 {
      assert LocalDecisions(cache, items, window)[0] && !RedisDecisions(keys, items, window)[0];
    } else {
      assert items[1..] == Change(client, now, a, b, n - 1);
      RaisedDiffers(LocalStep(cache, c, window).0, RedisStep(keys, c, window).0, client, now, a, b, n - 1, window);
      assert LocalDecisions(cache, items, window)[1..]
             == LocalDecisions(LocalStep(cache, c, window).0, items[1..], window);
      assert RedisDecisions(keys, items, window)[1..]
             == RedisDecisions(RedisStep(keys, c, window).0, items[1..], window);
    }
  }

  /** A change of limit inside a window is safe if and only if it is no rise: raised, the map admits again, and the
      counter, which went on counting refused requests, does not. */
  lemma ChangeAgreesExactlyWhenNoRise(client: string, now: int, a: int, b: int, window: int)
    requires a >= 1 && window > 0
    ensures ChangeAgrees(client, now, a, b, window) <==> b <= a
  {
    if b <= a {
      forall n: nat | n >= 1
        ensures LocalDecisions(map[], Change(client, now, a, b, n), window)
                == RedisDecisions(map[], Change(client, now, a, b, n), window)
      {
        LoweredIsSteady(client, now, a, b, n, map[], window);
        VariantsAgree(map[], map[], map[], Change(client, now, a, b, n), now, window);
      }
    } else {
      var items := Change(client, now, a, b, b);
      var c := Call(client, now, a);
      assert items[0] == Check(c) && items[1..] == Change(client, now, a, b, b - 1);
      var cache, keys := LocalStep(map[], c, window).0, RedisStep(map[], c, window).0;
      RaisedDiffers(cache, keys, client, now, a, b, b - 1, window);
      assert LocalDecisions(map[], items, window)[1..] == LocalDecisions(cache, items[1..], window);
      assert RedisDecisions(map[], items, window)[1..] == RedisDecisions(keys, items[1..], window);
    }
  }
}
