/**
 The tier wrapper of gateway/rate_limit_tiers.go.  It has no limit of its own: each call reads the
 shared limiter's limit, installs its tier's, asks, and puts back what it read, with no lock around
 the four steps.
 */
module TieredLimiter {
  import opened Wrappers
  import opened FixedWindow
  import SlidingWindow

  datatype Tier = Tier(name: string, requests: int, windowSec: int)

  const DEFAULT_TIERS: map<string, Tier> := map[
    "free" := Tier("free", 10, 60),
    "basic" := Tier("basic", 100, 60),
    "premium" := Tier("premium", 1000, 60),
    "enterprise" := Tier("enterprise", 10000, 60)
  ]

  /** An unknown tier is treated as "free"; without a "free" tier the zero tier comes back. */
  function GetTier(tiers: map<string, Tier>, name: string): Tier {
    if name in tiers then tiers[name]
    else if "free" in tiers then tiers["free"]
    else Tier("", 0, 0)
  }

  /** `keys` is the store of per-key tiers, absent when no Redis client is configured. */
  function GetTierForKey(keys: Option<map<string, string>>, apiKey: string): string {
    if keys.None? || apiKey == "" || apiKey !in keys.value || keys.value[apiKey] == "" then "basic"
    else keys.value[apiKey]
  }

  datatype Config = Config(tiers: map<string, Tier>, keys: Option<map<string, string>>, configured: int, window: int)

  function TierLimit(cfg: Config, apiKey: string): int {
    GetTier(cfg.tiers, GetTierForKey(cfg.keys, apiKey)).requests
  }

  /** The store has a tier for the key. */
  predicate HasTier(cfg: Config, apiKey: string) {
    cfg.keys.Some? && apiKey != "" && apiKey in cfg.keys.value && cfg.keys.value[apiKey] != ""
  }

  /** The store has this tier for the key. */
  predicate Stored(cfg: Config, apiKey: string, name: string) {
    HasTier(cfg, apiKey) && cfg.keys.value[apiKey] == name
  }

  /** With the shipped tiers a key gets 100 if no tier is stored for it, and 10 if the stored one does not exist. */
  lemma ShippedLimitExactlyWhen(cfg: Config, apiKey: string)
    requires cfg.tiers == DEFAULT_TIERS
    ensures TierLimit(cfg, apiKey) == 10000 <==> Stored(cfg, apiKey, "enterprise")
    ensures TierLimit(cfg, apiKey) == 1000 <==> Stored(cfg, apiKey, "premium")
    ensures TierLimit(cfg, apiKey) == 100 <==> !HasTier(cfg, apiKey) || Stored(cfg, apiKey, "basic")
    ensures TierLimit(cfg, apiKey) == 10 <==>
              HasTier(cfg, apiKey) && cfg.keys.value[apiKey] !in {"basic", "premium", "enterprise"}
  {
  }

  /** With any tiers: the stored one's limit; "free" stands in for a stored name without a tier, "basic" for a key
      without a stored name, "free" again if that is missing, and the limit is 0 without any of them. */
  lemma KeyLimit(cfg: Config, apiKey: string)
    ensures HasTier(cfg, apiKey) && cfg.keys.value[apiKey] in cfg.tiers ==>
              TierLimit(cfg, apiKey) == cfg.tiers[cfg.keys.value[apiKey]].requests
    ensures HasTier(cfg, apiKey) && cfg.keys.value[apiKey] !in cfg.tiers ==>
              TierLimit(cfg, apiKey) == if "free" in cfg.tiers then cfg.tiers["free"].requests else 0
    ensures !HasTier(cfg, apiKey) && "basic" in cfg.tiers ==> TierLimit(cfg, apiKey) == cfg.tiers["basic"].requests
    ensures !HasTier(cfg, apiKey) && "basic" !in cfg.tiers ==>
              TierLimit(cfg, apiKey) == if "free" in cfg.tiers then cfg.tiers["free"].requests else 0
  {
  }

  /** The shared limiter: in memory, or the one over Redis. */
  datatype Limiter = Local(local: LocalRateLimiter) | Distributed(distributed: SlidingWindow.DistributedRateLimiter)

  class TieredRateLimiter {
    const limiter: Limiter
    const tiers: map<string, Tier>
    const keys: Option<map<string, string>>

    constructor (limiter: Limiter, tiers: map<string, Tier>, keys: Option<map<string, string>>)
      ensures this.limiter == limiter && this.tiers == tiers && this.keys == keys
    {
      this.limiter := limiter;
      this.tiers := tiers;
      this.keys := keys;
    }

    function Shared(): set<object> {
      match limiter case Local(l) => {l} case Distributed(d) => {d}
    }

    function GetLimit(): int
      reads Shared()
    {
      match limiter case Local(l) => l.limit case Distributed(d) => d.limit
    }

    method SetLimit(newLimit: int)
      modifies Shared()
      ensures GetLimit() == newLimit
      ensures limiter.Local? ==> limiter.local.requests == old(limiter.local.requests)
                                 && limiter.local.window == old(limiter.local.window)
      ensures limiter.Distributed? ==> limiter.distributed.store == old(limiter.distributed.store)
                                       && limiter.distributed.window == old(limiter.distributed.window)
    {
      match limiter
      case Local(l) => l.SetLimit(newLimit);
      case Distributed(d) => d.SetLimit(newLimit);
    }

    /** Run alone, a call is decided by its own tier and leaves the shared limit as it found it. */
    method Allow(clientID: string, apiKey: string, now: int) returns (allowed: bool)
      modifies Shared()
      ensures GetLimit() == old(GetLimit())
      ensures
        var tier := GetTier(tiers, GetTierForKey(keys, apiKey)).requests;
        match limiter
        case Local(l) => (l.requests, allowed) == Step(old(l.requests), Call(clientID, now, tier), old(l.window))
        case Distributed(d) =>
          (d.store, allowed)
          == SlidingWindow.Step(old(d.store), SlidingWindow.Request(clientID, now), tier, old(d.window))
    {
      var tierName := GetTierForKey(keys, apiKey);
      var tier := GetTier(tiers, tierName);
      var originalLimit := GetLimit();
      SetLimit(tier.requests);
      match limiter {
        case Local(l) => allowed := l.Allow(clientID, now);
        case Distributed(d) => allowed := d.Allow(clientID, now);
      }
      SetLimit(originalLimit);
    }
  }

  // ----- Any number of overlapping calls

  /** Where a call in flight stands. */
  datatype Phase =
    | Looked(client: string, apiKey: string)                   // tier known, shared limit not read yet
    | Read(client: string, apiKey: string, original: int)      // limit read
    | Installed(client: string, apiKey: string, original: int) // tier's limit written
    | Asked(original: int)                                     // decision taken, limit not put back yet

  /** `log`, `apiKeys` and `decisions` record the calls the shared limiter decided: with the limit it then had, whose
      key each was made with, and the decision. */
  datatype State = State(limit: int, requests: Requests, flying: map<nat, Phase>, clock: int,
                         log: seq<Call>, apiKeys: seq<string>, decisions: seq<bool>)

  datatype Action =
    | Enter(id: nat, client: string, apiKey: string)
    | ReadLimit(id: nat)
    | InstallTier(id: nat)
    | Ask(id: nat, now: int)
    | Restore(id: nat)

  function Init(cfg: Config): State {
    State(cfg.configured, map[], map[], 0, [], [], [])
  }

  predicate Enabled(s: State, a: Action) {
    match a
    case Enter(id, _, _) => id !in s.flying
    case ReadLimit(id) => id in s.flying && s.flying[id].Looked?
    case InstallTier(id) => id in s.flying && s.flying[id].Read?
    case Ask(id, now) => id in s.flying && s.flying[id].Installed? && s.clock <= now
    case Restore(id) => id in s.flying && s.flying[id].Asked?
  }

  function Next(cfg: Config, s: State, a: Action): State
    requires Enabled(s, a)
  {
    match a
    case Enter(id, client, apiKey) => s.(flying := s.flying[id := Looked(client, apiKey)])
    case ReadLimit(id) =>
      var p := s.flying[id];
      s.(flying := s.flying[id := Read(p.client, p.apiKey, s.limit)])
    case InstallTier(id) =>
      var p := s.flying[id];
      s.(limit := TierLimit(cfg, p.apiKey), flying := s.flying[id := Installed(p.client, p.apiKey, p.original)])
    case Ask(id, now) =>
      var p := s.flying[id];
      var call := Call(p.client, now, s.limit);
      var (requests, ok) := Step(s.requests, call, cfg.window);
      s.(requests := requests, clock := now, log := s.log + [call], apiKeys := s.apiKeys + [p.apiKey],
         decisions := s.decisions + [ok], flying := s.flying[id := Asked(p.original)])
    case Restore(id) =>
      s.(limit := s.flying[id].original, flying := s.flying - {id})
  }

  ghost predicate Runs(cfg: Config, s: State, actions: seq<Action>)
    decreases actions
  {
    actions == [] || (Enabled(s, actions[0]) && Runs(cfg, Next(cfg, s, actions[0]), actions[1..]))
  }

  function After(cfg: Config, s: State, actions: seq<Action>): State
    requires Runs(cfg, s, actions)
    decreases actions
  {
    if actions == [] then s else After(cfg, Next(cfg, s, actions[0]), actions[1..])
  }

  /** A limit the shared limiter may ever hold. */
  ghost predicate Known(cfg: Config, limit: int) {
    limit == cfg.configured || exists key :: TierLimit(cfg, key) == limit
  }

  /** The table after the logged calls, replayed from empty. */
  function Replay(requests: Requests, log: seq<Call>, window: int): Requests
    decreases |log|
  {
    if log == [] then requests
    else Step(Replay(requests, log[..|log| - 1], window), log[|log| - 1], window).0
  }

  /** The decision on the i-th logged call, replayed from empty. */
  function ReplayDecision(log: seq<Call>, i: nat, window: int): bool
    requires i < |log|
  {
    Step(Replay(map[], log[..i], window), log[i], window).1
  }

  ghost predicate Inv(cfg: Config, s: State) {
    && Known(cfg, s.limit)
    && (forall id | id in s.flying ::
          match s.flying[id]
          case Looked(_, _) => true
          case Read(_, _, original) => Known(cfg, original)
          case Installed(_, _, original) => Known(cfg, original)
          case Asked(original) => Known(cfg, original))
    && (forall i | 0 <= i < |s.log| :: Known(cfg, s.log[i].limit) && s.log[i].now <= s.clock)
    && (forall i, j | 0 <= i < j < |s.log| :: s.log[i].now <= s.log[j].now)
    && |s.decisions| == |s.log| == |s.apiKeys|
    && s.requests == Replay(map[], s.log, cfg.window)
    && (forall i | 0 <= i < |s.log| :: s.decisions[i] == ReplayDecision(s.log, i, cfg.window))
  }

  lemma StepKeepsInv(cfg: Config, s: State, a: Action)
    requires Inv(cfg, s) && Enabled(s, a)
    ensures Inv(cfg, Next(cfg, s, a))
  {
    if a.Ask? {
      var log := Next(cfg, s, a).log;
      assert log[..|s.log|] == s.log;
      forall i | 0 <= i < |s.log| ensures ReplayDecision(log, i, cfg.window) == ReplayDecision(s.log, i, cfg.window) {
        assert log[..i] == s.log[..i];
      }
    }
  }

  lemma {:induction false} RunKeepsInv(cfg: Config, s: State, actions: seq<Action>)
    requires Inv(cfg, s) && Runs(cfg, s, actions)
    ensures Inv(cfg, After(cfg, s, actions))
    decreases actions
  {
    if actions != [] {
      StepKeepsInv(cfg, s, actions[0]);
      RunKeepsInv(cfg, Next(cfg, s, actions[0]), actions[1..]);
    }
  }

  /** However calls overlap, the shared limit is the configured one or some tier's. */
  lemma LimitIsAlwaysKnown(cfg: Config, actions: seq<Action>)
    requires Runs(cfg, Init(cfg), actions)
    ensures Known(cfg, After(cfg, Init(cfg), actions).limit)
  {
    RunKeepsInv(cfg, Init(cfg), actions);
  }

  /** However calls overlap, a client passes fewer than twice the largest of those limits in any interval
      of a window's length; the decisions the calls got are the ones that count is made of. */
  lemma OverlapStaysUnderLargest(cfg: Config, actions: seq<Action>, cap: int, client: string, lo: int)
    requires Runs(cfg, Init(cfg), actions) && cfg.window >= 0
    requires cfg.configured <= cap && forall key :: TierLimit(cfg, key) <= cap
    ensures Admissions(map[], After(cfg, Init(cfg), actions).log, client, lo, lo + cfg.window, cfg.window)
            < 2 * PerWindow(cap)
    ensures
      var s := After(cfg, Init(cfg), actions);
      |s.decisions| == |s.log| && forall i | 0 <= i < |s.log| :: s.decisions[i] == ReplayDecision(s.log, i, cfg.window)
  {
    RunKeepsInv(cfg, Init(cfg), actions);
    var log := After(cfg, Init(cfg), actions).log;
    OrderedIsClocked(log, 0);
    assert log[0..] == log;
    AtMostTwicePerInterval(log, client, lo, cap, cfg.window);
  }

  /** However calls overlap, a window opened by the i-th decided call lets its client through no more often
      than the largest of those limits. */
  lemma OverlapWindowUnderLargest(cfg: Config, actions: seq<Action>, cap: int, i: nat)
    requires Runs(cfg, Init(cfg), actions) && cfg.window >= 0
    requires cfg.configured <= cap && forall key :: TierLimit(cfg, key) <= cap
    requires i < |After(cfg, Init(cfg), actions).log|
    ensures
      var log := After(cfg, Init(cfg), actions).log;
      var before := Replay(map[], log[..i], cfg.window);
      (log[i].client in before ==> log[i].now > before[log[i].client].resetTime) ==>
        Admissions(before, log[i..], log[i].client, log[i].now, log[i].now + cfg.window, cfg.window) <= PerWindow(cap)
  {
    RunKeepsInv(cfg, Init(cfg), actions);
    var log := After(cfg, Init(cfg), actions).log;
    var before := Replay(map[], log[..i], cfg.window);
    OrderedIsClocked(log, i);
    if log[i].client in before ==> log[i].now > before[log[i].client].resetTime {
      AtMostLimitPerWindow(before, log[i..], cap, cfg.window);
    }
  }

  lemma {:induction false} OrderedIsClocked(log: seq<Call>, i: nat)
    requires i <= |log| && forall j, k | 0 <= j < k < |log| :: log[j].now <= log[k].now
    ensures i < |log| ==> Clocked(log[i..], log[i].now)
    decreases |log| - i
  {
    if i < |log| {
      OrderedIsClocked(log, i + 1);
      assert log[i..][1..] == log[i + 1..];
    }
  }

  // ----- Calls that do not overlap

  datatype Visit = Visit(client: string, apiKey: string, now: int)

  function Alone(v: Visit): seq<Action> {
    [Enter(0, v.client, v.apiKey), ReadLimit(0), InstallTier(0), Ask(0, v.now), Restore(0)]
  }

  function OneByOne(visits: seq<Visit>): seq<Action> {
    if visits == [] then [] else Alone(visits[0]) + OneByOne(visits[1..])
  }

  function OwnTier(cfg: Config, v: Visit): Call {
    Call(v.client, v.now, TierLimit(cfg, v.apiKey))
  }

  lemma {:induction false} RunsAppend(cfg: Config, s: State, first: seq<Action>, second: seq<Action>)
    requires Runs(cfg, s, first) && Runs(cfg, After(cfg, s, first), second)
    ensures Runs(cfg, s, first + second)
    ensures After(cfg, s, first + second) == After(cfg, After(cfg, s, first), second)
    decreases first
  {
    if first == [] {
      assert first + second == second;
    } else {
      assert (first + second)[1..] == first[1..] + second;
      RunsAppend(cfg, Next(cfg, s, first[0]), first[1..], second);
    }
  }

  /** Unfolds four enabled actions of a run. */
  lemma ForwardFour(cfg: Config, s: State, a: seq<Action>) returns (t: State)
    requires |a| >= 4 && Enabled(s, a[0])
    requires Enabled(Next(cfg, s, a[0]), a[1])
    requires Enabled(Next(cfg, Next(cfg, s, a[0]), a[1]), a[2])
    requires Enabled(Next(cfg, Next(cfg, Next(cfg, s, a[0]), a[1]), a[2]), a[3])
    ensures t == Next(cfg, Next(cfg, Next(cfg, Next(cfg, s, a[0]), a[1]), a[2]), a[3])
    ensures Runs(cfg, t, a[4..]) ==> Runs(cfg, s, a) && After(cfg, s, a) == After(cfg, t, a[4..])
  {
    var s1 := Next(cfg, s, a[0]);
    var s2 := Next(cfg, s1, a[1]);
    var s3 := Next(cfg, s2, a[2]);
    t := Next(cfg, s3, a[3]);
    assert a[3..][1..] == a[4..];
    assert a[2..][1..] == a[3..];
    assert a[1..][1..] == a[2..];
    if Runs(cfg, t, a[4..]) {
      assert Runs(cfg, s3, a[3..]) && After(cfg, s3, a[3..]) == After(cfg, t, a[4..]);
      assert Runs(cfg, s2, a[2..]) && After(cfg, s2, a[2..]) == After(cfg, t, a[4..]);
      assert Runs(cfg, s1, a[1..]) && After(cfg, s1, a[1..]) == After(cfg, t, a[4..]);
    }
  }

  lemma AloneIsOwnTier(cfg: Config, s: State, v: Visit)
    requires s.flying == map[] && s.clock <= v.now
    ensures Runs(cfg, s, Alone(v))
    ensures
      var t := After(cfg, s, Alone(v));
      && t.limit == s.limit && t.flying == map[] && t.clock == v.now
      && t.log == s.log + [OwnTier(cfg, v)] && t.apiKeys == s.apiKeys + [v.apiKey]
  {
    var a := Alone(v);
    var s4 := ForwardFour(cfg, s, a);
    var s5 := Next(cfg, s4, a[4]);
    assert a[4..][1..] == [];
    assert Runs(cfg, s5, a[4..][1..]);
    assert s5.flying == map[];
  }

  /** In every run whose calls do not overlap, each call is decided under its own tier's limit and the
      configured limit is back in place at the end. */
  lemma {:induction false} OneByOneIsOwnTier(cfg: Config, s: State, visits: seq<Visit>)
    requires s.flying == map[]
    requires visits != [] ==> s.clock <= visits[0].now
    requires forall i, j | 0 <= i < j < |visits| :: visits[i].now <= visits[j].now
    ensures Runs(cfg, s, OneByOne(visits))
    ensures
      var t := After(cfg, s, OneByOne(visits));
      t.limit == s.limit && t.flying == map[]
      && t.log == s.log + seq(|visits|, i requires 0 <= i < |visits| => OwnTier(cfg, visits[i]))
    decreases visits
  {
    var calls := seq(|visits|, i requires 0 <= i < |visits| => OwnTier(cfg, visits[i]));
    if visits == [] {
      assert s.log + calls == s.log;
    } else {
      var rest := visits[1..];
      AloneIsOwnTier(cfg, s, visits[0]);
      var s1 := After(cfg, s, Alone(visits[0]));
      OneByOneIsOwnTier(cfg, s1, rest);
      RunsAppend(cfg, s, Alone(visits[0]), OneByOne(rest));
      var restCalls := seq(|rest|, i requires 0 <= i < |rest| => OwnTier(cfg, rest[i]));
      assert calls == [OwnTier(cfg, visits[0])] + restCalls;
      assert s.log + [OwnTier(cfg, visits[0])] + restCalls == s.log + calls;
    }
  }

  // ----- Calls that do overlap

  /** A step that writes the shared limit. */
  predicate Writes(a: Action) {
    a.InstallTier? || a.Restore?
  }

  lemma {:induction false} UnwrittenLimitStays(cfg: Config, s: State, between: seq<Action>)
    requires Runs(cfg, s, between) && forall i | 0 <= i < |between| :: !Writes(between[i])
    ensures After(cfg, s, between).limit == s.limit
    decreases between
  {
    if between != [] {
      UnwrittenLimitStays(cfg, Next(cfg, s, between[0]), between[1..]);
    }
  }

  lemma {:induction false} InstalledKeepsKey(cfg: Config, s: State, between: seq<Action>, id: nat)
    requires Runs(cfg, s, between) && id in s.flying && s.flying[id].Installed?
    requires forall i, now | 0 <= i < |between| :: between[i] != Ask(id, now)
    ensures id in After(cfg, s, between).flying && After(cfg, s, between).flying[id] == s.flying[id]
    decreases between
  {
    if between != [] {
      var a := between[0];
      assert a.Ask? ==> a != Ask(id, a.now);
      InstalledKeepsKey(cfg, Next(cfg, s, a), between[1..], id);
    }
  }

  /** However calls overlap: a call whose own install is the last write before its ask is decided under its own
      tier's limit. */
  lemma OwnTierUnlessCrossed(cfg: Config, s: State, id: nat, between: seq<Action>, now: int)
    requires Enabled(s, InstallTier(id)) && Runs(cfg, Next(cfg, s, InstallTier(id)), between)
    requires forall i | 0 <= i < |between| :: !Writes(between[i])
    requires forall i, t | 0 <= i < |between| :: between[i] != Ask(id, t)
    requires Enabled(After(cfg, Next(cfg, s, InstallTier(id)), between), Ask(id, now))
    ensures
      var asked := After(cfg, Next(cfg, s, InstallTier(id)), between);
      var p := s.flying[id];
      && Next(cfg, asked, Ask(id, now)).log == asked.log + [Call(p.client, now, TierLimit(cfg, p.apiKey))]
      && Next(cfg, asked, Ask(id, now)).apiKeys == asked.apiKeys + [p.apiKey]
  {
    var installed := Next(cfg, s, InstallTier(id));
    UnwrittenLimitStays(cfg, installed, between);
    InstalledKeepsKey(cfg, installed, between, id);
  }

  /** The second call's install falls between the first one's install and ask. */
  function Crossed(c: string, k: string, d: string, l: string): seq<Action> {
    [Enter(0, c, k), ReadLimit(0), InstallTier(0), Enter(1, d, l), ReadLimit(1), InstallTier(1), Ask(0, 0), Ask(1, 0)]
  }

  /** For any two keys some schedule decides the call made with the one under the limit of the other's tier. */
  lemma CrossedIsOtherTier(cfg: Config, c: string, k: string, d: string, l: string)
    ensures Runs(cfg, Init(cfg), Crossed(c, k, d, l))
    ensures
      var t := After(cfg, Init(cfg), Crossed(c, k, d, l));
      |t.log| == |t.apiKeys| == 2 && t.apiKeys[0] == k && t.log[0] == Call(c, 0, TierLimit(cfg, l))
  {
    var a := Crossed(c, k, d, l);
    var s4 := ForwardFour(cfg, Init(cfg), a);
    var s8 := ForwardFour(cfg, s4, a[4..]);
    assert a[4..][4..] == [];
  }

  /** A second call puts back the configured limit between the first one's install and ask. */
  function PutBack(c: string, k: string): seq<Action> {
    [Enter(1, c, k), ReadLimit(1), InstallTier(1), Enter(0, c, k),
     ReadLimit(0), InstallTier(0), Ask(1, 0), Restore(1), Ask(0, 0)]
  }

  lemma PutBackIsConfigured(cfg: Config, c: string, k: string)
    ensures Runs(cfg, Init(cfg), PutBack(c, k))
    ensures
      var t := After(cfg, Init(cfg), PutBack(c, k));
      |t.log| == |t.apiKeys| == 2 && t.apiKeys[1] == k && t.log[1] == Call(c, 0, cfg.configured)
  {
    var a := PutBack(c, k);
    var s4 := ForwardFour(cfg, Init(cfg), a);
    var s8 := ForwardFour(cfg, s4, a[4..]);
    assert a[4..][4..] == a[8..];
    var s9 := Next(cfg, s8, a[8]);
    assert a[8..][1..] == [];
    assert Runs(cfg, s9, []) && After(cfg, s8, a[8..]) == s9;
  }

  ghost predicate OwnTiers(cfg: Config, s: State) {
    |s.log| == |s.apiKeys| && forall i | 0 <= i < |s.log| :: s.log[i].limit == TierLimit(cfg, s.apiKeys[i])
  }

  /** Whatever the interleaving, every call is decided under its own tier's limit. */
  ghost predicate AlwaysOwnTier(cfg: Config) {
    forall actions | Runs(cfg, Init(cfg), actions) :: OwnTiers(cfg, After(cfg, Init(cfg), actions))
  }

  /** Whatever the interleaving, the configured limit is back once nothing is in flight. */
  ghost predicate AlwaysRestores(cfg: Config) {
    forall actions | Runs(cfg, Init(cfg), actions) ::
      After(cfg, Init(cfg), actions).flying == map[] ==> After(cfg, Init(cfg), actions).limit == cfg.configured
  }

  /** Tiers that make no difference. */
  ghost predicate OneLimit(cfg: Config) {
    forall key :: TierLimit(cfg, key) == cfg.configured
  }

  /** Overlapping calls are all decided under their own tier if and only if the tiers make no difference. */
  lemma AlwaysOwnTierExactlyWhen(cfg: Config)
    ensures AlwaysOwnTier(cfg) <==> OneLimit(cfg)
  {
    if OneLimit(cfg) {
      forall actions | Runs(cfg, Init(cfg), actions) ensures OwnTiers(cfg, After(cfg, Init(cfg), actions)) {
        RunKeepsInv(cfg, Init(cfg), actions);
      }
    } else {
      var key :| TierLimit(cfg, key) != cfg.configured;
      PutBackIsConfigured(cfg, "", key);
      assert !OwnTiers(cfg, After(cfg, Init(cfg), PutBack("", key)));
    }
  }

  /** The second call reads the limit while the first one's tier is installed, and puts that back last. */
  function Crossing(c: string, k: string, d: string, l: string): seq<Action> {
    [Enter(0, c, k), ReadLimit(0), InstallTier(0), Enter(1, d, l), ReadLimit(1), Ask(0, 0), Restore(0),
     InstallTier(1), Ask(1, 0), Restore(1)]
  }

  /** For any configuration and keys, two overlapping calls can leave the first one's tier limit installed with
      nothing in flight. */
  lemma OverlapLeavesTierLimit(cfg: Config, c: string, k: string, d: string, l: string)
    ensures Runs(cfg, Init(cfg), Crossing(c, k, d, l))
    ensures
      var t := After(cfg, Init(cfg), Crossing(c, k, d, l));
      t.flying == map[] && t.limit == TierLimit(cfg, k)
  {
    var a := Crossing(c, k, d, l);
    var s0 := Init(cfg);
    var s4 := ForwardFour(cfg, s0, a);
    var s8 := ForwardFour(cfg, s4, a[4..]);
    assert a[4..][4..] == a[8..];
    var s9 := Next(cfg, s8, a[8]);
    var s10 := Next(cfg, s9, a[9]);
    assert a[8..][1..] == a[9..] && a[9..][1..] == [];
    assert s10.flying == map[];
    assert Runs(cfg, s10, a[9..][1..]) && Runs(cfg, s9, a[9..]);
    assert After(cfg, s9, a[9..]) == s10;
    assert After(cfg, s8, a[8..]) == s10;
  }

  /** Overlapping calls always restore the configured limit if and only if the tiers make no difference. */
  lemma AlwaysRestoresExactlyWhen(cfg: Config)
    ensures AlwaysRestores(cfg) <==> OneLimit(cfg)
  {
    if OneLimit(cfg) {
      forall actions | Runs(cfg, Init(cfg), actions) ensures After(cfg, Init(cfg), actions).limit == cfg.configured {
        LimitIsAlwaysKnown(cfg, actions);
      }
    } else {
      var key :| TierLimit(cfg, key) != cfg.configured;
      OverlapLeavesTierLimit(cfg, "", key, "", key);
    }
  }
}
