/**
 The two failure counters in series: the gateway's own count per node (gateway/service.go) forwards a failure
 to the matchmaker's circuit breaker (matchmaker/service.go) only from its threshold on.
 */
module Breaker {

  /** A breaker keeps the threshold it was created with. */
  datatype CircuitBreaker = CircuitBreaker(failureCount: int, threshold: int, open: bool)

  type Breakers = map<string, CircuitBreaker>

  function Failed(breakers: Breakers, threshold: int, node: string): Breakers {
    var cb := if node in breakers then breakers[node] else CircuitBreaker(0, threshold, false);
    var count := cb.failureCount + 1;
    breakers[node := CircuitBreaker(count, cb.threshold, cb.open || count >= cb.threshold)]
  }

  function Closed(breakers: Breakers, node: string): Breakers {
    if node in breakers then breakers[node := breakers[node].(failureCount := 0, open := false)] else breakers
  }

  predicate Healthy(breakers: Breakers, node: string) {
    node in breakers ==> !breakers[node].open
  }

  class Matchmaker {
    var circuitBreakers: Breakers
    const threshold: int

    constructor (threshold: int)
      ensures circuitBreakers == map[] && this.threshold == threshold
    {
      circuitBreakers := map[];
      this.threshold := threshold;
    }

    method RecordFailure(nodeID: string)
      modifies this
      ensures circuitBreakers == Failed(old(circuitBreakers), threshold, nodeID)
    {
      if nodeID !in circuitBreakers {
        circuitBreakers := circuitBreakers[nodeID := CircuitBreaker(0, threshold, false)];
      }
      var cb := circuitBreakers[nodeID];
      cb := cb.(failureCount := cb.failureCount + 1);
      if cb.failureCount >= cb.threshold {
        cb := cb.(open := true);
      }
      circuitBreakers := circuitBreakers[nodeID := cb];
    }

    method RecordSuccess(nodeID: string)
      modifies this
      ensures circuitBreakers == Closed(old(circuitBreakers), nodeID)
    {
      if nodeID in circuitBreakers {
        circuitBreakers := circuitBreakers[nodeID := circuitBreakers[nodeID].(failureCount := 0, open := false)];
      }
    }

    /** The administrator's reset. */
    method ResetCircuitBreaker(nodeID: string)
      modifies this
      ensures circuitBreakers == Closed(old(circuitBreakers), nodeID)
    {
      if nodeID in circuitBreakers {
        circuitBreakers := circuitBreakers[nodeID := circuitBreakers[nodeID].(failureCount := 0, open := false)];
      }
    }

    method IsNodeHealthy(nodeID: string) returns (healthy: bool)
      ensures healthy <==> Healthy(circuitBreakers, nodeID)
    {
      if nodeID !in circuitBreakers {
        return true;
      }
      healthy := !circuitBreakers[nodeID].open;
    }
  }

  class Gateway {
    const matchmaker: Matchmaker
    var nodeFailures: map<string, int>
    var circuitBreakerThreshold: int

    constructor (matchmaker: Matchmaker, threshold: int)
      ensures this.matchmaker == matchmaker && nodeFailures == map[] && circuitBreakerThreshold == threshold
    {
      this.matchmaker := matchmaker;
      nodeFailures := map[];
      circuitBreakerThreshold := threshold;
    }

    function Now(): State
      reads this, matchmaker
    {
      State(nodeFailures, matchmaker.circuitBreakers, circuitBreakerThreshold)
    }

    method RecordFailure(nodeID: string)
      modifies `nodeFailures, matchmaker
      ensures Now() == Next(old(Now()), ForwardFailed(nodeID), matchmaker.threshold)
    {
      nodeFailures := nodeFailures[nodeID := (if nodeID in nodeFailures then nodeFailures[nodeID] else 0) + 1];
      if nodeFailures[nodeID] >= circuitBreakerThreshold {
        matchmaker.RecordFailure(nodeID);
      }
    }

    method RecordSuccess(nodeID: string)
      modifies `nodeFailures, matchmaker
      ensures Now() == Next(old(Now()), ForwardSucceeded(nodeID), matchmaker.threshold)
    {
      nodeFailures := nodeFailures[nodeID := 0];
      matchmaker.RecordSuccess(nodeID);
    }

    /** A reload of the configuration, or an update through the interface; the matchmaker's threshold stays. */
    method ApplyThreshold(threshold: int)
      modifies `circuitBreakerThreshold
      ensures Now() == Next(old(Now()), Reload(threshold), matchmaker.threshold)
    {
      circuitBreakerThreshold := threshold;
    }
  }

  // ----- Traces over both counters

  /** threshold: the gateway's, which a reload can change. */
  datatype State = State(failures: map<string, int>, breakers: Breakers, threshold: int)

  function Init(g: int): State {
    State(map[], map[], g)
  }

  datatype Event =
    | ForwardFailed(node: string)       // gateway could not reach the node
    | ForwardSucceeded(node: string)
    | HealthCheckFailed(node: string)   // matchmaker's own ping, not counted by the gateway
    | AdminReset(node: string)          // resets the breaker only
    | Reload(threshold: int)            // of the gateway's threshold

  function FailureCount(failures: map<string, int>, node: string): int {
    if node in failures then failures[node] else 0
  }

  /** m is the matchmaker's threshold. */
  function Next(s: State, e: Event, m: int): State {
    match e
    case ForwardFailed(n) =>
      var count := FailureCount(s.failures, n) + 1;
      s.(failures := s.failures[n := count],
         breakers := if count >= s.threshold then Failed(s.breakers, m, n) else s.breakers)
    case ForwardSucceeded(n) => s.(failures := s.failures[n := 0], breakers := Closed(s.breakers, n))
    case HealthCheckFailed(n) => s.(breakers := Failed(s.breakers, m, n))
    case AdminReset(n) => s.(breakers := Closed(s.breakers, n))
    case Reload(threshold) => s.(threshold := threshold)
  }

  /** g is the gateway's threshold at the start. */
  function After(trace: seq<Event>, g: int, m: int): State {
    if trace == [] then Init(g) else Next(After(trace[..|trace| - 1], g, m), trace[|trace| - 1], m)
  }

  predicate Open(s: State, node: string) {
    !Healthy(s.breakers, node)
  }

  // ----- What the trace alone says

  /** Failed forwards to a node since its last successful one. */
  function ForwardFailures(trace: seq<Event>, node: string): nat {
    if trace == [] then 0 else
      var last, before := trace[|trace| - 1], ForwardFailures(trace[..|trace| - 1], node);
      if last == ForwardFailed(node) then before + 1
      else if last == ForwardSucceeded(node) then 0
      else before
  }

  /** The gateway's threshold in force after a trace. */
  function InForce(trace: seq<Event>, g: int): int {
    if trace == [] then g
    else if trace[|trace| - 1].Reload? then trace[|trace| - 1].threshold
    else InForce(trace[..|trace| - 1], g)
  }

  /** Failures that reach the matchmaker since the node's last success or reset: failed health checks, and the
      failed forwards that, in a row, number at least the threshold in force when they fail. */
  function MatchmakerFailures(trace: seq<Event>, node: string, g: int): nat {
    if trace == [] then 0 else
      var last, before := trace[|trace| - 1], MatchmakerFailures(trace[..|trace| - 1], node, g);
      if last == HealthCheckFailed(node) then before + 1
      else if last == ForwardFailed(node) && ForwardFailures(trace, node) >= InForce(trace, g) then before + 1
      else if last == ForwardSucceeded(node) || last == AdminReset(node) then 0
      else before
  }

  ghost predicate Tracks(s: State, trace: seq<Event>, node: string, g: int, m: int) {
    && s.threshold == InForce(trace, g)
    && FailureCount(s.failures, node) == ForwardFailures(trace, node)
    && (node !in s.breakers ==> MatchmakerFailures(trace, node, g) == 0)
    && (node in s.breakers ==>
          s.breakers[node] == CircuitBreaker(MatchmakerFailures(trace, node, g), m,
                                             MatchmakerFailures(trace, node, g) >= m))
  }

  lemma {:induction false} TraceTracks(trace: seq<Event>, node: string, g: int, m: int)
    requires m >= 1
    ensures Tracks(After(trace, g, m), trace, node, g, m)
  {
    if trace != [] {
      TraceTracks(trace[..|trace| - 1], node, g, m);
    }
  }

  /** On every trace with health checks, resets and reloads, a node's breaker is open exactly when the matchmaker
      failures since its last success or reset reach the threshold. */
  lemma OpenExactlyWhen(trace: seq<Event>, node: string, g: int, m: int)
    requires m >= 1
    ensures Open(After(trace, g, m), node) <==> MatchmakerFailures(trace, node, g) >= m
  {
    TraceTracks(trace, node, g, m);
  }

  ghost predicate GatewayOnly(trace: seq<Event>) {
    forall i | 0 <= i < |trace| :: trace[i].ForwardFailed? || trace[i].ForwardSucceeded?
  }

  lemma {:induction false} NoReload(trace: seq<Event>, g: int)
    requires GatewayOnly(trace)
    ensures InForce(trace, g) == g
  {
    if trace != [] {
      NoReload(trace[..|trace| - 1], g);
    }
  }

  lemma {:induction false} ForwardedShare(trace: seq<Event>, node: string, g: int)
    requires GatewayOnly(trace) && g >= 1
    ensures MatchmakerFailures(trace, node, g)
            == if ForwardFailures(trace, node) >= g then ForwardFailures(trace, node) - g + 1 else 0
  {
    if trace != [] {
      NoReload(trace, g);
      ForwardedShare(trace[..|trace| - 1], node, g);
    }
  }

  /** In series the thresholds add up: on every trace of forwards, over any nodes, a node's breaker is open
      exactly when its failed forwards since the last successful one number at least g + m - 1. */
  lemma ThresholdsAddUp(trace: seq<Event>, node: string, g: int, m: int)
    requires GatewayOnly(trace) && g >= 1 && m >= 1
    ensures Open(After(trace, g, m), node) <==> ForwardFailures(trace, node) >= g + m - 1
  {
    OpenExactlyWhen(trace, node, g, m);
    ForwardedShare(trace, node, g);
  }

  function Repeat(e: Event, k: nat): seq<Event> {
    if k == 0 then [] else Repeat(e, k - 1) + [e]
  }

  /** A reset leaves the gateway's counter standing: once that is at the threshold in force less one, or more, a reset
      node is closed for only m - 1 further failed forwards, not g + m - 2. */
  lemma {:induction false} ResetForgetsHalf(trace: seq<Event>, node: string, g: int, m: int, k: nat)
    requires m >= 1 && ForwardFailures(trace, node) >= InForce(trace, g) - 1
    ensures Open(After(trace + [AdminReset(node)] + Repeat(ForwardFailed(node), k), g, m), node) <==> k >= m
  {
    FailuresAfterReset(trace, node, g, k);
    OpenExactlyWhen(trace + [AdminReset(node)] + Repeat(ForwardFailed(node), k), node, g, m);
  }

  lemma {:induction false} FailuresAfterReset(trace: seq<Event>, node: string, g: int, k: nat)
    requires ForwardFailures(trace, node) >= InForce(trace, g) - 1
    ensures
      var t := trace + [AdminReset(node)] + Repeat(ForwardFailed(node), k);
      && ForwardFailures(t, node) == ForwardFailures(trace, node) + k && MatchmakerFailures(t, node, g) == k
      && InForce(t, g) == InForce(trace, g)
  {
    var reset := trace + [AdminReset(node)];
    var t := reset + Repeat(ForwardFailed(node), k);
    if k == 0 {
      assert t == reset && reset[..|reset| - 1] == trace;
    } else {
      FailuresAfterReset(trace, node, g, k - 1);
      assert t[..|t| - 1] == reset + Repeat(ForwardFailed(node), k - 1);
    }
  }
}
