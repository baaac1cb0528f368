/**
 Whether an open breaker can close again.  A node's breaker closes when a request forwarded to it succeeds
 (gateway/service.go) or an administrator resets it, but the matchmaker selects no node whose breaker is open
 (matchmaker/service.go), so only requests that reach the node some other way can close it.  The requests and their
 sessions are those of NodeLoad.
 */
module Recovery {
  import Breaker
  import NodeLoad
  import NodeSelection
  import opened Wrappers

  type Request = NodeLoad.Request

  datatype State = State(breaker: Breaker.State, requests: NodeLoad.State)

  /** The address a request is forwarded to, and whether dialling an address and writing to it can succeed. */
  datatype Network = Network(address: Request -> string, answers: string -> bool)

  datatype Event =
    | Flow(e: NodeLoad.Event)                // everything about requests but their end
    | Forwarded(request: Request, ok: bool)  // their end
    | Probe(node: string)                    // a failed health check
    | Reset(node: string)
    | Reload(threshold: int)

  predicate Open(s: State, node: string) {
    Breaker.Open(s.breaker, node)
  }

  predicate Answered(net: Network, r: Request) {
    net.answers(net.address(r))
  }

  predicate Enabled(net: Network, s: State, e: Event) {
    match e
    case Flow(f) =>
      && !f.Finished? && NodeLoad.Enabled(s.requests, f)
      && (f.Fresh? || f.Leaked? ==> !Open(s, f.node))
    case Forwarded(r, ok) => NodeLoad.Enabled(s.requests, NodeLoad.Finished(r)) && (ok ==> Answered(net, r))
    case _ => true
  }

  /** Why selection is enabled for closed breakers only: SelectNode returns no other node. */
  lemma OpenIsNotSelected(s: State, store: NodeSelection.Store, health: map<string, real>, decay: int -> real,
                          q: NodeSelection.Query, r: Result<NodeSelection.Node, NodeSelection.Failure>,
                          store': NodeSelection.Store)
    requires NodeSelection.SelectsNode(s.breaker.breakers, store, health, decay, q, r, store') && r.Ok?
    ensures !Open(s, r.value.id)
  {
    NodeSelection.ReturnedNodeIsEligible(s.breaker.breakers, store, health, decay, q, r, store');
  }

  /** m is the matchmaker's failure threshold. */
  function Next(net: Network, s: State, e: Event, m: int): State
    requires Enabled(net, s, e)
  {
    match e
    case Flow(f) => s.(requests := NodeLoad.Step(s.requests, f))
    case Forwarded(r, ok) =>
      var outcome := if ok then Breaker.ForwardSucceeded(r.node) else Breaker.ForwardFailed(r.node);
      State(Breaker.Next(s.breaker, outcome, m), NodeLoad.Step(s.requests, NodeLoad.Finished(r)))
    case Probe(n) => s.(breaker := Breaker.Next(s.breaker, Breaker.HealthCheckFailed(n), m))
    case Reset(n) => s.(breaker := Breaker.Next(s.breaker, Breaker.AdminReset(n), m))
    case Reload(g) => s.(breaker := Breaker.Next(s.breaker, Breaker.Reload(g), m))
  }

  ghost predicate Runs(net: Network, s: State, events: seq<Event>, m: int)
    decreases events
  {
    events == [] || (Enabled(net, s, events[0]) && Runs(net, Next(net, s, events[0], m), events[1..], m))
  }

  function After(net: Network, s: State, events: seq<Event>, m: int): State
    requires Runs(net, s, events, m)
    decreases events
  {
    if events == [] then s else After(net, Next(net, s, events[0], m), events[1..], m)
  }

  /** No reset of the node, and, unless allowed, no registration of it. */
  ghost predicate Unaided(events: seq<Event>, node: string, registering: bool) {
    forall i | 0 <= i < |events| ::
      events[i] != Reset(node) && (registering || events[i] != Flow(NodeLoad.Registered(node)))
  }

  /** A request on its way to the node can be answered. */
  ghost predicate OnItsWay(net: Network, q: NodeLoad.State, node: string) {
    exists r :: r in q.inFlight && r.node == node && Answered(net, r)
  }

  /** A session names the node, which has metadata or may get it again, and a request taken from it can be answered. */
  ghost predicate Resumable(net: Network, q: NodeLoad.State, node: string, registering: bool) {
    && (exists session :: session in q.sessions && q.sessions[session] == node)
    && (node in q.meta || (registering && node != ""))
    && Answered(net, NodeLoad.Request(node, true))
  }

  ghost predicate Reached(net: Network, q: NodeLoad.State, node: string, registering: bool) {
    OnItsWay(net, q, node) || Resumable(net, q, node, registering)
  }

  /** A step that neither selects the node nor, unless allowed, registers it, does not make it reached. */
  lemma FlowKeepsUnreached(net: Network, q: NodeLoad.State, f: NodeLoad.Event, node: string, registering: bool)
    requires NodeLoad.Enabled(q, f) && !Reached(net, q, node, registering)
    requires !(f.Fresh? && f.node == node) && (registering || f != NodeLoad.Registered(node))
    ensures !Reached(net, NodeLoad.Step(q, f), node, registering)
  {
    hide NodeLoad.Contains, Answered;
    var t := NodeLoad.Step(q, f);
    assert f.Cached? && q.sessions[f.session] == node ==> !Answered(net, NodeLoad.Request(node, true));
    forall r | r in t.inFlight && r.node == node ensures !Answered(net, r) {
      assert r in q.inFlight || (f.Cached? && r == NodeLoad.Request(node, true));
    }
    SessionsOnlyPinned(q, f, node);
  }

  /** A session names a node after a step only if one did before, or the step selected the node. */
  lemma SessionsOnlyPinned(q: NodeLoad.State, f: NodeLoad.Event, node: string)
    requires NodeLoad.Enabled(q, f) && !(f.Fresh? && f.node == node)
    ensures
      var t := NodeLoad.Step(q, f);
      (forall session | session in t.sessions && t.sessions[session] == node ::
         session in q.sessions && q.sessions[session] == node)
      && (node in t.meta ==> node in q.meta || f == NodeLoad.Registered(node))
  {
    hide NodeLoad.Contains;
  }

  /** Only an answered request to the node and its reset close the breaker. */
  lemma BreakerStaysOpen(net: Network, s: State, e: Event, node: string, m: int)
    requires Open(s, node) && Enabled(net, s, e) && e != Reset(node)
    requires e.Forwarded? && e.ok ==> e.request.node != node
    ensures Open(Next(net, s, e, m), node)
  {
    hide NodeLoad.Step, NodeLoad.Enabled;
  }

  lemma StepStaysUnreached(net: Network, s: State, e: Event, node: string, registering: bool, m: int)
    requires Open(s, node) && !Reached(net, s.requests, node, registering) && Enabled(net, s, e)
    requires e != Reset(node) && (registering || e != Flow(NodeLoad.Registered(node)))
    ensures Open(Next(net, s, e, m), node) && !Reached(net, Next(net, s, e, m).requests, node, registering)
  {
    assert e.Forwarded? && e.ok && e.request.node == node ==> OnItsWay(net, s.requests, node);
    BreakerStaysOpen(net, s, e, node, m);
    match e
    case Flow(f) => FlowKeepsUnreached(net, s.requests, f, node, registering);
    case Forwarded(r, _) => FlowKeepsUnreached(net, s.requests, NodeLoad.Finished(r), node, registering);
    case _ =>
  }

  /** Short of a reset, the open breaker of an unreached node stays open and the node stays unreached. */
  lemma {:induction false} UnreachedStaysOpen(net: Network, s: State, events: seq<Event>, node: string,
                                              registering: bool, m: int)
    requires Open(s, node) && !Reached(net, s.requests, node, registering)
    requires Runs(net, s, events, m) && Unaided(events, node, registering)
    ensures Open(After(net, s, events, m), node)
    decreases events
  {
    if events != [] {
      StepStaysUnreached(net, s, events[0], node, registering, m);
      assert forall i | 0 <= i < |events[1..]| :: events[1..][i] == events[i + 1];
      hide Open, Reached, Next, Enabled;
      UnreachedStaysOpen(net, Next(net, s, events[0], m), events[1..], node, registering, m);
    }
  }

  /** Some run without a reset of the node closes its breaker. */
  ghost predicate CanRecover(net: Network, s: State, node: string, registering: bool, m: int) {
    exists events ::
      Runs(net, s, events, m) && Unaided(events, node, registering) && !Open(After(net, s, events, m), node)
  }

  /** An open breaker can close by itself if and only if a request that can be answered is already on its way to the
      node, or a session names it, it has metadata (or may register again), and a request from the session can be
      answered. */
  lemma CanRecoverExactlyWhenReached(net: Network, s: State, node: string, registering: bool, m: int)
    requires Open(s, node)
    ensures CanRecover(net, s, node, registering, m) <==> Reached(net, s.requests, node, registering)
  {
    if !Reached(net, s.requests, node, registering) {
      forall events | Runs(net, s, events, m) && Unaided(events, node, registering)
        ensures Open(After(net, s, events, m), node)
      {
        UnreachedStaysOpen(net, s, events, node, registering, m);
      }
    } else if OnItsWay(net, s.requests, node) {
      var r :| r in s.requests.inFlight && r.node == node && Answered(net, r);
      AnswerCloses(net, s, r, m);
    } else if node in s.requests.meta {
      var events := ResumeCloses(net, s, node, m);
    } else {
      var e := Flow(NodeLoad.Registered(node));
      var events := ResumeCloses(net, Next(net, s, e, m), node, m);
      RunsCons(net, s, e, events, m);
      assert Unaided([e] + events, node, registering);
    }
  }

  lemma AnswerCloses(net: Network, s: State, r: Request, m: int)
    requires r in s.requests.inFlight && Answered(net, r)
    ensures Runs(net, s, [Forwarded(r, true)], m) && !Open(After(net, s, [Forwarded(r, true)], m), r.node)
  {
    var e := Forwarded(r, true);
    var t := Next(net, s, e, m);
    assert Runs(net, t, [], m) && After(net, t, [], m) == t;
    RunsCons(net, s, e, [], m);
    assert [e] + [] == [e];
    assert !Open(t, r.node);
  }

  lemma ResumeCloses(net: Network, s: State, node: string, m: int) returns (events: seq<Event>)
    requires node in s.requests.meta && Answered(net, NodeLoad.Request(node, true))
    requires exists session :: session in s.requests.sessions && s.requests.sessions[session] == node
    ensures Runs(net, s, events, m) && Unaided(events, node, false) && !Open(After(net, s, events, m), node)
  {
    var session :| session in s.requests.sessions && s.requests.sessions[session] == node;
    var e, r := Flow(NodeLoad.Cached(session)), NodeLoad.Request(node, true);
    AnswerCloses(net, Next(net, s, e, m), r, m);
    RunsCons(net, s, e, [Forwarded(r, true)], m);
    events := [e] + [Forwarded(r, true)];
  }

  lemma RunsCons(net: Network, s: State, e: Event, events: seq<Event>, m: int)
    requires Enabled(net, s, e) && Runs(net, Next(net, s, e, m), events, m)
    ensures Runs(net, s, [e] + events, m)
    ensures After(net, s, [e] + events, m) == After(net, Next(net, s, e, m), events, m)
  {
    assert ([e] + events)[1..] == events;
  }

  // ----- With the addresses the program supplies

  /** Neither a selected node nor a session's node comes with an address, and dialling none always fails. */
  ghost predicate AsSupplied(net: Network) {
    (forall r :: net.address(r) == "") && !net.answers("")
  }

  /** Then from whatever state, and with any registrations, only a reset closes a breaker. */
  lemma OnlyResetCloses(net: Network, s: State, events: seq<Event>, node: string, m: int)
    requires AsSupplied(net) && Open(s, node) && Runs(net, s, events, m)
    requires forall i | 0 <= i < |events| :: events[i] != Reset(node)
    ensures Open(After(net, s, events, m), node)
    ensures !CanRecover(net, s, node, true, m)
  {
    CanRecoverExactlyWhenReached(net, s, node, true, m);
    UnreachedStaysOpen(net, s, events, node, true, m);
  }

  /** Indeed no run has a forward that succeeds. */
  lemma {:induction false} NoSuccess(net: Network, s: State, events: seq<Event>, m: int)
    requires AsSupplied(net) && Runs(net, s, events, m)
    ensures forall i, r | 0 <= i < |events| :: events[i] != Forwarded(r, true)
    decreases events
  {
    if events != [] {
      var rest := events[1..];
      NoSuccess(net, Next(net, s, events[0], m), rest, m);
      forall i, r | 0 <= i < |events| ensures events[i] != Forwarded(r, true) {
        assert i > 0 ==> events[i] == rest[i - 1];
      }
    }
  }
}
