/**
 A node's load over whole runs: the matchmaker increments it when it selects a node (matchmaker/service.go), the
 gateway decrements it when a forwarded request ends (gateway/service.go), also for requests that took their node
 from a session and were never counted.
 */
module NodeLoad {
  import Breaker
  import opened NodeSelection
  import opened Wrappers

  /** A request being forwarded. */
  datatype Request = Request(node: string, cached: bool)

  /** meta: the nodes that have metadata. */
  datatype State =
    State(load: map<string, int>, sessions: map<string, string>, meta: set<string>, inFlight: multiset<Request>)

  const IDLE: State := State(map[], map[], {}, multiset{})

  datatype Event =
    | Fresh(session: string, node: string)  // selected and counted; the session is pinned to the node
    | Leaked(node: string)                  // selected and counted, then refused: no metadata
    | Cached(session: string)               // taken from the session, not counted
    | Finished(request: Request)            // forwarding ended, in success or failure
    | Expired(session: string)              // by time or by the administrator
    | Registered(node: string)
    | Deregistered(name: string)

  function Load(s: State, node: string): int {
    if node in s.load then s.load[node] else 0
  }

  predicate Contains(text: string, part: string) {
    part <= text || (text != "" && Contains(text[1..], part))
  }

  /** Deregistration deletes every key that contains the node's name, so another node's or a session's key too if
      it happens to contain it, and no key that does not, such as a session pinned to the node. */
  predicate DropsLoad(name: string, node: string) {
    Contains("node_load:" + node, name)
  }

  predicate DropsMeta(name: string, node: string) {
    Contains("node_meta:" + node, name)
  }

  predicate DropsSession(name: string, session: string) {
    Contains("session:" + session, name)
  }

  predicate Enabled(s: State, e: Event) {
    match e
    case Fresh(_, n) => n in s.meta
    case Leaked(n) => n !in s.meta
    case Cached(session) => session in s.sessions && s.sessions[session] in s.meta
    case Finished(r) => r in s.inFlight
    case Expired(_) => true
    case Registered(n) => n != ""
    case Deregistered(name) => name != ""
  }

  function Pin(sessions: map<string, string>, session: string, node: string): map<string, string> {
    if session != "" && node != "" then sessions[session := node] else sessions
  }

  function Step(s: State, e: Event): State
    requires Enabled(s, e)
  {
    match e
    case Fresh(session, n) =>
      s.(load := s.load[n := Load(s, n) + 1], sessions := Pin(s.sessions, session, n),
         inFlight := s.inFlight + multiset{Request(n, false)})
    case Leaked(n) => s.(load := s.load[n := Load(s, n) + 1])
    case Cached(session) => s.(inFlight := s.inFlight + multiset{Request(s.sessions[session], true)})
    case Finished(r) => s.(load := s.load[r.node := Load(s, r.node) - 1], inFlight := s.inFlight - multiset{r})
    case Expired(session) => s.(sessions := s.sessions - {session})
    case Registered(n) => s.(meta := s.meta + {n})
    case Deregistered(name) =>
      s.(load := map n | n in s.load && !DropsLoad(name, n) :: s.load[n],
         sessions := map k | k in s.sessions && !DropsSession(name, k) :: s.sessions[k],
         meta := set n | n in s.meta && !DropsMeta(name, n))
  }

  // ----- The handlers

  class Gateway {
    const selector: NodeSelector
    var sessions: map<string, string>
    ghost var inFlight: multiset<Request>

    constructor (selector: NodeSelector)
      ensures this.selector == selector && sessions == map[] && inFlight == multiset{}
    {
      this.selector := selector;
      sessions, inFlight := map[], multiset{};
    }

    ghost function Now(): State
      reads this, selector
    {
      State(selector.store.load, sessions, selector.store.meta.Keys, inFlight)
    }

    /** The session names a node that has metadata; neither its breaker nor a cooldown is looked at. */
    predicate Pinned(session: string)
      reads this, selector
    {
      session != "" && session in sessions && sessions[session] != "" && sessions[session] in selector.store.meta
    }

    /** proxyHandler up to the forwarding: the request and the address to forward it to, which is always empty. */
    method Begin(session: string, q: Query) returns (r: Result<Request, Failure>, ip: string)
      modifies `sessions, `inFlight, selector`store
      ensures old(Pinned(session)) ==>
        && r == Ok(Request(old(sessions)[session], true)) && selector.store == old(selector.store)
        && Now() == Step(old(Now()), Cached(session))
      ensures !old(Pinned(session)) ==> exists selected ::
        && SelectsNode(selector.matchmaker.circuitBreakers, old(selector.store), selector.healthScore,
                       selector.decay, q, selected, selector.store)
        && r == if selected.Ok? then Ok(Request(selected.value.id, false)) else Err(selected.error)
      ensures !old(Pinned(session)) && r.Ok? ==>
        r.value.node in old(Now()).meta && Now() == Step(old(Now()), Fresh(session, r.value.node))
      ensures r == Err(MetaMissing) ==> exists n :: n !in old(Now()).meta && Now() == Step(old(Now()), Leaked(n))
      ensures r.Err? && r.error != MetaMissing ==> Now() == old(Now())
      ensures ip == ""
    {
      hide SelectsNode, Contains;
      if session != "" && session in sessions {
        var nodeID := sessions[session];
        var status := NodeStatus(selector.store, nodeID);
        if nodeID != "" && status.Some? {
          inFlight := inFlight + multiset{Request(nodeID, true)};
          return Ok(Request(nodeID, true)), status.value.ip;
        }
      }
      r, ip := BeginFresh(session, q);
    }

    /** Its second half, for a request without a usable session. */
    method BeginFresh(session: string, q: Query) returns (r: Result<Request, Failure>, ip: string)
      modifies `sessions, `inFlight, selector`store
      ensures exists selected ::
        && SelectsNode(selector.matchmaker.circuitBreakers, old(selector.store), selector.healthScore,
                       selector.decay, q, selected, selector.store)
        && r == if selected.Ok? then Ok(Request(selected.value.id, false)) else Err(selected.error)
      ensures r.Ok? ==>
        r.value.node in old(Now()).meta && Now() == Step(old(Now()), Fresh(session, r.value.node))
      ensures r == Err(MetaMissing) ==> exists n :: n !in old(Now()).meta && Now() == Step(old(Now()), Leaked(n))
      ensures r.Err? && r.error != MetaMissing ==> Now() == old(Now())
      ensures ip == ""
    {
      hide SelectsNode, Contains;
      var selected := selector.SelectNode(q);
      ChargesOne(selector.matchmaker.circuitBreakers, old(selector.store), selector.healthScore, selector.decay, q,
                 selected, selector.store);
      if selected.Err? {
        if selected.error == MetaMissing {
          ghost var n :| n !in old(selector.store).meta && selector.store == Incremented(old(selector.store), n);
          assert Now() == Step(old(Now()), Leaked(n));
        }
        return Err(selected.error), "";
      }
      var node := selected.value.id;
      if session != "" && node != "" {
        sessions := sessions[session := node];
      }
      inFlight := inFlight + multiset{Request(node, false)};
      r, ip := Ok(Request(node, false)), selected.value.ip;
    }

    /** The deferred end of forwardRequest. */
    method Finish(request: Request)
      requires request in inFlight
      modifies `inFlight, selector`store
      ensures Now() == Step(old(Now()), Finished(request))
      ensures selector.store == old(selector.store).(load := selector.store.load)
    {
      var load := LoadOf(selector.store, request.node);
      selector.store := selector.store.(load := selector.store.load[request.node := load - 1]);
      inFlight := inFlight - multiset{request};
    }
  }

  lemma ChargesOne(breakers: Breaker.Breakers, s: Store, health: map<string, real>, decay: int -> real, q: Query,
                   r: Result<Node, Failure>, s': Store)
    requires SelectsNode(breakers, s, health, decay, q, r, s')
    ensures r.Ok? ==> s' == Incremented(s, r.value.id) && r.value.id in s.meta && r.value.ip == ""
    ensures r == Err(MetaMissing) ==> exists n :: n !in s.meta && s' == Incremented(s, n)
    ensures r.Err? && r.error != MetaMissing ==> s' == s
  {
    var candidates := Candidates(s, q);
    var eligible := Eligible(breakers, s, q, candidates);
    if LookupError(s, q).None? && candidates != [] && eligible != [] {
      var facts := AllFacts(s, health, decay, q.now, eligible);
      var choice :| Selects(eligible, facts, q.draw, choice) && Charges(s, q, choice, r, s');
      ChoiceErrors(eligible, facts, q.draw, choice);
    }
  }

  lemma ChoiceErrors(nodes: seq<string>, facts: map<string, Facts>, draw: Option<nat>, choice: Result<string, Failure>)
    requires forall n | n in nodes :: n in facts
    requires Selects(nodes, facts, draw, choice)
    ensures choice.Err? ==> choice.error != MetaMissing
  {
    if i :| FirstBest(Weights(nodes, facts), i) {
    }
  }

  // ----- Runs

  ghost predicate Legal(trace: seq<Event>)
    decreases |trace|, 0
  {
    trace == [] || (Legal(trace[..|trace| - 1]) && Enabled(After(trace[..|trace| - 1]), trace[|trace| - 1]))
  }

  ghost function After(trace: seq<Event>): State
    requires Legal(trace)
    decreases |trace|, 1
  {
    if trace == [] then IDLE else Step(After(trace[..|trace| - 1]), trace[|trace| - 1])
  }

  function CountEvent(trace: seq<Event>, e: Event): nat
    decreases |trace|
  {
    if trace == [] then 0 else CountEvent(trace[..|trace| - 1], e) + if trace[|trace| - 1] == e then 1 else 0
  }

  /** Selections refused after they were counted. */
  function Leaks(trace: seq<Event>, node: string): nat {
    CountEvent(trace, Leaked(node))
  }

  /** Finished requests that were never counted. */
  function CachedDone(trace: seq<Event>, node: string): nat {
    CountEvent(trace, Finished(Request(node, true)))
  }

  /** The load that deregistrations have deleted. */
  ghost function Dropped(trace: seq<Event>, node: string): int
    requires Legal(trace)
    decreases |trace|
  {
    if trace == [] then 0 else
      var front, last := trace[..|trace| - 1], trace[|trace| - 1];
      Dropped(front, node) + if Drops(last, node) then Load(After(front), node) else 0
  }

  predicate Drops(e: Event, node: string) {
    e.Deregistered? && DropsLoad(e.name, node)
  }

  /** On every run, with any number of requests in flight: a node's load is its selected requests in flight, plus
      its leaked selections, minus its finished session requests and what deregistrations deleted. */
  lemma {:induction false} Conservation(trace: seq<Event>, node: string)
    requires Legal(trace)
    ensures Load(After(trace), node)
            == After(trace).inFlight[Request(node, false)] + Leaks(trace, node)
               - CachedDone(trace, node) - Dropped(trace, node)
  {
    if trace != [] {
      var front, last := trace[..|trace| - 1], trace[|trace| - 1];
      Conservation(front, node);
      StepAccounts(After(front), last, node);
      hide Step, Enabled, DropsLoad, Load;
    }
  }

  /** What one step does to a node's load and to its selected requests in flight. */
  lemma StepAccounts(s: State, e: Event, node: string)
    requires Enabled(s, e)
    ensures
      var t, selected := Step(s, e), Request(node, false);
      Load(t, node) - t.inFlight[selected]
      == Load(s, node) - s.inFlight[selected]
         + (if e == Leaked(node) then 1 else 0)
         - (if e == Finished(Request(node, true)) then 1 else 0)
         - (if Drops(e, node) then Load(s, node) else 0)
  {
    hide Contains;
  }

  lemma {:induction false} NothingDropped(trace: seq<Event>, node: string)
    requires Legal(trace) && forall i | 0 <= i < |trace| :: !Drops(trace[i], node)
    ensures Dropped(trace, node) == 0
  {
    if trace != [] {
      NothingDropped(trace[..|trace| - 1], node);
      assert !Drops(trace[|trace| - 1], node);
    }
  }

  /** The selection weight's divisor stays positive exactly while the session requests done for a node and the load
      deleted for it do not exceed what was counted and is still owed: the requests in flight and those leaked. */
  lemma DivisorPositiveExactlyWhen(trace: seq<Event>, node: string)
    requires Legal(trace)
    ensures Load(After(trace), node) + 1 > 0
            <==> CachedDone(trace, node) + Dropped(trace, node)
                 <= After(trace).inFlight[Request(node, false)] + Leaks(trace, node)
  {
    Conservation(trace, node);
  }

  /** Without requests served from sessions and deletions the load is never below the requests in flight. */
  lemma NoSessionsNoDrift(trace: seq<Event>, node: string)
    requires Legal(trace) && forall i | 0 <= i < |trace| :: !trace[i].Cached? && !Drops(trace[i], node)
    ensures Load(After(trace), node) == After(trace).inFlight[Request(node, false)] + Leaks(trace, node) >= 0
  {
    NoSessionRequests(trace, node);
    NothingDropped(trace, node);
    Conservation(trace, node);
  }

  lemma {:induction false} NoSessionRequests(trace: seq<Event>, node: string)
    requires Legal(trace) && forall i | 0 <= i < |trace| :: !trace[i].Cached?
    ensures CachedDone(trace, node) == 0 && Request(node, true) !in After(trace).inFlight
  {
    if trace != [] {
      NoSessionRequests(trace[..|trace| - 1], node);
      var last := trace[|trace| - 1];
      assert !last.Cached?;
    }
  }

  // ----- Where it goes negative

  predicate Pins(e: Event, node: string) {
    e.Fresh? && e.node == node && e.session != "" && node != ""
  }

  ghost predicate Unnamed(s: State, node: string) {
    && (forall session | session in s.sessions :: s.sessions[session] != node)
    && Request(node, true) !in s.inFlight
  }

  lemma StepKeepsUnnamed(s: State, e: Event, node: string)
    requires Unnamed(s, node) && Enabled(s, e) && !Pins(e, node)
    ensures Unnamed(Step(s, e), node) && e != Finished(Request(node, true))
  {
    hide Contains;
  }

  /** Sessions, and the requests taken from them, name only nodes that were selected for a session before. */
  lemma {:induction false} SessionsNameSelected(trace: seq<Event>, node: string)
    requires Legal(trace)
    requires forall i | 0 <= i < |trace| :: !Pins(trace[i], node)
    ensures Unnamed(After(trace), node) && CachedDone(trace, node) == 0
  {
    if trace != [] {
      var front, last := trace[..|trace| - 1], trace[|trace| - 1];
      SessionsNameSelected(front, node);
      assert !Pins(last, node);
      hide Unnamed, Step, Enabled, Pins;
      StepKeepsUnnamed(After(front), last, node);
    }
  }

  /** So a node no session was ever pinned to and whose load was never deleted has no negative load. */
  lemma NegativeHasCause(trace: seq<Event>, node: string)
    requires Legal(trace) && Load(After(trace), node) < 0
    ensures exists i :: 0 <= i < |trace| && (Pins(trace[i], node) || Drops(trace[i], node))
  {
    Conservation(trace, node);
    if forall i | 0 <= i < |trace| :: !(Pins(trace[i], node) || Drops(trace[i], node)) {
      SessionsNameSelected(trace, node);
      NothingDropped(trace, node);
    }
  }

  /** One client, one session: a first request, then k more, each finished before the next. */
  function PinnedRun(session: string, node: string, k: nat): seq<Event> {
    if k == 0 then [Registered(node)] + [Fresh(session, node)] + [Finished(Request(node, false))]
    else PinnedRun(session, node, k - 1) + [Cached(session)] + [Finished(Request(node, true))]
  }

  function Sunk(session: string, node: string, depth: int): State {
    State(map[node := -depth], map[session := node], {node}, multiset{})
  }

  function Known(node: string): State {
    IDLE.(meta := {node})
  }

  lemma FreshCycle(session: string, node: string)
    requires session != "" && node != ""
    ensures Enabled(IDLE, Registered(node)) && Step(IDLE, Registered(node)) == Known(node)
    ensures Enabled(Known(node), Fresh(session, node))
    ensures
      var t := Step(Known(node), Fresh(session, node));
      Enabled(t, Finished(Request(node, false))) && Step(t, Finished(Request(node, false))) == Sunk(session, node, 0)
  {
    assert IDLE.meta + {node} == {node};
    var t := Step(Known(node), Fresh(session, node));
    assert t.inFlight == multiset{Request(node, false)};
    var done := Step(t, Finished(Request(node, false)));
    assert done.load == map[node := 0] && done.sessions == map[session := node];
  }

  lemma CachedCycle(session: string, node: string, depth: int)
    ensures Enabled(Sunk(session, node, depth), Cached(session))
    ensures
      var t := Step(Sunk(session, node, depth), Cached(session));
      && Enabled(t, Finished(Request(node, true)))
      && Step(t, Finished(Request(node, true))) == Sunk(session, node, depth + 1)
  {
    var t := Step(Sunk(session, node, depth), Cached(session));
    assert t.inFlight == multiset{Request(node, true)};
    var done := Step(t, Finished(Request(node, true)));
    assert done.load == map[node := -depth - 1];
  }

  /** There is no bound below: such a run ends at load -k with nothing in flight. */
  lemma {:induction false} PinnedRunSinks(session: string, node: string, k: nat)
    requires session != "" && node != ""
    ensures Legal(PinnedRun(session, node, k)) && After(PinnedRun(session, node, k)) == Sunk(session, node, k)
  {
    hide Step, Enabled;
    if k == 0 {
      FreshCycle(session, node);
      Extend([], Registered(node));
      assert [] + [Registered(node)] == [Registered(node)];
      Extend([Registered(node)], Fresh(session, node));
      Extend([Registered(node)] + [Fresh(session, node)], Finished(Request(node, false)));
    } else {
      var before := PinnedRun(session, node, k - 1);
      PinnedRunSinks(session, node, k - 1);
      CachedCycle(session, node, k - 1);
      Extend(before, Cached(session));
      Extend(before + [Cached(session)], Finished(Request(node, true)));
    }
  }

  lemma Extend(trace: seq<Event>, e: Event)
    requires Legal(trace) && Enabled(After(trace), e)
    ensures Legal(trace + [e]) && After(trace + [e]) == Step(After(trace), e)
  {
    assert (trace + [e])[..|trace|] == trace;
  }

  /** A node whose finished session requests and deleted load exceed by one what is owed for it draws every selection
      in which it passes the filter with positive merit, whatever the other nodes' loads and merits, as long as no
      such node comes before it. */
  lemma OverdrawnNodeCaptures(trace: seq<Event>, breakers: Breaker.Breakers, s: Store, health: map<string, real>,
                              decay: int -> real, q: Query, r: Result<Node, Failure>, s': Store, k: nat)
    requires Legal(trace) && s.load == After(trace).load
    requires SelectsNode(breakers, s, health, decay, q, r, s') && LookupError(s, q).None?
    requires k < |Eligible(breakers, s, q, Candidates(s, q))|
    requires
      var eligible := Eligible(breakers, s, q, Candidates(s, q));
      var node := eligible[k];
      && node != "" && node in s.meta && Merit(FactsFor(s, health, decay, q.now, node)) > 0.0
      && CachedDone(trace, node) + Dropped(trace, node)
         == After(trace).inFlight[Request(node, false)] + Leaks(trace, node) + 1
      && forall j | 0 <= j < k :: LoadOf(s, eligible[j]) != -1
    ensures r.Ok? && r.value.id == Eligible(breakers, s, q, Candidates(s, q))[k]
    ensures LoadOf(s', r.value.id) == 0
  {
    var eligible := Eligible(breakers, s, q, Candidates(s, q));
    var facts := AllFacts(s, health, decay, q.now, eligible);
    OwesOne(trace, s, eligible[k]);
    var choice := ChoiceMade(breakers, s, health, decay, q, r, s');
    FactsAre(s, health, decay, q.now, eligible);
    hide *;
    MinusOneCaptures(eligible, facts, q.draw, choice, k);
    ChargedOk(s, q, eligible[k], r, s');
  }

  lemma OwesOne(trace: seq<Event>, s: Store, node: string)
    requires Legal(trace) && s.load == After(trace).load
    requires CachedDone(trace, node) + Dropped(trace, node)
             == After(trace).inFlight[Request(node, false)] + Leaks(trace, node) + 1
    ensures LoadOf(s, node) == -1
  {
    Conservation(trace, node);
  }

  /** A charged node with metadata is returned, its load one higher. */
  lemma ChargedOk(s: Store, q: Query, node: string, r: Result<Node, Failure>, s': Store)
    requires Charges(s, q, Ok(node), r, s') && node in s.meta
    ensures r.Ok? && r.value.id == node && LoadOf(s', node) == LoadOf(s, node) + 1
  {
  }
}
