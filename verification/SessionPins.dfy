/**
 What the gateway's sessions, the nodes' metadata and the requests in flight are after any run of requests
 (gateway/service.go, matchmaker/redis_client.go), told from the events alone.
 */
module SessionPins {
  import opened NodeLoad
  import opened Wrappers

  predicate PinsTo(e: Event, session: string) {
    e.Fresh? && e.session == session && session != "" && e.node != ""
  }

  predicate Unpins(e: Event, session: string) {
    e == Expired(session) || (e.Deregistered? && DropsSession(e.name, session))
  }

  /** The node of the session's last selection, unless the session has expired or was deleted since. */
  function PinnedTo(trace: seq<Event>, session: string): Option<string>
    decreases |trace|
  {
    if trace == [] then None else
      var front, last := trace[..|trace| - 1], trace[|trace| - 1];
      if PinsTo(last, session) then Some(last.node)
      else if Unpins(last, session) then None
      else PinnedTo(front, session)
  }

  function Entry(sessions: map<string, string>, session: string): Option<string> {
    if session in sessions then Some(sessions[session]) else None
  }

  lemma StepPins(s: State, e: Event, session: string)
    requires Enabled(s, e)
    ensures Entry(Step(s, e).sessions, session)
            == if PinsTo(e, session) then Some(e.node)
               else if Unpins(e, session) then None
               else Entry(s.sessions, session)
  {
    hide Contains;
  }

  /** On every run a session names exactly the node it was last pinned to, and has no entry if there is none. */
  lemma {:induction false} SessionsArePinned(trace: seq<Event>, session: string)
    requires Legal(trace)
    ensures Entry(After(trace).sessions, session) == PinnedTo(trace, session)
    decreases |trace|
  {
    if trace != [] {
      var front, last := trace[..|trace| - 1], trace[|trace| - 1];
      SessionsArePinned(front, session);
      StepPins(After(front), last, session);
      hide Step, Enabled, PinsTo, Unpins, Entry;
    }
  }

  /** The same without recursion: a session names a node if and only if some selection pinned it there and nothing
      later pinned or unpinned it. */
  lemma {:induction false} PinnedExactlyWhen(trace: seq<Event>, session: string, node: string)
    ensures PinnedTo(trace, session) == Some(node) <==> exists i :: LastPin(trace, session, node, i)
    decreases |trace|
  {
    if trace != [] {
      var front, last := trace[..|trace| - 1], trace[|trace| - 1];
      PinnedExactlyWhen(front, session, node);
      if PinsTo(last, session) || Unpins(last, session) {
        assert forall i | LastPin(trace, session, node, i) :: i == |trace| - 1;
        assert LastPin(trace, session, node, |trace| - 1) <==> PinsTo(last, session) && last.node == node;
      } else {
        forall i ensures LastPin(trace, session, node, i) <==> LastPin(front, session, node, i) {
        }
      }
    }
  }

  ghost predicate LastPin(trace: seq<Event>, session: string, node: string, i: int) {
    && 0 <= i < |trace| && PinsTo(trace[i], session) && trace[i].node == node
    && forall j | i < j < |trace| :: !PinsTo(trace[j], session) && !Unpins(trace[j], session)
  }

  // ----- Metadata

  /** The node registered, and its metadata was not deleted since. */
  predicate Known(trace: seq<Event>, node: string)
    decreases |trace|
  {
    trace != [] &&
    var front, last := trace[..|trace| - 1], trace[|trace| - 1];
    last == Registered(node) || (Known(front, node) && !(last.Deregistered? && DropsMeta(last.name, node)))
  }

  lemma StepKnows(s: State, e: Event, node: string)
    requires Enabled(s, e)
    ensures node in Step(s, e).meta
            <==> e == Registered(node) || (node in s.meta && !(e.Deregistered? && DropsMeta(e.name, node)))
  {
    hide Contains;
  }

  lemma {:induction false} MetaIsKnown(trace: seq<Event>, node: string)
    requires Legal(trace)
    ensures node in After(trace).meta <==> Known(trace, node)
    decreases |trace|
  {
    if trace != [] {
      var front, last := trace[..|trace| - 1], trace[|trace| - 1];
      MetaIsKnown(front, node);
      StepKnows(After(front), last, node);
      hide Step, Enabled, DropsMeta;
    }
  }

  /** A request is served from a session if and only if the session was pinned and its node is still known, and then
      it goes to the node the session was last pinned to. */
  lemma ServedFromLastPin(trace: seq<Event>, session: string)
    requires Legal(trace)
    ensures Enabled(After(trace), Cached(session))
            <==> PinnedTo(trace, session).Some? && Known(trace, PinnedTo(trace, session).value)
    ensures Legal(trace + [Cached(session)]) ==>
              && PinnedTo(trace, session).Some?
              && After(trace + [Cached(session)]).inFlight
                 == After(trace).inFlight + multiset{Request(PinnedTo(trace, session).value, true)}
  {
    SessionsArePinned(trace, session);
    if PinnedTo(trace, session).Some? {
      MetaIsKnown(trace, PinnedTo(trace, session).value);
    }
    var longer := trace + [Cached(session)];
    assert longer[..|longer| - 1] == trace && longer[|longer| - 1] == Cached(session);
  }

  // ----- Requests in flight and load

  /** The event starts this request: a selection, or a session pinned to the request's node. */
  predicate Starts(front: seq<Event>, e: Event, r: Request) {
    if r.cached then e.Cached? && PinnedTo(front, e.session) == Some(r.node)
    else e.Fresh? && e.node == r.node
  }

  function Started(trace: seq<Event>, r: Request): nat
    decreases |trace|
  {
    if trace == [] then 0 else
      Started(trace[..|trace| - 1], r) + if Starts(trace[..|trace| - 1], trace[|trace| - 1], r) then 1 else 0
  }

  /** What is in flight is what was started and has not finished. */
  lemma {:induction false} InFlightIsUnfinished(trace: seq<Event>, r: Request)
    requires Legal(trace)
    ensures After(trace).inFlight[r] == Started(trace, r) - CountEvent(trace, Finished(r))
    decreases |trace|
  {
    if trace != [] {
      var front, last := trace[..|trace| - 1], trace[|trace| - 1];
      InFlightIsUnfinished(front, r);
      if last.Cached? {
        SessionsArePinned(front, last.session);
      }
      hide Contains;
    }
  }

  /** Selections of the node less the requests to it that ended, counted from the last deletion of its load on. */
  function Tally(trace: seq<Event>, node: string): int
    decreases |trace|
  {
    if trace == [] then 0 else
      var front, last := trace[..|trace| - 1], trace[|trace| - 1];
      if Drops(last, node) then 0
      else Tally(front, node)
           + (if (last.Fresh? || last.Leaked?) && last.node == node then 1 else 0)
           - (if last.Finished? && last.request.node == node then 1 else 0)
  }

  lemma StepTallies(s: State, e: Event, node: string)
    requires Enabled(s, e)
    ensures Load(Step(s, e), node)
            == if Drops(e, node) then 0
               else Load(s, node)
                    + (if (e.Fresh? || e.Leaked?) && e.node == node then 1 else 0)
                    - (if e.Finished? && e.request.node == node then 1 else 0)
  {
    hide Contains;
  }

  /** On every run the load of a node is that tally. */
  lemma {:induction false} LoadIsTally(trace: seq<Event>, node: string)
    requires Legal(trace)
    ensures Load(After(trace), node) == Tally(trace, node)
    decreases |trace|
  {
    if trace != [] {
      var front, last := trace[..|trace| - 1], trace[|trace| - 1];
      LoadIsTally(front, node);
      StepTallies(After(front), last, node);
      hide Step, Enabled, Drops, Load;
    }
  }

  // ----- Which keys a deregistration deletes

  ghost predicate OccursAt(text: string, part: string, i: int) {
    0 <= i <= |text| - |part| && text[i..i + |part|] == part
  }

  lemma OccursLater(text: string, part: string, i: nat)
    requires text != ""
    ensures OccursAt(text[1..], part, i) <==> OccursAt(text, part, i + 1)
  {
    if i <= |text| - 1 - |part| {
      assert text[1..][i..i + |part|] == text[i + 1..i + 1 + |part|];
    }
  }

  lemma OccursFirst(text: string, part: string)
    ensures part <= text <==> OccursAt(text, part, 0)
  {
  }

  /** Occurring somewhere is occurring first or in the rest. */
  lemma OccursSomewhere(text: string, part: string)
    requires text != ""
    ensures (exists i :: OccursAt(text, part, i)) <==> part <= text || exists i :: OccursAt(text[1..], part, i)
  {
    OccursFirst(text, part);
    if i :| OccursAt(text[1..], part, i) {
      OccursLater(text, part, i);
    }
    if i :| OccursAt(text, part, i) {
      if i > 0 {
        OccursLater(text, part, i - 1);
      }
    }
  }

  lemma {:induction false} ContainsExactlyWhen(text: string, part: string)
    ensures Contains(text, part) <==> exists i :: OccursAt(text, part, i)
  {
    OccursFirst(text, part);
    if text == "" {
      assert forall i | OccursAt(text, part, i) :: i == 0;
    } else {
      ContainsExactlyWhen(text[1..], part);
      OccursSomewhere(text, part);
      hide OccursAt;
    }
  }

  /** A node's deregistration always deletes its own load and metadata. */
  lemma DropsItsOwn(name: string)
    ensures DropsLoad(name, name) && DropsMeta(name, name)
  {
    ContainsExactlyWhen("node_load:" + name, name);
    ContainsExactlyWhen("node_meta:" + name, name);
    assert OccursAt("node_load:" + name, name, 10);
    assert OccursAt("node_meta:" + name, name, 10);
  }
}
