/**
 What the in-memory limiter of gateway/ratelimit.go decides on every run, told from its earlier decisions alone: which
 calls opened a window, and how many passed since.  Limits vary from call to call, and cleanup ticks fall anywhere.
 */
module WindowDecisions {
  import opened FixedWindow

  /** A call and how it was decided. */
  datatype Decided = Decided(call: Call, passed: bool)

  function Verdicts(requests: Requests, calls: seq<Call>, window: int): (verdicts: seq<bool>)
    ensures |verdicts| == |calls|
    decreases calls
  {
    if calls == [] then [] else
      var (next, ok) := Step(requests, calls[0], window);
      [ok] + Verdicts(next, calls[1..], window)
  }

  /** Position of the call that opened the client's latest window: a call of it that passed when it had no window, or
      after the one before was over.  -1 if none did. */
  function Opener(past: seq<Decided>, client: string, window: int): (at: int)
    ensures -1 <= at < |past|
    decreases |past|
  {
    if past == [] then -1 else
      var front, last := past[..|past| - 1], past[|past| - 1];
      var at := Opener(front, client, window);
      if last.passed && last.call.client == client && (at < 0 || last.call.now > front[at].call.now + window)
      then |front| else at
  }

  /** The client's calls that passed from a position on. */
  function PassedSince(past: seq<Decided>, client: string, at: int): nat
    decreases |past|
  {
    if past == [] || at > |past| - 1 then 0 else
      var front, last := past[..|past| - 1], past[|past| - 1];
      PassedSince(front, client, at) + if last.passed && last.call.client == client then 1 else 0
  }

  /** The window the client's latest opener began still covers the instant. */
  predicate WindowOpen(past: seq<Decided>, client: string, now: int, window: int) {
    var at := Opener(past, client, window);
    at >= 0 && now <= past[at].call.now + window
  }

  /** What the past entitles the call to. */
  predicate MayPass(past: seq<Decided>, call: Call, window: int) {
    WindowOpen(past, call.client, call.now, window) ==>
      PassedSince(past, call.client, Opener(past, call.client, window)) < call.limit
  }

  /** The table holds what the past says: the count and the end of each client's latest window. */
  ghost predicate Tells(requests: Requests, past: seq<Decided>, client: string, window: int) {
    var at := Opener(past, client, window);
    if at < 0 then client !in requests
    else client in requests
         && requests[client] == Entry(PassedSince(past, client, at), past[at].call.now + window)
  }

  lemma StepTells(requests: Requests, past: seq<Decided>, call: Call, window: int, client: string)
    requires Tells(requests, past, call.client, window) && Tells(requests, past, client, window)
    ensures
      var (next, ok) := Step(requests, call, window);
      (ok <==> MayPass(past, call, window)) && Tells(next, past + [Decided(call, ok)], client, window)
  {
    var (next, ok) := Step(requests, call, window);
    var longer := past + [Decided(call, ok)];
    assert longer[..|longer| - 1] == past;
    PassedBefore(past, client, |past|);
  }

  lemma PassedBefore(past: seq<Decided>, client: string, at: int)
    requires at >= |past|
    ensures PassedSince(past, client, at) == 0
  {
  }

  /** The past of a run before its i-th call. */
  function Past(calls: seq<Call>, verdicts: seq<bool>, i: nat): seq<Decided>
    requires i <= |calls| && i <= |verdicts|
  {
    seq(i, j requires 0 <= j < i => Decided(calls[j], verdicts[j]))
  }

  lemma {:induction false} DecidedAfter(requests: Requests, past: seq<Decided>, calls: seq<Call>, window: int, i: nat)
    requires i < |calls| && forall client :: Tells(requests, past, client, window)
    ensures Verdicts(requests, calls, window)[i]
            <==> MayPass(past + Past(calls, Verdicts(requests, calls, window), i), calls[i], window)
    decreases calls
  {
    var (next, ok) := Step(requests, calls[0], window);
    var verdicts, later := Verdicts(requests, calls, window), Verdicts(next, calls[1..], window);
    forall client ensures Tells(next, past + [Decided(calls[0], ok)], client, window) {
      StepTells(requests, past, calls[0], window, client);
    }
    if i == 0 {
      StepTells(requests, past, calls[0], window, calls[0].client);
      assert past + Past(calls, verdicts, 0) == past;
    } else {
      DecidedAfter(next, past + [Decided(calls[0], ok)], calls[1..], window, i - 1);
      assert past + [Decided(calls[0], ok)] + Past(calls[1..], later, i - 1) == past + Past(calls, verdicts, i);
    }
  }

  // ----- Runs with cleanup ticks

  function CallsOf(items: seq<Item>): seq<Call> {
    if items == [] then []
    else (if items[0].Decide? then [items[0].call] else []) + CallsOf(items[1..])
  }

  lemma {:induction false} DecisionsAreVerdicts(requests: Requests, items: seq<Item>, window: int)
    ensures Decisions(requests, WithoutTicks(items), window) == Verdicts(requests, CallsOf(items), window)
    decreases items
  {
    if items != [] {
      match items[0]
      case Decide(call) =>
        DecisionsAreVerdicts(Step(requests, call, window).0, items[1..], window);
        assert WithoutTicks(items)[1..] == WithoutTicks(items[1..]);
        assert CallsOf(items)[1..] == CallsOf(items[1..]);
      case Tick(_) =>
        DecisionsAreVerdicts(requests, items[1..], window);
        assert WithoutTicks(items) == WithoutTicks(items[1..]);
        assert CallsOf(items) == CallsOf(items[1..]);
    }
  }

  /** On every ordered run, with limits that vary and cleanup anywhere, a call passes if and only if its client has no
      open window, or fewer of the client's calls passed since that window was opened than the limit the call
      carries. */
  lemma PassesExactlyWhen(items: seq<Item>, from: int, window: int, i: nat)
    requires Ordered(items, from) && i < |CallsOf(items)|
    ensures
      var calls, verdicts := CallsOf(items), Decisions(map[], items, window);
      && |verdicts| == |calls|
      && (verdicts[i] <==> MayPass(Past(calls, verdicts, i), calls[i], window))
  {
    CleanupIsInvisible(map[], map[], items, from, window);
    DecisionsAreVerdicts(map[], items, window);
    DecidedAfter(map[], [], CallsOf(items), window, i);
    var calls, verdicts := CallsOf(items), Decisions(map[], items, window);
    assert [] + Past(calls, verdicts, i) == Past(calls, verdicts, i);
  }

  // ----- Refused calls

  function Without<T>(s: seq<T>, i: nat): seq<T>
    requires i < |s|
  {
    s[..i] + s[i + 1..]
  }

  /** A refused call leaves no trace: from any table, taking it out of the run changes no other decision. */
  lemma {:induction false} RefusedLeavesNoTrace(requests: Requests, calls: seq<Call>, window: int, i: nat)
    requires i < |calls| && !Verdicts(requests, calls, window)[i]
    ensures Verdicts(requests, Without(calls, i), window) == Without(Verdicts(requests, calls, window), i)
    decreases calls
  {
    var (next, ok) := Step(requests, calls[0], window);
    var verdicts := Verdicts(requests, calls, window);
    if i == 0 {
      assert Without(calls, 0) == calls[1..];
      assert Without(verdicts, 0) == Verdicts(next, calls[1..], window);
    } else {
      RefusedLeavesNoTrace(next, calls[1..], window, i - 1);
      assert Without(calls, i) == [calls[0]] + Without(calls[1..], i - 1);
      assert Without(calls, i)[1..] == Without(calls[1..], i - 1);
      assert Without(verdicts, i) == [ok] + Without(verdicts[1..], i - 1);
    }
  }

  function Admitted(requests: Requests, calls: seq<Call>, window: int): seq<Call>
    decreases calls
  {
    if calls == [] then [] else
      var (next, ok) := Step(requests, calls[0], window);
      (if ok then [calls[0]] else []) + Admitted(next, calls[1..], window)
  }

  /** So without any of the refused calls every other one still passes. */
  lemma {:induction false} AdmittedAllPass(requests: Requests, calls: seq<Call>, window: int)
    ensures forall ok | ok in Verdicts(requests, Admitted(requests, calls, window), window) :: ok
    decreases calls
  {
    if calls != [] {
      var (next, ok) := Step(requests, calls[0], window);
      AdmittedAllPass(next, calls[1..], window);
      if ok {
        assert Admitted(requests, calls, window)[1..] == Admitted(next, calls[1..], window);
      } else {
        assert next == requests;
        assert Admitted(requests, calls, window) == Admitted(next, calls[1..], window);
      }
    }
  }

  // ----- Cleanup

  /** A tick keeps exactly the clients whose window is still open then. */
  lemma TickKeepsOpenWindows(requests: Requests, past: seq<Decided>, client: string, now: int, window: int)
    requires Tells(requests, past, client, window)
    ensures client in Swept(requests, now) <==> WindowOpen(past, client, now, window)
    ensures client in Swept(requests, now) ==> Tells(Swept(requests, now), past, client, window)
  {
  }
}
