/**
 When a broadcast of gateway/websocket.go drops a slow client: what the 256 places of a send channel mean on every run
 of the hub, told from what each client was sent and has read.
 */
module HubBackpressure {
  import opened Hub

  /** Messages the client was sent and has not read yet. */
  function Behind(s: State, c: Client): int {
    |ChanOf(s.core.chans, c).sent| - |ChanOf(s.core.chans, c).received|
  }

  ghost predicate Fits(s: State, c: Client) {
    |ChanOf(s.core.chans, c).buffer| <= 256
  }

  lemma StepKeepsFit(s: State, a: Action, c: Client)
    requires Enabled(s, a) && Fits(s, c)
    ensures Fits(Next(s, a), c)
  {
  }

  lemma {:induction false} RunKeepsFit(s: State, actions: seq<Action>, c: Client)
    requires Runs(s, actions) && Fits(s, c)
    ensures Fits(After(s, actions), c)
    decreases actions
  {
    if actions != [] {
      StepKeepsFit(s, actions[0], c);
      RunKeepsFit(Next(s, actions[0]), actions[1..], c);
    }
  }

  /** No client is ever more than 256 messages behind. */
  lemma NeverFurtherBehind(runLoops: nat, actions: seq<Action>, c: Client)
    requires Runs(Init(runLoops), actions)
    ensures 0 <= Behind(After(Init(runLoops), actions), c) <= 256
  {
    RunKeepsFit(Init(runLoops), actions, c);
    InitInv(runLoops);
    RunKeepsInv(Init(runLoops), actions);
    assert ClientInv(After(Init(runLoops), actions), c);
  }

  /** The step applies a message to the members. */
  predicate Broadcasts(s: State, a: Action) {
    a.Apply? && a.l < |s.loops| && s.loops[a.l].TookMessage?
  }

  /** The step applies an Unregister of the client. */
  predicate Unregisters(s: State, a: Action, c: Client) {
    a.Apply? && a.l < |s.loops| && s.loops[a.l] == TookUnregister(c)
  }

  lemma StepDrops(s: State, a: Action, c: Client)
    requires Enabled(s, a) && c in s.core.clients && ClientInv(s, c) && Fits(s, c) && !Unregisters(s, a, c)
    ensures c !in Next(s, a).core.clients <==> Broadcasts(s, a) && Behind(s, c) == 256
    ensures Broadcasts(s, a) && Behind(s, c) < 256 ==>
              ChanOf(Next(s, a).core.chans, c).sent == ChanOf(s.core.chans, c).sent + [s.loops[a.l].m]
  {
  }

  /** On every run, a step that is not an Unregister of a member removes that member if and only if it applies a
      message while the member is exactly 256 behind; a member less far behind is sent the message. */
  lemma DroppedExactlyWhenFull(runLoops: nat, actions: seq<Action>, a: Action, c: Client)
    requires Runs(Init(runLoops), actions)
    requires
      var s := After(Init(runLoops), actions);
      Enabled(s, a) && c in s.core.clients && !Unregisters(s, a, c)
    ensures
      var s := After(Init(runLoops), actions);
      && (c !in Next(s, a).core.clients <==> Broadcasts(s, a) && Behind(s, c) == 256)
      && (Broadcasts(s, a) && Behind(s, c) < 256 ==>
            ChanOf(Next(s, a).core.chans, c).sent == ChanOf(s.core.chans, c).sent + [s.loops[a.l].m])
  {
    var s := After(Init(runLoops), actions);
    RunKeepsFit(Init(runLoops), actions, c);
    InitInv(runLoops);
    RunKeepsInv(Init(runLoops), actions);
    assert ClientInv(s, c);
    StepDrops(s, a, c);
  }

  // ----- Clients nobody unregisters

  /** No Unregister of the client is on its way, and if it was dropped it had been sent 256 messages. */
  ghost predicate NotUnregistered(s: State, c: Client) {
    && c !in s.waitingUnreg && c !in s.unregQueue && TookUnregister(c) !in s.loops
    && (c in s.gone ==> c !in s.core.clients && |ChanOf(s.core.chans, c).sent| >= 256)
  }

  lemma StepKeepsNotUnregistered(s: State, a: Action, c: Client)
    requires Enabled(s, a) && a != CallUnregister(c) && ClientInv(s, c) && Fits(s, c) && NotUnregistered(s, c)
    ensures NotUnregistered(Next(s, a), c)
  {
    var t := Next(s, a);
    assert !Unregisters(s, a, c);
    if c in s.core.clients {
      StepDrops(s, a, c);
    }
  }

  lemma {:induction false} RunKeepsNotUnregistered(s: State, actions: seq<Action>, c: Client)
    requires Runs(s, actions) && CallUnregister(c) !in actions
    requires Inv(s) && Fits(s, c) && NotUnregistered(s, c)
    ensures NotUnregistered(After(s, actions), c)
    decreases actions
  {
    if actions != [] {
      assert ClientInv(s, c);
      StepKeepsInv(s, actions[0]);
      StepKeepsFit(s, actions[0], c);
      StepKeepsNotUnregistered(s, actions[0], c);
      RunKeepsNotUnregistered(Next(s, actions[0]), actions[1..], c);
    }
  }

  /** A client that is never unregistered and yet no longer a member was sent at least 256 messages. */
  lemma DroppedWasSent(runLoops: nat, actions: seq<Action>, c: Client)
    requires Runs(Init(runLoops), actions) && CallUnregister(c) !in actions
    requires c in After(Init(runLoops), actions).gone
    ensures |ChanOf(After(Init(runLoops), actions).core.chans, c).sent| >= 256
  {
    InitInv(runLoops);
    assert Init(runLoops).loops == seq(runLoops, i => Idle);
    RunKeepsNotUnregistered(Init(runLoops), actions, c);
  }
}
