/**
 When an Unregister call takes effect.  Registrations and unregistrations travel through different channels of
 the hub, so the one can overtake the other.
 */
module HubUnregister {
  import opened Hub

  ghost predicate Reachable(s: State, runLoops: nat) {
    exists actions :: Runs(Init(runLoops), actions) && After(Init(runLoops), actions) == s
  }

  /** What every reachable state satisfies. */
  ghost predicate Sound(s: State) {
    Inv(s) && Balanced(s) && WaitingRegistered(s)
  }

  lemma ReachableIsSound(s: State, runLoops: nat)
    requires Reachable(s, runLoops)
    ensures Sound(s) && |s.loops| == runLoops
  {
    var actions :| Runs(Init(runLoops), actions) && After(Init(runLoops), actions) == s;
    InitInv(runLoops);
    IdleOwesNothing(runLoops);
    RunKeepsSound(Init(runLoops), actions);
  }

  lemma {:induction false} LoopsPersist(s: State, actions: seq<Action>)
    requires Runs(s, actions)
    ensures |After(s, actions).loops| == |s.loops|
    decreases actions
  {
    if actions != [] {
      LoopsPersist(Next(s, actions[0]), actions[1..]);
    }
  }

  lemma RunKeepsSound(s: State, actions: seq<Action>)
    requires Sound(s) && Runs(s, actions)
    ensures Sound(After(s, actions)) && |After(s, actions).loops| == |s.loops|
  {
    RunKeepsInv(s, actions);
    RunKeepsBalance(s, actions);
    LoopsPersist(s, actions);
  }

  // ----- When it is sure to take effect

  /** The client's registration was applied, or the only Run loop is about to. */
  ghost predicate Settled(s: State, c: Client) {
    c in s.joined || (|s.loops| == 1 && s.loops[0] == TookRegister(c))
  }

  /** Every run after the call that ends with nothing pending leaves the client out. */
  ghost predicate UnregisterHolds(s: State, c: Client) {
    forall actions | Runs(Next(s, CallUnregister(c)), actions) ::
      After(Next(s, CallUnregister(c)), actions).pending == 0 ==>
        c !in After(Next(s, CallUnregister(c)), actions).core.clients
  }

  /** An Unregister of the client is still to be applied, or the client is gone. */
  ghost predicate Leaving(s: State, c: Client) {
    && Settled(s, c)
    && (c in s.waitingUnreg || c in s.unregQueue || (c in s.joined && (TookUnregister(c) in s.loops || c in s.gone)))
  }

  lemma StepKeepsLeaving(s: State, a: Action, c: Client)
    requires Inv(s) && Leaving(s, c) && Enabled(s, a)
    ensures Leaving(Next(s, a), c)
  {
    var t := Next(s, a);
    if c in s.unregQueue {
      if a.TakeUnregister? && s.unregQueue[0] == c {
        assert t.loops[a.l] == TookUnregister(c);
      }
      assert s.unregQueue == [s.unregQueue[0]] + s.unregQueue[1..];
    } else if c in s.waitingUnreg {
      assert a == SendUnregister(c) ==> t.unregQueue[|s.unregQueue|] == c;
    } else if c !in s.gone {
      var l :| 0 <= l < |s.loops| && s.loops[l] == TookUnregister(c);
      if a == Apply(l) {
        assert ClientInv(s, c);
      } else {
        assert t.loops[l] == TookUnregister(c);
      }
    }
  }

  lemma {:induction false} RunKeepsLeaving(s: State, actions: seq<Action>, c: Client)
    requires Sound(s) && Leaving(s, c) && Runs(s, actions)
    ensures Leaving(After(s, actions), c)
    decreases actions
  {
    if actions != [] {
      StepKeepsLeaving(s, actions[0], c);
      assert Runs(s, actions[..1]) && After(s, actions[..1]) == Next(s, actions[0]) by {
        assert actions[..1][1..] == [];
      }
      RunKeepsSound(s, actions[..1]);
      RunKeepsLeaving(Next(s, actions[0]), actions[1..], c);
    }
  }

  /** Once the registration is applied an Unregister always takes effect. */
  lemma SettledUnregisterHolds(s: State, c: Client, actions: seq<Action>)
    requires Sound(s) && Settled(s, c) && Runs(Next(s, CallUnregister(c)), actions)
    requires After(Next(s, CallUnregister(c)), actions).pending == 0
    ensures c !in After(Next(s, CallUnregister(c)), actions).core.clients
  {
    var called := Next(s, CallUnregister(c));
    StepKeepsInv(s, CallUnregister(c));
    CallKeepsBalance(s, CallUnregister(c));
    RunKeepsLeaving(called, actions, c);
    RunKeepsSound(called, actions);
    var t := After(called, actions);
    NothingOwed(t.loops);
    assert TookUnregister(c) !in t.loops && c in t.gone;
    assert ClientInv(t, c);
  }

  // ----- How it is lost otherwise

  ghost predicate Leads(s: State, actions: seq<Action>, t: State) {
    Runs(s, actions) && After(s, actions) == t
  }

  lemma LeadsOne(s: State, a: Action)
    requires Enabled(s, a)
    ensures Leads(s, [a], Next(s, a))
  {
    assert [a][1..] == [];
  }

  lemma {:induction false} LeadsOn(s: State, a: seq<Action>, t: State, b: seq<Action>, u: State)
    requires Leads(s, a, t) && Leads(t, b, u)
    ensures Leads(s, a + b, u)
    decreases a
  {
    if a == [] {
      assert a + b == b;
    } else {
      assert (a + b)[1..] == a[1..] + b;
      LeadsOn(Next(s, a[0]), a[1..], t, b, u);
    }
  }

  /** Only the loops and their effect on members change: nothing joins, nothing new is asked for. */
  ghost predicate SameQueues(s: State, t: State) {
    && t.waitingReg == s.waitingReg && t.regQueue == s.regQueue && t.everRegistered == s.everRegistered
    && t.waitingUnreg == s.waitingUnreg && t.unregQueue == s.unregQueue
  }

  /** A loop that does not hold the client's registration becomes idle without letting the client in. */
  lemma Settle(s: State, l: nat, c: Client) returns (actions: seq<Action>, t: State)
    requires l < |s.loops| && s.loops[l] != TookRegister(c) && c !in s.joined
    ensures Leads(s, actions, t) && SameQueues(s, t) && t.loops == s.loops[l := Idle] && c !in t.joined
  {
    var loop := s.loops[l];
    if loop.Idle? {
      actions, t := [], s;
    } else if loop.OwesDone? {
      actions, t := [Done(l)], Next(s, Done(l));
      LeadsOne(s, Done(l));
    } else {
      t := Next(s, Apply(l));
      actions := [Apply(l)];
      LeadsOne(s, Apply(l));
      if !loop.TookMessage? {
        var u := Next(t, Done(l));
        LeadsOne(t, Done(l));
        LeadsOn(s, [Apply(l)], t, [Done(l)], u);
        actions, t := [Apply(l)] + [Done(l)], u;
      }
    }
  }

  ghost predicate IdleOrHolding(loop: Loop, c: Client) {
    loop.Idle? || loop == TookRegister(c)
  }

  lemma {:induction false} SettleFirst(s: State, n: nat, c: Client) returns (actions: seq<Action>, t: State)
    requires n <= |s.loops| && c !in s.joined
    ensures Leads(s, actions, t) && SameQueues(s, t) && c !in t.joined && |t.loops| == |s.loops|
    ensures forall i | 0 <= i < n :: IdleOrHolding(t.loops[i], c)
    ensures forall i | 0 <= i < |s.loops| && (i >= n || s.loops[i] == TookRegister(c)) :: t.loops[i] == s.loops[i]
    ensures forall i | 0 <= i < n && s.loops[i] != TookRegister(c) :: t.loops[i] == Idle
    decreases n
  {
    if n == 0 {
      actions, t := [], s;
    } else {
      var a, u := SettleFirst(s, n - 1, c);
      if s.loops[n - 1] == TookRegister(c) {
        actions, t := a, u;
      } else {
        var b;
        b, t := Settle(u, n - 1, c);
        LeadsOn(s, a, u, b, t);
        actions := a + b;
      }
    }
  }

  /** With one idle loop all waiting unregistrations are applied; the client is no member yet. */
  lemma {:induction false} FlushUnregister(s: State, l: nat, c: Client) returns (actions: seq<Action>, t: State)
    requires l < |s.loops| && s.loops[l] == Idle && c !in s.joined
    ensures Leads(s, actions, t) && c !in t.joined && t.loops == s.loops
    ensures t.waitingReg == s.waitingReg && t.regQueue == s.regQueue && t.everRegistered == s.everRegistered
    ensures t.waitingUnreg == multiset{} && t.unregQueue == []
    decreases 2 * |s.waitingUnreg| + |s.unregQueue|
  {
    if s.unregQueue != [] {
      var u := Next(s, TakeUnregister(l));
      LeadsOne(s, TakeUnregister(l));
      var b, v := Settle(u, l, c);
      assert v.loops == s.loops;
      LeadsOn(s, [TakeUnregister(l)], u, b, v);
      var d;
      d, t := FlushUnregister(v, l, c);
      LeadsOn(s, [TakeUnregister(l)] + b, v, d, t);
      actions := [TakeUnregister(l)] + b + d;
    } else if s.waitingUnreg != multiset{} {
      var d :| d in s.waitingUnreg;
      var u := Next(s, SendUnregister(d));
      LeadsOne(s, SendUnregister(d));
      var b;
      b, t := FlushUnregister(u, l, c);
      LeadsOn(s, [SendUnregister(d)], u, b, t);
      actions := [SendUnregister(d)] + b;
    } else {
      actions, t := [], s;
    }
  }

  /** Nothing is left but registrations. */
  ghost predicate OnlyRegistering(s: State) {
    s.waitingUnreg == multiset{} && s.unregQueue == []
  }

  /** An idle or registering loop becomes idle without anyone leaving. */
  lemma LetIn(s: State, l: nat) returns (actions: seq<Action>, t: State)
    requires l < |s.loops| && (s.loops[l].Idle? || s.loops[l].TookRegister?)
    ensures Leads(s, actions, t) && SameQueues(s, t) && t.loops == s.loops[l := Idle] && t.gone == s.gone
  {
    if s.loops[l].Idle? {
      actions, t := [], s;
    } else {
      var u := Next(s, Apply(l));
      LeadsOne(s, Apply(l));
      LeadsOne(u, Done(l));
      t := Next(u, Done(l));
      LeadsOn(s, [Apply(l)], u, [Done(l)], t);
      actions := [Apply(l)] + [Done(l)];
    }
  }

  lemma {:induction false} LetInFirst(s: State, n: nat) returns (actions: seq<Action>, t: State)
    requires n <= |s.loops| && forall i | 0 <= i < n :: s.loops[i].Idle? || s.loops[i].TookRegister?
    ensures Leads(s, actions, t) && SameQueues(s, t) && t.gone == s.gone && |t.loops| == |s.loops|
    ensures forall i | 0 <= i < |s.loops| :: t.loops[i] == if i < n then Idle else s.loops[i]
    decreases n
  {
    if n == 0 {
      actions, t := [], s;
    } else {
      var a, u := LetInFirst(s, n - 1);
      var b;
      b, t := LetIn(u, n - 1);
      LeadsOn(s, a, u, b, t);
      actions := a + b;
    }
  }

  lemma {:induction false} FlushRegister(s: State, l: nat) returns (actions: seq<Action>, t: State)
    requires l < |s.loops| && s.loops[l] == Idle
    ensures Leads(s, actions, t) && t.gone == s.gone && t.loops == s.loops && t.everRegistered == s.everRegistered
    ensures t.waitingUnreg == s.waitingUnreg && t.unregQueue == s.unregQueue
    ensures t.waitingReg == {} && t.regQueue == []
    decreases 2 * |s.waitingReg| + |s.regQueue|
  {
    if s.regQueue != [] {
      var u := Next(s, TakeRegister(l));
      LeadsOne(s, TakeRegister(l));
      var b, v := LetIn(u, l);
      assert v.loops == s.loops;
      LeadsOn(s, [TakeRegister(l)], u, b, v);
      var d;
      d, t := FlushRegister(v, l);
      LeadsOn(s, [TakeRegister(l)] + b, v, d, t);
      actions := [TakeRegister(l)] + b + d;
    } else if s.waitingReg != {} {
      var d :| d in s.waitingReg;
      var u := Next(s, SendRegister(d));
      LeadsOne(s, SendRegister(d));
      var b;
      b, t := FlushRegister(u, l);
      LeadsOn(s, [SendRegister(d)], u, b, t);
      actions := [SendRegister(d)] + b;
    } else {
      actions, t := [], s;
    }
  }

  /** From then on the registrations go through, a first one of the client included, and it stays a member. */
  lemma FinishRegistering(s: State, c: Client) returns (actions: seq<Action>, t: State)
    requires Sound(s) && OnlyRegistering(s) && c !in s.joined && s.loops != []
    requires forall i | 0 <= i < |s.loops| :: IdleOrHolding(s.loops[i], c)
    ensures Leads(s, actions, t) && t.pending == 0 && c in t.core.clients
  {
    assert ClientInv(s, c);
    var a, u := LetInFirst(s, |s.loops|);
    var v := u;
    if c !in u.everRegistered {
      LeadsOne(u, CallRegister(c));
      v := Next(u, CallRegister(c));
      LeadsOn(s, a, u, [CallRegister(c)], v);
      a := a + [CallRegister(c)];
    }
    var b;
    b, t := FlushRegister(v, 0);
    LeadsOn(s, a, v, b, t);
    actions := a + b;
    RunKeepsSound(s, actions);
    NothingLeft(t, c);
  }

  lemma NothingLeft(t: State, c: Client)
    requires Sound(t) && OnlyRegistering(t) && t.waitingReg == {} && t.regQueue == []
    requires forall i | 0 <= i < |t.loops| :: t.loops[i] == Idle
    requires c in t.everRegistered && c !in t.gone
    ensures t.pending == 0 && c in t.core.clients
  {
    NoneOwing(t.loops);
    NoneTaken(t.loops, c);
    assert ClientInv(t, c);
  }

  lemma {:induction false} NoneOwing(loops: seq<Loop>)
    requires forall i | 0 <= i < |loops| :: loops[i] == Idle
    ensures Owing(loops) == 0
  {
    if loops != [] {
      NoneOwing(loops[1..]);
    }
  }

  /** While the registration is on its way, or was never asked for, some run loses the Unregister: it is applied
      first, finds no member, and the registration goes in for good. */
  lemma UnsettledUnregisterIsLost(s: State, c: Client) returns (actions: seq<Action>)
    requires Sound(s) && s.loops != [] && !Settled(s, c)
    ensures Runs(Next(s, CallUnregister(c)), actions)
    ensures After(Next(s, CallUnregister(c)), actions).pending == 0
    ensures c in After(Next(s, CallUnregister(c)), actions).core.clients
  {
    var called := Next(s, CallUnregister(c));
    StepKeepsInv(s, CallUnregister(c));
    CallKeepsBalance(s, CallUnregister(c));
    var l := FreeLoop(s, c);
    var a, u := SettleFirst(called, |s.loops|, c);
    var b, v := FlushUnregister(u, l, c);
    LeadsOn(called, a, u, b, v);
    RunKeepsSound(called, a + b);
    var d, t := FinishRegistering(v, c);
    LeadsOn(called, a + b, v, d, t);
    actions := a + b + d;
  }

  /** At most one loop holds the client's registration, so another one is free to take the Unregister. */
  lemma FreeLoop(s: State, c: Client) returns (l: nat)
    requires Inv(s) && s.loops != [] && !Settled(s, c)
    ensures l < |s.loops| && s.loops[l] != TookRegister(c)
  {
    assert ClientInv(s, c);
    if s.loops[0] != TookRegister(c) {
      l := 0;
    } else {
      l := 1;
      var rest := s.loops[1..];
      assert s.loops == [s.loops[0]] + rest;
      assert rest[0] == s.loops[1] && rest[0] in rest;
    }
  }

  /** The exact line, for every reachable state and any number of Run loops: an Unregister is certain to leave the
      client out if and only if, when it is called, the client's registration was applied or is in the hands of
      the only loop there is. */
  lemma UnregisterHoldsExactlyWhenSettled(s: State, runLoops: nat, c: Client)
    requires runLoops >= 1 && Reachable(s, runLoops)
    ensures UnregisterHolds(s, c) <==> Settled(s, c)
  {
    ReachableIsSound(s, runLoops);
    if Settled(s, c) {
      forall actions | Runs(Next(s, CallUnregister(c)), actions)
                       && After(Next(s, CallUnregister(c)), actions).pending == 0
        ensures c !in After(Next(s, CallUnregister(c)), actions).core.clients
      {
        SettledUnregisterHolds(s, c, actions);
      }
    } else {
      var actions := UnsettledUnregisterIsLost(s, c);
    }
  }
}
