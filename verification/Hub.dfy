/**
 The broadcast hub of gateway/websocket.go: Run loops take registrations, unregistrations and messages
 from three channels and apply each under one lock.  The gateway starts two such loops on the same hub
 (gateway/service.go), so what one loop took can be overtaken by what the other applies.
 */
module Hub {

  datatype Client = Client(id: nat)

  type Message = nat

  /** A client's send channel: messages waiting, whether it is open, and all it ever carried and gave out. */
  datatype Chan = Chan(buffer: seq<Message>, open: bool, sent: seq<Message>, received: seq<Message>)

  const SEND_CAP: nat := 256
  const QUEUE_CAP: nat := 64
  const BROADCAST_CAP: nat := 256

  const NEW_CHAN: Chan := Chan([], true, [], [])

  /** What the lock protects.  Closing a closed channel or sending on one panics. */
  datatype Core = Core(clients: set<Client>, chans: map<Client, Chan>, panicked: bool)

  function ChanOf(chans: map<Client, Chan>, c: Client): Chan {
    if c in chans then chans[c] else NEW_CHAN
  }

  function Registered(core: Core, c: Client): Core {
    core.(clients := core.clients + {c})
  }

  function Closed(ch: Chan): Chan {
    ch.(open := false)
  }

  function Unregistered(core: Core, c: Client): Core {
    if c !in core.clients then core else
      Core(core.clients - {c}, core.chans[c := Closed(ChanOf(core.chans, c))],
           core.panicked || !ChanOf(core.chans, c).open)
  }

  predicate Full(ch: Chan) {
    |ch.buffer| >= SEND_CAP
  }

  /** The non-blocking send of a broadcast: a client whose channel is full is closed instead. */
  function Offered(ch: Chan, m: Message): Chan {
    if Full(ch) then Closed(ch) else ch.(buffer := ch.buffer + [m], sent := ch.sent + [m])
  }

  function Broadcast(core: Core, m: Message): Core {
    Core((set c | c in core.clients && !Full(ChanOf(core.chans, c))),
         core.chans + (map c | c in core.clients :: Offered(ChanOf(core.chans, c), m)),
         core.panicked || exists c :: c in core.clients && !ChanOf(core.chans, c).open)
  }

  /** The three bodies of the Run loop's select, each under the lock. */
  class Hub {
    var clients: set<Client>
    var chans: map<Client, Chan>

    constructor ()
      ensures clients == {} && chans == map[] && Valid()
    {
      clients, chans := {}, map[];
    }

    function Now(): Core
      reads this
    {
      Core(clients, chans, false)
    }

    ghost predicate Valid()
      reads this
    {
      forall c | c in clients :: ChanOf(chans, c).open
    }

    /** A client whose channel was closed must not come back. */
    method HandleRegister(c: Client)
      requires Valid() && ChanOf(chans, c).open
      modifies this
      ensures Valid() && Now() == Registered(old(Now()), c)
    {
      clients := clients + {c};
    }

    method HandleUnregister(c: Client)
      requires Valid()
      modifies this
      ensures Valid() && Now() == Unregistered(old(Now()), c)
    {
      if c in clients {
        clients := clients - {c};
        chans := chans[c := Closed(ChanOf(chans, c))];
      }
    }

    /** Visits the members in any order. */
    method HandleBroadcast(m: Message)
      requires Valid()
      modifies this
      ensures Valid() && Now() == Broadcast(old(Now()), m)
    {
      var left := clients;
      while left != {}
        invariant left <= clients <= old(clients)
        invariant forall c | c in clients :: ChanOf(chans, c).open
        invariant forall c | c in old(clients) && c !in left :: c in clients <==> !Full(ChanOf(old(chans), c))
        invariant forall c | c in left || c !in old(clients) ::
                  (c in chans <==> c in old(chans)) && ChanOf(chans, c) == ChanOf(old(chans), c)
        invariant forall c | c in old(clients) && c !in left ::
                  c in chans && chans[c] == Offered(ChanOf(old(chans), c), m)
        decreases left
      {
        var c :| c in left;
        var ch := ChanOf(chans, c);
        if |ch.buffer| < SEND_CAP {
          chans := chans[c := ch.(buffer := ch.buffer + [m], sent := ch.sent + [m])];
        } else {
          chans := chans[c := ch.(open := false)];
          clients := clients - {c};
        }
        left := left - {c};
      }
      assert clients == Broadcast(old(Now()), m).clients;
      assert chans == Broadcast(old(Now()), m).chans;
    }
  }

  // ----- Any number of callers and Run loops

  /** A Run loop between its atomic sections; Done is what it still owes the wait group. */
  datatype Loop = Idle | TookRegister(c: Client) | TookUnregister(c: Client) | OwesDone | TookMessage(m: Message)

  /** waitingReg/waitingUnreg: callers past pending.Add and not yet past the channel send;
      everRegistered: clients Register was ever called for; processed: broadcasts applied, in order;
      joined/gone: how many broadcasts had been applied when a client became a member and stopped being one. */
  datatype State = State(core: Core, waitingReg: set<Client>, regQueue: seq<Client>,
                         waitingUnreg: multiset<Client>, unregQueue: seq<Client>,
                         messages: seq<Message>, loops: seq<Loop>, pending: int,
                         everRegistered: set<Client>, processed: seq<Message>,
                         joined: map<Client, nat>, gone: map<Client, nat>)

  function Init(runLoops: nat): State {
    State(Core({}, map[], false), {}, [], multiset{}, [], [], seq(runLoops, i => Idle), 0, {}, [], map[], map[])
  }

  datatype Action =
    | CallRegister(c: Client)
    | SendRegister(c: Client)
    | CallUnregister(c: Client)
    | SendUnregister(c: Client)
    | Publish(m: Message)
    | TakeRegister(l: nat)
    | TakeUnregister(l: nat)
    | TakeMessage(l: nat)
    | Apply(l: nat)
    | Done(l: nat)
    | Consume(c: Client)

  predicate IdleLoop(s: State, l: nat) {
    l < |s.loops| && s.loops[l].Idle?
  }

  predicate Enabled(s: State, a: Action) {
    match a
    case CallRegister(c) => c !in s.everRegistered                  // each client registers once
    case SendRegister(c) => c in s.waitingReg && |s.regQueue| < QUEUE_CAP
    case CallUnregister(_) => true
    case SendUnregister(c) => c in s.waitingUnreg && |s.unregQueue| < QUEUE_CAP
    case Publish(_) => |s.messages| < BROADCAST_CAP
    case TakeRegister(l) => IdleLoop(s, l) && s.regQueue != []
    case TakeUnregister(l) => IdleLoop(s, l) && s.unregQueue != []
    case TakeMessage(l) => IdleLoop(s, l) && s.messages != []
    case Apply(l) => l < |s.loops|
      && (s.loops[l].TookRegister? || s.loops[l].TookUnregister? || s.loops[l].TookMessage?)
    case Done(l) => l < |s.loops| && s.loops[l].OwesDone?
    case Consume(c) => ChanOf(s.core.chans, c).buffer != []
  }

  /** Members that a step removed from the hub stop at the current point of the broadcast order. */
  function Departed(s: State, after: Core): map<Client, nat> {
    s.gone + (map c | c in s.core.clients && c !in after.clients :: |s.processed|)
  }

  function Applied(s: State, l: nat): State
    requires l < |s.loops|
  {
    match s.loops[l]
    case TookRegister(c) =>
      s.(core := Registered(s.core, c), joined := s.joined[c := |s.processed|], loops := s.loops[l := OwesDone])
    case TookUnregister(c) =>
      var core := Unregistered(s.core, c);
      s.(core := core, gone := Departed(s, core), loops := s.loops[l := OwesDone])
    case TookMessage(m) =>
      var core := Broadcast(s.core, m);
      s.(core := core, gone := Departed(s, core), processed := s.processed + [m], loops := s.loops[l := Idle])
    case _ => s
  }

  function Next(s: State, a: Action): State
    requires Enabled(s, a)
  {
    match a
    case CallRegister(c) =>
      s.(pending := s.pending + 1, waitingReg := s.waitingReg + {c}, everRegistered := s.everRegistered + {c})
    case SendRegister(c) => s.(waitingReg := s.waitingReg - {c}, regQueue := s.regQueue + [c])
    case CallUnregister(c) => s.(pending := s.pending + 1, waitingUnreg := s.waitingUnreg + multiset{c})
    case SendUnregister(c) => s.(waitingUnreg := s.waitingUnreg - multiset{c}, unregQueue := s.unregQueue + [c])
    case Publish(m) => s.(messages := s.messages + [m])
    case TakeRegister(l) => s.(regQueue := s.regQueue[1..], loops := s.loops[l := TookRegister(s.regQueue[0])])
    case TakeUnregister(l) => s.(unregQueue := s.unregQueue[1..],
                                 loops := s.loops[l := TookUnregister(s.unregQueue[0])])
    case TakeMessage(l) => s.(messages := s.messages[1..], loops := s.loops[l := TookMessage(s.messages[0])])
    case Apply(l) => Applied(s, l)
    case Done(l) => s.(pending := s.pending - 1, loops := s.loops[l := Idle])
    case Consume(c) =>
      var ch := ChanOf(s.core.chans, c);
      s.(core := s.core.(chans := s.core.chans[c
                                               := ch.(buffer := ch.buffer[1..],
                                                      received := ch.received + [ch.buffer[0]])]))
  }

  ghost predicate Runs(s: State, actions: seq<Action>)
    decreases actions
  {
    actions == [] || (Enabled(s, actions[0]) && Runs(Next(s, actions[0]), actions[1..]))
  }

  function After(s: State, actions: seq<Action>): State
    requires Runs(s, actions)
    decreases actions
  {
    if actions == [] then s else After(Next(s, actions[0]), actions[1..])
  }

  // ----- One client's life

  /** How many places of the registration path hold the client. */
  function OnTheWay(s: State, c: Client): nat {
    (if c in s.waitingReg then 1 else 0) + multiset(s.regQueue)[c] + multiset(s.loops)[TookRegister(c)]
  }

  /** Never a member: nothing happened to its channel. */
  ghost predicate Untouched(s: State, c: Client) {
    c !in s.core.clients && c !in s.joined && c !in s.gone && ChanOf(s.core.chans, c) == NEW_CHAN
  }

  /** A member, open, that was sent every broadcast since it joined. */
  ghost predicate Member(s: State, c: Client) {
    && c in s.core.clients && c in s.joined && c !in s.gone && s.joined[c] <= |s.processed|
    && ChanOf(s.core.chans, c).open
    && ChanOf(s.core.chans, c).sent == s.processed[s.joined[c]..]
  }

  /** A former member, closed, that was sent every broadcast from joining to leaving. */
  ghost predicate Former(s: State, c: Client) {
    && c !in s.core.clients && c in s.joined && c in s.gone && s.joined[c] <= s.gone[c] <= |s.processed|
    && !ChanOf(s.core.chans, c).open
    && ChanOf(s.core.chans, c).sent == s.processed[s.joined[c]..s.gone[c]]
  }

  ghost predicate ClientInv(s: State, c: Client) {
    && (if c !in s.everRegistered then OnTheWay(s, c) == 0 && Untouched(s, c)
        else if OnTheWay(s, c) == 0 then Member(s, c) || Former(s, c)
        else OnTheWay(s, c) == 1 && Untouched(s, c))
    && ChanOf(s.core.chans, c).sent == ChanOf(s.core.chans, c).received + ChanOf(s.core.chans, c).buffer
  }

  ghost predicate Inv(s: State) {
    !s.core.panicked && forall c :: ClientInv(s, c)
  }

  lemma TakenFromQueue(queue: seq<Client>, c: Client)
    requires queue != []
    ensures multiset(queue)[c] == multiset(queue[1..])[c] + if queue[0] == c then 1 else 0
  {
    assert queue == [queue[0]] + queue[1..];
  }

  lemma LoopChanged(loops: seq<Loop>, l: nat, to: Loop, x: Loop)
    requires l < |loops|
    ensures multiset(loops[l := to])[x] + (if loops[l] == x then 1 else 0) == multiset(loops)[x] + if to == x then 1
            else 0
  {
    assert loops == loops[..l] + [loops[l]] + loops[l + 1..];
    assert loops[l := to] == loops[..l] + [to] + loops[l + 1..];
  }

  /** Calling and queueing move a client along the registration path; consuming empties its buffer. */
  lemma CallingKeepsClient(s: State, a: Action, c: Client)
    requires ClientInv(s, c) && Enabled(s, a)
    requires a.CallRegister? || a.SendRegister? || a.CallUnregister? || a.SendUnregister? || a.Publish? || a.Consume?
    ensures ClientInv(Next(s, a), c)
  {
  }

  /** Taking from a queue moves a client from the queue into a loop. */
  lemma TakingKeepsClient(s: State, a: Action, c: Client)
    requires ClientInv(s, c) && Enabled(s, a)
    requires a.TakeRegister? || a.TakeUnregister? || a.TakeMessage? || a.Done?
    ensures ClientInv(Next(s, a), c)
  {
    match a
    case TakeRegister(l) =>
      TakenFromQueue(s.regQueue, c);
      LoopChanged(s.loops, l, TookRegister(s.regQueue[0]), TookRegister(c));
    case TakeUnregister(l) => LoopChanged(s.loops, l, TookUnregister(s.unregQueue[0]), TookRegister(c));
    case TakeMessage(l) => LoopChanged(s.loops, l, TookMessage(s.messages[0]), TookRegister(c));
    case Done(l) => LoopChanged(s.loops, l, Idle, TookRegister(c));
  }

  lemma ApplyKeepsClient(s: State, l: nat, c: Client)
    requires ClientInv(s, c) && Enabled(s, Apply(l))
    ensures ClientInv(Next(s, Apply(l)), c)
  {
    match s.loops[l]
    case TookRegister(d) => RegisterKeepsClient(s, l, d, c);
    case TookUnregister(d) => UnregisterKeepsClient(s, l, d, c);
    case TookMessage(m) => BroadcastKeepsClient(s, l, m, c);
  }

  lemma RegisterKeepsClient(s: State, l: nat, d: Client, c: Client)
    requires ClientInv(s, c) && l < |s.loops| && s.loops[l] == TookRegister(d)
    ensures ClientInv(Applied(s, l), c)
  {
    LoopChanged(s.loops, l, OwesDone, TookRegister(c));
  }

  lemma UnregisterKeepsClient(s: State, l: nat, d: Client, c: Client)
    requires ClientInv(s, c) && l < |s.loops| && s.loops[l] == TookUnregister(d)
    ensures ClientInv(Applied(s, l), c)
  {
    LoopChanged(s.loops, l, OwesDone, TookRegister(c));
  }

  lemma BroadcastKeepsClient(s: State, l: nat, m: Message, c: Client)
    requires ClientInv(s, c) && l < |s.loops| && s.loops[l] == TookMessage(m)
    ensures ClientInv(Applied(s, l), c)
  {
    LoopChanged(s.loops, l, Idle, TookRegister(c));
    if c in s.joined && s.joined[c] <= |s.processed| {
      assert (s.processed + [m])[s.joined[c]..] == s.processed[s.joined[c]..] + [m];
    }
  }

  lemma StepKeepsInv(s: State, a: Action)
    requires Inv(s) && Enabled(s, a)
    ensures Inv(Next(s, a))
  {
    forall c ensures ClientInv(Next(s, a), c) {
      if a.Apply? {
        ApplyKeepsClient(s, a.l, c);
      } else if a.TakeRegister? || a.TakeUnregister? || a.TakeMessage? || a.Done? {
        TakingKeepsClient(s, a, c);
      } else {
        CallingKeepsClient(s, a, c);
      }
    }
    NoPanic(s, a);
  }

  lemma NoPanic(s: State, a: Action)
    requires Inv(s) && Enabled(s, a)
    ensures !Next(s, a).core.panicked
  {
    assert forall c | c in s.core.clients :: ClientInv(s, c);
  }

  lemma {:induction false} RunKeepsInv(s: State, actions: seq<Action>)
    requires Inv(s) && Runs(s, actions)
    ensures Inv(After(s, actions))
    decreases actions
  {
    if actions != [] {
      StepKeepsInv(s, actions[0]);
      RunKeepsInv(Next(s, actions[0]), actions[1..]);
    }
  }

  lemma {:induction false} InitInv(runLoops: nat)
    ensures Inv(Init(runLoops))
  {
    var s := Init(runLoops);
    forall c ensures ClientInv(s, c) {
      NoneTaken(s.loops, c);
    }
  }

  lemma {:induction false} NoneTaken(loops: seq<Loop>, c: Client)
    requires forall i | 0 <= i < |loops| :: loops[i].Idle?
    ensures multiset(loops)[TookRegister(c)] == 0
  {
    assert TookRegister(c) !in loops;
  }

  /** With any number of Run loops and callers, no channel is closed twice or sent to after closing, and a
      member's channel is open. */
  lemma NeverPanics(runLoops: nat, actions: seq<Action>)
    requires Runs(Init(runLoops), actions)
    ensures
      var s := After(Init(runLoops), actions);
      !s.core.panicked && forall c | c in s.core.clients :: ChanOf(s.core.chans, c).open
  {
    InitInv(runLoops);
    RunKeepsInv(Init(runLoops), actions);
    var s := After(Init(runLoops), actions);
    assert forall c | c in s.core.clients :: ClientInv(s, c);
  }

  /** What a client was sent: nothing before it became a member, then exactly the broadcasts applied while it
      was one, contiguous and in order; what it consumed is a prefix of that. */
  lemma SentExactlyWhileMember(runLoops: nat, actions: seq<Action>, c: Client)
    requires Runs(Init(runLoops), actions)
    ensures
      var s := After(Init(runLoops), actions);
      var ch := ChanOf(s.core.chans, c);
      && (c in s.core.clients ==>
            c in s.joined && s.joined[c] <= |s.processed| && ch.sent == s.processed[s.joined[c]..])
      && (c in s.gone ==> c in s.joined && s.joined[c] <= s.gone[c] <= |s.processed|
                          && ch.sent == s.processed[s.joined[c]..s.gone[c]] && !ch.open)
      && (c !in s.joined ==> ch == NEW_CHAN)
      && ch.received <= ch.sent
  {
    InitInv(runLoops);
    RunKeepsInv(Init(runLoops), actions);
    assert ClientInv(After(Init(runLoops), actions), c);
  }

  // ----- The wait group and Sync

  function Owed(loop: Loop): nat {
    if loop.Idle? || loop.TookMessage? then 0 else 1
  }

  function Owing(loops: seq<Loop>): nat {
    if loops == [] then 0 else Owed(loops[0]) + Owing(loops[1..])
  }

  lemma {:induction false} OwingChanged(loops: seq<Loop>, l: nat, to: Loop)
    requires l < |loops|
    ensures Owing(loops[l := to]) + Owed(loops[l]) == Owing(loops) + Owed(to)
  {
    if l == 0 {
      assert loops[l := to][1..] == loops[1..];
    } else {
      OwingChanged(loops[1..], l - 1, to);
      assert loops[l := to][1..] == loops[1..][l - 1 := to];
    }
  }

  lemma {:induction false} NothingOwed(loops: seq<Loop>)
    requires Owing(loops) == 0
    ensures forall i | 0 <= i < |loops| :: Owed(loops[i]) == 0
  {
    if loops != [] {
      NothingOwed(loops[1..]);
      assert forall i | 1 <= i < |loops| :: loops[i] == loops[1..][i - 1];
    }
  }

  ghost predicate Balanced(s: State) {
    s.pending == |s.waitingReg| + |s.regQueue| + |s.waitingUnreg| + |s.unregQueue| + Owing(s.loops)
  }

  /** Clients waiting to be queued were registered, so a new registration is new there too. */
  ghost predicate WaitingRegistered(s: State) {
    s.waitingReg <= s.everRegistered
  }

  lemma CallKeepsBalance(s: State, a: Action)
    requires Balanced(s) && WaitingRegistered(s) && Enabled(s, a)
    requires a.CallRegister? || a.SendRegister? || a.CallUnregister? || a.SendUnregister? || a.Publish? || a.Consume?
    ensures Balanced(Next(s, a)) && WaitingRegistered(Next(s, a))
  {
    match a
    case SendRegister(c) => assert s.waitingReg == (s.waitingReg - {c}) + {c};
    case SendUnregister(c) => assert s.waitingUnreg == (s.waitingUnreg - multiset{c}) + multiset{c};
    case _ =>
  }

  lemma LoopKeepsBalance(s: State, a: Action)
    requires Balanced(s) && WaitingRegistered(s) && Enabled(s, a)
    requires a.TakeRegister? || a.TakeUnregister? || a.TakeMessage? || a.Apply? || a.Done?
    ensures Balanced(Next(s, a)) && WaitingRegistered(Next(s, a))
  {
    match a
    case TakeRegister(l) => OwingChanged(s.loops, l, TookRegister(s.regQueue[0]));
    case TakeUnregister(l) => OwingChanged(s.loops, l, TookUnregister(s.unregQueue[0]));
    case TakeMessage(l) => OwingChanged(s.loops, l, TookMessage(s.messages[0]));
    case Apply(l) => OwingChanged(s.loops, l, if s.loops[l].TookMessage? then Idle else OwesDone);
    case Done(l) => OwingChanged(s.loops, l, Idle);
  }

  lemma {:induction false} RunKeepsBalance(s: State, actions: seq<Action>)
    requires Balanced(s) && WaitingRegistered(s) && Runs(s, actions)
    ensures Balanced(After(s, actions)) && WaitingRegistered(After(s, actions))
    decreases actions
  {
    if actions != [] {
      match actions[0] {
        case CallRegister(_) | SendRegister(_) | CallUnregister(_) | SendUnregister(_) | Publish(_) | Consume(_) =>
          CallKeepsBalance(s, actions[0]);
        case _ => LoopKeepsBalance(s, actions[0]);
      }
      RunKeepsBalance(Next(s, actions[0]), actions[1..]);
    }
  }

  lemma {:induction false} IdleOwesNothing(n: nat)
    ensures Owing(seq(n, i => Idle)) == 0
  {
    if n > 0 {
      IdleOwesNothing(n - 1);
      assert seq(n, i => Idle)[1..] == seq(n - 1, i => Idle);
    }
  }

  /** The wait group never goes negative, and Sync, which waits for zero, returns only when every Register and
      Unregister call begun so far has been applied: each registered client is a member or has been one. */
  lemma SyncWaitsForAll(runLoops: nat, actions: seq<Action>)
    requires Runs(Init(runLoops), actions)
    ensures
      var s := After(Init(runLoops), actions);
      && s.pending >= 0
      && (s.pending == 0 ==>
            && s.waitingReg == {} && s.regQueue == [] && s.waitingUnreg == multiset{} && s.unregQueue == []
            && (forall c | c in s.everRegistered :: c in s.core.clients || c in s.gone))
  {
    var s := After(Init(runLoops), actions);
    IdleOwesNothing(runLoops);
    RunKeepsBalance(Init(runLoops), actions);
    InitInv(runLoops);
    RunKeepsInv(Init(runLoops), actions);
    if s.pending == 0 {
      NothingOwed(s.loops);
      forall c | c in s.everRegistered ensures c in s.core.clients || c in s.gone {
        assert ClientInv(s, c);
        assert TookRegister(c) !in s.loops;
      }
    }
  }
}
