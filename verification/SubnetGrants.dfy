/**
 Which nodes internal/subnet/allocator.go grants a subnet: when an allocation must succeed, on every run, and what
 registering a pool again does.
 */
module SubnetGrants {
  import opened Subnet
  import opened SubnetPools
  import opened Wrappers

  /** How many subnets of one length a prefix of the other has room for. */
  function Capacity(prefixLen: int): nat {
    if prefixLen <= 64 then Pow2(64 - prefixLen) else 0
  }

  /** The pool can be registered. */
  predicate Registrable(parse: Parser, k: PoolKey) {
    48 <= k.prefixLen <= 64 && parse(k.prefix).Some?
  }

  /** In a registered pool a node that holds nothing is granted a subnet, and holds it from then on, if and only if
      fewer than 2^(64 - length) are held; otherwise nothing changes. */
  lemma GrantedExactlyWhenRoom(parse: Parser, s: State, node: string, k: PoolKey)
    requires Registrable(parse, k) && k in s.counters && node !in Held(s, k)
    ensures
      var (t, r) := Allocate(parse, s, node, k);
      && (r.Ok? <==> |Held(s, k)| < Capacity(k.prefixLen))
      && (r.Ok? ==> Held(t, k) == Held(s, k)[node := r.value])
      && (r.Err? ==> r == Err(Exhausted) && t == s)
  {
  }

  lemma StepRegisters(parse: Parser, s: State, e: Event, t: State, k: PoolKey)
    requires Step(parse, s, e, t)
    ensures k in t.counters <==> k in s.counters || (e == Reg(k) && Registrable(parse, k))
    ensures !e.Dealloc? && !(e.Alloc? && e.k == k) ==> Held(t, k) == Held(s, k)
  {
    hide CalculateSubnet;
  }

  /** On every run exactly the pools that can be registered and were, are. */
  lemma {:induction false} RegisteredExactlyWhen(parse: Parser, events: seq<Event>, states: seq<State>, n: nat,
                                                 k: PoolKey)
    requires Run(parse, events, states) && n < |states|
    ensures k in states[n].counters <==> Reg(k) in events[..n] && Registrable(parse, k)
    decreases n
  {
    hide Step, Registrable;
    if n > 0 {
      RegisteredExactlyWhen(parse, events, states, n - 1, k);
      assert events[..n] == events[..n - 1] + [events[n - 1]];
      assert Step(parse, states[n - 1], events[n - 1], states[n]);
      StepRegisters(parse, states[n - 1], events[n - 1], states[n], k);
    }
  }

  /** So on every run, with deallocations too, an allocation succeeds if and only if its pool was registered and the
      node holds a subnet in it already or fewer than 2^(64 - length) are held. */
  lemma AllocationSucceedsExactlyWhen(parse: Parser, events: seq<Event>, states: seq<State>, n: nat, node: string,
                                      k: PoolKey)
    requires Run(parse, events, states) && n < |states|
    ensures
      var s := states[n];
      Allocate(parse, s, node, k).1.Ok?
      <==> Reg(k) in events[..n] && Registrable(parse, k)
           && (node in Held(s, k) || |Held(s, k)| < Capacity(k.prefixLen))
  {
    var s := states[n];
    RegisteredExactlyWhen(parse, events, states, n, k);
    if k in s.counters && node !in Held(s, k) {
      GrantedExactlyWhenRoom(parse, s, node, k);
    }
  }

  // ----- Who gets the subnets of a run without deallocation

  /** The distinct nodes that asked a pool once it was registered, in the order they first did. */
  function Asked(events: seq<Event>, k: PoolKey): seq<string>
    decreases |events|
  {
    if events == [] then [] else
      var front, last := events[..|events| - 1], events[|events| - 1];
      if last.Alloc? && last.k == k && Reg(k) in front && last.node !in Asked(front, k)
      then Asked(front, k) + [last.node]
      else Asked(front, k)
  }

  function FirstOf(nodes: seq<string>, n: nat): seq<string> {
    if |nodes| <= n then nodes else nodes[..n]
  }

  /** Exactly these nodes hold subnets in the pool: the i-th one the prefix with index i written into it. */
  ghost predicate HeldBy(parse: Parser, s: State, k: PoolKey, nodes: seq<string>)
    requires Registrable(parse, k)
  {
    && (forall n :: n in Held(s, k) <==> n in nodes)
    && (forall i, j | 0 <= i < j < |nodes| :: nodes[i] != nodes[j])
    && (forall i | 0 <= i < |nodes| ::
          nodes[i] in Held(s, k) && Held(s, k)[nodes[i]] == WriteIndex(parse(k.prefix).value, k.prefixLen / 8, i))
    && |Held(s, k)| == |nodes|
  }

  lemma Newcomer(parse: Parser, s: State, k: PoolKey, nodes: seq<string>, node: string)
    requires Registrable(parse, k) && k in s.counters && HeldBy(parse, s, k, nodes) && node !in nodes
    ensures
      var t := Allocate(parse, s, node, k).0;
      HeldBy(parse, t, k, if |nodes| < Capacity(k.prefixLen) then nodes + [node] else nodes)
  {
    hide WriteIndex, Pow2;
    var (t, r) := Allocate(parse, s, node, k);
    if r.Ok? {
      OneMore(Held(s, k), node, r.value);
      assert Held(t, k) == Held(s, k)[node := r.value];
    }
  }

  lemma SameHeldBy(parse: Parser, s: State, t: State, k: PoolKey, nodes: seq<string>)
    requires Registrable(parse, k) && HeldBy(parse, s, k, nodes) && Held(t, k) == Held(s, k)
    ensures HeldBy(parse, t, k, nodes)
  {
  }

  /** Asking a pool of which `nodes`, all there is room for among those that asked, hold the subnets. */
  lemma AskKeeps(parse: Parser, s: State, k: PoolKey, asked: seq<string>, node: string)
    requires Registrable(parse, k) && k in s.counters
    requires HeldBy(parse, s, k, FirstOf(asked, Capacity(k.prefixLen)))
    ensures
      var t := Allocate(parse, s, node, k).0;
      HeldBy(parse, t, k, FirstOf(if node in asked then asked else asked + [node], Capacity(k.prefixLen)))
  {
    var t, room := Allocate(parse, s, node, k).0, Capacity(k.prefixLen);
    var nodes := FirstOf(asked, room);
    var next := FirstOf(if node in asked then asked else asked + [node], room);
    if node in nodes {
      assert t == s && next == nodes;
    } else {
      if node in asked {
        assert |nodes| == room;
      }
      assert next == if |nodes| < room then nodes + [node] else nodes;
      hide HeldBy, Allocate, Capacity;
      Newcomer(parse, s, k, nodes, node);
    }
  }

  lemma AskedNext(events: seq<Event>, n: nat, k: PoolKey)
    requires 0 < n <= |events|
    ensures
      var asked, e := Asked(events[..n - 1], k), events[n - 1];
      Asked(events[..n], k)
      == if e.Alloc? && e.k == k && Reg(k) in events[..n - 1] && e.node !in asked then asked + [e.node] else asked
  {
    assert events[..n][..n - 1] == events[..n - 1];
  }

  lemma UnregisteredKeeps(parse: Parser, s: State, node: string, k: PoolKey)
    requires k !in s.counters
    ensures Allocate(parse, s, node, k).0 == s
  {
  }

  /** One step of such a run, in which `asked` asked so far. */
  lemma StepHolds(parse: Parser, s: State, e: Event, t: State, k: PoolKey, asked: seq<string>)
    requires Registrable(parse, k) && Step(parse, s, e, t) && !e.Dealloc?
    requires HeldBy(parse, s, k, FirstOf(asked, Capacity(k.prefixLen)))
    ensures
      var next := if e.Alloc? && e.k == k && k in s.counters && e.node !in asked then asked + [e.node] else asked;
      HeldBy(parse, t, k, FirstOf(next, Capacity(k.prefixLen)))
  {
    hide HeldBy, Allocate, Registrable, FirstOf, Capacity, Register;
    if e.Alloc? && e.k == k {
      if k in s.counters {
        AskKeeps(parse, s, k, asked, e.node);
      } else {
        UnregisteredKeeps(parse, s, e.node, k);
      }
    } else {
      StepRegisters(parse, s, e, t, k);
      SameHeldBy(parse, s, t, k, FirstOf(asked, Capacity(k.prefixLen)));
    }
  }

  lemma NobodyAtFirst(parse: Parser, k: PoolKey)
    requires Registrable(parse, k)
    ensures HeldBy(parse, INIT, k, FirstOf([], Capacity(k.prefixLen)))
  {
  }

  /** Without deallocations exactly the first 2^(64 - length) distinct nodes that ask a pool get a subnet of it, the
      i-th one the prefix with index i written into it. */
  lemma {:induction false} FirstToAskHold(parse: Parser, events: seq<Event>, states: seq<State>, n: nat, k: PoolKey)
    requires Run(parse, events, states) && n < |states| && Registrable(parse, k)
    requires forall i | 0 <= i < |events| :: !events[i].Dealloc?
    ensures HeldBy(parse, states[n], k, FirstOf(Asked(events[..n], k), Capacity(k.prefixLen)))
    decreases n
  {
    hide HeldBy, FirstOf, Capacity, Registrable, Step;
    if n == 0 {
      assert Asked(events[..0], k) == [];
      NobodyAtFirst(parse, k);
    } else {
      FirstToAskHold(parse, events, states, n - 1, k);
      RegisteredExactlyWhen(parse, events, states, n - 1, k);
      AskedNext(events, n, k);
      hide Asked;
      assert Step(parse, states[n - 1], events[n - 1], states[n]);
      StepHolds(parse, states[n - 1], events[n - 1], states[n], k, Asked(events[..n - 1], k));
    }
  }

  // ----- Registering again

  /** On every run, after a pool's registration and until its next, first or not, the counter is the number of subnets
      held now less the number held at the registration, which itself leaves the held ones alone. */
  lemma {:induction false} CounterSinceRegistration(parse: Parser, events: seq<Event>, states: seq<State>, m: nat,
                                                    n: nat, k: PoolKey)
    requires Run(parse, events, states) && Registrable(parse, k)
    requires m < n < |states| && events[m] == Reg(k) && Reg(k) !in events[m + 1..n]
    ensures k in states[n].counters
    ensures states[n].counters[k] == |Held(states[n], k)| - |Held(states[m], k)|
    ensures Held(states[m + 1], k) == Held(states[m], k)
    decreases n
  {
    assert Step(parse, states[m], events[m], states[m + 1]);
    CounterDrift(parse, events, states, n);
    BaseIsKept(parse, events, states, m, n, k);
  }

  lemma {:induction false} BaseIsKept(parse: Parser, events: seq<Event>, states: seq<State>, m: nat, n: nat,
                                      k: PoolKey)
    requires Run(parse, events, states) && Registrable(parse, k)
    requires m < n < |states| && events[m] == Reg(k) && Reg(k) !in events[m + 1..n]
    ensures k in states[n].counters && k in states[n].base && states[n].base[k] == |Held(states[m], k)|
    decreases n
  {
    assert Step(parse, states[n - 1], events[n - 1], states[n]);
    if m + 1 < n {
      assert events[n - 1] == events[m + 1..n][n - 1 - (m + 1)];
      assert events[m + 1..n - 1] == events[m + 1..n][..n - 1 - (m + 1)];
      BaseIsKept(parse, events, states, m, n - 1, k);
      StepKeepsBase(parse, states[n - 1], events[n - 1], states[n], k);
    }
  }

  lemma StepKeepsBase(parse: Parser, s: State, e: Event, t: State, k: PoolKey)
    requires Step(parse, s, e, t) && k in s.counters && k in s.base && e != Reg(k)
    ensures k in t.counters && k in t.base && t.base[k] == s.base[k]
  {
    hide CalculateSubnet;
  }

  // ----- Deallocation

  ghost predicate Lost(s: State, t: State, node: string, k: PoolKey) {
    node in Held(s, k) && node !in Held(t, k)
  }

  /** Nobody else gained or lost anything, and the node gained nothing. */
  ghost predicate OthersKeep(s: State, node: string, t: State, k: PoolKey) {
    && (forall m | m in Held(t, k) :: m in Held(s, k) && Held(t, k)[m] == Held(s, k)[m])
    && (forall m | m in Held(s, k) && m != node :: m in Held(t, k))
  }

  /** A deallocation takes the node's subnet in exactly one pool, if it has one in any, and nothing from anybody
      else. */
  lemma FreesOneHolding(s: State, node: string, t: State)
    requires Counts(s) && Deallocated(s, node, t)
    ensures forall k :: OthersKeep(s, node, t, k)
    ensures (exists k :: node in Held(s, k)) ==> exists k :: Lost(s, t, node, k)
    ensures forall j, k | Lost(s, t, node, j) && Lost(s, t, node, k) :: j == k
  {
    if exists k :: node in Held(s, k) {
      var freed := Freed(s, node, t);
      hide *;
      FreedOnly(s, node, freed);
      assert Lost(s, t, node, freed);
    } else {
      NothingFreed(s, node, t);
    }
  }

  lemma Freed(s: State, node: string, t: State) returns (k: PoolKey)
    requires Counts(s) && Deallocated(s, node, t) && exists k :: node in Held(s, k)
    ensures k in s.counters && node in Held(s, k) && t == Free(s, node, k)
  {
    hide Free;
    var some :| node in Held(s, some);
    assert some in s.counters;
    hide Counts;
    k :| k in s.counters && node in Held(s, k) && t == Free(s, node, k);
  }

  lemma NothingFreed(s: State, node: string, t: State)
    requires Deallocated(s, node, t) && forall k :: node !in Held(s, k)
    ensures t == s
    ensures forall k :: OthersKeep(s, node, t, k) && !Lost(s, t, node, k)
  {
  }

  lemma FreeIsLocal(s: State, node: string, freed: PoolKey)
    requires freed in s.counters && node in Held(s, freed)
    ensures Held(Free(s, node, freed), freed) == Held(s, freed) - {node}
    ensures forall k | k != freed :: Held(Free(s, node, freed), k) == Held(s, k)
  {
  }

  lemma FreedOnly(s: State, node: string, freed: PoolKey)
    requires freed in s.counters && node in Held(s, freed)
    ensures forall k :: OthersKeep(s, node, Free(s, node, freed), k)
    ensures forall k :: Lost(s, Free(s, node, freed), node, k) <==> k == freed
  {
    FreeIsLocal(s, node, freed);
    hide Free, Held;
  }
}
