/**
 The allocation side of internal/subnet/allocator.go: pools, the subnets nodes hold in each, and the counter
 kept next to them.  A new node's index is the number of subnets currently held.
 */
module SubnetPools {
  import opened Subnet
  import opened Wrappers

  /** Pools are keyed by the prefix as written and its length. */
  datatype PoolKey = PoolKey(prefix: string, prefixLen: int)

  /** counters: the "allocated" field of each registered pool; allocs: node to subnet, per pool;
      base: how many subnets were held when the pool was last registered. */
  datatype State = State(counters: map<PoolKey, int>,
                         allocs: map<PoolKey, map<string, Address>>, base: map<PoolKey, nat>)

  /** Reading a prefix as an address, or failing to. */
  type Parser = string -> Option<Address>

  const INIT: State := State(map[], map[], map[])

  function Held(s: State, k: PoolKey): map<string, Address> {
    if k in s.allocs then s.allocs[k] else map[]
  }

  function Register(parse: Parser, s: State, k: PoolKey): (State, Option<Error>) {
    if !ValidLength(k.prefixLen) then (s, Some(InvalidPrefixLength))
    else if parse(k.prefix).None? then (s, Some(InvalidPrefix))
    else (s.(counters := s.counters[k := 0], base := s.base[k := |Held(s, k)|]), None)
  }

  function Allocate(parse: Parser, s: State, node: string, k: PoolKey): (State, Result<Address, Error>)
  {
    if k !in s.counters || !ValidLength(k.prefixLen) then (s, Err(PoolNotFound))
    else if node in Held(s, k) then (s, Ok(Held(s, k)[node]))
    else
      var r := CalculateSubnet(parse(k.prefix), k.prefixLen, |Held(s, k)|);
      if r.Err? then (s, r)
      else (Granted(s, node, k, r.value), r)
  }

  function Granted(s: State, node: string, k: PoolKey, address: Address): State
    requires k in s.counters
  {
    s.(allocs := s.allocs[k := Held(s, k)[node := address]], counters := s.counters[k := s.counters[k] + 1])
  }

  /** Gives back a node's subnet in one pool. */
  function Free(s: State, node: string, k: PoolKey): State
    requires k in s.counters && node in Held(s, k)
  {
    s.(allocs := s.allocs[k := Held(s, k) - {node}], counters := s.counters[k := s.counters[k] - 1])
  }

  /** Deallocate looks through the pools in no particular order and frees the first hit only. */
  ghost predicate Deallocated(s: State, node: string, t: State) {
    if exists k :: k in s.counters && node in Held(s, k)
    then exists k :: k in s.counters && node in Held(s, k) && t == Free(s, node, k)
    else t == s
  }

  class SubnetAllocator {
    const parse: Parser
    var counters: map<PoolKey, int>
    var allocs: map<PoolKey, map<string, Address>>
    ghost var base: map<PoolKey, nat>

    constructor (parse: Parser)
      ensures this.parse == parse && Now() == INIT && Valid()
    {
      this.parse := parse;
      counters, allocs, base := map[], map[], map[];
    }

    ghost function Now(): State
      reads this
    {
      State(counters, allocs, base)
    }

    ghost predicate Valid()
      reads this
    {
      Counts(Now())
    }

    method RegisterPool(k: PoolKey) returns (error: Option<Error>)
      requires Valid()
      modifies this
      ensures Valid() && (Now(), error) == Register(parse, old(Now()), k)
    {
      CountsKept(parse, Now(), k);
      if k.prefixLen < 48 || k.prefixLen > 64 {
        return Some(InvalidPrefixLength);
      }
      var ip := parse(k.prefix);
      if ip.None? {
        return Some(InvalidPrefix);
      }
      base := base[k := |Held(Now(), k)|];
      counters := counters[k := 0];
      error := None;
    }

    method AllocateSubnet(node: string, k: PoolKey) returns (r: Result<Address, Error>)
      requires Valid()
      modifies this
      ensures Valid() && (Now(), r) == Allocate(parse, old(Now()), node, k)
    {
      CountsAllocate(parse, Now(), node, k);
      RegisteredLength(Now(), k);
      AllocateCases(parse, Now(), node, k);
      hide CalculateSubnet, Counts, Allocate, Granted, Held;
      if k !in counters {
        return Err(PoolNotFound);
      }
      var held := HeldNow(k);
      if node in held {
        return Ok(held[node]);
      }
      var count := |held|;
      r := CalculateSubnetInPlace(parse(k.prefix), k.prefixLen, count);
      assert Now() == old(Now());
      if r.Err? {
        return r;
      }
      Grant(node, k, r.value);
    }

    function HeldNow(k: PoolKey): (held: map<string, Address>)
      reads this
      ensures held == Held(Now(), k)
    {
      if k in allocs then allocs[k] else map[]
    }

    /** The end of AllocateSubnet: keep the node's subnet and count it. */
    method Grant(node: string, k: PoolKey, address: Address)
      requires k in counters
      modifies this
      ensures Now() == Granted(old(Now()), node, k, address)
    {
      allocs := allocs[k := HeldNow(k)[node := address]];
      counters := counters[k := counters[k] + 1];
    }

    method Deallocate(node: string)
      requires Valid()
      modifies this
      ensures Valid() && Deallocated(old(Now()), node, Now())
    {
      assert allocs.Keys <= counters.Keys;
      hide Counts, Deallocated, Free;
      var keys := allocs.Keys;
      while keys != {}
        invariant Now() == old(Now()) && keys <= allocs.Keys
        invariant forall k | k in allocs && k !in keys :: node !in allocs[k]
        decreases keys
      {
        var k :| k in keys;
        if node in allocs[k] {
          FreedIsDeallocated(Now(), node, k);
          Release(node, k);
          return;
        }
        keys := keys - {k};
      }
      NothingToDeallocate(Now(), node);
    }

    /** The hit of Deallocate. */
    method Release(node: string, k: PoolKey)
      requires k in counters && node in HeldNow(k)
      modifies this
      ensures Now() == Free(old(Now()), node, k)
    {
      allocs := allocs[k := allocs[k] - {node}];
      counters := counters[k := counters[k] - 1];
    }
  }

  // ----- The counter

  /** In every pool the counter is the number of subnets held now minus the number held at the last registration. */
  ghost predicate Counts(s: State) {
    && s.counters.Keys == s.base.Keys
    && s.allocs.Keys <= s.counters.Keys
    && (forall k | k in s.counters :: ValidLength(k.prefixLen) && s.counters[k] == |Held(s, k)| - s.base[k])
  }

  lemma CountsKept(parse: Parser, s: State, k: PoolKey)
    requires Counts(s)
    ensures Counts(Register(parse, s, k).0)
  {
  }

  lemma AllocateCases(parse: Parser, s: State, node: string, k: PoolKey)
    requires k in s.counters ==> ValidLength(k.prefixLen)
    ensures k !in s.counters ==> Allocate(parse, s, node, k) == (s, Err(PoolNotFound))
    ensures k in s.counters && node in Held(s, k) ==> Allocate(parse, s, node, k) == (s, Ok(Held(s, k)[node]))
    ensures k in s.counters && node !in Held(s, k) ==>
              var r := CalculateSubnet(parse(k.prefix), k.prefixLen, |Held(s, k)|);
              Allocate(parse, s, node, k) == (if r.Err? then s else Granted(s, node, k, r.value), r)
  {
    hide CalculateSubnet, Granted;
  }

  lemma RegisteredLength(s: State, k: PoolKey)
    requires Counts(s)
    ensures k in s.counters ==> ValidLength(k.prefixLen)
  {
  }

  lemma CountsGranted(s: State, node: string, k: PoolKey, address: Address)
    requires Counts(s) && k in s.counters && node !in Held(s, k)
    ensures Counts(Granted(s, node, k, address))
  {
    OneMore(Held(s, k), node, address);
  }

  lemma CountsAllocate(parse: Parser, s: State, node: string, k: PoolKey)
    requires Counts(s)
    ensures Counts(Allocate(parse, s, node, k).0)
  {
    var r := Allocate(parse, s, node, k).1;
    if k in s.counters && node !in Held(s, k) && r.Ok? {
      CountsGranted(s, node, k, r.value);
    }
    hide Counts, Granted, CalculateSubnet;
  }

  lemma CountsFree(s: State, node: string, k: PoolKey)
    requires Counts(s) && k in s.counters && node in Held(s, k)
    ensures Counts(Free(s, node, k))
  {
    var held := Held(s, k);
    assert (held - {node}).Keys == held.Keys - {node};
    assert |held - {node}| == |held| - 1;
  }

  lemma FreedIsDeallocated(s: State, node: string, k: PoolKey)
    requires Counts(s) && k in s.counters && node in Held(s, k)
    ensures Deallocated(s, node, Free(s, node, k)) && Counts(Free(s, node, k))
  {
    CountsFree(s, node, k);
  }

  lemma NothingToDeallocate(s: State, node: string)
    requires forall k | k in s.allocs :: node !in s.allocs[k]
    ensures Deallocated(s, node, s)
  {
  }

  lemma CountsDeallocated(s: State, node: string, t: State)
    requires Counts(s) && Deallocated(s, node, t)
    ensures Counts(t)
  {
    if exists k :: k in s.counters && node in Held(s, k) {
      var k :| k in s.counters && node in Held(s, k) && t == Free(s, node, k);
      CountsFree(s, node, k);
    }
  }

  // ----- Runs

  datatype Event = Reg(k: PoolKey) | Alloc(node: string, k: PoolKey) | Dealloc(node: string)

  ghost predicate Step(parse: Parser, s: State, e: Event, t: State) {
    match e
    case Reg(k) => t == Register(parse, s, k).0
    case Alloc(node, k) => t == Allocate(parse, s, node, k).0
    case Dealloc(node) => Deallocated(s, node, t)
  }

  /** states[i + 1] follows states[i] by events[i], from the empty allocator. */
  ghost predicate Run(parse: Parser, events: seq<Event>, states: seq<State>) {
    && |states| == |events| + 1 && states[0] == INIT
    && forall i | 0 <= i < |events| :: Step(parse, states[i], events[i], states[i + 1])
  }

  /** On every run, with any registrations, allocations and deallocations, the counter drifts by exactly the
      number of subnets held when the pool was last registered. */
  lemma {:induction false} CounterDrift(parse: Parser, events: seq<Event>, states: seq<State>, n: nat)
    requires Run(parse, events, states) && n < |states|
    ensures Counts(states[n])
  {
    if n > 0 {
      CounterDrift(parse, events, states, n - 1);
      var s, t := states[n - 1], states[n];
      assert Step(parse, s, events[n - 1], t);
      match events[n - 1]
      case Reg(k) => CountsKept(parse, s, k);
      case Alloc(node, k) => CountsAllocate(parse, s, node, k);
      case Dealloc(node) => CountsDeallocated(s, node, t);
    }
  }

  // ----- Runs without deallocation

  function AddressOf(parse: Parser, k: PoolKey, index: nat): Result<Address, Error> {
    if !ValidLength(k.prefixLen) then Err(InvalidPrefixLength)
    else CalculateSubnet(parse(k.prefix), k.prefixLen, index)
  }

  /** The i-th node of the order holds the subnet with index i, and nobody else holds any. */
  ghost predicate Packed(parse: Parser, s: State, k: PoolKey, order: seq<string>) {
    && (forall i, j | 0 <= i < j < |order| :: order[i] != order[j])
    && (forall n :: n in Held(s, k) <==> n in order)
    && (forall i | 0 <= i < |order| :: order[i] in Held(s, k) && AddressOf(parse, k, i) == Ok(Held(s, k)[order[i]]))
    && |Held(s, k)| == |order|
  }

  /** Without deallocations the subnets held in a pool are exactly those with indexes 0 .. n - 1. */
  lemma {:induction false} StaysPacked(parse: Parser, events: seq<Event>, states: seq<State>, n: nat, k: PoolKey)
      returns (order: seq<string>)
    requires Run(parse, events, states) && n < |states|
    requires forall i | 0 <= i < |events| :: !events[i].Dealloc?
    ensures Packed(parse, states[n], k, order)
  {
    if n == 0 {
      order := [];
    } else {
      order := StaysPacked(parse, events, states, n - 1, k);
      var s, t, e := states[n - 1], states[n], events[n - 1];
      assert Step(parse, s, e, t);
      hide Packed, Run;
      if Held(t, k) == Held(s, k) {
        SamePacked(parse, s, t, k, order);
      } else {
        OnlyAllocation(parse, s, e, t, k);
        hide Step, Allocate;
        AllocateAppends(parse, s, e.node, k, order);
        order := order + [e.node];
      }
    }
  }

  /** Short of a deallocation only an allocation from the pool changes what is held in it. */
  lemma OnlyAllocation(parse: Parser, s: State, e: Event, t: State, k: PoolKey)
    requires Step(parse, s, e, t) && !e.Dealloc? && Held(t, k) != Held(s, k)
    ensures e.Alloc? && e.k == k && t == Allocate(parse, s, e.node, k).0
  {
    hide CalculateSubnet;
  }

  lemma SamePacked(parse: Parser, s: State, t: State, k: PoolKey, order: seq<string>)
    requires Packed(parse, s, k, order) && Held(t, k) == Held(s, k)
    ensures Packed(parse, t, k, order)
  {
  }

  lemma AllocateAppends(parse: Parser, s: State, node: string, k: PoolKey, order: seq<string>)
    requires Packed(parse, s, k, order) && Held(Allocate(parse, s, node, k).0, k) != Held(s, k)
    ensures Packed(parse, Allocate(parse, s, node, k).0, k, order + [node])
  {
    hide CalculateSubnet;
    var t := Allocate(parse, s, node, k).0;
    assert node !in Held(s, k) && node !in order;
    var address := Held(t, k)[node];
    assert Held(t, k) == Held(s, k)[node := address];
    assert AddressOf(parse, k, |order|) == Ok(address);
    OneMore(Held(s, k), node, address);
  }

  lemma OneMore<K, V>(held: map<K, V>, node: K, v: V)
    requires node !in held
    ensures |held[node := v]| == |held| + 1
  {
    assert held[node := v].Keys == held.Keys + {node};
  }

  /** Asking again for a node that holds a subnet gives the same one and changes nothing, in any state. */
  lemma RepeatIsIdempotent(parse: Parser, s: State, node: string, k: PoolKey)
    requires Allocate(parse, s, node, k).1.Ok?
    ensures
      var (t, r) := Allocate(parse, s, node, k);
      Allocate(parse, t, node, k) == (t, r)
  {
  }

  /** In a packed pool over a clear prefix, two nodes hold different subnets. */
  lemma PackedIsDistinct(parse: Parser, s: State, k: PoolKey, order: seq<string>, m: string, n: string)
    requires Packed(parse, s, k, order) && m in Held(s, k) && n in Held(s, k) && m != n
    requires ValidLength(k.prefixLen) && parse(k.prefix).Some? && Clear(parse(k.prefix).value, k.prefixLen)
    ensures Held(s, k)[m] != Held(s, k)[n]
  {
    var i :| 0 <= i < |order| && order[i] == m;
    var j :| 0 <= j < |order| && order[j] == n;
    if Held(s, k)[m] == Held(s, k)[n] {
      ClearIsInjective(parse(k.prefix).value, k.prefixLen, i, j);
    }
  }

  /** Whatever the prefix, all subnets of a packed pool name the same /64. */
  lemma PackedSharesNetwork(parse: Parser, s: State, k: PoolKey, order: seq<string>, m: string, n: string)
    requires Packed(parse, s, k, order) && m in Held(s, k) && n in Held(s, k)
    ensures Held(s, k)[m][..8] == Held(s, k)[n][..8]
  {
    var i :| 0 <= i < |order| && order[i] == m;
    var j :| 0 <= j < |order| && order[j] == n;
    OneNetworkForAll(parse(k.prefix).value, k.prefixLen, i);
    OneNetworkForAll(parse(k.prefix).value, k.prefixLen, j);
  }

  // ----- After a deallocation

  lemma FreeLeavesOthers(s: State, k: PoolKey, node: string)
    requires k in s.counters && node in Held(s, k)
    ensures Held(Free(s, node, k), k) == Held(s, k) - {node}
    ensures |Held(Free(s, node, k), k)| == |Held(s, k)| - 1
  {
    assert (Held(s, k) - {node}).Keys == Held(s, k).Keys - {node};
    assert |Held(s, k) - {node}| == |(Held(s, k) - {node}).Keys|;
  }

  /** From a packed pool of n, freeing index f and then allocating to a newcomer always gives index n - 1:
      a subnet its last holder still has, whenever f was below n - 1.  The newcomer may be the node just freed. */
  lemma FreedThenReallocated(parse: Parser, s: State, k: PoolKey, order: seq<string>, f: nat, newcomer: string)
    requires k in s.counters && Packed(parse, s, k, order) && f < |order|
    requires newcomer !in Held(s, k) || newcomer == order[f]
    ensures order[f] in Held(s, k)
    ensures
      var freed := Free(s, order[f], k);
      var (t, r) := Allocate(parse, freed, newcomer, k);
      var last := order[|order| - 1];
      && r == AddressOf(parse, k, |order| - 1) && r.Ok?
      && (f < |order| - 1 ==>
            last in Held(t, k) && newcomer in Held(t, k) && last != newcomer
                && Held(t, k)[last] == Held(t, k)[newcomer])
  {
    FreeLeavesOthers(s, k, order[f]);
    var last := order[|order| - 1];
    assert last in Held(s, k);
  }

  /** Over a clear prefix that is the exact condition: after freeing index f the newcomer shares its subnet
      with a remaining node if and only if f was not the last index. */
  lemma CollidesExactlyWhenNotLast(parse: Parser, s: State, k: PoolKey, order: seq<string>, f: nat, newcomer: string)
    requires k in s.counters && Packed(parse, s, k, order) && f < |order| && newcomer !in Held(s, k)
    requires ValidLength(k.prefixLen) && parse(k.prefix).Some? && Clear(parse(k.prefix).value, k.prefixLen)
    ensures order[f] in Held(s, k)
    ensures
      var t := Allocate(parse, Free(s, order[f], k), newcomer, k).0;
      newcomer in Held(t, k) &&
      ((exists other :: other in Held(t, k) && other != newcomer && Held(t, k)[other] == Held(t, k)[newcomer])
       <==> f < |order| - 1)
  {
    FreedThenReallocated(parse, s, k, order, f, newcomer);
    FreeLeavesOthers(s, k, order[f]);
    var t := Allocate(parse, Free(s, order[f], k), newcomer, k).0;
    if f == |order| - 1 {
      forall other | other in Held(t, k) && other != newcomer ensures Held(t, k)[other] != Held(t, k)[newcomer] {
        PackedIsDistinct(parse, s, k, order, other, order[f]);
      }
    }
  }

  // ----- Runs of one pool, with deallocations

  ghost predicate CollisionFree(s: State, k: PoolKey) {
    forall m, n | m in Held(s, k) && n in Held(s, k) && m != n :: Held(s, k)[m] != Held(s, k)[n]
  }

  datatype Call = Get(node: string) | GiveBack(node: string)

  function Called(parse: Parser, s: State, k: PoolKey, c: Call): State
    requires k in s.counters
  {
    match c
    case Get(node) => Allocate(parse, s, node, k).0
    case GiveBack(node) => if node in Held(s, k) then Free(s, node, k) else s
  }

  /** No two nodes share a subnet at any point of the run, nor after one more allocation there. */
  ghost predicate StaysSafe(parse: Parser, s: State, k: PoolKey, calls: seq<Call>)
    requires k in s.counters
    decreases |calls|
  {
    && (forall newcomer :: CollisionFree(Allocate(parse, s, newcomer, k).0, k))
    && (calls == [] || StaysSafe(parse, Called(parse, s, k, calls[0]), k, calls[1..]))
  }

  /** The nodes in the order of their indexes after a call. */
  function NextOrder(parse: Parser, s: State, k: PoolKey, order: seq<string>, c: Call): seq<string>
    requires k in s.counters
  {
    if Held(Called(parse, s, k, c), k) == Held(s, k) then order
    else if c.Get? then order + [c.node]
    else if order != [] then order[..|order| - 1]
    else order
  }

  /** Every deallocation frees the highest index held. */
  ghost predicate FreesHighest(parse: Parser, s: State, k: PoolKey, order: seq<string>, calls: seq<Call>)
    requires k in s.counters
    decreases |calls|
  {
    calls == [] ||
    (&& (calls[0].GiveBack? && calls[0].node in Held(s, k) ==> order != [] && calls[0].node == order[|order| - 1])
     && FreesHighest(parse, Called(parse, s, k, calls[0]), k, NextOrder(parse, s, k, order, calls[0]), calls[1..]))
  }

  ghost predicate ClearPool(parse: Parser, k: PoolKey) {
    ValidLength(k.prefixLen) && parse(k.prefix).Some? && Clear(parse(k.prefix).value, k.prefixLen)
  }

  lemma PackedIsSafe(parse: Parser, s: State, k: PoolKey, order: seq<string>, newcomer: string)
    requires k in s.counters && Packed(parse, s, k, order) && ClearPool(parse, k)
    ensures CollisionFree(Allocate(parse, s, newcomer, k).0, k)
  {
    var t := Allocate(parse, s, newcomer, k).0;
    var order' := NextOrder(parse, s, k, order, Get(newcomer));
    GetKeepsPacked(parse, s, k, order, newcomer);
    hide Packed, Allocate;
    forall m, n | m in Held(t, k) && n in Held(t, k) && m != n ensures Held(t, k)[m] != Held(t, k)[n] {
      PackedIsDistinct(parse, t, k, order', m, n);
    }
  }

  lemma GetKeepsPacked(parse: Parser, s: State, k: PoolKey, order: seq<string>, node: string)
    requires k in s.counters && Packed(parse, s, k, order)
    ensures k in Allocate(parse, s, node, k).0.counters
    ensures Packed(parse, Allocate(parse, s, node, k).0, k, NextOrder(parse, s, k, order, Get(node)))
  {
    var t := Allocate(parse, s, node, k).0;
    hide Packed, CalculateSubnet;
    if Held(t, k) == Held(s, k) {
      SamePacked(parse, s, t, k, order);
    } else {
      AllocateAppends(parse, s, node, k, order);
    }
  }

  lemma FreeLastKeepsPacked(parse: Parser, s: State, k: PoolKey, order: seq<string>)
    requires k in s.counters && Packed(parse, s, k, order) && order != []
    ensures order[|order| - 1] in Held(s, k)
    ensures Packed(parse, Free(s, order[|order| - 1], k), k, order[..|order| - 1])
    ensures NextOrder(parse, s, k, order, GiveBack(order[|order| - 1])) == order[..|order| - 1]
  {
    var last := order[|order| - 1];
    assert last in order;
    FreeLeavesOthers(s, k, last);
    FewerPacked(parse, s, Free(s, last, k), k, order);
  }

  lemma FewerPacked(parse: Parser, s: State, t: State, k: PoolKey, order: seq<string>)
    requires Packed(parse, s, k, order) && order != []
    requires Held(t, k) == Held(s, k) - {order[|order| - 1]} && |Held(t, k)| == |Held(s, k)| - 1
    ensures Packed(parse, t, k, order[..|order| - 1])
  {
    hide Held, AddressOf;
  }

  lemma FreedLowerCollides(parse: Parser, s: State, k: PoolKey, order: seq<string>, node: string)
    requires k in s.counters && Packed(parse, s, k, order)
    requires node in Held(s, k) && (order == [] || node != order[|order| - 1])
    ensures !CollisionFree(Allocate(parse, Free(s, node, k), node, k).0, k)
  {
    var f :| 0 <= f < |order| && order[f] == node;
    FreedThenReallocated(parse, s, k, order, f, node);
  }

  /** The exact line over whole runs: a packed pool over a clear prefix stays free of collisions, at every point and
      after one more allocation there, if and only if every deallocation frees the highest index held. */
  lemma {:induction false} SafeExactlyWhenHighestFreed(parse: Parser, s: State, k: PoolKey, order: seq<string>,
                                                       calls: seq<Call>)
    requires k in s.counters && Packed(parse, s, k, order) && ClearPool(parse, k)
    ensures StaysSafe(parse, s, k, calls) <==> FreesHighest(parse, s, k, order, calls)
    decreases |calls|
  {
    hide Packed, ClearPool, Allocate, CollisionFree;
    forall newcomer ensures CollisionFree(Allocate(parse, s, newcomer, k).0, k) {
      PackedIsSafe(parse, s, k, order, newcomer);
    }
    if calls != [] {
      var c, t := calls[0], Called(parse, s, k, calls[0]);
      if c.GiveBack? && c.node in Held(s, k) && (order == [] || c.node != order[|order| - 1]) {
        FreedLowerCollides(parse, s, k, order, c.node);
      } else {
        if c.Get? {
          GetKeepsPacked(parse, s, k, order, c.node);
        } else if c.node in Held(s, k) {
          FreeLastKeepsPacked(parse, s, k, order);
        }
        SafeExactlyWhenHighestFreed(parse, t, k, NextOrder(parse, s, k, order, c), calls[1..]);
      }
    }
  }
}
