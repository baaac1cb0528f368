/**
 The connection pool of gateway/connpool.go: per address a bounded channel of idle connections and a
 separate counter.  The counter is changed under a lock, the channel outside it, so a call is several
 atomic sections that other calls can come between.
 */
module ConnPool {
  import opened Wrappers

  type Conn = nat

  /** The shared part of one address's pool. */
  datatype Core = Core(conns: seq<Conn>, active: int)

  // ----- The atomic sections

  /** Put, under the lock: claim a place unless the counter is at the maximum. */
  function Reserve(c: Core, maxSize: nat): (Core, bool) {
    if c.active >= maxSize then (c, false) else (c.(active := c.active + 1), true)
  }

  /** Put, non-blocking send on a channel of capacity maxSize. */
  function TrySend(c: Core, conn: Conn, maxSize: nat): (Core, bool) {
    if |c.conns| < maxSize then (c.(conns := c.conns + [conn]), true) else (c, false)
  }

  /** Get, non-blocking receive. */
  function TryReceive(c: Core): (Core, Option<Conn>) {
    if c.conns == [] then (c, None) else (c.(conns := c.conns[1..]), Some(c.conns[0]))
  }

  /** Get after a receive, and Put after a failed send, under the lock. */
  function Release(c: Core): Core {
    c.(active := c.active - 1)
  }

  class NodePool {
    var conns: seq<Conn>
    var active: int

    constructor ()
      ensures Now() == Core([], 0)
    {
      conns, active := [], 0;
    }

    function Now(): Core
      reads this
    {
      Core(conns, active)
    }

    method ReserveSlot(maxSize: nat) returns (ok: bool)
      modifies this
      ensures (Now(), ok) == Reserve(old(Now()), maxSize)
    {
      if active >= maxSize {
        return false;
      }
      active := active + 1;
      ok := true;
    }

    method SendConn(conn: Conn, maxSize: nat) returns (ok: bool)
      modifies this
      ensures (Now(), ok) == TrySend(old(Now()), conn, maxSize)
    {
      ok := |conns| < maxSize;
      if ok {
        conns := conns + [conn];
      }
    }

    method ReceiveConn() returns (conn: Option<Conn>)
      modifies this
      ensures (Now(), conn) == TryReceive(old(Now()))
    {
      if conns == [] {
        return None;
      }
      conn := Some(conns[0]);
      conns := conns[1..];
    }

    method ReleaseSlot()
      modifies this
      ensures Now() == Release(old(Now()))
    {
      active := active - 1;
    }
  }

  /** The pool as one caller at a time sees it. */
  class ConnPool {
    var pools: map<string, NodePool>
    const maxSize: nat

    constructor (maxPerNode: nat)
      ensures pools == map[] && maxSize == maxPerNode && Valid()
    {
      pools := map[];
      maxSize := maxPerNode;
    }

    ghost predicate Valid()
      reads this, pools.Values
    {
      (forall a | a in pools :: pools[a].active == |pools[a].conns| <= maxSize) &&
      (forall a, b | a in pools && b in pools && a != b :: pools[a] != pools[b])
    }

    /** The idle connections of an address; none before its pool exists. */
    function Idle(addr: string): seq<Conn>
      reads this, pools.Values
    {
      if addr in pools then pools[addr].conns else []
    }

    /** Connections to one address only ever come from and go to that address's own pool. */
    method GetPool(addr: string) returns (pool: NodePool)
      requires Valid()
      modifies `pools
      ensures Valid() && addr in pools && pools[addr] == pool
      ensures addr in old(pools) ==> pools == old(pools)
      ensures addr !in old(pools) ==> fresh(pool) && pools == old(pools)[addr := pool] && pool.conns == []
    {
      if addr in pools {
        return pools[addr];
      }
      pool := new NodePool();
      pools := pools[addr := pool];
    }

    /** Hands out the longest idle connection, or whatever dialling gave when there is none. */
    method Get(addr: string, dialed: Option<Conn>) returns (conn: Option<Conn>)
      requires Valid()
      modifies this, pools.Values
      ensures Valid()
      ensures old(Idle(addr)) != [] ==> conn == Some(old(Idle(addr))[0]) && Idle(addr) == old(Idle(addr))[1..]
      ensures old(Idle(addr)) == [] ==> conn == dialed && Idle(addr) == []
      ensures forall a | a != addr :: Idle(a) == old(Idle(a))
    {
      var pool := GetPool(addr);
      conn := pool.ReceiveConn();
      if conn.Some? {
        pool.ReleaseSlot();
      } else {
        conn := dialed;
      }
    }

    /** Keeps the connection if there is room and closes it otherwise; no connection is both. */
    method Put(addr: string, conn: Conn) returns (closed: bool)
      requires Valid()
      modifies this, pools.Values
      ensures Valid()
      ensures closed <==> |old(Idle(addr))| >= maxSize
      ensures Idle(addr) == if closed then old(Idle(addr)) else old(Idle(addr)) + [conn]
      ensures forall a | a != addr :: Idle(a) == old(Idle(a))
    {
      var pool := GetPool(addr);
      var reserved := pool.ReserveSlot(maxSize);
      if !reserved {
        return true;
      }
      var sent := pool.SendConn(conn, maxSize);
      if !sent {
        assert false; // the channel-full branch; SendNeverFails shows it dead under overlap as well
      }
      closed := false;
    }
  }

  // ----- Any number of overlapping calls

  /** One address's pool with its calls in flight and its history.
      sending: between the increment and the send; undoing: between a failed send and the decrement;
      releasing: between a receive and the decrement; given/handed/closed: all connections passed to Put,
      returned by Get from the channel, and closed by Put; sent/received: the channel's traffic in order. */
  datatype Pool = Pool(core: Core, sending: multiset<Conn>, undoing: multiset<Conn>, releasing: multiset<Conn>,
                       given: multiset<Conn>, handed: multiset<Conn>, closed: multiset<Conn>,
                       sent: seq<Conn>, received: seq<Conn>)

  const EMPTY: Pool := Pool(Core([], 0), multiset{}, multiset{}, multiset{}, multiset{}, multiset{}, multiset{}, [], [])

  /** `missed` counts the lookups that found no pool and have not taken the write lock yet. */
  datatype State = State(pools: map<string, Pool>, missed: multiset<string>)

  datatype Action =
    | LookupMiss(addr: string)
    | Create(addr: string)
    | PutReserve(addr: string, conn: Conn)
    | PutSend(addr: string, conn: Conn)
    | PutUndo(addr: string, conn: Conn)
    | GetReceive(addr: string)
    | GetRelease(addr: string, conn: Conn)

  predicate Enabled(s: State, a: Action) {
    match a
    case LookupMiss(addr) => addr !in s.pools
    case Create(addr) => addr in s.missed
    case PutReserve(addr, _) => addr in s.pools
    case PutSend(addr, conn) => addr in s.pools && conn in s.pools[addr].sending
    case PutUndo(addr, conn) => addr in s.pools && conn in s.pools[addr].undoing
    case GetReceive(addr) => addr in s.pools
    case GetRelease(addr, conn) => addr in s.pools && conn in s.pools[addr].releasing
  }

  function NextPool(p: Pool, a: Action, maxSize: nat): Pool {
    match a
    case PutReserve(_, conn) =>
      var (core, ok) := Reserve(p.core, maxSize);
      if ok then p.(core := core, given := p.given + multiset{conn}, sending := p.sending + multiset{conn})
      else p.(given := p.given + multiset{conn}, closed := p.closed + multiset{conn})
    case PutSend(_, conn) =>
      var (core, ok) := TrySend(p.core, conn, maxSize);
      if ok then p.(core := core, sending := p.sending - multiset{conn}, sent := p.sent + [conn])
      else p.(sending := p.sending - multiset{conn}, undoing := p.undoing + multiset{conn})
    case PutUndo(_, conn) =>
      p.(core := Release(p.core), undoing := p.undoing - multiset{conn}, closed := p.closed + multiset{conn})
    case GetReceive(_) =>
      var (core, conn) := TryReceive(p.core);
      if conn.None? then p
      else p.(core := core, releasing := p.releasing + multiset{conn.value}, received := p.received + [conn.value])
    case GetRelease(_, conn) =>
      p.(core := Release(p.core), releasing := p.releasing - multiset{conn}, handed := p.handed + multiset{conn})
    case _ => p
  }

  function Next(s: State, a: Action, maxSize: nat): State
    requires Enabled(s, a)
  {
    match a
    case LookupMiss(addr) => s.(missed := s.missed + multiset{addr})
    case Create(addr) =>
      // looks again under the write lock before creating
      s.(missed := s.missed - multiset{addr}, pools := if addr in s.pools then s.pools else s.pools[addr := EMPTY])
    case _ => s.(pools := s.pools[a.addr := NextPool(s.pools[a.addr], a, maxSize)])
  }

  ghost predicate Runs(s: State, actions: seq<Action>, maxSize: nat)
    decreases actions
  {
    actions == [] || (Enabled(s, actions[0]) && Runs(Next(s, actions[0], maxSize), actions[1..], maxSize))
  }

  function After(s: State, actions: seq<Action>, maxSize: nat): State
    requires Runs(s, actions, maxSize)
    decreases actions
  {
    if actions == [] then s else After(Next(s, actions[0], maxSize), actions[1..], maxSize)
  }

  const INIT: State := State(map[], multiset{})

  ghost predicate Inv(p: Pool, maxSize: nat) {
    && p.core.active == |p.core.conns| + |p.sending| + |p.releasing|
    && p.core.active <= maxSize
    && p.undoing == multiset{}
    && p.given == multiset(p.core.conns) + p.sending + p.releasing + p.handed + p.closed
    && p.sent == p.received + p.core.conns
  }

  lemma ReserveKeepsInv(p: Pool, a: Action, maxSize: nat)
    requires Inv(p, maxSize) && a.PutReserve?
    ensures Inv(NextPool(p, a, maxSize), maxSize)
  {
  }

  lemma SendKeepsInv(p: Pool, a: Action, maxSize: nat)
    requires Inv(p, maxSize) && a.PutSend? && a.conn in p.sending
    ensures Inv(NextPool(p, a, maxSize), maxSize)
  {
    SendingLeavesRoom(p, a.conn, maxSize);
    var rest := p.sending - multiset{a.conn};
    assert p.sending == rest + multiset{a.conn};
    assert multiset(p.core.conns + [a.conn]) + rest == multiset(p.core.conns) + p.sending;
  }

  lemma SendingLeavesRoom(p: Pool, conn: Conn, maxSize: nat)
    requires Inv(p, maxSize) && conn in p.sending
    ensures |p.core.conns| < maxSize
  {
    assert p.sending == multiset{conn} + (p.sending - multiset{conn});
  }

  lemma ReceiveKeepsInv(p: Pool, a: Action, maxSize: nat)
    requires Inv(p, maxSize) && a.GetReceive?
    ensures Inv(NextPool(p, a, maxSize), maxSize)
  {
    assert p.core.conns != [] ==> p.core.conns == [p.core.conns[0]] + p.core.conns[1..];
  }

  lemma ReleaseKeepsInv(p: Pool, a: Action, maxSize: nat)
    requires Inv(p, maxSize) && a.GetRelease? && a.conn in p.releasing
    ensures Inv(NextPool(p, a, maxSize), maxSize)
  {
    assert p.releasing == multiset{a.conn} + (p.releasing - multiset{a.conn});
  }

  lemma NothingToUndo(p: Pool, conn: Conn, maxSize: nat)
    requires Inv(p, maxSize)
    ensures conn !in p.undoing
  {
  }

  lemma NewPoolInv(maxSize: nat)
    ensures Inv(EMPTY, maxSize)
  {
  }

  ghost predicate AllInv(s: State, maxSize: nat) {
    forall addr | addr in s.pools :: Inv(s.pools[addr], maxSize)
  }

  lemma {:induction false} RunKeepsInv(s: State, actions: seq<Action>, maxSize: nat)
    requires AllInv(s, maxSize) && Runs(s, actions, maxSize)
    ensures AllInv(After(s, actions, maxSize), maxSize)
    decreases actions
  {
    if actions != [] {
      StepKeepsAllInv(s, actions[0], maxSize);
      RunKeepsInv(Next(s, actions[0], maxSize), actions[1..], maxSize);
    }
  }

  lemma StepKeepsAllInv(s: State, a: Action, maxSize: nat)
    requires AllInv(s, maxSize) && Enabled(s, a)
    ensures AllInv(Next(s, a, maxSize), maxSize)
  {
    NewPoolInv(maxSize);
    hide Inv, NextPool;
    match a
    case LookupMiss(_) =>
    case Create(_) =>
    case PutUndo(addr, conn) => NothingToUndo(s.pools[addr], conn, maxSize);
    case PutReserve(addr, _) => ReserveKeepsInv(s.pools[addr], a, maxSize);
    case PutSend(addr, _) => SendKeepsInv(s.pools[addr], a, maxSize);
    case GetReceive(addr) => ReceiveKeepsInv(s.pools[addr], a, maxSize);
    case GetRelease(addr, _) => ReleaseKeepsInv(s.pools[addr], a, maxSize);
  }

  /** In every interleaving the counter is exactly the idle connections plus the calls between its two
      sections, and never passes the maximum. */
  lemma ActiveCountsExactly(actions: seq<Action>, maxSize: nat, addr: string)
    requires Runs(INIT, actions, maxSize) && addr in After(INIT, actions, maxSize).pools
    ensures
      var p := After(INIT, actions, maxSize).pools[addr];
      p.core.active == |p.core.conns| + |p.sending| + |p.releasing| <= maxSize
  {
    RunKeepsInv(INIT, actions, maxSize);
  }

  /** So Put's channel-full branch is dead: whenever a call is about to send, there is room. */
  lemma SendNeverFails(actions: seq<Action>, maxSize: nat, addr: string, conn: Conn)
    requires Runs(INIT, actions, maxSize)
    requires Enabled(After(INIT, actions, maxSize), PutSend(addr, conn))
    ensures TrySend(After(INIT, actions, maxSize).pools[addr].core, conn, maxSize).1
    ensures !exists c :: Enabled(After(INIT, actions, maxSize), PutUndo(addr, c))
  {
    RunKeepsInv(INIT, actions, maxSize);
    SendingLeavesRoom(After(INIT, actions, maxSize).pools[addr], conn, maxSize);
  }

  /** Conservation: every connection given to Put is in exactly one place: idle, about to be sent, just
      received, handed to a Get, or closed; and the channel is first in, first out. */
  lemma NothingLostOrDoubled(actions: seq<Action>, maxSize: nat, addr: string)
    requires Runs(INIT, actions, maxSize) && addr in After(INIT, actions, maxSize).pools
    ensures
      var p := After(INIT, actions, maxSize).pools[addr];
      && p.given == multiset(p.core.conns) + p.sending + p.releasing + p.handed + p.closed
      && p.sent == p.received + p.core.conns
      && (p.sending == p.releasing == multiset{} ==>
            p.core.active == |p.core.conns| && p.given == multiset(p.core.conns) + p.handed + p.closed)
  {
    RunKeepsInv(INIT, actions, maxSize);
  }

  /** A pool, once there, is never replaced: what was given, handed and closed only grows, also when several
      lookups missed and each goes on to create. */
  lemma {:induction false} PoolsPersist(s: State, actions: seq<Action>, maxSize: nat, addr: string)
    requires Runs(s, actions, maxSize) && addr in s.pools
    ensures addr in After(s, actions, maxSize).pools && Extends(s.pools[addr], After(s, actions, maxSize).pools[addr])
    decreases actions
  {
    if actions != [] {
      var next := Next(s, actions[0], maxSize);
      StepExtends(s, actions[0], maxSize, addr);
      PoolsPersist(next, actions[1..], maxSize, addr);
      ExtendsTransitive(s.pools[addr], next.pools[addr], After(next, actions[1..], maxSize).pools[addr]);
    }
  }

  /** q's history continues p's. */
  ghost predicate Extends(p: Pool, q: Pool) {
    p.given <= q.given && p.handed <= q.handed && p.closed <= q.closed && p.sent <= q.sent && p.received <= q.received
  }

  lemma ExtendsTransitive(p: Pool, q: Pool, r: Pool)
    requires Extends(p, q) && Extends(q, r)
    ensures Extends(p, r)
  {
  }

  lemma StepExtends(s: State, a: Action, maxSize: nat, addr: string)
    requires Enabled(s, a) && addr in s.pools
    ensures addr in Next(s, a, maxSize).pools && Extends(s.pools[addr], Next(s, a, maxSize).pools[addr])
  {
  }
}
