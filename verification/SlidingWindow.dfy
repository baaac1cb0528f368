/**
 The Redis-backed limiter of gateway/redis_ratelimit.go: per client, a sorted set that logs
 every request (refused ones too) under its nanosecond stamp.  A call prunes the stamps that
 left the window, counts what is left, logs itself, and re-arms the key's expiry.
 */
module SlidingWindow {

  const SECOND: int := 1_000_000_000

  /** A member of the sorted set: the text of a nanosecond stamp, scored by the same number. */
  datatype Stamp = Stamp(ns: int)

  /** A sorted set and the instant at which Redis drops it. */
  datatype Key = Key(members: set<Stamp>, expiresAt: int)

  type Store = map<string, Key>

  datatype Request = Request(client: string, now: int)

  /** What Redis still holds for a client at an instant: an expired key reads as empty. */
  function Live(store: Store, client: string, now: int): set<Stamp> {
    if client in store && now < store[client].expiresAt then store[client].members else {}
  }

  /** ZREMRANGEBYSCORE key 0 (now - window), both ends included. */
  function Prune(members: set<Stamp>, now: int, window: int): set<Stamp> {
    set m | m in members && !(0 <= m.ns <= now - window)
  }

  /** The pipeline of one call: new store and decision. */
  function Step(store: Store, r: Request, limit: int, window: int): (Store, bool) {
    var kept := Prune(Live(store, r.client, r.now), r.now, window);
    (store[r.client := Key(kept + {Stamp(r.now)}, r.now + window + SECOND)], |kept| < limit)
  }

  class DistributedRateLimiter {
    var store: Store
    var limit: int
    var window: int

    constructor (requestsPerWindow: int, windowSeconds: int)
      ensures store == map[] && limit == requestsPerWindow && window == windowSeconds * SECOND
    {
      store := map[];
      limit := requestsPerWindow;
      window := windowSeconds * SECOND;
    }

    method SetLimit(newLimit: int)
      modifies `limit
      ensures limit == newLimit
    {
      limit := newLimit;
    }

    method SetWindow(newWindow: int)
      modifies `window
      ensures window == newWindow
    {
      window := newWindow;
    }

    method Allow(clientID: string, now: int) returns (allowed: bool)
      modifies `store
      ensures (store, allowed) == Step(old(store), Request(clientID, now), limit, window)
    {
      var entry := if clientID in store && now < store[clientID].expiresAt then store[clientID] else Key({}, now);
      var windowStart := now - window;
      entry := entry.(members := set m | m in entry.members && !(0 <= m.ns <= windowStart));
      var count := |entry.members|;
      entry := entry.(members := entry.members + {Stamp(now)});
      entry := entry.(expiresAt := now + window + SECOND);
      store := store[clientID := entry];
      allowed := count < limit;
    }
  }

  // ----- Runs with a fixed limit and window, from an empty store

  function StoreAfter(reqs: seq<Request>, n: nat, limit: int, window: int): Store
    requires n <= |reqs|
  {
    if n == 0 then map[] else Step(StoreAfter(reqs, n - 1, limit, window), reqs[n - 1], limit, window).0
  }

  /** The decision the limiter takes on the i-th request of a run. */
  function Admitted(reqs: seq<Request>, i: nat, limit: int, window: int): bool
    requires i < |reqs|
  {
    Step(StoreAfter(reqs, i, limit, window), reqs[i], limit, window).1
  }

  /** The clock never goes back. */
  ghost predicate Ordered(reqs: seq<Request>) {
    (forall i | 0 <= i < |reqs| :: 0 <= reqs[i].now) &&
    (forall i, j | 0 <= i < j < |reqs| :: reqs[i].now <= reqs[j].now)
  }

  /** The stamps of all of a client's first n requests, admitted or refused, forgetting nothing. */
  function History(reqs: seq<Request>, n: nat, client: string): set<Stamp>
    requires n <= |reqs|
  {
    set j | 0 <= j < n && reqs[j].client == client :: Stamp(reqs[j].now)
  }

  function Since(stamps: set<Stamp>, horizon: int): set<Stamp> {
    set s | s in stamps && horizon < s.ns
  }

  /** The full-log reference: stamps of earlier requests of the same client still inside the window. */
  function Recent(reqs: seq<Request>, i: nat, window: int): set<Stamp>
    requires i < |reqs|
  {
    Since(History(reqs, i, reqs[i].client), reqs[i].now - window)
  }

  /** What pruning and expiry keep true for one client: nothing is logged that did not happen, and
      nothing newer than the horizon is forgotten. */
  ghost predicate Faithful(history: set<Stamp>, store: Store, client: string, horizon: int, window: int) {
    && (client in store ==>
          store[client].members <= history &&
          forall m | m in store[client].members :: m.ns + window + SECOND <= store[client].expiresAt)
    && (forall s | s in history && horizon < s.ns :: client in store && s in store[client].members)
  }

  /** A faithful entry, pruned, is exactly the recent part of the history. */
  lemma PrunedIsRecent(history: set<Stamp>, store: Store, client: string, horizon: int, now: int, window: int)
    requires Faithful(history, store, client, horizon, window) && horizon <= now - window
    requires forall s | s in history :: 0 <= s.ns <= now
    ensures Prune(Live(store, client, now), now, window) == Since(history, now - window)
  {
  }

  /** One call keeps every client's entry faithful, with its own pruning horizon as the new one. */
  lemma StepIsFaithful(history: set<Stamp>, store: Store, client: string,
                       horizon: int, r: Request, limit: int, window: int)
    requires Faithful(history, store, client, horizon, window) && horizon <= r.now - window
    requires forall s | s in history :: 0 <= s.ns <= r.now
    ensures Faithful(if r.client == client then history + {Stamp(r.now)} else history,
                     Step(store, r, limit, window).0, client, r.now - window, window)
  {
    PrunedIsRecent(history, store, client, horizon, r.now, window);
  }

  lemma HistoryGrows(reqs: seq<Request>, n: nat, client: string)
    requires Ordered(reqs) && n < |reqs|
    ensures forall s | s in History(reqs, n, client) :: 0 <= s.ns <= reqs[n].now
    ensures History(reqs, n + 1, client)
            == if reqs[n].client == client then History(reqs, n, client) + {Stamp(reqs[n].now)}
               else History(reqs, n, client)
  {
  }

  /** The oldest stamp the limiter may already have forgotten before request n. */
  function Horizon(reqs: seq<Request>, n: nat, window: int): int
    requires n < |reqs|
  {
    (if n == 0 then 0 else reqs[n - 1].now) - window
  }

  lemma NextIsFaithful(reqs: seq<Request>, n: nat, client: string, limit: int, window: int)
    requires Ordered(reqs) && n + 1 < |reqs|
    requires Faithful(History(reqs, n, client), StoreAfter(reqs, n, limit, window),
                      client, Horizon(reqs, n, window), window)
    ensures Faithful(History(reqs, n + 1, client), StoreAfter(reqs, n + 1, limit, window), client,
                     Horizon(reqs, n + 1, window), window)
  {
    HistoryGrows(reqs, n, client);
    hide Faithful, History, Step;
    StepIsFaithful(History(reqs, n, client), StoreAfter(reqs, n, limit, window), client,
                   Horizon(reqs, n, window), reqs[n], limit, window);
  }

  lemma StartIsFaithful(reqs: seq<Request>, client: string, limit: int, window: int)
    requires reqs != []
    ensures Faithful(History(reqs, 0, client), StoreAfter(reqs, 0, limit, window),
                     client, Horizon(reqs, 0, window), window)
  {
  }

  lemma {:induction false} RunIsFaithful(reqs: seq<Request>, n: nat, client: string, limit: int, window: int)
    requires Ordered(reqs) && n < |reqs|
    ensures Faithful(History(reqs, n, client), StoreAfter(reqs, n, limit, window),
                     client, Horizon(reqs, n, window), window)
  {
    hide *;
    if n == 0 {
      StartIsFaithful(reqs, client, limit, window);
    } else {
      RunIsFaithful(reqs, n - 1, client, limit, window);
      NextIsFaithful(reqs, n - 1, client, limit, window);
    }
  }

  lemma PrunedRunIsRecent(reqs: seq<Request>, i: nat, limit: int, window: int)
    requires Ordered(reqs) && i < |reqs|
    ensures Prune(Live(StoreAfter(reqs, i, limit, window), reqs[i].client, reqs[i].now), reqs[i].now, window)
            == Recent(reqs, i, window)
  {
    HistoryGrows(reqs, i, reqs[i].client);
    RunIsFaithful(reqs, i, reqs[i].client, limit, window);
    hide Faithful, History, Ordered, StoreAfter, Prune, Live, Since;
    PrunedIsRecent(History(reqs, i, reqs[i].client), StoreAfter(reqs, i, limit, window), reqs[i].client,
                   Horizon(reqs, i, window), reqs[i].now, window);
  }

  /** Refinement: on every ordered run the pruned, expiring sorted set decides exactly as the full log would. */
  lemma RefinesFullLog(reqs: seq<Request>, i: nat, limit: int, window: int)
    requires Ordered(reqs) && i < |reqs|
    ensures Admitted(reqs, i, limit, window) <==> |Recent(reqs, i, window)| < limit
  {
    hide Recent, Ordered, StoreAfter, Prune, Live;
    PrunedRunIsRecent(reqs, i, limit, window);
  }

  // ----- The bound on admissions

  /** Request i was made by the client, in (end - window, end], and let through. */
  predicate Counted(reqs: seq<Request>, i: nat, client: string, end: int, limit: int, window: int)
    requires i < |reqs|
  {
    reqs[i].client == client && end - window < reqs[i].now <= end && Admitted(reqs, i, limit, window)
  }

  /** The instants in (end - window, end] at which one of the first n requests was let through. */
  function AdmittedInstants(reqs: seq<Request>, n: nat, client: string, end: int, limit: int, window: int): set<Stamp>
    requires n <= |reqs|
  {
    set i | 0 <= i < n && Counted(reqs, i, client, end, limit, window) :: Stamp(reqs[i].now)
  }

  /** How many of the first n requests were let through in (end - window, end]. */
  function AdmittedCount(reqs: seq<Request>, n: nat, client: string, end: int, limit: int, window: int): nat
    requires n <= |reqs|
  {
    if n == 0 then 0 else
      AdmittedCount(reqs, n - 1, client, end, limit, window)
      + if Counted(reqs, n - 1, client, end, limit, window) then 1 else 0
  }

  lemma SubsetSize<T>(a: set<T>, b: set<T>)
    requires a <= b
    ensures |a| <= |b|
  {
    assert b == a + (b - a);
  }

  /** In any interval of the window's length a client is let through at no more than `limit` distinct instants. */
  lemma {:induction false} AtMostLimitInstants(reqs: seq<Request>, n: nat, client: string,
                                               end: int, limit: int, window: int)
    requires Ordered(reqs) && n <= |reqs| && limit >= 0
    ensures |AdmittedInstants(reqs, n, client, end, limit, window)| <= limit
  {
    hide *;
    if n == 0 {
      NoInstants(reqs, client, end, limit, window);
    } else if Counted(reqs, n - 1, client, end, limit, window) {
      LastSeesTheOthers(reqs, n - 1, client, end, limit, window);
    } else {
      InstantsGrow(reqs, n - 1, client, end, limit, window);
      AtMostLimitInstants(reqs, n - 1, client, end, limit, window);
    }
  }

  lemma NoInstants(reqs: seq<Request>, client: string, end: int, limit: int, window: int)
    ensures |AdmittedInstants(reqs, 0, client, end, limit, window)| == 0
  {
    assert AdmittedInstants(reqs, 0, client, end, limit, window) == {};
  }

  lemma InstantsGrow(reqs: seq<Request>, n: nat, client: string, end: int, limit: int, window: int)
    requires n < |reqs|
    ensures Counted(reqs, n, client, end, limit, window) ==>
              AdmittedInstants(reqs, n + 1, client, end, limit, window)
              == AdmittedInstants(reqs, n, client, end, limit, window) + {Stamp(reqs[n].now)}
    ensures !Counted(reqs, n, client, end, limit, window) ==>
              AdmittedInstants(reqs, n + 1, client, end, limit, window)
              == AdmittedInstants(reqs, n, client, end, limit, window)
  {
  }

  /** The last request counted in an interval still has all the others in its window, so it makes at most `limit`. */
  lemma LastSeesTheOthers(reqs: seq<Request>, last: nat, client: string, end: int, limit: int, window: int)
    requires Ordered(reqs) && last < |reqs| && Counted(reqs, last, client, end, limit, window)
    ensures |AdmittedInstants(reqs, last + 1, client, end, limit, window)| <= limit
  {
    RefinesFullLog(reqs, last, limit, window);
    hide Admitted;
    SubsetSize(AdmittedInstants(reqs, last + 1, client, end, limit, window),
               Recent(reqs, last, window) + {Stamp(reqs[last].now)});
  }

  /** Each client's own requests carry strictly increasing stamps. */
  ghost predicate StrictlyOrdered(reqs: seq<Request>) {
    Ordered(reqs) &&
    forall i, j | 0 <= i < j < |reqs| && reqs[i].client == reqs[j].client :: reqs[i].now < reqs[j].now
  }

  /** With strictly increasing stamps: at most `limit` requests pass in any interval of the window's length. */
  lemma {:induction false} AtMostLimitRequests(reqs: seq<Request>, n: nat, client: string,
                                               end: int, limit: int, window: int)
    requires StrictlyOrdered(reqs) && n <= |reqs| && limit >= 0
    ensures AdmittedCount(reqs, n, client, end, limit, window) <= limit
  {
    InstantsAreRequests(reqs, n, client, end, limit, window);
    AtMostLimitInstants(reqs, n, client, end, limit, window);
  }

  lemma {:induction false} InstantsAreRequests(reqs: seq<Request>, n: nat, client: string,
                                               end: int, limit: int, window: int)
    requires StrictlyOrdered(reqs) && n <= |reqs|
    ensures |AdmittedInstants(reqs, n, client, end, limit, window)|
            == AdmittedCount(reqs, n, client, end, limit, window)
  {
    hide AdmittedInstants, Counted, StrictlyOrdered;
    if n > 0 {
      InstantsAreRequests(reqs, n - 1, client, end, limit, window);
      OneMoreInstant(reqs, n - 1, client, end, limit, window);
    } else {
      NoInstants(reqs, client, end, limit, window);
    }
  }

  lemma OneMoreInstant(reqs: seq<Request>, n: nat, client: string, end: int, limit: int, window: int)
    requires StrictlyOrdered(reqs) && n < |reqs|
    ensures |AdmittedInstants(reqs, n + 1, client, end, limit, window)|
            == |AdmittedInstants(reqs, n, client, end, limit, window)|
               + if Counted(reqs, n, client, end, limit, window) then 1 else 0
  {
    InstantsGrow(reqs, n, client, end, limit, window);
    if Counted(reqs, n, client, end, limit, window) {
      assert Stamp(reqs[n].now) !in AdmittedInstants(reqs, n, client, end, limit, window);
    }
  }

  /** Why the stamps must increase: requests in one nanosecond share a single member, so with a limit
      of two or more any number of them pass. */
  lemma {:induction false} SameInstantUnbounded(reqs: seq<Request>, n: nat, client: string,
                                                now: int, limit: int, window: int)
    requires now >= 0 && limit >= 2 && window > 0 && n <= |reqs|
    requires forall i | 0 <= i < |reqs| :: reqs[i] == Request(client, now)
    ensures AdmittedCount(reqs, n, client, now, limit, window) == n
  {
    if n > 0 {
      SameInstantUnbounded(reqs, n - 1, client, now, limit, window);
      RefinesFullLog(reqs, n - 1, limit, window);
      assert |Recent(reqs, n - 1, window)| <= 1 by {
        SubsetSize(Recent(reqs, n - 1, window), {Stamp(now)});
      }
      hide Recent, Step, Admitted;
    }
  }

  lemma {:induction false} SomeCounted(reqs: seq<Request>, n: nat, client: string, end: int, limit: int, window: int)
      returns (i: nat)
    requires n <= |reqs| && AdmittedCount(reqs, n, client, end, limit, window) > 0
    ensures i < n && Counted(reqs, i, client, end, limit, window)
  {
    if Counted(reqs, n - 1, client, end, limit, window) {
      i := n - 1;
    } else {
      i := SomeCounted(reqs, n - 1, client, end, limit, window);
    }
  }

  /** A limit of one survives equal stamps: a second request of the instant sees the first one's member. */
  lemma {:induction false} AtMostOne(reqs: seq<Request>, n: nat, client: string, end: int, limit: int, window: int)
    requires Ordered(reqs) && n <= |reqs| && 0 <= limit <= 1
    ensures AdmittedCount(reqs, n, client, end, limit, window) <= limit
  {
    if n > 0 {
      AtMostOne(reqs, n - 1, client, end, limit, window);
      if Counted(reqs, n - 1, client, end, limit, window) {
        RefinesFullLog(reqs, n - 1, limit, window);
        if AdmittedCount(reqs, n - 1, client, end, limit, window) > 0 {
          var i := SomeCounted(reqs, n - 1, client, end, limit, window);
          SeesEarlier(reqs, i, n - 1, window);
        }
      }
    }
  }

  /** A request of the same client less than a window earlier is in the recent log. */
  lemma SeesEarlier(reqs: seq<Request>, i: nat, j: nat, window: int)
    requires i < j < |reqs| && reqs[i].client == reqs[j].client && reqs[j].now - window < reqs[i].now
    ensures |Recent(reqs, j, window)| >= 1
  {
    assert Stamp(reqs[i].now) in Recent(reqs, j, window);
  }

  /** On every ordered run, equal stamps or not, no more than `limit` requests pass in any interval of the window's
      length. */
  ghost predicate AlwaysWithinLimit(limit: int, window: int) {
    forall reqs: seq<Request>, n: nat, client: string, end: int | Ordered(reqs) && n <= |reqs| ::
      AdmittedCount(reqs, n, client, end, limit, window) <= limit
  }

  lemma WithinLimitExactlyWhen(limit: int, window: int)
    requires limit >= 0 && window > 0
    ensures AlwaysWithinLimit(limit, window) <==> limit <= 1
  {
    if limit <= 1 {
      forall reqs: seq<Request>, n: nat, client: string, end: int | Ordered(reqs) && n <= |reqs|
        ensures AdmittedCount(reqs, n, client, end, limit, window) <= limit
      {
        AtMostOne(reqs, n, client, end, limit, window);
      }
    } else {
      var reqs := seq(limit + 1, i => Request("", 0));
      SameInstantUnbounded(reqs, limit + 1, "", 0, limit, window);
      assert Ordered(reqs);
    }
  }

  // ----- Refused requests count too

  /** The stamps of a client's own requests among the first n, admitted or refused, in order. */
  function Own(reqs: seq<Request>, n: nat, client: string): seq<int>
    requires n <= |reqs|
  {
    if n == 0 then []
    else Own(reqs, n - 1, client) + if reqs[n - 1].client == client then [reqs[n - 1].now] else []
  }

  lemma {:induction false} OwnHas(reqs: seq<Request>, n: nat, client: string, t: int)
    requires n <= |reqs| && t in Own(reqs, n, client)
    ensures exists j :: 0 <= j < n && reqs[j].client == client && reqs[j].now == t
  {
    if t in Own(reqs, n - 1, client) {
      OwnHas(reqs, n - 1, client, t);
    } else {
      assert reqs[n - 1].client == client && reqs[n - 1].now == t;
    }
  }

  lemma {:induction false} OwnIncreases(reqs: seq<Request>, n: nat, client: string)
    requires StrictlyOrdered(reqs) && n <= |reqs|
    ensures Increasing(Own(reqs, n, client))
  {
    if n > 0 {
      OwnIncreases(reqs, n - 1, client);
      var before := Own(reqs, n - 1, client);
      forall k | 0 <= k < |before| && reqs[n - 1].client == client ensures before[k] < reqs[n - 1].now {
        OwnHas(reqs, n - 1, client, before[k]);
      }
    }
  }

  lemma {:induction false} OwnIsHistory(reqs: seq<Request>, n: nat, client: string)
    requires Ordered(reqs) && n <= |reqs|
    ensures History(reqs, n, client) == Stretch(Own(reqs, n, client), 0, |Own(reqs, n, client)|)
  {
    hide *;
    if n == 0 {
      NoneOwn(reqs, client);
    } else {
      OwnIsHistory(reqs, n - 1, client);
      HistoryGrows(reqs, n - 1, client);
      OwnStep(reqs, n, client);
      StretchSnoc(Own(reqs, n - 1, client), reqs[n - 1].now);
    }
  }

  lemma NoneOwn(reqs: seq<Request>, client: string)
    ensures Own(reqs, 0, client) == [] && History(reqs, 0, client) == Stretch([], 0, 0)
  {
    assert History(reqs, 0, client) == {} == Stretch([], 0, 0);
  }

  lemma OwnStep(reqs: seq<Request>, n: nat, client: string)
    requires 0 < n <= |reqs|
    ensures Own(reqs, n, client)
            == if reqs[n - 1].client == client then Own(reqs, n - 1, client) + [reqs[n - 1].now]
               else Own(reqs, n - 1, client)
  {
  }

  ghost predicate Increasing(own: seq<int>) {
    forall i, j | 0 <= i < j < |own| :: own[i] < own[j]
  }

  function Stretch(own: seq<int>, from: nat, to: nat): set<Stamp>
    requires from <= to <= |own|
  {
    set j | from <= j < to :: Stamp(own[j])
  }

  lemma StretchSnoc(own: seq<int>, t: int)
    ensures Stretch(own + [t], 0, |own + [t]|) == Stretch(own, 0, |own|) + {Stamp(t)}
  {
    forall s | s in Stretch(own + [t], 0, |own + [t]|) ensures s in Stretch(own, 0, |own|) + {Stamp(t)} {
      var j :| 0 <= j < |own + [t]| && s == Stamp((own + [t])[j]);
      assert j < |own| ==> s == Stamp(own[j]);
    }
    forall s | s in Stretch(own, 0, |own|) ensures s in Stretch(own + [t], 0, |own + [t]|) {
      var j :| 0 <= j < |own| && s == Stamp(own[j]);
      assert s == Stamp((own + [t])[j]);
    }
    assert (own + [t])[|own|] == t;
  }

  lemma {:induction false} StretchSize(own: seq<int>, from: nat, to: nat)
    requires from <= to <= |own| && Increasing(own)
    ensures |Stretch(own, from, to)| == to - from
  {
    if from < to {
      StretchSize(own, from, to - 1);
      assert Stretch(own, from, to) == Stretch(own, from, to - 1) + {Stamp(own[to - 1])};
    } else {
      assert Stretch(own, from, to) == {};
    }
  }

  /** How many of a client's increasing stamps are still in the window says whether the limit-th last one is. */
  lemma RecentSize(own: seq<int>, horizon: int, limit: nat)
    requires Increasing(own) && limit > 0
    ensures |Since(Stretch(own, 0, |own|), horizon)| < limit <==> |own| < limit || own[|own| - limit] <= horizon
  {
    var n, recent := |own|, Since(Stretch(own, 0, |own|), horizon);
    if n < limit {
      StretchSize(own, 0, n);
      SubsetSize(recent, Stretch(own, 0, n));
    } else if own[n - limit] <= horizon {
      StretchSize(own, n - limit + 1, n);
      SubsetSize(recent, Stretch(own, n - limit + 1, n));
    } else {
      StretchSize(own, n - limit, n);
      SubsetSize(Stretch(own, n - limit, n), recent);
    }
  }

  /** In any run, whoever else makes requests: a client's request passes exactly when it is among that client's first
      `limit` ones or the one it made `limit` requests earlier, admitted or refused, is at least a window old. */
  lemma AdmittedExactlyWhen(reqs: seq<Request>, i: nat, limit: nat, window: int)
    requires StrictlyOrdered(reqs) && i < |reqs| && limit > 0
    ensures
      var own := Own(reqs, i, reqs[i].client);
      Admitted(reqs, i, limit, window) <==> |own| < limit || reqs[i].now - own[|own| - limit] >= window
  {
    RefinesFullLog(reqs, i, limit, window);
    OwnIsHistory(reqs, i, reqs[i].client);
    OwnIncreases(reqs, i, reqs[i].client);
    hide Admitted, History, Stretch, Since, StrictlyOrdered, Own;
    RecentSize(Own(reqs, i, reqs[i].client), reqs[i].now - window, limit);
  }

  /** In any run a client that keeps retrying faster than `limit` per window is let through for its first `limit`
      requests and never again, whatever the others do. */
  lemma PersistentClientStarves(reqs: seq<Request>, client: string, limit: nat, window: int)
    requires StrictlyOrdered(reqs) && limit > 0
    requires
      var own := Own(reqs, |reqs|, client);
      forall k | limit <= k < |own| :: own[k] - own[k - limit] < window
    ensures forall i | 0 <= i < |reqs| && reqs[i].client == client ::
              Admitted(reqs, i, limit, window) <==> |Own(reqs, i, client)| < limit
  {
    forall i | 0 <= i < |reqs| && reqs[i].client == client
      ensures Admitted(reqs, i, limit, window) <==> |Own(reqs, i, client)| < limit
    {
      AdmittedExactlyWhen(reqs, i, limit, window);
      OwnGrows(reqs, i + 1, |reqs|, client);
      var k := |Own(reqs, i, client)|;
      assert Own(reqs, |reqs|, client)[k] == reqs[i].now;
      if k >= limit {
        assert Own(reqs, |reqs|, client)[k - limit] == Own(reqs, i, client)[k - limit];
      }
    }
  }

  lemma {:induction false} OwnGrows(reqs: seq<Request>, m: nat, n: nat, client: string)
    requires m <= n <= |reqs|
    ensures Own(reqs, m, client) <= Own(reqs, n, client)
    decreases n - m
  {
    if m < n {
      OwnGrows(reqs, m, n - 1, client);
    }
  }
}
