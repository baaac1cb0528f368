/**
 What Rollback makes of a Run in internal/migrations/migrator.go.  Rollback follows the IDs, not the order in which
 migrations were applied, so it is an undo exactly when the two orders agree on what it undoes.
 */
module RollbackOrder {
  import opened Migrations
  import opened Wrappers

  /** Every recorded ID above the target is smaller than every pending one, as Status shows before the call. */
  ghost predicate InOrder<C, S>(ms: seq<Migration<C, S>>, recorded: set<string>, target: string) {
    forall a, p | a in Above(ms, recorded, target) && p in Pending(ms, recorded) :: Less(a.id, p.id)
  }

  lemma {:induction false} AboveHas<C, S>(ms: seq<Migration<C, S>>, recorded: set<string>, target: string,
                                          x: Migration<C, S>)
    ensures x in Above(ms, recorded, target) <==> x in ms && x.id in recorded && Less(target, x.id)
  {
    if ms != [] {
      AboveHas(ms[1..], recorded, target, x);
      assert ms == [ms[0]] + ms[1..];
    }
  }

  /** The first pending position from the target on. */
  function FirstPending<C, S>(ms: seq<Migration<C, S>>, recorded: set<string>, m: nat): (n: nat)
    requires m <= |ms|
    ensures m <= n <= |ms|
    ensures forall i | m <= i < n :: ms[i].id in recorded
    ensures n < |ms| ==> ms[n].id !in recorded
    decreases |ms| - m
  {
    if m == |ms| || ms[m].id !in recorded then m else FirstPending(ms, recorded, m + 1)
  }

  /** In order, the list falls into three parts: up to the target; recorded above it; pending above it.  If the
      middle is not empty, nothing up to the target is pending. */
  lemma InOrderParts<C, S>(ms: seq<Migration<C, S>>, recorded: set<string>, target: string)
    requires Sorted(ms) && InOrder(ms, recorded, target)
    ensures UpTo(ms, target) <= |ms|
    ensures
      var m := UpTo(ms, target);
      var n := FirstPending(ms, recorded, m);
      && Above(ms, recorded, target) == ms[m..n]
      && Pending(ms, recorded) == Pending(ms[..m], recorded) + ms[n..]
      && (n > m ==> Pending(ms[..m], recorded) == [])
  {
    UpToSplits(ms, target);
    var m := UpTo(ms, target);
    var n := FirstPending(ms, recorded, m);
    forall i | n <= i < |ms| ensures ms[i].id !in recorded {
      if ms[i].id in recorded {
        RecordedBeforePending(ms, recorded, target, i, n);
      }
    }
    hide Less, Sorted, InOrder, Above, Pending, UpTo;
    ThreeParts(ms, recorded, target, m, n);
    if n > m {
      forall i | 0 <= i < m ensures ms[i].id in recorded {
        if ms[i].id !in recorded {
          RecordedBeforePending(ms, recorded, target, m, i);
        }
      }
      NonePending(ms[..m], recorded);
    }
  }

  lemma RecordedBeforePending<C, S>(ms: seq<Migration<C, S>>, recorded: set<string>, target: string, i: nat, j: nat)
    requires Sorted(ms) && InOrder(ms, recorded, target) && i < |ms| && j < |ms|
    requires ms[i].id in recorded && Less(target, ms[i].id) && ms[j].id !in recorded
    ensures i < j
  {
    AboveHas(ms, recorded, target, ms[i]);
    PendingHas(ms, recorded, ms[j]);
    LessIsTotal(ms[i].id, ms[j].id);
  }

  lemma ThreeParts<C, S>(ms: seq<Migration<C, S>>, recorded: set<string>, target: string, m: nat, n: nat)
    requires m <= n <= |ms|
    requires forall i | 0 <= i < |ms| :: i < m <==> !Less(target, ms[i].id)
    requires forall i | m <= i < |ms| :: i < n <==> ms[i].id in recorded
    ensures Above(ms, recorded, target) == ms[m..n]
    ensures Pending(ms, recorded) == Pending(ms[..m], recorded) + ms[n..]
  {
    var low, mid, high := ms[..m], ms[m..n], ms[n..];
    assert ms == low + (mid + high);
    ThreeSegments(low, mid, high, recorded, target);
  }

  lemma ThreeSegments<C, S>(low: seq<Migration<C, S>>, mid: seq<Migration<C, S>>, high: seq<Migration<C, S>>,
                            recorded: set<string>, target: string)
    requires forall x | x in low :: !Less(target, x.id)
    requires forall x | x in mid :: x.id in recorded && Less(target, x.id)
    requires forall x | x in high :: x.id !in recorded
    ensures Above(low + (mid + high), recorded, target) == mid
    ensures Pending(low + (mid + high), recorded) == Pending(low, recorded) + high
  {
    AboveSplits(low, mid + high, recorded, target);
    AboveSplits(mid, high, recorded, target);
    NoneAbove(low, recorded, target);
    AllAbove(mid, recorded, target);
    NoneAbove(high, recorded, target);
    PendingSplits(low, mid + high, recorded);
    PendingSplits(mid, high, recorded);
    NonePending(mid, recorded);
    AllPending(high, recorded);
    hide *;
  }

  lemma {:induction false} UpAllSplits<C, S>(ms: seq<Migration<C, S>>, ns: seq<Migration<C, S>>, ctx: C, store: S)
    ensures
      var (mid, done) := UpAll(ms, ctx, store);
      UpAll(ms + ns, ctx, store)
      == if done == |ms| then (UpAll(ns, ctx, mid).0, |ms| + UpAll(ns, ctx, mid).1) else (mid, done)
  {
    if ms == [] {
      assert ms + ns == ns;
    } else {
      assert (ms + ns)[1..] == ms[1..] + ns;
      var o := ms[0].up(ctx, store);
      if o.ok {
        UpAllSplits(ms[1..], ns, ctx, o.store);
      }
    }
  }

  lemma {:induction false} DownAllSplits<C, S>(ms: seq<Migration<C, S>>, ns: seq<Migration<C, S>>, ctx: C, s: State<S>)
    ensures
      var (mid, failed) := DownAll(ns, ctx, s);
      DownAll(ms + ns, ctx, s) == if failed.None? then DownAll(ms, ctx, mid) else (mid, failed)
    decreases |ns|
  {
    if ns == [] {
      assert ms + ns == ms;
    } else {
      assert (ms + ns)[..|ms + ns| - 1] == ms + ns[..|ns| - 1];
      var last := ns[|ns| - 1];
      var o := Undone(last, ctx, s.store);
      if o.ok {
        DownAllSplits(ms, ns[..|ns| - 1], ctx, State(o.store, s.applied - {last.id}));
      }
    }
  }

  /** Undoing what was just applied restores the store and the recorded set. */
  lemma {:induction false} UndoWalksBack<C(!new), S(!new)>(ms: seq<Migration<C, S>>, ctx: C, ctx2: C, store: S,
                                                           recorded: set<string>)
    requires Sorted(ms) && forall m | m in ms :: Undoes(m) && m.id !in recorded
    requires UpAll(ms, ctx, store).1 == |ms|
    ensures DownAll(ms, ctx2, State(UpAll(ms, ctx, store).0, recorded + Ids(ms))) == (State(store, recorded), None)
    decreases ms
  {
    hide *;
    if ms == [] {
      NothingToUndo(ms, ctx, ctx2, store, recorded);
    } else {
      var first, rest := ms[0], ms[1..];
      var o := first.up(ctx, store);
      assert first in ms;
      UpAllCons(ms, ctx, store);
      RestIsNew(ms, recorded);
      UndoWalksBack(rest, ctx, ctx2, o.store, recorded + {first.id});
      IdsCons(ms);
      assert recorded + Ids(ms) == recorded + {first.id} + Ids(rest);
      assert ms == [first] + rest;
      DownAllSplits([first], rest, ctx2, State(UpAll(ms, ctx, store).0, recorded + Ids(ms)));
      UndoOne(first, ctx, ctx2, store, recorded);
    }
  }

  lemma NothingToUndo<C, S>(ms: seq<Migration<C, S>>, ctx: C, ctx2: C, store: S, recorded: set<string>)
    requires ms == []
    ensures DownAll(ms, ctx2, State(UpAll(ms, ctx, store).0, recorded + Ids(ms))) == (State(store, recorded), None)
  {
    assert recorded + Ids(ms) == recorded;
  }

  lemma UpAllCons<C, S>(ms: seq<Migration<C, S>>, ctx: C, store: S)
    requires ms != [] && UpAll(ms, ctx, store).1 == |ms|
    ensures
      var o := ms[0].up(ctx, store);
      o.ok && UpAll(ms[1..], ctx, o.store).1 == |ms| - 1 && UpAll(ms, ctx, store).0 == UpAll(ms[1..], ctx, o.store).0
  {
    UpAllCount(ms[1..], ctx, ms[0].up(ctx, store).store);
  }

  lemma RestIsNew<C(!new), S(!new)>(ms: seq<Migration<C, S>>, recorded: set<string>)
    requires ms != [] && Sorted(ms) && forall m | m in ms :: Undoes(m) && m.id !in recorded
    ensures Sorted(ms[1..]) && forall m | m in ms[1..] :: Undoes(m) && m.id !in recorded + {ms[0].id}
  {
    hide Undoes;
    var rest := ms[1..];
    forall m | m in rest ensures Undoes(m) && m.id !in recorded + {ms[0].id} {
      var i :| 0 <= i < |rest| && rest[i] == m;
      assert ms[i + 1] == m && Less(ms[0].id, ms[i + 1].id);
      LessIsTotal(m.id, m.id);
    }
  }

  lemma UndoOne<C(!new), S(!new)>(m: Migration<C, S>, ctx: C, ctx2: C, store: S, recorded: set<string>)
    requires Undoes(m) && m.id !in recorded && m.up(ctx, store).ok
    ensures DownAll([m], ctx2, State(m.up(ctx, store).store, recorded + {m.id})) == (State(store, recorded), None)
  {
    assert [m][..0] == [];
    assert recorded + {m.id} - {m.id} == recorded;
    assert Undone(m, ctx2, m.up(ctx, store).store) == Outcome(store, true);
  }

  lemma {:induction false} DownAllUnrecords<C, S>(ms: seq<Migration<C, S>>, ctx: C, s: State<S>)
    requires DownAll(ms, ctx, s).1.None?
    ensures DownAll(ms, ctx, s).0.applied == s.applied - Ids(ms)
    decreases |ms|
  {
    if ms != [] {
      var last := ms[|ms| - 1];
      var front := ms[..|ms| - 1];
      var o := Undone(last, ctx, s.store);
      DownAllUnrecords(front, ctx, State(o.store, s.applied - {last.id}));
      forall id | id in Ids(ms) ensures id == last.id || id in Ids(front) {
        var i :| 0 <= i < |ms| && ms[i].id == id;
        assert i < |front| ==> front[i].id == id;
      }
      forall id | id in Ids(front) ensures id in Ids(ms) {
        var i :| 0 <= i < |front| && front[i].id == id;
        assert ms[i].id == id;
      }
    }
  }

  /** A successful Run followed by Rollback(target) is what Rollback(target) alone and then Run up to the target
      give, and fails where that Rollback alone would. */
  ghost predicate RollbackUndoesRun<C, S>(ms: seq<Migration<C, S>>, ctx: C, ctx2: C, target: string, s: State<S>) {
    UpTo(ms, target) <= |ms| &&
    var (back, failed) := Rollback(ms, ctx2, target, s);
    var (end, failed') := Rollback(ms, ctx2, target, Run(ms, ctx, s).0);
    failed' == failed && (failed.None? ==> Run(ms[..UpTo(ms, target)], ctx, back) == (end, None))
  }

  /** Rollback takes a Run back to the target, from any store and recorded set that are in order, whatever was
      applied before and when, if each pending Down undoes its Up. */
  lemma InOrderRollbackUndoesRun<C(!new), S(!new)>(ms: seq<Migration<C, S>>, ctx: C,
                                                   ctx2: C, target: string, s: State<S>)
    requires Sorted(ms) && InOrder(ms, s.applied, target)
    requires forall m | m in Pending(ms, s.applied) :: Undoes(m)
    requires Run(ms, ctx, s).1.None?
    ensures RollbackUndoesRun(ms, ctx, ctx2, target, s)
  {
    var m := UpTo(ms, target);
    InOrderParts(ms, s.applied, target);
    var n := FirstPending(ms, s.applied, m);
    var mid := UndoesPending(ms, ctx, ctx2, target, s, m, n);
    assert Sorted(ms[..m]);
    if n == m {
      assert ms[m..n] == [];
      RunAppliesPending(ms[..m], s.applied, ctx, s);
      var low := Pending(ms[..m], s.applied);
      assert low[..|low|] == low;
    } else {
      assert mid == s;
      NothingLeftUpTo(ms, ctx, ctx2, s, m, n);
    }
  }

  /** Undoing the part above the middle after a successful Run leaves the state after the part up to the target. */
  lemma UndoesPending<C(!new), S(!new)>(ms: seq<Migration<C, S>>, ctx: C, ctx2: C,
                                        target: string, s: State<S>, m: nat, n: nat)
      returns (mid: State<S>)
    requires Sorted(ms) && m == UpTo(ms, target) <= n <= |ms|
    requires Pending(ms, s.applied) == Pending(ms[..m], s.applied) + ms[n..]
    requires n > m ==> Pending(ms[..m], s.applied) == []
    requires forall x | x in Pending(ms, s.applied) :: Undoes(x)
    requires Run(ms, ctx, s).1.None?
    ensures UpAll(Pending(ms[..m], s.applied), ctx, s.store).1 == |Pending(ms[..m], s.applied)|
    ensures mid == State(UpAll(Pending(ms[..m], s.applied), ctx, s.store).0,
                         s.applied + Ids(Pending(ms[..m], s.applied)))
    ensures n > m ==> mid == s
    ensures Rollback(ms, ctx2, target, Run(ms, ctx, s).0) == DownAll(ms[m..n], ctx2, mid)
  {
    hide *;
    var low, high := Pending(ms[..m], s.applied), ms[n..];
    mid := RunInTwo(ms, ctx, s, low, high);
    HighCanBeUndone(ms, s.applied, m, n);
    AllRecorded(ms, ctx, s);
    AboveIsTail(ms, Run(ms, ctx, s).0.applied, target);
    RollbackIs(ms, ctx2, target, Run(ms, ctx, s).0, ms[m..]);
    UndoWalksBack(high, ctx, ctx2, mid.store, mid.applied);
    assert ms[m..] == ms[m..n] + high;
    DownAllSplits(ms[m..n], high, ctx2, Run(ms, ctx, s).0);
  }

  lemma HighCanBeUndone<C(!new), S(!new)>(ms: seq<Migration<C, S>>, recorded: set<string>, m: nat, n: nat)
    requires Sorted(ms) && m <= n <= |ms| && Pending(ms, recorded) == Pending(ms[..m], recorded) + ms[n..]
    requires forall x | x in Pending(ms, recorded) :: Undoes(x)
    ensures Sorted(ms[n..])
    ensures forall x | x in ms[n..] :: Undoes(x) && x.id !in recorded + Ids(Pending(ms[..m], recorded))
  {
    assert Sorted(ms[n..]);
    hide Undoes, Pending, Sorted, Ids;
    forall x | x in ms[n..] ensures Undoes(x) && x.id !in recorded + Ids(Pending(ms[..m], recorded)) {
      HighIsNew(ms, recorded, m, n, x);
    }
  }

  lemma RollbackIs<C, S>(ms: seq<Migration<C, S>>, ctx: C, target: string, s: State<S>, undone: seq<Migration<C, S>>)
    requires Above(ms, s.applied, target) == undone
    ensures Rollback(ms, ctx, target, s) == DownAll(undone, ctx, s)
  {
  }

  /** A successful Run, taken apart at a point of the pending list. */
  lemma RunInTwo<C, S>(ms: seq<Migration<C, S>>, ctx: C, s: State<S>, low: seq<Migration<C, S>>,
                       high: seq<Migration<C, S>>)
      returns (mid: State<S>)
    requires Pending(ms, s.applied) == low + high && Run(ms, ctx, s).1.None?
    ensures UpAll(low, ctx, s.store).1 == |low| && mid == State(UpAll(low, ctx, s.store).0, s.applied + Ids(low))
    ensures low == [] ==> mid == s
    ensures UpAll(high, ctx, mid.store).1 == |high|
    ensures Run(ms, ctx, s).0 == State(UpAll(high, ctx, mid.store).0, mid.applied + Ids(high))
  {
    RunAppliesPending(ms, s.applied, ctx, s);
    assert (low + high)[..|low + high|] == low + high;
    UpAllSplits(low, high, ctx, s.store);
    UpAllCount(low, ctx, s.store);
    assert low == [] ==> Ids(low) == {};
    mid := State(UpAll(low, ctx, s.store).0, s.applied + Ids(low));
    UpAllCount(high, ctx, mid.store);
    IdsConcat(low, high);
    assert s.applied + (Ids(low) + Ids(high)) == mid.applied + Ids(high);
  }

  /** After a successful Run every migration is recorded. */
  lemma AllRecorded<C, S>(ms: seq<Migration<C, S>>, ctx: C, s: State<S>)
    requires Run(ms, ctx, s).1.None?
    ensures forall x | x in ms :: x.id in Run(ms, ctx, s).0.applied
  {
    var pending := Pending(ms, s.applied);
    RunAppliesPending(ms, s.applied, ctx, s);
    assert pending[..|pending|] == pending;
    forall x | x in ms ensures x.id in Run(ms, ctx, s).0.applied {
      PendingHas(ms, s.applied, x);
      if x.id !in s.applied {
        var i :| 0 <= i < |pending| && pending[i] == x;
        assert pending[i].id in Ids(pending);
      }
    }
  }

  lemma HighIsNew<C, S>(ms: seq<Migration<C, S>>, recorded: set<string>, m: nat, n: nat, x: Migration<C, S>)
    requires Sorted(ms) && m <= n <= |ms| && x in ms[n..]
             && Pending(ms, recorded) == Pending(ms[..m], recorded) + ms[n..]
    ensures x in Pending(ms, recorded) && x.id !in recorded + Ids(Pending(ms[..m], recorded))
  {
    var low := Pending(ms[..m], recorded);
    PendingHas(ms, recorded, x);
    var i :| n <= i < |ms| && ms[i] == x;
    LessIsTotal(x.id, x.id);
    forall j | 0 <= j < |low| ensures low[j].id != x.id {
      PendingHas(ms[..m], recorded, low[j]);
      var k :| 0 <= k < m && ms[k] == low[j];
    }
  }

  lemma IdsConcat<C, S>(ms: seq<Migration<C, S>>, ns: seq<Migration<C, S>>)
    ensures Ids(ms + ns) == Ids(ms) + Ids(ns)
  {
    IdsAppend(ms + ns, |ms|, |ms + ns|);
    assert (ms + ns)[..|ms|] == ms && (ms + ns)[|ms|..|ms + ns|] == ns && (ms + ns)[..|ms + ns|] == ms + ns;
  }

  /** Nothing up to the target is pending before the middle is undone, nor after. */
  lemma NothingLeftUpTo<C, S>(ms: seq<Migration<C, S>>, ctx: C, ctx2: C, s: State<S>, m: nat, n: nat)
    requires Sorted(ms) && m <= n <= |ms| && Pending(ms[..m], s.applied) == []
    ensures
      var (back, failed) := DownAll(ms[m..n], ctx2, s);
      failed.None? ==> Run(ms[..m], ctx, back) == (back, None)
  {
    var (back, failed) := DownAll(ms[m..n], ctx2, s);
    if failed.None? {
      DownAllUnrecords(ms[m..n], ctx2, s);
      forall i | 0 <= i < m ensures ms[i].id in back.applied {
        PendingHas(ms[..m], s.applied, ms[i]);
        assert ms[i] in ms[..m];
        LessIsTotal(ms[i].id, ms[i].id);
        forall j | 0 <= j < n - m ensures ms[m..n][j].id != ms[i].id {
          assert Less(ms[i].id, ms[m + j].id);
        }
      }
      NonePending(ms[..m], back.applied);
      RunAppliesPending(ms[..m], back.applied, ctx, back);
      assert Ids(Pending(ms[..m], back.applied)[..0]) == {};
      assert back.applied + {} == back.applied;
    }
  }

  /** In particular from a store where the first k migrations are applied and recorded: Run and Rollback(target)
      succeed and leave what applying only the migrations up to the target gives, which is a Run from there when
      they include the k, and the earlier store when not. */
  lemma RunThenRollback<C(!new), S(!new)>(ms: seq<Migration<C, S>>, k: nat,
                                          stores: seq<S>, ctx: C, ctx2: C, target: string)
    requires Sorted(ms) && k <= |ms| && Chain(ms[..k], stores)
    requires forall i | 0 <= i < |ms| :: Undoes(ms[i])
    requires Run(ms, ctx, State(stores[k], Ids(ms[..k]))).1.None?
    ensures UpTo(ms, target) <= |ms|
    ensures
      var start := State(stores[k], Ids(ms[..k]));
      var (end, failed) := Rollback(ms, ctx2, target, Run(ms, ctx, start).0);
      var m := UpTo(ms, target);
      && failed.None?
      && (m >= k ==> Run(ms[..m], ctx, start) == (end, None))
      && (m < k ==> end == State(stores[m], Ids(ms[..m])))
  {
    var start := State(stores[k], Ids(ms[..k]));
    UpToSplits(ms, target);
    var m := UpTo(ms, target);
    PrefixParts(ms, k, target);
    forall x | x in Pending(ms, start.applied) ensures Undoes(x) {
      PendingHas(ms, start.applied, x);
    }
    InOrderRollbackUndoesRun(ms, ctx, ctx2, target, start);
    if m < k {
      assert ms[..k][m..k] == ms[m..k] && ms[..k][..k] == ms[..k] && ms[..k][..m] == ms[..m];
      forall i | 0 <= i < k ensures Undoes(ms[..k][i]) {
        assert ms[..k][i] == ms[i];
      }
      DownAllWalksBack(ms[..k], stores, m, k, ctx2);
      NothingLeftUpTo(ms, ctx, ctx2, start, m, k);
    }
  }

  /** With the first k recorded, the list is in order for every target. */
  lemma PrefixParts<C, S>(ms: seq<Migration<C, S>>, k: nat, target: string)
    requires Sorted(ms) && k <= |ms|
    ensures InOrder(ms, Ids(ms[..k]), target) && UpTo(ms, target) <= |ms|
    ensures
      var m := UpTo(ms, target);
      && Above(ms, Ids(ms[..k]), target) == (if m < k then ms[m..k] else [])
      && (m < k ==> Pending(ms[..m], Ids(ms[..k])) == [])
  {
    var recorded := Ids(ms[..k]);
    UpToSplits(ms, target);
    PrefixRecorded(ms, k);
    var m := UpTo(ms, target);
    if m < k {
      ThreeParts(ms, recorded, target, m, k);
      NonePending(ms[..m], recorded);
      NonePendingIsAll(ms, recorded, m, k);
    } else {
      NoneAbove(ms, recorded, target);
    }
    hide Above, Pending;
    forall a, p | a in Above(ms, recorded, target) && p in Pending(ms, recorded) ensures Less(a.id, p.id) {
      var i :| m <= i < k && ms[i] == a;
      PendingHas(ms, recorded, p);
      var j :| 0 <= j < |ms| && ms[j] == p;
    }
  }

  lemma NonePendingIsAll<C, S>(ms: seq<Migration<C, S>>, recorded: set<string>, m: nat, k: nat)
    requires m <= k <= |ms| && Pending(ms, recorded) == Pending(ms[..m], recorded) + ms[k..]
    requires Pending(ms[..m], recorded) == []
    ensures Pending(ms, recorded) == ms[k..]
  {
  }

  lemma PrefixRecorded<C, S>(ms: seq<Migration<C, S>>, k: nat)
    requires Sorted(ms) && k <= |ms|
    ensures forall i | 0 <= i < |ms| :: ms[i].id in Ids(ms[..k]) <==> i < k
  {
    forall i | 0 <= i < |ms| ensures ms[i].id in Ids(ms[..k]) <==> i < k {
      if i < k {
        assert ms[..k][i].id == ms[i].id;
      } else if ms[i].id in Ids(ms[..k]) {
        var j :| 0 <= j < k && ms[..k][j].id == ms[i].id;
        LessIsTotal(ms[i].id, ms[i].id);
      }
    }
  }

  // ----- The order is needed

  /** Up pushes the migration's ID; Down takes it off, and fails unless it is on top. */
  function Stacked(id: string): Migration<(), seq<string>> {
    Migration(id, (c, s) => Outcome(s + [id], true),
              Some((c, s: seq<string>) =>
                     if s != [] && s[|s| - 1] == id then Outcome(s[..|s| - 1], true) else Outcome(s, false)))
  }

  function StackedAll(ids: seq<string>): (ms: seq<Migration<(), seq<string>>>)
    ensures |ms| == |ids| && forall i | 0 <= i < |ids| :: ms[i] == Stacked(ids[i])
  {
    seq(|ids|, i requires 0 <= i < |ids| => Stacked(ids[i]))
  }

  lemma StackedUndoes(id: string)
    ensures Undoes(Stacked(id))
  {
    forall s: seq<string> ensures (s + [id])[..|s + [id]| - 1] == s {
    }
  }

  function IdList<C, S>(ms: seq<Migration<C, S>>): (ids: seq<string>)
    ensures |ids| == |ms| && forall i | 0 <= i < |ms| :: ids[i] == ms[i].id
  {
    seq(|ms|, i requires 0 <= i < |ms| => ms[i].id)
  }

  lemma {:induction false} StackedUp(ms: seq<Migration<(), seq<string>>>, store: seq<string>)
    requires forall m | m in ms :: m == Stacked(m.id)
    ensures UpAll(ms, (), store) == (store + IdList(ms), |ms|)
  {
    hide Stacked, IdList;
    if ms == [] {
      assert store + IdList(ms) == store;
    } else {
      var m, rest := ms[0], ms[1..];
      assert m in ms && forall x | x in rest :: x in ms;
      StackedPushes(m, store);
      StackedUp(rest, store + [m.id]);
      IdListCons(ms);
      assert store + [m.id] + IdList(rest) == store + ([m.id] + IdList(rest));
    }
  }

  lemma IdListCons<C, S>(ms: seq<Migration<C, S>>)
    requires ms != []
    ensures IdList(ms) == [ms[0].id] + IdList(ms[1..])
  {
  }

  lemma StackedPushes(m: Migration<(), seq<string>>, store: seq<string>)
    requires m == Stacked(m.id)
    ensures m.up((), store) == Outcome(store + [m.id], true)
  {
  }

  ghost predicate OnTop(tail: seq<string>, stack: seq<string>) {
    |tail| <= |stack| && stack[|stack| - |tail|..] == tail
  }

  /** Undoing a list succeeds exactly when its IDs are the top of the stack. */
  lemma {:induction false} StackedDown(ms: seq<Migration<(), seq<string>>>, s: State<seq<string>>)
    requires forall m | m in ms :: m == Stacked(m.id)
    ensures DownAll(ms, (), s).1.None? <==> OnTop(IdList(ms), s.store)
    decreases |ms|
  {
    if ms == [] {
      assert s.store[|s.store|..] == [];
    } else {
      var last, front := ms[|ms| - 1], ms[..|ms| - 1];
      assert last in ms && forall m | m in front :: m in ms;
      assert IdList(ms) == IdList(front) + [last.id];
      StackedPops(last, s.store);
      OnTopSnoc(IdList(front), last.id, s.store);
      var o := Undone(last, (), s.store);
      hide Stacked, IdList, OnTop;
      if o.ok {
        StackedDown(front, State(o.store, s.applied - {last.id}));
      }
    }
  }

  lemma StackedPops(m: Migration<(), seq<string>>, store: seq<string>)
    requires m == Stacked(m.id)
    ensures Undone(m, (), store).ok <==> store != [] && store[|store| - 1] == m.id
    ensures Undone(m, (), store).ok ==> Undone(m, (), store).store == store[..|store| - 1]
  {
  }

  lemma OnTopSnoc(tail: seq<string>, id: string, stack: seq<string>)
    ensures OnTop(tail + [id], stack)
            <==> stack != [] && stack[|stack| - 1] == id && OnTop(tail, stack[..|stack| - 1])
  {
    var n := |tail| + 1;
    if n <= |stack| {
      assert stack[|stack| - n..] == stack[..|stack| - 1][|stack| - n..] + [stack[|stack| - 1]];
    }
  }

  lemma StackedUndoAll(ids: seq<string>)
    requires forall i, j | 0 <= i < j < |ids| :: Less(ids[i], ids[j])
    ensures Sorted(StackedAll(ids)) && forall m | m in StackedAll(ids) :: Undoes(m) && m == Stacked(m.id)
  {
    forall m | m in StackedAll(ids) ensures Undoes(m) && m == Stacked(m.id) {
      StackedUndoes(m.id);
    }
  }

  /** With the recorded IDs above the target on the stack, Run succeeds and puts the pending IDs on top, and Rollback
      alone succeeds. */
  lemma StackedRun(ms: seq<Migration<(), seq<string>>>, recorded: set<string>, target: string)
    requires forall m | m in ms :: m == Stacked(m.id)
    ensures
      var above, pending := Above(ms, recorded, target), Pending(ms, recorded);
      var s := State(IdList(above), recorded);
      && Rollback(ms, (), target, s).1.None?
      && Run(ms, (), s) == (State(IdList(above) + IdList(pending), recorded + Ids(pending)), None)
  {
    var above, pending := Above(ms, recorded, target), Pending(ms, recorded);
    var s := State(IdList(above), recorded);
    forall m | m in above || m in pending ensures m == Stacked(m.id) {
      AboveHas(ms, recorded, target, m);
      PendingHas(ms, recorded, m);
    }
    hide Stacked, Above, Pending;
    StackedDown(above, s);
    StackedUp(pending, s.store);
    RunAppliesPending(ms, recorded, (), s);
    assert pending[..|pending|] == pending;
  }

  /** For every list of IDs, recorded set and target out of order there are migrations whose Downs undo their Ups,
      and a store, where Run succeeds and Rollback alone would, but not the one after the other. */
  lemma OutOfOrderFails(ids: seq<string>, recorded: set<string>, target: string)
      returns (ms: seq<Migration<(), seq<string>>>, s: State<seq<string>>)
    requires forall i, j | 0 <= i < j < |ids| :: Less(ids[i], ids[j])
    requires !InOrder(StackedAll(ids), recorded, target)
    ensures ms == StackedAll(ids) && Sorted(ms) && s.applied == recorded && forall m | m in ms :: Undoes(m)
    ensures Run(ms, (), s).1.None? && Rollback(ms, (), target, s).1.None?
    ensures Rollback(ms, (), target, Run(ms, (), s).0).1.Some?
  {
    ms := StackedAll(ids);
    StackedUndoAll(ids);
    s := State(IdList(Above(ms, recorded, target)), recorded);
    StackedRun(ms, recorded, target);
    var t := Run(ms, (), s).0;
    AllRecorded(ms, (), s);
    AboveIsTail(ms, t.applied, target);
    var m := UpTo(ms, target);
    assert forall x | x in ms[m..] :: x in ms;
    OutOfOrderNotOnTop(ms, recorded, target);
    assert IdList(ms)[m..] == IdList(ms[m..]);
    RollbackIs(ms, (), target, t, ms[m..]);
    hide *;
    StackedDown(ms[m..], t);
  }

  /** The tail above the target cannot be on top of a stack that ends with the pending IDs. */
  lemma OutOfOrderNotOnTop(ms: seq<Migration<(), seq<string>>>, recorded: set<string>, target: string)
    requires Sorted(ms) && !InOrder(ms, recorded, target)
    ensures UpTo(ms, target) <= |ms|
    ensures
      var stack := IdList(Above(ms, recorded, target)) + IdList(Pending(ms, recorded));
      !OnTop(IdList(ms)[UpTo(ms, target)..], stack)
  {
    var a, p :| a in Above(ms, recorded, target) && p in Pending(ms, recorded) && !Less(a.id, p.id);
    AboveHas(ms, recorded, target, a);
    PendingHas(ms, recorded, p);
    UpToSplits(ms, target);
    var x :| 0 <= x < |ms| && ms[x] == a;
    var y :| 0 <= y < |ms| && ms[y] == p;
    LessIsTotal(a.id, p.id);
    PendingIdsUnrecorded(ms, recorded, a.id, p);
    forall i, j | 0 <= i < j < |ms| ensures IdList(ms)[i] != IdList(ms)[j] {
      LessIsTotal(ms[i].id, ms[j].id);
    }
    hide Above, Pending, Sorted, InOrder;
    var above, pending, m := IdList(Above(ms, recorded, target)), IdList(Pending(ms, recorded)), UpTo(ms, target);
    if OnTop(IdList(ms)[m..], above + pending) {
      TopIsPending(IdList(ms), above, pending, m, x, y);
    }
  }

  lemma PendingIdsUnrecorded<C, S>(ms: seq<Migration<C, S>>, recorded: set<string>, id: string, p: Migration<C, S>)
    requires id in recorded && p in Pending(ms, recorded)
    ensures id !in IdList(Pending(ms, recorded)) && p.id in IdList(Pending(ms, recorded))
  {
    var pending := Pending(ms, recorded);
    forall i | 0 <= i < |pending| ensures IdList(pending)[i] != id {
      PendingHas(ms, recorded, pending[i]);
    }
    var i :| 0 <= i < |pending| && pending[i] == p;
    assert IdList(pending)[i] == p.id;
  }

  /** On top of a stack that ends with the pending IDs, whatever follows a pending ID is pending. */
  lemma TopIsPending(ids: seq<string>, above: seq<string>, pending: seq<string>, m: nat, x: nat, y: nat)
    requires forall i, j | 0 <= i < j < |ids| :: ids[i] != ids[j]
    requires m <= x < |ids| && y < x && ids[y] in pending && OnTop(ids[m..], above + pending)
    ensures ids[x] in pending
  {
    var tail, stack := ids[m..], above + pending;
    var off := |stack| - |tail|;
    var i := off + x - m;
    assert stack[off..][x - m] == tail[x - m] == ids[x] == stack[i];
    var z :| 0 <= z < |pending| && pending[z] == ids[y];
    var k := |above| + z - off;
    if k >= 0 {
      assert stack[off..][k] == tail[k] == ids[m + k] == pending[z];
      assert m + k == y;
    }
    assert pending[i - |above|] == ids[x];
  }

  /** Every history is allowed for: any migrations with these IDs whose Downs undo their Ups, any store. */
  ghost predicate AlwaysUndoes(ids: seq<string>, recorded: set<string>, target: string) {
    forall ms: seq<Migration<(), seq<string>>>, store: seq<string>
      | IdList(ms) == ids && (forall m | m in ms :: Undoes(m)) && Run(ms, (), State(store, recorded)).1.None? ::
      RollbackUndoesRun(ms, (), (), target, State(store, recorded))
  }

  /** The exact line: for a list of IDs and a recorded set, Rollback takes every Run back to the target if and only if
      they are in order, which Status shows before the call. */
  lemma AlwaysUndoesExactlyInOrder(ids: seq<string>, recorded: set<string>, target: string)
    requires forall i, j | 0 <= i < j < |ids| :: Less(ids[i], ids[j])
    ensures AlwaysUndoes(ids, recorded, target) <==> InOrder(StackedAll(ids), recorded, target)
  {
    if InOrder(StackedAll(ids), recorded, target) {
      forall ms: seq<Migration<(), seq<string>>>, store: seq<string>
        | IdList(ms) == ids && (forall m | m in ms :: Undoes(m)) && Run(ms, (), State(store, recorded)).1.None?
        ensures RollbackUndoesRun(ms, (), (), target, State(store, recorded))
      {
        SameOrder(ms, StackedAll(ids), recorded, target);
        forall m | m in Pending(ms, recorded) ensures Undoes(m) {
          PendingHas(ms, recorded, m);
        }
        InOrderRollbackUndoesRun(ms, (), (), target, State(store, recorded));
      }
    } else {
      var ms, s := OutOfOrderFails(ids, recorded, target);
      assert IdList(ms) == ids;
      assert !RollbackUndoesRun(ms, (), (), target, s);
    }
  }

  /** Being in order depends on the IDs alone. */
  lemma SameOrder<C, S, D, T>(ms: seq<Migration<C, S>>, ns: seq<Migration<D, T>>, recorded: set<string>, target: string)
    requires IdList(ms) == IdList(ns) && InOrder(ns, recorded, target)
    ensures InOrder(ms, recorded, target)
  {
    forall a, p | a in Above(ms, recorded, target) && p in Pending(ms, recorded) ensures Less(a.id, p.id) {
      AboveHas(ms, recorded, target, a);
      PendingHas(ms, recorded, p);
      var i :| 0 <= i < |ms| && ms[i] == a;
      var j :| 0 <= j < |ms| && ms[j] == p;
      assert IdList(ms)[i] == ns[i].id && IdList(ms)[j] == ns[j].id;
      AboveHas(ns, recorded, target, ns[i]);
      PendingHas(ns, recorded, ns[j]);
    }
  }
}
