/**
 What internal/migrations/migrator.go leaves behind when a script fails: the stores on the way of a run and of a
 rollback, script by script, and where the next one goes on.
 */
module MigrationFailures {
  import opened Migrations
  import opened Wrappers
  import RollbackOrder

  // ----- Run

  /** The stores on the way, while the first `done` migrations are applied. */
  ghost predicate Advances<C, S>(ms: seq<Migration<C, S>>, ctx: C, done: int, stores: seq<S>) {
    && 0 <= done <= |ms| && |stores| == done + 1
    && forall i | 0 <= i < done :: ms[i].up(ctx, stores[i]) == Outcome(stores[i + 1], true)
  }

  /** Applying ended after `done` of them: at the end of the list, or because the Up of the next one failed, whose
      partial effect stays.  Exactly the ones that succeeded are recorded in addition. */
  ghost predicate EndsAfter<C, S>(ms: seq<Migration<C, S>>, ctx: C, s: State<S>, done: int, stores: seq<S>,
                                  t: State<S>, failed: Option<string>) {
    && Advances(ms, ctx, done, stores) && stores[0] == s.store
    && t.applied == s.applied + Ids(ms[..done])
    && if done == |ms| then failed.None? && t.store == stores[done]
       else failed == Some(ms[done].id) && ms[done].up(ctx, stores[done]) == Outcome(t.store, false)
  }

  lemma {:induction false} UpAllAdvances<C, S>(ms: seq<Migration<C, S>>, ctx: C, store: S) returns (stores: seq<S>)
    ensures
      var (last, done) := UpAll(ms, ctx, store);
      && Advances(ms, ctx, done, stores) && stores[0] == store
      && if done == |ms| then last == stores[done] else ms[done].up(ctx, stores[done]) == Outcome(last, false)
  {
    stores := [store];
    if ms != [] && ms[0].up(ctx, store).ok {
      var rest := UpAllAdvances(ms[1..], ctx, ms[0].up(ctx, store).store);
      stores := [store] + rest;
    }
  }

  /** Run applies the pending migrations in order, each to the store the one before left, up to the first whose Up
      fails. */
  lemma RunAdvances<C, S>(ms: seq<Migration<C, S>>, ctx: C, s: State<S>) returns (done: nat, stores: seq<S>)
    ensures
      var (t, failed) := Run(ms, ctx, s);
      EndsAfter(Pending(ms, s.applied), ctx, s, done, stores, t, failed)
  {
    RunAppliesPending(ms, s.applied, ctx, s);
    done := UpAll(Pending(ms, s.applied), ctx, s.store).1;
    stores := UpAllAdvances(Pending(ms, s.applied), ctx, s.store);
  }

  // ----- Rollback

  /** The Down of the migration succeeds and leads from one store to the other; without a script nothing happens. */
  predicate TakesDown<C, S(==)>(m: Migration<C, S>, ctx: C, from: S, to: S) {
    if m.down.None? then to == from else m.down.value(ctx, from) == Outcome(to, true)
  }

  /** The stores on the way, while the migrations from the last one down to position k are undone. */
  ghost predicate Unwinds<C, S>(ms: seq<Migration<C, S>>, ctx: C, k: int, stores: seq<S>) {
    && 0 <= k <= |ms| && |stores| == |ms| - k + 1
    && forall i | 0 <= i < |ms| - k :: TakesDown(ms[|ms| - 1 - i], ctx, stores[i], stores[i + 1])
  }

  /** Undoing stopped above position k: complete if that is 0, else because the Down of the one before it failed, whose
      partial effect stays.  Exactly the undone migrations are no longer recorded. */
  ghost predicate StopsAt<C, S>(ms: seq<Migration<C, S>>, ctx: C, s: State<S>, k: int, stores: seq<S>,
                                t: State<S>, failed: Option<string>) {
    && Unwinds(ms, ctx, k, stores) && stores[0] == s.store
    && t.applied == s.applied - Ids(ms[k..])
    && if k == 0 then failed.None? && t.store == stores[|stores| - 1]
       else failed == Some(ms[k - 1].id) && ms[k - 1].down.Some?
            && ms[k - 1].down.value(ctx, stores[|stores| - 1]) == Outcome(t.store, false)
  }

  lemma {:induction false} DownAllStops<C, S>(ms: seq<Migration<C, S>>, ctx: C, s: State<S>)
      returns (k: nat, stores: seq<S>)
    ensures StopsAt(ms, ctx, s, k, stores, DownAll(ms, ctx, s).0, DownAll(ms, ctx, s).1)
  {
    k, stores := |ms|, [s.store];
    if ms != [] {
      var m, front := ms[|ms| - 1], ms[..|ms| - 1];
      var o := Undone(m, ctx, s.store);
      if o.ok {
        var rest: seq<S>;
        k, rest := DownAllStops(front, ctx, State(o.store, s.applied - {m.id}));
        stores := [s.store] + rest;
        LastIds(ms, k);
        UnwindsMore(ms, ctx, k, s.store, rest);
      } else {
        assert Ids(ms[k..]) == {};
      }
    } else {
      assert Ids(ms[k..]) == {};
    }
  }

  lemma UnwindsMore<C, S>(ms: seq<Migration<C, S>>, ctx: C, k: nat, store: S, rest: seq<S>)
    requires ms != [] && Unwinds(ms[..|ms| - 1], ctx, k, rest) && TakesDown(ms[|ms| - 1], ctx, store, rest[0])
    ensures Unwinds(ms, ctx, k, [store] + rest)
  {
    var front, stores := ms[..|ms| - 1], [store] + rest;
    forall i | 0 <= i < |ms| - k
      ensures TakesDown(ms[|ms| - 1 - i], ctx, stores[i], stores[i + 1])
    {
      if i > 0 {
        assert TakesDown(front[|front| - 1 - (i - 1)], ctx, rest[i - 1], rest[i]);
      }
    }
  }

  lemma LastIds<C, S>(ms: seq<Migration<C, S>>, k: nat)
    requires ms != [] && k < |ms|
    ensures Ids(ms[k..]) == Ids(ms[..|ms| - 1][k..]) + {ms[|ms| - 1].id}
  {
    var front, last := ms[..|ms| - 1][k..], ms[|ms| - 1];
    assert ms[k..] == front + [last];
    RollbackOrder.IdsConcat(front, [last]);
    assert Ids([last]) == {last.id} by {
      assert [last][0].id == last.id;
    }
  }

  // ----- Rolling back again

  lemma IdIn<C, S>(ms: seq<Migration<C, S>>, m: Migration<C, S>)
    requires m in ms
    ensures m.id in Ids(ms)
  {
    var i :| 0 <= i < |ms| && ms[i] == m;
  }

  lemma {:induction false} AboveIsSorted<C, S>(ms: seq<Migration<C, S>>, recorded: set<string>, target: string)
    requires Sorted(ms)
    ensures Sorted(Above(ms, recorded, target))
    ensures forall x :: x in Above(ms, recorded, target) <==> x in ms && x.id in recorded && Less(target, x.id)
  {
    if ms != [] {
      AboveIsSorted(ms[1..], recorded, target);
      var rest := Above(ms[1..], recorded, target);
      forall j | 0 <= j < |rest| ensures Less(ms[0].id, rest[j].id) {
        RollbackOrder.AboveHas(ms[1..], recorded, target, rest[j]);
        var i :| 0 <= i < |ms[1..]| && ms[1..][i] == rest[j];
        assert Less(ms[0].id, ms[i + 1].id);
      }
    }
    forall x ensures x in Above(ms, recorded, target) <==> x in ms && x.id in recorded && Less(target, x.id) {
      RollbackOrder.AboveHas(ms, recorded, target, x);
    }
  }

  /** Two parts of an ordered list have no ID in common. */
  lemma PartsApart<C, S>(ms: seq<Migration<C, S>>, k: nat, id: string)
    requires Sorted(ms) && k <= |ms| && id in Ids(ms[..k])
    ensures id !in Ids(ms[k..])
  {
    var i :| 0 <= i < |ms[..k]| && ms[..k][i].id == id;
    if id in Ids(ms[k..]) {
      var j :| 0 <= j < |ms[k..]| && ms[k..][j].id == id;
      assert Less(ms[i].id, ms[k + j].id);
      LessIsTotal(id, id);
    }
  }

  lemma {:induction false} AboveShrinks<C, S>(ms: seq<Migration<C, S>>, recorded: set<string>, target: string, k: nat)
    requires Sorted(ms) && k <= |Above(ms, recorded, target)|
    ensures Above(ms, recorded - Ids(Above(ms, recorded, target)[k..]), target) == Above(ms, recorded, target)[..k]
  {
    var above := Above(ms, recorded, target);
    AboveIsSorted(ms, recorded, target);
    var less := recorded - Ids(above[k..]);
    assert above == above[..k] + above[k..];
    AboveIsSorted(ms, less, target);
    var left := Above(ms, less, target);
    forall x ensures x in left <==> x in above[..k] {
      if x in above[..k] {
        IdIn(above[..k], x);
        PartsApart(above, k, x.id);
      }
      if x in above[k..] {
        IdIn(above[k..], x);
      }
    }
    SameMembers(left, above[..k]);
  }

  /** Ordered lists with the same members are equal. */
  lemma {:induction false} SameMembers<C, S>(ms: seq<Migration<C, S>>, ns: seq<Migration<C, S>>)
    requires Sorted(ms) && Sorted(ns) && forall x :: x in ms <==> x in ns
    ensures ms == ns
  {
    assert ms != [] ==> ms[0] in ns;
    assert ns != [] ==> ns[0] in ms;
    if ms != [] {
      LessIsTotal(ms[0].id, ns[0].id);
      assert ms[0] == ns[0];
      forall x ensures x in ms[1..] <==> x in ns[1..] {
        NotHead(ms, x);
        NotHead(ns, x);
      }
      SameMembers(ms[1..], ns[1..]);
      assert ms == [ms[0]] + ms[1..] && ns == [ns[0]] + ns[1..];
    }
  }

  lemma NotHead<C, S>(ms: seq<Migration<C, S>>, x: Migration<C, S>)
    requires Sorted(ms) && ms != []
    ensures x in ms[1..] <==> x in ms && x != ms[0]
  {
    assert ms == [ms[0]] + ms[1..];
    LessIsTotal(ms[0].id, ms[0].id);
  }

  /** Rollback undoes the recorded migrations above the target from the last one down, each from the store the one
      before left, up to the first whose Down fails.  That one and those below it stay recorded, and are exactly what
      the next Rollback takes up again. */
  lemma RollbackResumes<C, S>(ms: seq<Migration<C, S>>, ctx: C, target: string, s: State<S>)
      returns (k: nat, stores: seq<S>)
    requires Sorted(ms)
    ensures
      var above, (t, failed) := Above(ms, s.applied, target), Rollback(ms, ctx, target, s);
      && StopsAt(above, ctx, s, k, stores, t, failed)
      && Above(ms, t.applied, target) == above[..k]
      && (failed.Some? ==> failed.value in t.applied)
  {
    var above := Above(ms, s.applied, target);
    k, stores := DownAllStops(above, ctx, s);
    AboveShrinks(ms, s.applied, target, k);
    AboveIsSorted(ms, s.applied, target);
    if k > 0 {
      assert above[..k][k - 1] == above[k - 1];
      IdIn(above[..k], above[k - 1]);
      PartsApart(above, k, above[k - 1].id);
    }
  }
}
