/**
 The migration runner of internal/migrations/migrator.go over any store: Run applies pending migrations in
 ID order and records each, Rollback undoes recorded ones above a target in the opposite order.
 */
module Migrations {
  import opened Wrappers

  /** What a script leaves in the store, complete or not, and whether it reported success. */
  datatype Outcome<S> = Outcome(store: S, ok: bool)

  datatype Migration<!C, !S> = Migration(id: string, up: (C, S) -> Outcome<S>, down: Option<(C, S) -> Outcome<S>>)

  /** The store and the set of recorded migration IDs. */
  datatype State<S> = State(store: S, applied: set<string>)

  // ----- Go's order on strings

  predicate Less(a: string, b: string) {
    if b == "" then false
    else if a == "" then true
    else if a[0] != b[0] then a[0] < b[0]
    else Less(a[1..], b[1..])
  }

  lemma {:induction false} LessIsTransitive(a: string, b: string, c: string)
    requires Less(a, b) && Less(b, c)
    ensures Less(a, c)
  {
    if a != "" && b != "" && c != "" && a[0] == b[0] == c[0] {
      LessIsTransitive(a[1..], b[1..], c[1..]);
    }
  }

  lemma {:induction false} LessIsTotal(a: string, b: string)
    ensures a == b || Less(a, b) || Less(b, a)
    ensures !(Less(a, b) && Less(b, a)) && !Less(a, a)
  {
    if a != "" && b != "" {
      if a[0] == b[0] {
        LessIsTotal(a[1..], b[1..]);
        assert a == [a[0]] + a[1..] && b == [b[0]] + b[1..];
      } else {
        LessIsTotal(a[1..], a[1..]);
      }
    } else if a != "" {
      LessIsTotal(a[1..], a[1..]);
    }
  }

  /** The strings agree up to position k and the first ends or is smaller there. */
  ghost predicate DiffersAt(a: string, b: string, k: int) {
    0 <= k <= |a| && k < |b| && a[..k] == b[..k] && (k == |a| || a[k] < b[k])
  }

  lemma {:induction false} LessExactlyWhen(a: string, b: string)
    ensures Less(a, b) <==> exists k :: DiffersAt(a, b, k)
  {
    if a == "" {
      assert b != "" ==> DiffersAt(a, b, 0);
    } else if b != "" {
      forall k | DiffersAt(a, b, k) && k > 0 ensures a[0] == b[0] {
        assert a[..k][0] == b[..k][0];
      }
      if a[0] < b[0] {
        assert DiffersAt(a, b, 0);
      } else if a[0] == b[0] {
        LessExactlyWhen(a[1..], b[1..]);
        if k :| DiffersAt(a[1..], b[1..], k) {
          assert a[..k + 1] == [a[0]] + a[1..][..k] && b[..k + 1] == [b[0]] + b[1..][..k];
          assert DiffersAt(a, b, k + 1);
        }
        if k :| DiffersAt(a, b, k) {
          assert k > 0;
          assert a[1..][..k - 1] == a[..k][1..] && b[1..][..k - 1] == b[..k][1..];
          assert DiffersAt(a[1..], b[1..], k - 1);
        }
      }
    }
  }

  ghost predicate Sorted<C, S>(ms: seq<Migration<C, S>>) {
    forall i, j | 0 <= i < j < |ms| :: Less(ms[i].id, ms[j].id)
  }

  /** NewMigrationRunner's sort, as insertion into an ordered list. */
  function Insert<C, S>(m: Migration<C, S>, ms: seq<Migration<C, S>>): seq<Migration<C, S>> {
    if ms != [] && Less(ms[0].id, m.id) then [ms[0]] + Insert(m, ms[1..]) else [m] + ms
  }

  function Sort<C, S>(ms: seq<Migration<C, S>>): seq<Migration<C, S>> {
    if ms == [] then [] else Insert(ms[0], Sort(ms[1..]))
  }

  lemma {:induction false} InsertSorts<C, S>(m: Migration<C, S>, ms: seq<Migration<C, S>>)
    requires Sorted(ms) && forall x | x in ms :: x.id != m.id
    ensures Sorted(Insert(m, ms)) && multiset(Insert(m, ms)) == multiset{m} + multiset(ms)
  {
    if ms != [] {
      assert ms == [ms[0]] + ms[1..];
      LessIsTotal(ms[0].id, m.id);
      if Less(ms[0].id, m.id) {
        InsertSorts(m, ms[1..]);
        var rest := Insert(m, ms[1..]);
        forall x | x in rest ensures Less(ms[0].id, x.id) {
          assert x in multiset(rest);
          assert x == m || x in ms[1..];
        }
        ConsSorted(ms[0], rest);
      } else {
        forall x | x in ms ensures Less(m.id, x.id) {
          if x != ms[0] {
            LessIsTransitive(m.id, ms[0].id, x.id);
          }
        }
        ConsSorted(m, ms);
      }
    }
  }

  lemma ConsSorted<C, S>(x: Migration<C, S>, rest: seq<Migration<C, S>>)
    requires Sorted(rest) && forall y | y in rest :: Less(x.id, y.id)
    ensures Sorted([x] + rest)
  {
    hide Less;
  }

  lemma {:induction false} SortSorts<C, S>(ms: seq<Migration<C, S>>)
    requires forall i, j | 0 <= i < j < |ms| :: ms[i].id != ms[j].id
    ensures Sorted(Sort(ms)) && multiset(Sort(ms)) == multiset(ms)
  {
    if ms != [] {
      SortSorts(ms[1..]);
      assert ms == [ms[0]] + ms[1..];
      forall x | x in Sort(ms[1..]) ensures x.id != ms[0].id {
        assert x in multiset(ms[1..]);
      }
      InsertSorts(ms[0], Sort(ms[1..]));
    }
  }

  /** With distinct IDs the sorted order is the only one, so the instability of the library's sort cannot show. */
  lemma {:induction false} SortedIsUnique<C, S>(ms: seq<Migration<C, S>>, ns: seq<Migration<C, S>>)
    requires Sorted(ms) && Sorted(ns) && multiset(ms) == multiset(ns)
    ensures ms == ns
  {
    if ms != [] && ns != [] {
      SameLeast(ms, ns);
      assert ms == [ms[0]] + ms[1..] && ns == [ns[0]] + ns[1..];
      assert multiset(ms[1..]) == multiset(ms) - multiset{ms[0]};
      assert multiset(ns[1..]) == multiset(ns) - multiset{ns[0]};
      SortedIsUnique(ms[1..], ns[1..]);
    } else {
      assert |multiset(ms)| == |ms| && |multiset(ns)| == |ns|;
    }
  }

  lemma SameLeast<C, S>(ms: seq<Migration<C, S>>, ns: seq<Migration<C, S>>)
    requires Sorted(ms) && Sorted(ns) && multiset(ms) == multiset(ns) && ms != [] && ns != []
    ensures ms[0] == ns[0]
  {
    assert ms[0] in multiset(ns) && ns[0] in multiset(ms);
    LessIsTotal(ms[0].id, ns[0].id);
  }

  // ----- What the two loops do

  /** Run: `recorded` is the set read once at the start. */
  function RunFrom<C, S>(ms: seq<Migration<C, S>>, recorded: set<string>, ctx: C, s: State<S>)
      : (State<S>, Option<string>)
  {
    if ms == [] then (s, None)
    else if ms[0].id in recorded then RunFrom(ms[1..], recorded, ctx, s)
    else
      var o := ms[0].up(ctx, s.store);
      if !o.ok then (s.(store := o.store), Some(ms[0].id))
      else RunFrom(ms[1..], recorded, ctx, State(o.store, s.applied + {ms[0].id}))
  }

  function Run<C, S>(ms: seq<Migration<C, S>>, ctx: C, s: State<S>): (State<S>, Option<string>) {
    RunFrom(ms, s.applied, ctx, s)
  }

  function Pending<C, S>(ms: seq<Migration<C, S>>, recorded: set<string>): seq<Migration<C, S>> {
    if ms == [] then []
    else if ms[0].id in recorded then Pending(ms[1..], recorded)
    else [ms[0]] + Pending(ms[1..], recorded)
  }

  function Above<C, S>(ms: seq<Migration<C, S>>, recorded: set<string>, target: string): seq<Migration<C, S>> {
    if ms == [] then []
    else if ms[0].id in recorded && Less(target, ms[0].id) then [ms[0]] + Above(ms[1..], recorded, target)
    else Above(ms[1..], recorded, target)
  }

  /** A migration without a Down script is only unrecorded. */
  function Undone<C, S>(m: Migration<C, S>, ctx: C, store: S): Outcome<S> {
    if m.down.None? then Outcome(store, true) else m.down.value(ctx, store)
  }

  /** Undoes a list from its end. */
  function DownAll<C, S>(ms: seq<Migration<C, S>>, ctx: C, s: State<S>): (State<S>, Option<string>) {
    if ms == [] then (s, None) else
      var m := ms[|ms| - 1];
      var o := Undone(m, ctx, s.store);
      if !o.ok then (s.(store := o.store), Some(m.id))
      else DownAll(ms[..|ms| - 1], ctx, State(o.store, s.applied - {m.id}))
  }

  function Rollback<C, S>(ms: seq<Migration<C, S>>, ctx: C, target: string, s: State<S>): (State<S>, Option<string>) {
    DownAll(Above(ms, s.applied, target), ctx, s)
  }

  class MigrationRunner<C, S> {
    const migrations: seq<Migration<C, S>>
    var store: S
    var applied: set<string>

    constructor (store: S, migrations: seq<Migration<C, S>>)
      ensures this.migrations == Sort(migrations) && this.store == store && applied == {}
    {
      this.migrations := Sort(migrations);
      this.store := store;
      this.applied := {};
    }

    function Now(): State<S>
      reads this
    {
      State(store, applied)
    }

    method RunAll(ctx: C) returns (failed: Option<string>)
      modifies this
      ensures (Now(), failed) == Run(migrations, ctx, old(Now()))
    {
      var appliedSet := applied;
      for i := 0 to |migrations|
        invariant RunFrom(migrations[i..], appliedSet, ctx, Now()) == Run(migrations, ctx, old(Now()))
      {
        var migration := migrations[i];
        assert migrations[i..][1..] == migrations[i + 1..];
        if migration.id in appliedSet {
          continue;
        }
        var o := migration.up(ctx, store);
        store := o.store;
        if !o.ok {
          return Some(migration.id);
        }
        applied := applied + {migration.id};
      }
      failed := None;
    }

    method Collect(targetID: string) returns (toRollback: seq<Migration<C, S>>)
      ensures toRollback == Above(migrations, applied, targetID)
    {
      toRollback := [];
      for k := 0 to |migrations|
        invariant toRollback + Above(migrations[k..], applied, targetID) == Above(migrations, applied, targetID)
      {
        assert migrations[k..][1..] == migrations[k + 1..];
        if migrations[k].id in applied && Less(targetID, migrations[k].id) {
          toRollback := toRollback + [migrations[k]];
        }
      }
    }

    method RollbackTo(ctx: C, targetID: string) returns (failed: Option<string>)
      modifies this
      ensures (Now(), failed) == Rollback(migrations, ctx, targetID, old(Now()))
    {
      var toRollback := Collect(targetID);
      var i := |toRollback|;
      assert toRollback[..i] == toRollback;
      while i > 0
        invariant 0 <= i <= |toRollback|
        invariant DownAll(toRollback[..i], ctx, Now()) == Rollback(migrations, ctx, targetID, old(Now()))
      {
        i := i - 1;
        var migration := toRollback[i];
        assert toRollback[..i + 1][..i] == toRollback[..i];
        if migration.down.Some? {
          var o := migration.down.value(ctx, store);
          store := o.store;
          if !o.ok {
            return Some(migration.id);
          }
        }
        applied := applied - {migration.id};
      }
      failed := None;
    }
  }

  // ----- Run

  function Ids<C, S>(ms: seq<Migration<C, S>>): set<string> {
    set i | 0 <= i < |ms| :: ms[i].id
  }

  /** Applies a list of migrations until one fails; `done` counts the ones that succeeded. */
  function UpAll<C, S>(ms: seq<Migration<C, S>>, ctx: C, store: S): (S, nat) {
    if ms == [] then (store, 0) else
      var o := ms[0].up(ctx, store);
      if !o.ok then (o.store, 0)
      else var (last, done) := UpAll(ms[1..], ctx, o.store); (last, done + 1)
  }

  lemma {:induction false} UpAllCount<C, S>(ms: seq<Migration<C, S>>, ctx: C, store: S)
    ensures UpAll(ms, ctx, store).1 <= |ms|
  {
    if ms != [] && ms[0].up(ctx, store).ok {
      UpAllCount(ms[1..], ctx, ms[0].up(ctx, store).store);
    }
  }

  lemma IdsCons<C, S>(ms: seq<Migration<C, S>>)
    requires ms != []
    ensures Ids(ms) == {ms[0].id} + Ids(ms[1..])
  {
    forall id | id in Ids(ms) ensures id in {ms[0].id} + Ids(ms[1..]) {
      var i :| 0 <= i < |ms| && ms[i].id == id;
      assert i > 0 ==> ms[1..][i - 1].id == id;
    }
  }

  /** Run applies exactly the pending migrations, in list order, up to the first that fails: the recorded set
      grows by the ones that succeeded, the failing one's partial effect stays, and its ID is reported. */
  lemma {:induction false} RunAppliesPending<C, S>(ms: seq<Migration<C, S>>, recorded: set<string>, ctx: C, s: State<S>)
    ensures
      var pending := Pending(ms, recorded);
      var (store, done) := UpAll(pending, ctx, s.store);
      && done <= |pending|
      && RunFrom(ms, recorded, ctx, s)
         == (State(store, s.applied + Ids(pending[..done])), if done == |pending| then None else Some(pending[done].id))
  {
    var pending := Pending(ms, recorded);
    UpAllCount(pending, ctx, s.store);
    if ms == [] {
      assert Ids(pending[..0]) == {};
      assert s.applied + {} == s.applied;
    } else if ms[0].id in recorded {
      RunAppliesPending(ms[1..], recorded, ctx, s);
    } else {
      var o := ms[0].up(ctx, s.store);
      assert pending[0] == ms[0] && pending[1..] == Pending(ms[1..], recorded);
      if o.ok {
        var next := State(o.store, s.applied + {ms[0].id});
        RunAppliesPending(ms[1..], recorded, ctx, next);
        var done := UpAll(pending, ctx, s.store).1;
        IdsCons(pending[..done]);
        assert pending[..done][1..] == pending[1..][..done - 1];
        assert next.applied + Ids(pending[1..][..done - 1]) == s.applied + Ids(pending[..done]);
      } else {
        assert Ids(pending[..0]) == {};
        assert s.applied + {} == s.applied;
      }
    }
  }

  lemma {:induction false} PendingHas<C, S>(ms: seq<Migration<C, S>>, recorded: set<string>, x: Migration<C, S>)
    ensures x in Pending(ms, recorded) <==> x in ms && x.id !in recorded
  {
    if ms != [] {
      PendingHas(ms[1..], recorded, x);
      assert ms == [ms[0]] + ms[1..];
    }
  }

  /** What is pending is what is in the list and not recorded, in increasing ID order. */
  lemma {:induction false} PendingIsSorted<C, S>(ms: seq<Migration<C, S>>, recorded: set<string>)
    requires Sorted(ms)
    ensures Sorted(Pending(ms, recorded))
    ensures forall x :: x in Pending(ms, recorded) <==> x in ms && x.id !in recorded
  {
    if ms != [] {
      PendingIsSorted(ms[1..], recorded);
      var rest := Pending(ms[1..], recorded);
      forall j | 0 <= j < |rest| ensures Less(ms[0].id, rest[j].id) {
        PendingHas(ms[1..], recorded, rest[j]);
        var i :| 0 <= i < |ms[1..]| && ms[1..][i] == rest[j];
        assert Less(ms[0].id, ms[i + 1].id);
      }
    }
    forall x ensures x in Pending(ms, recorded) <==> x in ms && x.id !in recorded {
      PendingHas(ms, recorded, x);
    }
  }

  lemma {:induction false} PendingShrinks<C, S>(ms: seq<Migration<C, S>>, recorded: set<string>, done: nat)
    requires Sorted(ms) && done <= |Pending(ms, recorded)|
    ensures Pending(ms, recorded + Ids(Pending(ms, recorded)[..done])) == Pending(ms, recorded)[done..]
  {
    var pending := Pending(ms, recorded);
    var more := recorded + Ids(pending[..done]);
    if ms != [] {
      PendingIsSorted(ms, recorded);
      var rest := Pending(ms[1..], recorded);
      if ms[0].id in recorded {
        PendingShrinks(ms[1..], recorded, done);
      } else {
        assert pending[1..] == rest;
        if done == 0 {
          assert Ids(pending[..0]) == {};
          assert more == recorded;
        } else {
          PendingShrinks(ms[1..], recorded, done - 1);
          IdsCons(pending[..done]);
          assert pending[..done][1..] == rest[..done - 1];
          FirstIdIrrelevant(ms, recorded + Ids(rest[..done - 1]));
          assert more == recorded + Ids(rest[..done - 1]) + {ms[0].id};
        }
      }
    }
  }

  /** The head's own ID does not decide whether later migrations are pending. */
  lemma FirstIdIrrelevant<C, S>(ms: seq<Migration<C, S>>, recorded: set<string>)
    requires Sorted(ms) && ms != []
    ensures Pending(ms[1..], recorded + {ms[0].id}) == Pending(ms[1..], recorded)
  {
    LessIsTotal(ms[0].id, ms[0].id);
    SamePending(ms[1..], recorded, recorded + {ms[0].id});
  }

  lemma {:induction false} SamePending<C, S>(ms: seq<Migration<C, S>>, r: set<string>, q: set<string>)
    requires forall m | m in ms :: m.id in r <==> m.id in q
    ensures Pending(ms, r) == Pending(ms, q)
  {
    if ms != [] {
      assert forall m | m in ms[1..] :: m in ms;
      SamePending(ms[1..], r, q);
    }
  }

  /** After a failed Run exactly the failing migration and those after it are still pending, so the next Run
      starts with it. */
  lemma RunResumes<C, S>(ms: seq<Migration<C, S>>, ctx: C, s: State<S>)
    requires Sorted(ms) && Run(ms, ctx, s).1.Some?
    ensures UpAll(Pending(ms, s.applied), ctx, s.store).1 < |Pending(ms, s.applied)|
    ensures
      var left := Pending(ms, Run(ms, ctx, s).0.applied);
      left != [] && left[0].id == Run(ms, ctx, s).1.value
      && left == Pending(ms, s.applied)[UpAll(Pending(ms, s.applied), ctx, s.store).1..]
  {
    RunAppliesPending(ms, s.applied, ctx, s);
    PendingShrinks(ms, s.applied, UpAll(Pending(ms, s.applied), ctx, s.store).1);
  }

  /** After a successful Run nothing is pending, and running again, in whatever context, changes nothing. */
  lemma RunIsIdempotent<C, S>(ms: seq<Migration<C, S>>, ctx: C, again: C, s: State<S>)
    requires Sorted(ms) && Run(ms, ctx, s).1.None?
    ensures
      var t := Run(ms, ctx, s).0;
      t.applied == s.applied + Ids(Pending(ms, s.applied)) && Pending(ms, t.applied) == []
          && Run(ms, again, t) == (t, None)
  {
    var pending := Pending(ms, s.applied);
    RunAppliesPending(ms, s.applied, ctx, s);
    assert pending[..|pending|] == pending && pending[|pending|..] == [];
    PendingShrinks(ms, s.applied, |pending|);
    var t := Run(ms, ctx, s).0;
    RunAppliesPending(ms, t.applied, again, t);
    assert Ids(Pending(ms, t.applied)[..0]) == {};
    assert t.applied + {} == t.applied;
  }

  // ----- Rollback as an undo

  /** Down takes back whatever a successful Up did, in any contexts. */
  ghost predicate Undoes<C(!new), S(!new)>(m: Migration<C, S>) {
    forall c, d, store :: m.up(c, store).ok ==> Undone(m, d, m.up(c, store).store) == Outcome(store, true)
  }

  /** stores[i] is the store after the first i migrations, each applied successfully in some context. */
  ghost predicate Chain<C(!new), S(!new)>(ms: seq<Migration<C, S>>, stores: seq<S>) {
    |stores| == |ms| + 1 &&
    forall i | 0 <= i < |ms| :: Steps(ms[i], stores[i], stores[i + 1])
  }

  ghost predicate Steps<C(!new), S(!new)>(m: Migration<C, S>, from: S, to: S) {
    exists c :: m.up(c, from) == Outcome(to, true)
  }

  lemma IdsSnoc<C, S>(ms: seq<Migration<C, S>>, n: nat)
    requires Sorted(ms) && n < |ms|
    ensures Ids(ms[..n + 1]) - {ms[n].id} == Ids(ms[..n]) && ms[n].id !in Ids(ms[..n])
    ensures Ids(ms[..n + 1]) == Ids(ms[..n]) + {ms[n].id}
  {
    LessIsTotal(ms[n].id, ms[n].id);
    forall id | id in Ids(ms[..n]) ensures id in Ids(ms[..n + 1]) && id != ms[n].id {
      var i :| 0 <= i < n && ms[..n][i].id == id;
      assert ms[..n + 1][i].id == id;
    }
    forall id | id in Ids(ms[..n + 1]) ensures id == ms[n].id || id in Ids(ms[..n]) {
      var i :| 0 <= i < n + 1 && ms[..n + 1][i].id == id;
      assert i < n ==> ms[..n][i].id == id;
    }
    assert ms[..n + 1][n].id == ms[n].id;
  }

  /** Undoing the last migrations of a chain in reverse order walks it back. */
  lemma {:induction false} DownAllWalksBack<C(!new), S(!new)>(ms: seq<Migration<C, S>>, stores: seq<S>,
                                                              m: nat, n: nat, ctx: C)
    requires Sorted(ms) && Chain(ms, stores) && m <= n <= |ms|
    requires forall i | 0 <= i < |ms| :: Undoes(ms[i])
    ensures DownAll(ms[m..n], ctx, State(stores[n], Ids(ms[..n]))) == (State(stores[m], Ids(ms[..m])), None)
    decreases n
  {
    if m < n {
      assert Steps(ms[n - 1], stores[n - 1], stores[n]);
      assert ms[m..n][..n - m - 1] == ms[m..n - 1];
      IdsSnoc(ms, n - 1);
      DownAllWalksBack(ms, stores, m, n - 1, ctx);
    } else {
      assert ms[m..n] == [];
    }
  }

  /** How many migrations have an ID up to the target. */
  function UpTo<C, S>(ms: seq<Migration<C, S>>, target: string): nat {
    if ms == [] || Less(target, ms[0].id) then 0 else 1 + UpTo(ms[1..], target)
  }

  lemma {:induction false} UpToSplits<C, S>(ms: seq<Migration<C, S>>, target: string)
    requires Sorted(ms)
    ensures UpTo(ms, target) <= |ms|
    ensures forall i | 0 <= i < |ms| :: i < UpTo(ms, target) <==> !Less(target, ms[i].id)
  {
    if ms != [] {
      UpToSplits(ms[1..], target);
      if Less(target, ms[0].id) {
        forall i | 1 <= i < |ms| ensures Less(target, ms[i].id) {
          LessIsTransitive(target, ms[0].id, ms[i].id);
        }
      } else {
        assert forall i | 1 <= i < |ms| :: ms[i] == ms[1..][i - 1];
      }
    }
  }

  lemma {:induction false} AboveSplits<C, S>(ms: seq<Migration<C, S>>, ns: seq<Migration<C, S>>,
                                             recorded: set<string>, target: string)
    ensures Above(ms + ns, recorded, target) == Above(ms, recorded, target) + Above(ns, recorded, target)
  {
    if ms == [] {
      assert ms + ns == ns;
    } else {
      hide *;
      var rest := ms[1..];
      AboveSplits(rest, ns, recorded, target);
      assert (ms + ns)[1..] == rest + ns && (ms + ns)[0] == ms[0];
      AboveHead(ms, recorded, target);
      AboveHead(ms + ns, recorded, target);
      var first := if ms[0].id in recorded && Less(target, ms[0].id) then [ms[0]] else [];
      ConcatAssociates(first, Above(rest, recorded, target), Above(ns, recorded, target));
    }
  }

  lemma ConcatAssociates<T>(a: seq<T>, b: seq<T>, c: seq<T>)
    ensures a + b + c == a + (b + c)
  {
  }

  lemma AboveHead<C, S>(ms: seq<Migration<C, S>>, recorded: set<string>, target: string)
    requires ms != []
    ensures Above(ms, recorded, target)
            == (if ms[0].id in recorded && Less(target, ms[0].id) then [ms[0]] else [])
               + Above(ms[1..], recorded, target)
  {
  }

  lemma {:induction false} NoneAbove<C, S>(ms: seq<Migration<C, S>>, recorded: set<string>, target: string)
    requires forall x | x in ms :: x.id !in recorded || !Less(target, x.id)
    ensures Above(ms, recorded, target) == []
  {
    if ms != [] {
      assert forall x | x in ms[1..] :: x in ms;
      NoneAbove(ms[1..], recorded, target);
    }
  }

  lemma {:induction false} AllAbove<C, S>(ms: seq<Migration<C, S>>, recorded: set<string>, target: string)
    requires forall x | x in ms :: x.id in recorded && Less(target, x.id)
    ensures Above(ms, recorded, target) == ms
  {
    if ms != [] {
      assert forall x | x in ms[1..] :: x in ms;
      AllAbove(ms[1..], recorded, target);
    }
  }

  lemma AboveIsTail<C, S>(ms: seq<Migration<C, S>>, recorded: set<string>, target: string)
    requires Sorted(ms) && forall m | m in ms :: m.id in recorded
    ensures UpTo(ms, target) <= |ms| && Above(ms, recorded, target) == ms[UpTo(ms, target)..]
  {
    UpToSplits(ms, target);
    var low, high := ms[..UpTo(ms, target)], ms[UpTo(ms, target)..];
    assert ms == low + high;
    TwoSegments(low, high, recorded, target);
  }

  lemma TwoSegments<C, S>(low: seq<Migration<C, S>>, high: seq<Migration<C, S>>, recorded: set<string>, target: string)
    requires forall x | x in low :: !Less(target, x.id)
    requires forall x | x in high :: x.id in recorded && Less(target, x.id)
    ensures Above(low + high, recorded, target) == high
  {
    hide *;
    AboveSplits(low, high, recorded, target);
    NoneAbove(low, recorded, target);
    AllAbove(high, recorded, target);
  }

  lemma {:induction false} NonePending<C, S>(ms: seq<Migration<C, S>>, recorded: set<string>)
    requires forall i | 0 <= i < |ms| :: ms[i].id in recorded
    ensures Pending(ms, recorded) == []
  {
    if ms != [] {
      NonePending(ms[1..], recorded);
    }
  }

  lemma {:induction false} AllPending<C, S>(ms: seq<Migration<C, S>>, recorded: set<string>)
    requires forall x | x in ms :: x.id !in recorded
    ensures Pending(ms, recorded) == ms
  {
    if ms != [] {
      assert forall x | x in ms[1..] :: x in ms;
      AllPending(ms[1..], recorded);
    }
  }

  lemma {:induction false} PendingSplits<C, S>(ms: seq<Migration<C, S>>, ns: seq<Migration<C, S>>,
                                               recorded: set<string>)
    ensures Pending(ms + ns, recorded) == Pending(ms, recorded) + Pending(ns, recorded)
  {
    if ms == [] {
      assert ms + ns == ns;
    } else {
      PendingSplits(ms[1..], ns, recorded);
      assert (ms + ns)[1..] == ms[1..] + ns;
    }
  }

  lemma IdsAppend<C, S>(ms: seq<Migration<C, S>>, k: nat, m: nat)
    requires k <= m <= |ms|
    ensures Ids(ms[..k]) + Ids(ms[k..m]) == Ids(ms[..m])
  {
    forall id | id in Ids(ms[..m]) ensures id in Ids(ms[..k]) + Ids(ms[k..m]) {
      var i :| 0 <= i < m && ms[..m][i].id == id;
      if i < k {
        assert ms[..k][i].id == id;
      } else {
        assert ms[k..m][i - k].id == id;
      }
    }
    forall id | id in Ids(ms[k..m]) ensures id in Ids(ms[..m]) {
      var i :| 0 <= i < m - k && ms[k..m][i].id == id;
      assert ms[..m][k + i].id == id;
    }
    forall id | id in Ids(ms[..k]) ensures id in Ids(ms[..m]) {
      var i :| 0 <= i < k && ms[..k][i].id == id;
      assert ms[..m][i].id == id;
    }
  }
}
