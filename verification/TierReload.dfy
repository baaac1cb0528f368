/**
 A configuration reload between the steps of tiered calls (gateway/service.go): it writes the shared limit once,
 and calls in flight may still put back the limit they read before.
 */
module TierReload {
  import opened TieredLimiter

  /** ApplyConfig's write to the shared limit. */
  function Reloaded(s: State, limit: int): State {
    s.(limit := limit)
  }

  /** The calls in flight end and no new ones start. */
  ghost predicate Drains(cfg: Config, s: State, actions: seq<Action>) {
    && Runs(cfg, s, actions)
    && (forall i | 0 <= i < |actions| :: !actions[i].Enter?)
    && After(cfg, s, actions).flying == map[]
  }

  /** However the calls in flight end, the reloaded limit is what is left. */
  ghost predicate Survives(cfg: Config, s: State, limit: int) {
    forall actions | Drains(cfg, Reloaded(s, limit), actions) ::
      After(cfg, Reloaded(s, limit), actions).limit == limit
  }

  predicate Waiting(s: State, id: nat) {
    id in s.flying && s.flying[id].Looked?
  }

  /** The call has read a limit that it will put back. */
  predicate Holds(s: State, id: nat) {
    id in s.flying && !s.flying[id].Looked?
  }

  function Original(s: State, id: nat): int
    requires Holds(s, id)
  {
    s.flying[id].original
  }

  predicate WillInstall(s: State, id: nat) {
    id in s.flying && (s.flying[id].Looked? || s.flying[id].Read?)
  }

  /** No call in flight has read another limit, and none that has still to install another limit can do so before some
      other call reads. */
  ghost predicate Safe(cfg: Config, s: State, limit: int) {
    && (forall id | Holds(s, id) :: Original(s, id) == limit)
    && (forall id, other | Waiting(s, id) && WillInstall(s, other) && id != other ::
          TierLimit(cfg, s.flying[other].apiKey) == limit)
  }

  /** While it drains: a call that has still to read will read the reloaded limit, and whoever changed it puts it
      back. */
  ghost predicate Draining(cfg: Config, s: State, limit: int) {
    && Safe(cfg, s, limit)
    && (forall id | Waiting(s, id) :: s.limit == limit)
    && (s.limit == limit || exists id :: Holds(s, id))
  }

  lemma StepKeepsDraining(cfg: Config, s: State, a: Action, limit: int)
    requires Draining(cfg, s, limit) && Enabled(s, a) && !a.Enter?
    ensures Draining(cfg, Next(cfg, s, a), limit)
  {
    var t := Next(cfg, s, a);
    StepTouchesOne(cfg, s, a);
    match a
    case ReadLimit(id) => assert Waiting(s, id) && Holds(t, id);
    case InstallTier(id) => assert WillInstall(s, id) && Holds(s, id) && Holds(t, id);
    case Ask(id, _) => assert Holds(s, id) && Holds(t, id);
    case Restore(id) => assert Holds(s, id);
  }

  /** Every other call stands where it stood, and no call goes back. */
  lemma StepTouchesOne(cfg: Config, s: State, a: Action)
    requires Enabled(s, a) && !a.Enter?
    ensures
      var t := Next(cfg, s, a);
      && (forall id | Waiting(t, id) :: Waiting(s, id) && id != a.id)
      && (forall id | WillInstall(t, id) :: WillInstall(s, id) && t.flying[id].apiKey == s.flying[id].apiKey)
      && (forall id | Holds(t, id) && id != a.id :: Holds(s, id) && Original(t, id) == Original(s, id))
      && (Holds(t, a.id) ==> Original(t, a.id) == if a.ReadLimit? then s.limit else s.flying[a.id].original)
  {
  }

  lemma {:induction false} SafeDrains(cfg: Config, s: State, actions: seq<Action>, limit: int)
    requires Draining(cfg, s, limit) && Drains(cfg, s, actions)
    ensures After(cfg, s, actions).limit == limit
    decreases actions
  {
    if actions != [] {
      StepKeepsDraining(cfg, s, actions[0], limit);
      assert !actions[0].Enter?;
      assert forall i | 0 <= i < |actions[1..]| :: actions[1..][i] == actions[i + 1];
      hide Draining;
      SafeDrains(cfg, Next(cfg, s, actions[0]), actions[1..], limit);
    }
  }

  // ----- Otherwise some end loses it

  lemma DrainsCons(cfg: Config, s: State, a: Action, actions: seq<Action>)
    requires Enabled(s, a) && !a.Enter? && Drains(cfg, Next(cfg, s, a), actions)
    ensures Drains(cfg, s, [a] + actions)
    ensures After(cfg, s, [a] + actions) == After(cfg, Next(cfg, s, a), actions)
  {
    assert ([a] + actions)[1..] == actions;
  }

  /** The next step of a call in flight. */
  function NextStep(s: State, id: nat): Action
    requires id in s.flying
  {
    match s.flying[id]
    case Looked(_, _) => ReadLimit(id)
    case Read(_, _, _) => InstallTier(id)
    case Installed(_, _, _) => Ask(id, s.clock)
    case Asked(_) => Restore(id)
  }

  function StepsLeft(p: Phase): nat {
    match p case Looked(_, _) => 3 case Read(_, _, _) => 2 case Installed(_, _, _) => 1 case Asked(_) => 0
  }

  /** The call ends on its own; a call that holds a limit leaves that one. */
  lemma {:induction false} EndOne(cfg: Config, s: State, id: nat) returns (actions: seq<Action>, t: State)
    requires id in s.flying
    ensures Runs(cfg, s, actions) && After(cfg, s, actions) == t
    ensures forall i | 0 <= i < |actions| :: !actions[i].Enter?
    ensures t.flying == s.flying - {id}
    ensures Holds(s, id) ==> t.limit == Original(s, id)
    decreases StepsLeft(s.flying[id])
  {
    var a := NextStep(s, id);
    var u := Next(cfg, s, a);
    if s.flying[id].Asked? {
      actions, t := [a], u;
      assert [a][1..] == [];
    } else {
      var rest;
      rest, t := EndOne(cfg, u, id);
      actions := [a] + rest;
      assert actions[1..] == rest;
      assert u.flying - {id} == s.flying - {id};
    }
  }

  lemma RunsThenDrains(cfg: Config, s: State, first: seq<Action>, t: State, second: seq<Action>)
    requires Runs(cfg, s, first) && After(cfg, s, first) == t && Drains(cfg, t, second)
    requires forall i | 0 <= i < |first| :: !first[i].Enter?
    ensures Drains(cfg, s, first + second) && After(cfg, s, first + second) == After(cfg, t, second)
  {
    RunsAppend(cfg, s, first, second);
  }

  /** A call that holds a limit can be the last to end, and leaves that limit. */
  lemma {:induction false} EndLast(cfg: Config, s: State, id: nat, others: set<nat>) returns (actions: seq<Action>)
    requires Holds(s, id) && others == s.flying.Keys - {id}
    ensures Drains(cfg, s, actions) && After(cfg, s, actions).limit == Original(s, id)
    decreases others
  {
    if other: nat :| other in others {
      var first, t := EndOne(cfg, s, other);
      var rest := EndLast(cfg, t, id, others - {other});
      RunsThenDrains(cfg, s, first, t, rest);
      actions := first + rest;
    } else {
      var first, t := EndOne(cfg, s, id);
      assert t.flying == map[];
      actions := first + [];
      RunsThenDrains(cfg, s, first, t, []);
    }
  }

  /** A call waits to read while another has still to install another limit: let it install, then let the first read. */
  lemma ReadsOthersTier(cfg: Config, s: State, id: nat, other: nat) returns (actions: seq<Action>)
    requires Waiting(s, id) && Holds(s, other) && s.flying[other].Read? && id != other
    ensures Drains(cfg, s, actions) && After(cfg, s, actions).limit == TierLimit(cfg, s.flying[other].apiKey)
  {
    var t := Next(cfg, s, InstallTier(other));
    var u := Next(cfg, t, ReadLimit(id));
    var rest := EndLast(cfg, u, id, u.flying.Keys - {id});
    DrainsCons(cfg, t, ReadLimit(id), rest);
    DrainsCons(cfg, s, InstallTier(other), [ReadLimit(id)] + rest);
    actions := [InstallTier(other)] + ([ReadLimit(id)] + rest);
  }

  /** For every state of the calls in flight, a reload survives them if and only if none has read another limit, and
      none can install another limit before some other call reads. */
  lemma ReloadSurvivesExactlyWhenSafe(cfg: Config, s: State, limit: int)
    ensures Survives(cfg, s, limit) <==> Safe(cfg, s, limit)
  {
    var r := Reloaded(s, limit);
    if Safe(cfg, s, limit) {
      SafeReloaded(cfg, s, limit);
      forall actions | Drains(cfg, r, actions) ensures After(cfg, r, actions).limit == limit {
        SafeDrains(cfg, r, actions, limit);
      }
    } else if id: nat :| Holds(s, id) && Original(s, id) != limit {
      var actions := EndLast(cfg, r, id, r.flying.Keys - {id});
    } else {
      var id: nat, other: nat :| Waiting(s, id) && WillInstall(s, other) && id != other
                                 && TierLimit(cfg, s.flying[other].apiKey) != limit;
      if s.flying[other].Read? {
        var actions := ReadsOthersTier(cfg, r, id, other);
      } else {
        var t := Next(cfg, r, ReadLimit(other));
        var rest := ReadsOthersTier(cfg, t, id, other);
        DrainsCons(cfg, r, ReadLimit(other), rest);
      }
    }
  }

  lemma SafeReloaded(cfg: Config, s: State, limit: int)
    requires Safe(cfg, s, limit)
    ensures Draining(cfg, Reloaded(s, limit), limit)
  {
    var r := Reloaded(s, limit);
    assert forall id :: (Holds(r, id) <==> Holds(s, id)) && (Waiting(r, id) <==> Waiting(s, id));
    assert forall id :: WillInstall(r, id) <==> WillInstall(s, id);
    assert forall id | Holds(r, id) :: Original(r, id) == Original(s, id);
  }
}
