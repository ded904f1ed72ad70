/**
 Several migrators over one store with a lock. Planning, taking the lock, each migration and giving
 the lock back are steps of their own, so others may act between a migrator's plan and its lock.
 */
module InterleavedMigrators {
  import Sorting
  import opened Migrations

  type MigratorId = nat

  /**
   `seen` are the ids that were applied when the plan was made, `start` the world when the lock was taken,
   `left` how many statements a failed migration has left behind.
   */
  datatype Phase<!Db> =
    | Planned(plan: seq<Migration<Db>>, up: bool, seen: set<Id>)
    | Holding(plan: seq<Migration<Db>>, up: bool, seen: set<Id>, start: World<Db>, next: nat, failed: bool, left: nat)

  datatype State<!Db> = State(world: World<Db>, locked: bool, migrators: map<MigratorId, Phase<Db>>)

  datatype Action<!Db> =
    | MakePlan(m: MigratorId, migrations: seq<Migration<Db>>, up: bool, options: Options)
    | Acquire(m: MigratorId)
    | ExecuteNext(m: MigratorId, fault: Option<Point>)
    | Release(m: MigratorId)

  function PlanOf<Db>(a: Action<Db>, history: map<Id, string>, leq: (Id, Id) -> bool): Result<seq<Migration<Db>>, Error>
    requires a.MakePlan?
  {
    if a.up then PlanUp(a.migrations, history, a.options, leq) else PlanDown(a.migrations, history, a.options, leq)
  }

  /** One step; None where it cannot be taken. */
  function Step<Db>(config: Config, leq: (Id, Id) -> bool, s: State<Db>, a: Action<Db>): Option<State<Db>> {
    match a
    case MakePlan(m, _, up, _) =>
      var plan := PlanOf(a, s.world.history, leq);
      if m in s.migrators || plan.Err? then None
      else Some(s.(migrators := s.migrators[m := Planned(plan.value, up, s.world.history.Keys)]))
    case Acquire(m) =>
      if m !in s.migrators || !s.migrators[m].Planned? then None
      else if s.locked then Some(s.(migrators := s.migrators - {m}))
      else
        var Planned(plan, up, seen) := s.migrators[m];
        Some(s.(locked := true, migrators := s.migrators[m := Holding(plan, up, seen, s.world, 0, false, 0)]))
    case ExecuteNext(m, fault) =>
      if m !in s.migrators || !s.migrators[m].Holding? || s.migrators[m].failed || s.migrators[m].next >= |s.migrators[m].plan|
      then None
      else
        var h := s.migrators[m];
        var attempt := AttemptOne(config, h.plan[h.next], h.up, s.world, fault);
        var left := if |attempt.world.log| >= |s.world.log| then |attempt.world.log| - |s.world.log| else 0;
        var h' := if attempt.failed.Some? then h.(failed := true, left := left) else h.(next := h.next + 1);
        Some(s.(world := attempt.world, migrators := s.migrators[m := h']))
    case Release(m) =>
      if m !in s.migrators || !s.migrators[m].Holding? || !(s.migrators[m].failed || s.migrators[m].next >= |s.migrators[m].plan|)
      then None
      else Some(s.(locked := false, migrators := s.migrators - {m}))
  }

  function Init<Db>(world: World<Db>): State<Db> {
    State(world, false, map[])
  }

  ghost function Run<Db>(config: Config, leq: (Id, Id) -> bool, world: World<Db>, actions: seq<Action<Db>>): Option<State<Db>> {
    if actions == [] then Some(Init(world))
    else
      match Run(config, leq, world, actions[..|actions| - 1])
      case None => None
      case Some(s) => Step(config, leq, s, actions[|actions| - 1])
  }

  // ----- What every run keeps ------------------------------------------------------------------

  /** A plan for `up` holds no applied id, one for `down` only applied ids: applied as the planner saw it. */
  ghost predicate PlanFits<Db>(plan: seq<Migration<Db>>, up: bool, seen: set<Id>) {
    forall i :: 0 <= i < |plan| ==> (plan[i].id in seen) != up
  }

  ghost predicate PhaseOk<Db>(config: Config, s: State<Db>, m: MigratorId)
    requires m in s.migrators
  {
    match s.migrators[m]
    case Planned(plan, up, seen) => PlanFits(plan, up, seen)
    case Holding(plan, up, seen, start, next, failed, left) =>
      && PlanFits(plan, up, seen) && next <= |plan| && s.locked
      && var whole := WholeAll(plan[..next], up, start);
      && whole.Some?
      && (!failed ==> s.world == whole.value && left == 0)
      && (failed ==> next < |plan| && s.world.log == whole.value.log + StepEvents(plan[next].id, up, left))
      && (config.insertOnly && up ==>
            start.history.Keys <= whole.value.history.Keys && forall i :: 0 <= i < next ==> plan[i].id !in start.history)
  }

  ghost predicate Inv<Db>(config: Config, s: State<Db>) {
    && (forall m :: m in s.migrators ==> PhaseOk(config, s, m))
    && (forall l, m :: l in s.migrators && m in s.migrators && s.migrators[l].Holding? && s.migrators[m].Holding? ==> l == m)
  }

  lemma {:induction false} AmongIs<Db>(ms: seq<Migration<Db>>, ids: set<Id>)
    ensures forall i :: 0 <= i < |Among(ms, ids)| ==> Among(ms, ids)[i].id in ids
    ensures forall i :: 0 <= i < |Missing(ms, ids)| ==> Missing(ms, ids)[i].id !in ids
  {
    if ms != [] {
      AmongIs(ms[1..], ids);
    }
  }

  lemma {:induction false} NewPlanFits<Db>(a: Action<Db>, history: map<Id, string>, leq: (Id, Id) -> bool)
    requires a.MakePlan? && PlanOf(a, history, leq).Ok?
    ensures PlanFits(PlanOf(a, history, leq).value, a.up, history.Keys)
  {
    if a.up {
      AmongIs(SortedById(a.migrations, leq), history.Keys);
    } else {
      DownPlanFits(a.migrations, history, a.options, leq);
    }
  }

  lemma {:induction false} DownPlanFits<Db>(ms: seq<Migration<Db>>, history: map<Id, string>, options: Options, leq: (Id, Id) -> bool)
    requires PlanDown(ms, history, options, leq).Ok?
    ensures PlanFits(PlanDown(ms, history, options, leq).value, false, history.Keys)
  {
    var applied := Among(SortedById(ms, leq), history.Keys);
    AmongIs(SortedById(ms, leq), history.Keys);
    RollbackIsPrefix(ms, history, options, leq);
    PrefixFits(PlanDown(ms, history, options, leq).value, applied, history.Keys);
  }

  lemma {:induction false} PrefixFits<Db>(plan: seq<Migration<Db>>, applied: seq<Migration<Db>>, ids: set<Id>)
    requires plan <= Reverse(applied) && forall i :: 0 <= i < |applied| ==> applied[i].id in ids
    ensures PlanFits(plan, false, ids)
  {
    forall i | 0 <= i < |plan| ensures plan[i].id in ids {
      assert plan[i] == Reverse(applied)[i] == applied[|applied| - 1 - i];
    }
  }

  lemma {:induction false} WholeSnoc<Db>(ms: seq<Migration<Db>>, last: Migration<Db>, up: bool, w: World<Db>)
    requires WholeAll(ms, up, w).Some?
    ensures WholeAll(ms + [last], up, w) == Whole(last, up, WholeAll(ms, up, w).value)
    decreases ms
  {
    if ms == [] {
      assert [last][1..] == [];
      assert [] + [last] == [last];
    } else {
      assert (ms + [last])[1..] == ms[1..] + [last];
      WholeSnoc(ms[1..], last, up, Whole(ms[0], up, w).value);
    }
  }

  /** One more migration of the holder's plan, done whole. */
  lemma {:induction false} HolderAdvances<Db>(config: Config, s: State<Db>, m: MigratorId, fault: Option<Point>)
    requires m in s.migrators && s.migrators[m].Holding? && PhaseOk(config, s, m)
    requires !s.migrators[m].failed && s.migrators[m].next < |s.migrators[m].plan|
    requires AttemptOne(config, s.migrators[m].plan[s.migrators[m].next], s.migrators[m].up, s.world, fault).failed == None
    ensures var h := s.migrators[m];
      var world := AttemptOne(config, h.plan[h.next], h.up, s.world, fault).world;
      && WholeAll(h.plan[..h.next + 1], h.up, h.start) == Some(world)
      && (config.insertOnly && h.up ==>
            s.world.history.Keys <= world.history.Keys && h.plan[h.next].id !in s.world.history)
  {
    var h := s.migrators[m];
    AttemptIsAllOrNothingIff(config, h.plan[h.next], h.up, s.world, fault);
    WholeSnoc(h.plan[..h.next], h.plan[h.next], h.up, h.start);
    assert h.plan[..h.next + 1] == h.plan[..h.next] + [h.plan[h.next]];
  }

  lemma {:induction false} ExecuteKeeps<Db>(config: Config, leq: (Id, Id) -> bool, s: State<Db>, m: MigratorId, fault: Option<Point>)
    requires Inv(config, s) && Step(config, leq, s, ExecuteNext(m, fault)).Some?
    ensures Inv(config, Step(config, leq, s, ExecuteNext(m, fault)).value)
  {
    var t := Step(config, leq, s, ExecuteNext(m, fault)).value;
    ExecuteKeepsHolder(config, leq, s, m, fault);
    forall l | l in t.migrators && l != m ensures PhaseOk(config, t, l) {
      assert PhaseOk(config, s, l);
      assert t.migrators[l] == s.migrators[l] && !s.migrators[l].Holding?;
    }
  }

  lemma {:induction false} ExecuteKeepsHolder<Db>(config: Config, leq: (Id, Id) -> bool, s: State<Db>, m: MigratorId, fault: Option<Point>)
    requires Inv(config, s) && Step(config, leq, s, ExecuteNext(m, fault)).Some?
    ensures var t := Step(config, leq, s, ExecuteNext(m, fault)).value; m in t.migrators && PhaseOk(config, t, m)
  {
    var h := s.migrators[m];
    assert PhaseOk(config, s, m);
    if AttemptOne(config, h.plan[h.next], h.up, s.world, fault).failed == None {
      HolderAdvances(config, s, m, fault);
    } else {
      AttemptLog(config, h.plan[h.next], h.up, s.world, fault);
    }
  }

  lemma {:induction false} StepKeeps<Db>(config: Config, leq: (Id, Id) -> bool, s: State<Db>, a: Action<Db>)
    requires Inv(config, s) && Step(config, leq, s, a).Some?
    ensures Inv(config, Step(config, leq, s, a).value)
  {
    if a.ExecuteNext? {
      ExecuteKeeps(config, leq, s, a.m, a.fault);
    } else {
      var t := Step(config, leq, s, a).value;
      if a.MakePlan? {
        NewPlanFits(a, s.world.history, leq);
      }
      forall l | l in t.migrators ensures PhaseOk(config, t, l) {
        assert l in s.migrators ==> PhaseOk(config, s, l);
        assert a.m in s.migrators ==> PhaseOk(config, s, a.m);
        if a.Acquire? && l == a.m {
          assert t.migrators[l].plan[..0] == [];
        }
      }
    }
  }

  lemma {:induction false} RunKeepsInv<Db>(config: Config, leq: (Id, Id) -> bool, world: World<Db>, actions: seq<Action<Db>>)
    requires Run(config, leq, world, actions).Some?
    ensures Inv(config, Run(config, leq, world, actions).value)
  {
    if actions != [] {
      var before := actions[..|actions| - 1];
      RunKeepsInv(config, leq, world, before);
      StepKeeps(config, leq, Run(config, leq, world, before).value, actions[|actions| - 1]);
    }
  }

  /** In every run a lock is given back only after a failure or after the whole plan, and is free then. */
  lemma {:induction false} ReleasedAfterThePlan<Db>(
    config: Config, leq: (Id, Id) -> bool, world: World<Db>, actions: seq<Action<Db>>, m: MigratorId)
    requires Run(config, leq, world, actions).Some?
    requires Step(config, leq, Run(config, leq, world, actions).value, Release(m)).Some?
    ensures var s := Run(config, leq, world, actions).value;
      && m in s.migrators && s.migrators[m].Holding? && s.locked
      && (!s.migrators[m].failed ==> WholeAll(s.migrators[m].plan, s.migrators[m].up, s.migrators[m].start) == Some(s.world))
      && !Step(config, leq, s, Release(m)).value.locked
  {
    RunKeepsInv(config, leq, world, actions);
    var s := Run(config, leq, world, actions).value;
    assert PhaseOk(config, s, m);
    assert s.migrators[m].plan[..|s.migrators[m].plan|] == s.migrators[m].plan;
  }

  // ----- When a stale plan repeats migrations ---------------------------------------------------------

  /** The world after the first i actions. */
  ghost function WorldAt<Db>(config: Config, leq: (Id, Id) -> bool, world: World<Db>, actions: seq<Action<Db>>, i: nat): World<Db>
    requires i <= |actions|
  {
    match Run(config, leq, world, actions[..i])
    case Some(s) => s.world
    case None => world
  }

  /** The plan of `m` was made by action p, and its lock taken by action a. */
  ghost predicate PlannedAt<Db>(config: Config, leq: (Id, Id) -> bool, world: World<Db>, actions: seq<Action<Db>>,
                                m: MigratorId, p: nat, seen: set<Id>) {
    p < |actions| && actions[p].MakePlan? && actions[p].m == m
    && WorldAt(config, leq, world, actions, p).history.Keys == seen
  }

  ghost predicate LockedAt<Db>(config: Config, leq: (Id, Id) -> bool, world: World<Db>, actions: seq<Action<Db>>,
                               m: MigratorId, a: nat, start: World<Db>) {
    a < |actions| && actions[a] == Acquire(m) && WorldAt(config, leq, world, actions, a) == start
  }

  /** What a phase remembers is what the run did. */
  lemma {:induction false} PhaseRemembers<Db>(config: Config, leq: (Id, Id) -> bool, world: World<Db>, actions: seq<Action<Db>>, m: MigratorId)
    returns (p: nat, a: nat)
    requires Run(config, leq, world, actions).Some? && m in Run(config, leq, world, actions).value.migrators
    ensures var phase := Run(config, leq, world, actions).value.migrators[m];
      && PlannedAt(config, leq, world, actions, m, p, phase.seen)
      && (phase.Holding? ==> p < a && LockedAt(config, leq, world, actions, m, a, phase.start))
    decreases |actions|
  {
    var last := |actions| - 1;
    var before := actions[..last];
    var s, e := Run(config, leq, world, before).value, actions[last];
    if e.MakePlan? && e.m == m {
      p, a := last, 0;
    } else {
      p, a := PhaseRemembers(config, leq, world, before, m);
      assert before[..p] == actions[..p];
      if e.Acquire? && e.m == m {
        a := last;
      } else if s.migrators[m].Holding? {
        assert before[..a] == actions[..a];
      }
    }
  }

  /** Migration number i of the plan has been executed, or has failed and left statements behind. */
  ghost predicate Touched<Db>(h: Phase<Db>, i: nat)
    requires h.Holding? && i < |h.plan|
  {
    (i < h.next && StepOf(h.plan[i], h.up) != []) || (h.failed && i == h.next && h.left > 0)
  }

  /**
   At any time while a migrator holds the lock, also after a failure, it has executed again what was
   applied when it took the lock (for `down`: what was no longer applied) exactly if it has executed
   statements of a migration of its plan whose id another one recorded (for `down`: removed) between
   its plan and its lock. With an insert-only history no such `up` migration gets its row.
   */
  lemma {:induction false} StaleRunRepeatsIff<Db>(
    config: Config, leq: (Id, Id) -> bool, world: World<Db>, actions: seq<Action<Db>>, m: MigratorId)
    returns (p: nat, a: nat)
    requires Run(config, leq, world, actions).Some? && m in Run(config, leq, world, actions).value.migrators
    requires Run(config, leq, world, actions).value.migrators[m].Holding?
    ensures var s := Run(config, leq, world, actions).value;
      var h := s.migrators[m];
      && p < a < |actions| && actions[p].MakePlan? && actions[p].m == m && actions[a] == Acquire(m)
      && var planned, start := WorldAt(config, leq, world, actions, p).history, WorldAt(config, leq, world, actions, a);
      && ((exists id :: (id in start.history) == h.up && Executed(s.world.log, |start.log|, id))
            <==> exists i :: 0 <= i < |h.plan| && Touched(h, i)
                   && (h.plan[i].id in planned) != h.up && (h.plan[i].id in start.history) == h.up)
      && (config.insertOnly && h.up ==> h.next <= |h.plan| && forall i :: 0 <= i < h.next ==> h.plan[i].id !in start.history)
  {
    p, a := PhaseRemembers(config, leq, world, actions, m);
    RunKeepsInv(config, leq, world, actions);
    var s := Run(config, leq, world, actions).value;
    var h := s.migrators[m];
    assert PhaseOk(config, s, m);
    forall id ensures Executed(s.world.log, |h.start.log|, id) <==> exists i :: 0 <= i < |h.plan| && Touched(h, i) && h.plan[i].id == id {
      HolderExecuted(config, s, m, id);
    }
    if i :| 0 <= i < |h.plan| && Touched(h, i) && (h.plan[i].id in h.start.history) == h.up {
      assert Executed(s.world.log, |h.start.log|, h.plan[i].id);
    }
  }

  lemma {:induction false} HolderExecuted<Db>(config: Config, s: State<Db>, m: MigratorId, id: Id)
    requires m in s.migrators && s.migrators[m].Holding? && PhaseOk(config, s, m)
    ensures var h := s.migrators[m];
      Executed(s.world.log, |h.start.log|, id) <==> exists i :: 0 <= i < |h.plan| && Touched(h, i) && h.plan[i].id == id
  {
    var h := s.migrators[m];
    var done := h.plan[..h.next];
    var whole := WholeAll(done, h.up, h.start).value;
    WholeRunExecutes(done, h.up, h.start, id);
    if h.failed {
      EventsExecuted(whole.log, h.plan[h.next].id, h.up, h.left, id);
      ExecutedSplit(h.start.log, whole.log, s.world.log, id);
    }
    if i :| 0 <= i < h.next && done[i].id == id && StepOf(done[i], h.up) != [] {
      assert Touched(h, i);
    }
    if h.failed && h.left > 0 {
      assert Touched(h, h.next);
    }
    if i :| 0 <= i < |h.plan| && Touched(h, i) && h.plan[i].id == id && i < h.next {
      assert done[i] == h.plan[i];
    }
  }

  /**
   Such a run exists: two migrators plan on one history, the first migrates and gives the lock back,
   and the second then takes the free lock and executes the same migration again.
   */
  lemma {:induction false} StaleRunSucceeds<Db>(config: Config, leq: (Id, Id) -> bool, migration: Migration<Db>, world: World<Db>)
    returns (actions: seq<Action<Db>>)
    requires !config.insertOnly && world.history == map[]
    requires Whole(migration, true, world).Some? && Whole(migration, true, Whole(migration, true, world).value).Some?
    ensures var twice := Whole(migration, true, Whole(migration, true, world).value).value;
      var after := Run(config, leq, world, actions);
      && after.Some? && after.value.world == twice
      && 1 in after.value.migrators
      && after.value.migrators[1] == Holding([migration], true, {}, Whole(migration, true, world).value, 1, false, 0)
  {
    var s;
    actions, s := BothPlan(config, leq, migration, world);
    actions, s := Migrates(config, leq, migration, world, actions, s, 0);
    s := OneMoreOf(config, leq, world, actions, Release(0), s);
    actions := actions + [Release(0)];
    actions, s := Migrates(config, leq, migration, world, actions, s, 1);
  }

  /** Two plans on one history. */
  lemma {:induction false} BothPlan<Db>(config: Config, leq: (Id, Id) -> bool, migration: Migration<Db>, world: World<Db>)
    returns (actions: seq<Action<Db>>, s: State<Db>)
    requires world.history == map[]
    ensures Run(config, leq, world, actions) == Some(s) && s.world == world && !s.locked
    ensures s.migrators == map[0 := Planned([migration], true, {}), 1 := Planned([migration], true, {})]
  {
    actions, s := Plans(config, leq, migration, world, [], Init(world), 0);
    actions, s := Plans(config, leq, migration, world, actions, s, 1);
  }

  lemma {:induction false} Plans<Db>(config: Config, leq: (Id, Id) -> bool, migration: Migration<Db>, world: World<Db>,
                                     before: seq<Action<Db>>, s0: State<Db>, m: MigratorId)
    returns (actions: seq<Action<Db>>, s: State<Db>)
    requires Run(config, leq, world, before) == Some(s0) && s0.world.history == map[] && m !in s0.migrators
    ensures Run(config, leq, world, actions) == Some(s)
    ensures s == s0.(migrators := s0.migrators[m := Planned([migration], true, {})])
  {
    var options := Options(None, None, false, false);
    var plan := MakePlan(m, [migration], true, options);
    PlanOfOne(migration, options, leq);
    assert s0.world.history.Keys == {};
    s := OneMoreOf(config, leq, world, before, plan, s0);
    actions := before + [plan];
  }

  /** A migrator that has planned one migration takes the free lock and carries it out. */
  lemma {:induction false} Migrates<Db>(config: Config, leq: (Id, Id) -> bool, migration: Migration<Db>, world: World<Db>,
                                        before: seq<Action<Db>>, s0: State<Db>, m: MigratorId)
    returns (actions: seq<Action<Db>>, s: State<Db>)
    requires !config.insertOnly && Run(config, leq, world, before) == Some(s0) && !s0.locked
    requires m in s0.migrators && s0.migrators[m] == Planned([migration], true, {}) && Whole(migration, true, s0.world).Some?
    ensures Run(config, leq, world, actions) == Some(s) && s.world == Whole(migration, true, s0.world).value
    ensures s.migrators == s0.migrators[m := Holding([migration], true, {}, s0.world, 1, false, 0)]
  {
    s := OneMoreOf(config, leq, world, before, Acquire(m), s0);
    NoFault(config, migration, s0.world);
    s := OneMoreOf(config, leq, world, before + [Acquire(m)], ExecuteNext(m, None), s);
    actions := before + [Acquire(m)] + [ExecuteNext(m, None)];
  }

  lemma {:induction false} OneMore<Db>(config: Config, leq: (Id, Id) -> bool, world: World<Db>, actions: seq<Action<Db>>,
                                       a: Action<Db>, s: State<Db>, t: State<Db>)
    requires Run(config, leq, world, actions) == Some(s) && Step(config, leq, s, a) == Some(t)
    ensures Run(config, leq, world, actions + [a]) == Some(t)
  {
    assert (actions + [a])[..|actions|] == actions;
  }

  lemma {:induction false} OneMoreOf<Db>(config: Config, leq: (Id, Id) -> bool, world: World<Db>, actions: seq<Action<Db>>,
                                         a: Action<Db>, s: State<Db>)
    returns (t: State<Db>)
    requires Run(config, leq, world, actions) == Some(s) && Step(config, leq, s, a).Some?
    ensures Step(config, leq, s, a) == Some(t) && Run(config, leq, world, actions + [a]) == Some(t)
  {
    t := Step(config, leq, s, a).value;
    OneMore(config, leq, world, actions, a, s, t);
  }

  lemma {:induction false} PlanOfOne<Db>(migration: Migration<Db>, options: Options, leq: (Id, Id) -> bool)
    requires options.steps == None
    ensures PlanUp([migration], map[], options, leq) == Ok([migration])
  {
    var ms := [migration];
    assert ms[1..] == [];
    assert Sorting.Sort(ms[1..], ById<Db>(leq)) == [];
    assert SortedById(ms, leq) == ms;
    assert Missing(ms, {}) == ms;
    var none: map<Id, string> := map[];
    assert none.Keys == {};
  }

  /** Without a fault, and where marking never fails, an attempt is the whole migration. */
  lemma {:induction false} NoFault<Db>(config: Config, migration: Migration<Db>, w: World<Db>)
    requires !config.insertOnly && Whole(migration, true, w).Some?
    ensures AttemptOne(config, migration, true, w, None) == Attempt(Whole(migration, true, w).value, None)
  {
    RunsThrough(migration, 0, w);
    assert StepOf(migration, true)[0..] == StepOf(migration, true);
    AttemptIsAllOrNothingIff(config, migration, true, w, None);
  }

  lemma {:induction false} RunsThrough<Db>(migration: Migration<Db>, i: nat, w: World<Db>)
    requires i <= |StepOf(migration, true)| && StepEffect(StepOf(migration, true)[i..], w.db).Some?
    ensures RunStep(migration, true, i, w, None).failed == None
    decreases |StepOf(migration, true)| - i
  {
    var step := StepOf(migration, true);
    if i < |step| {
      assert step[i..][0] == step[i] && step[i..][1..] == step[i + 1..];
      RunsThrough(migration, i + 1, World(step[i](w.db).value, w.history, w.log + [Event(migration.id, true, i)]));
    }
  }
}
