/**
 The migrator: plans, ordered up and down runs that may fail anywhere, the lock, and the driver's
 transactions. A migration step is a list of SQL statements; a statement maps the database to a
 new one or fails. What else may go wrong in one migration (begin, a lost statement, the history
 write, commit) is given by a fault.
 */
module Migrations {
  import Sorting

  datatype Option<T> = None | Some(value: T)

  datatype Result<T, E> = Ok(value: T) | Err(error: E)

  type Id = string

  type Step<!Db> = seq<Db -> Option<Db>>

  datatype Migration<!Db> = Migration(id: Id, checksum: string, up: Step<Db>, down: Option<Step<Db>>)

  /** A statement that has taken effect: of which migration and direction, and its place in the step. */
  datatype Event = Event(id: Id, up: bool, index: nat)

  datatype World<Db> = World(db: Db, history: map<Id, string>, log: seq<Event>)

  /**
   transactional: `useTransaction` and the driver has transactions.
   shared: the history store writes inside the driver's transaction (as the PostgreSQL store does).
   insertOnly: marking an applied id again fails (a primary-key insert) instead of overwriting.
   */
  datatype Config = Config(transactional: bool, shared: bool, insertOnly: bool, hasLock: bool)

  datatype Point = AtBegin | AtStatement(index: nat) | AtMark | AtCommit

  datatype Attempt<Db> = Attempt(world: World<Db>, failed: Option<Point>)

  datatype Run<Db> = Run(world: World<Db>, executed: nat, failed: Option<Point>)

  // ----- One migration --------------------------------------------------------------------------

  function StepOf<Db>(m: Migration<Db>, up: bool): Step<Db> {
    if up then m.up else if m.down.Some? then m.down.value else []
  }

  /** The statements from `i` on, up to the first that fails. */
  function RunStep<Db>(m: Migration<Db>, up: bool, i: nat, w: World<Db>, fault: Option<Point>): Attempt<Db>
    requires i <= |StepOf(m, up)|
    decreases |StepOf(m, up)| - i
  {
    var step := StepOf(m, up);
    if i == |step| then Attempt(w, None)
    else if fault == Some(AtStatement(i)) then Attempt(w, Some(AtStatement(i)))
    else
      match step[i](w.db)
      case None => Attempt(w, Some(AtStatement(i)))
      case Some(db) => RunStep(m, up, i + 1, World(db, w.history, w.log + [Event(m.id, up, i)]), fault)
  }

  /** `markApplied` and `unmarkApplied`; whether an id was there to remove is not looked at. */
  function NewHistory<Db>(config: Config, m: Migration<Db>, up: bool, history: map<Id, string>): Option<map<Id, string>> {
    if !up then Some(history - {m.id})
    else if config.insertOnly && m.id in history then None
    else Some(history[m.id := m.checksum])
  }

  function AttemptOne<Db>(config: Config, m: Migration<Db>, up: bool, w: World<Db>, fault: Option<Point>): Attempt<Db> {
    if config.transactional && fault == Some(AtBegin) then Attempt(w, fault)
    else
      var ran := RunStep(m, up, 0, w, fault);
      var undone := if config.transactional then w else ran.world;
      if ran.failed.Some? then Attempt(undone, ran.failed)
      else
        var history := NewHistory(config, m, up, w.history);
        if fault == Some(AtMark) || history == None then Attempt(undone, Some(AtMark))
        else if config.transactional && fault == Some(AtCommit) then
          Attempt(World(w.db, if config.shared then w.history else history.value, w.log), fault)
        else Attempt(ran.world.(history := history.value), None)
  }

  // ----- A run over a list of migrations ----------------------------------------------------------

  /** The migrations in order, up to the first that fails; `faults(i)` is what goes wrong in the i-th. */
  function RunAll<Db>(config: Config, ms: seq<Migration<Db>>, up: bool, w: World<Db>, faults: nat -> Option<Point>, i: nat)
    : Run<Db>
    requires i <= |ms|
    decreases |ms| - i
  {
    if i == |ms| then Run(w, i, None)
    else
      var attempt := AttemptOne(config, ms[i], up, w, faults(i));
      if attempt.failed.Some? then Run(attempt.world, i, attempt.failed)
      else RunAll(config, ms, up, attempt.world, faults, i + 1)
  }

  // ----- What a whole migration does ---------------------------------------------------------------

  function StepEffect<Db>(step: Step<Db>, db: Db): Option<Db> {
    if step == [] then Some(db)
    else
      match step[0](db)
      case None => None
      case Some(next) => StepEffect(step[1..], next)
  }

  function StepEvents(id: Id, up: bool, count: nat): seq<Event> {
    if count == 0 then [] else StepEvents(id, up, count - 1) + [Event(id, up, count - 1)]
  }

  /** All statements of the migration and its history row, or nothing. */
  function Whole<Db>(m: Migration<Db>, up: bool, w: World<Db>): Option<World<Db>> {
    match StepEffect(StepOf(m, up), w.db)
    case None => None
    case Some(db) =>
      Some(World(db, if up then w.history[m.id := m.checksum] else w.history - {m.id},
                 w.log + StepEvents(m.id, up, |StepOf(m, up)|)))
  }

  function WholeAll<Db>(ms: seq<Migration<Db>>, up: bool, w: World<Db>): Option<World<Db>> {
    if ms == [] then Some(w)
    else
      match Whole(ms[0], up, w)
      case None => None
      case Some(next) => WholeAll(ms[1..], up, next)
  }

  lemma {:induction false} RunStepIsWhole<Db>(m: Migration<Db>, up: bool, i: nat, w: World<Db>, fault: Option<Point>)
    requires i <= |StepOf(m, up)|
    ensures RunStep(m, up, i, w, fault).failed == None ==>
              var after := RunStep(m, up, i, w, fault).world;
              && StepEffect(StepOf(m, up)[i..], w.db) == Some(after.db)
              && after.history == w.history
              && w.log <= after.log
              && StepEvents(m.id, up, i) + after.log[|w.log|..] == StepEvents(m.id, up, |StepOf(m, up)|)
    ensures var r := RunStep(m, up, i, w, fault);
      r.failed.Some? ==>
        && r.failed.value.AtStatement?
        && i <= r.failed.value.index < |StepOf(m, up)|
        && |r.world.log| == |w.log| + r.failed.value.index - i
        && (r.failed.value.index == i ==> r.world == w)
    decreases |StepOf(m, up)| - i
  {
    var step := StepOf(m, up);
    if i < |step| && fault != Some(AtStatement(i)) && step[i](w.db).Some? {
      var next := World(step[i](w.db).value, w.history, w.log + [Event(m.id, up, i)]);
      RunStepIsWhole(m, up, i + 1, next, fault);
      assert step[i..][1..] == step[i + 1..];
      var r := RunStep(m, up, i, w, fault);
      if r.failed == None {
        var after := r.world;
        assert after.log[|w.log|..] == [Event(m.id, up, i)] + after.log[|next.log|..];
        assert StepEvents(m.id, up, i + 1) == StepEvents(m.id, up, i) + [Event(m.id, up, i)];
      }
    }
  }

  /**
   What one migration leaves behind. A success is the whole migration. A failure leaves nothing at
   all exactly when: the history shares the transaction; or there is a transaction and it was not
   the commit that failed after another store had taken the row; or, without a transaction, it
   failed before any statement had taken effect.
   */
  predicate LeavesNothing(config: Config, statements: nat, rowChanges: bool, point: Point) {
    if config.transactional then config.shared || point != AtCommit || !rowChanges
    else if point == AtMark then statements == 0
    else point == AtStatement(0)
  }

  lemma {:induction false} AttemptIsAllOrNothingIff<Db>(config: Config, m: Migration<Db>, up: bool, w: World<Db>, fault: Option<Point>)
    ensures var a := AttemptOne(config, m, up, w, fault);
      && (a.failed == None ==> Whole(m, up, w) == Some(a.world))
      && (a.failed.Some? ==>
            (a.world == w <==>
              LeavesNothing(config, |StepOf(m, up)|, NewHistory(config, m, up, w.history) != Some(w.history), a.failed.value)))
  {
    var a, ran := AttemptOne(config, m, up, w, fault), RunStep(m, up, 0, w, fault);
    if a.failed == None {
      CompletedStep(m, up, w, fault);
    } else if !config.transactional {
      if ran.failed == None {
        CompletedStep(m, up, w, fault);
      } else {
        BrokenStep(m, up, w, fault);
      }
    } else {
      TransactionLeaves(config, m, up, w, fault);
    }
  }

  /** A step of which every statement succeeded is the whole step. */
  lemma {:induction false} CompletedStep<Db>(m: Migration<Db>, up: bool, w: World<Db>, fault: Option<Point>)
    requires RunStep(m, up, 0, w, fault).failed == None
    ensures var after := RunStep(m, up, 0, w, fault).world;
      && StepEffect(StepOf(m, up), w.db) == Some(after.db)
      && after.history == w.history
      && after.log == w.log + StepEvents(m.id, up, |StepOf(m, up)|)
      && (after == w <==> |StepOf(m, up)| == 0)
  {
    RunStepIsWhole(m, up, 0, w, fault);
    var step, after := StepOf(m, up), RunStep(m, up, 0, w, fault).world;
    assert step[0..] == step;
    assert [] + after.log[|w.log|..] == after.log[|w.log|..];
    assert after.log == w.log + after.log[|w.log|..];
    EventCount(m.id, up, |step|);
  }

  /** A step that broke off has left something exactly when a statement had taken effect. */
  lemma {:induction false} BrokenStep<Db>(m: Migration<Db>, up: bool, w: World<Db>, fault: Option<Point>)
    requires RunStep(m, up, 0, w, fault).failed.Some?
    ensures var r := RunStep(m, up, 0, w, fault);
      r.failed.value.AtStatement? && (r.world == w <==> r.failed.value.index == 0)
  {
    RunStepIsWhole(m, up, 0, w, fault);
  }

  lemma {:induction false} TransactionLeaves<Db>(config: Config, m: Migration<Db>, up: bool, w: World<Db>, fault: Option<Point>)
    requires config.transactional && AttemptOne(config, m, up, w, fault).failed.Some?
    ensures var a := AttemptOne(config, m, up, w, fault);
      a.world == w <==>
        config.shared || a.failed.value != AtCommit || NewHistory(config, m, up, w.history) == Some(w.history)
  {
    var ran := RunStep(m, up, 0, w, fault);
    if ran.failed.Some? && fault != Some(AtBegin) {
      BrokenStep(m, up, w, fault);
    }
  }

  /** The log grows by the statements of the step, from the first on, as far as it got. */
  lemma {:induction false} RunStepLog<Db>(m: Migration<Db>, up: bool, i: nat, w: World<Db>, fault: Option<Point>) returns (k: nat)
    requires i <= |StepOf(m, up)|
    ensures var log := RunStep(m, up, i, w, fault).world.log;
      i <= k && w.log <= log && StepEvents(m.id, up, i) + log[|w.log|..] == StepEvents(m.id, up, k)
    decreases |StepOf(m, up)| - i
  {
    var step := StepOf(m, up);
    k := i;
    if i < |step| && fault != Some(AtStatement(i)) && step[i](w.db).Some? {
      var next := World(step[i](w.db).value, w.history, w.log + [Event(m.id, up, i)]);
      k := RunStepLog(m, up, i + 1, next, fault);
      var log := RunStep(m, up, i, w, fault).world.log;
      assert log[|w.log|..] == [Event(m.id, up, i)] + log[|next.log|..];
    } else {
      assert StepEvents(m.id, up, i) + w.log[|w.log|..] == StepEvents(m.id, up, i);
    }
  }

  lemma {:induction false} WholeStepLog<Db>(m: Migration<Db>, up: bool, w: World<Db>, fault: Option<Point>)
    ensures var log := RunStep(m, up, 0, w, fault).world.log;
      w.log <= log && log == w.log + StepEvents(m.id, up, |log| - |w.log|)
  {
    var k := RunStepLog(m, up, 0, w, fault);
    EventCount(m.id, up, k);
    var log := RunStep(m, up, 0, w, fault).world.log;
    assert [] + log[|w.log|..] == log[|w.log|..];
    assert log == w.log + log[|w.log|..];
  }

  /** So does a whole attempt, which may be rolled back. */
  lemma {:induction false} AttemptLog<Db>(config: Config, m: Migration<Db>, up: bool, w: World<Db>, fault: Option<Point>)
    ensures var log := AttemptOne(config, m, up, w, fault).world.log;
      w.log <= log && log == w.log + StepEvents(m.id, up, |log| - |w.log|)
  {
    var log := AttemptOne(config, m, up, w, fault).world.log;
    if log == RunStep(m, up, 0, w, fault).world.log {
      WholeStepLog(m, up, w, fault);
    } else {
      assert log == w.log;
      assert StepEvents(m.id, up, 0) == [] && w.log + [] == w.log;
    }
  }

  lemma {:induction false} EventCount(id: Id, up: bool, count: nat)
    ensures |StepEvents(id, up, count)| == count
  {
    if count > 0 {
      EventCount(id, up, count - 1);
    }
  }

  /**
   With the history in the driver's transaction, any run, whatever fails, leaves exactly the first
   `executed` migrations, each whole and with its history row, and nothing of the others.
   */
  lemma {:induction false} RunIsWholeMigrations<Db>(
    config: Config, ms: seq<Migration<Db>>, up: bool, w: World<Db>, faults: nat -> Option<Point>, i: nat)
    requires config.transactional && config.shared && i <= |ms|
    ensures var run := RunAll(config, ms, up, w, faults, i);
      && i <= run.executed <= |ms|
      && (run.failed == None <==> run.executed == |ms|)
      && WholeAll(ms[i..run.executed], up, w) == Some(run.world)
    decreases |ms| - i
  {
    var run := RunAll(config, ms, up, w, faults, i);
    if i == |ms| {
      assert ms[i..i] == [];
    } else {
      AttemptIsAllOrNothingIff(config, ms[i], up, w, faults(i));
      var attempt := AttemptOne(config, ms[i], up, w, faults(i));
      if attempt.failed.Some? {
        assert ms[i..i] == [];
      } else {
        RunIsWholeMigrations(config, ms, up, attempt.world, faults, i + 1);
        var executed := ms[i..run.executed];
        assert executed[0] == ms[i] && executed[1..] == ms[i + 1..run.executed];
      }
    }
  }

  /** Without a fault an attempt succeeds exactly if every statement does and no row is in the way. */
  lemma {:induction false} FaultlessAttemptIff<Db>(config: Config, m: Migration<Db>, up: bool, w: World<Db>)
    ensures var a := AttemptOne(config, m, up, w, None);
      && (a.failed == None <==> Whole(m, up, w).Some? && !(up && config.insertOnly && m.id in w.history))
      && (a.failed == None ==> Whole(m, up, w) == Some(a.world))
  {
    AttemptIsAllOrNothingIff(config, m, up, w, None);
    var ran := RunStep(m, up, 0, w, None);
    if ran.failed == None {
      CompletedStep(m, up, w, None);
    } else {
      FaultlessStep(m, up, 0, w);
    }
    assert StepOf(m, up)[0..] == StepOf(m, up);
  }

  lemma {:induction false} FaultlessStep<Db>(m: Migration<Db>, up: bool, i: nat, w: World<Db>)
    requires i <= |StepOf(m, up)|
    ensures RunStep(m, up, i, w, None).failed == None <==> StepEffect(StepOf(m, up)[i..], w.db).Some?
    decreases |StepOf(m, up)| - i
  {
    var step := StepOf(m, up);
    if i < |step| && step[i](w.db).Some? {
      FaultlessStep(m, up, i + 1, World(step[i](w.db).value, w.history, w.log + [Event(m.id, up, i)]));
      assert step[i..][1..] == step[i + 1..];
    }
  }

  /** Without faults a list of pending migrations is carried out exactly if every statement of it succeeds. */
  lemma {:induction false} FaultlessRunIff<Db>(
    config: Config, ms: seq<Migration<Db>>, up: bool, w: World<Db>, faults: nat -> Option<Point>, i: nat)
    requires i <= |ms| && (up ==> DistinctIds(ms) && forall j :: i <= j < |ms| ==> ms[j].id !in w.history)
    requires forall n :: faults(n) == None
    ensures var run, whole := RunAll(config, ms, up, w, faults, i), WholeAll(ms[i..], up, w);
      && (run.failed == None <==> whole.Some?)
      && (run.failed == None ==> whole == Some(run.world) && run.executed == |ms|)
    decreases |ms| - i
  {
    if i < |ms| {
      FaultlessAttemptIff(config, ms[i], up, w);
      var attempt := AttemptOne(config, ms[i], up, w, faults(i));
      if attempt.failed == None {
        FaultlessRunIff(config, ms, up, attempt.world, faults, i + 1);
      }
      assert ms[i..][1..] == ms[i + 1..];
    }
  }

  // ----- Plans ---------------------------------------------------------------------------------

  datatype Error = InvalidSteps | DuplicateId | ChecksumMismatch | TargetNotApplied | NoDownStep | LockFailed | StepFailed(at: Point)

  predicate DistinctIds<Db>(ms: seq<Migration<Db>>) {
    forall i, j :: 0 <= i < j < |ms| ==> ms[i].id != ms[j].id
  }

  function ById<Db>(leq: (Id, Id) -> bool): (Migration<Db>, Migration<Db>) -> bool {
    (a: Migration<Db>, b: Migration<Db>) => leq(a.id, b.id)
  }

  /** `sortMigrations`, for the order of ids `leq`. */
  function SortedById<Db>(ms: seq<Migration<Db>>, leq: (Id, Id) -> bool): seq<Migration<Db>> {
    Sorting.Sort(ms, ById(leq))
  }

  function Among<Db>(ms: seq<Migration<Db>>, ids: set<Id>): seq<Migration<Db>> {
    if ms == [] then [] else (if ms[0].id in ids then [ms[0]] else []) + Among(ms[1..], ids)
  }

  function Missing<Db>(ms: seq<Migration<Db>>, ids: set<Id>): seq<Migration<Db>> {
    if ms == [] then [] else (if ms[0].id in ids then [] else [ms[0]]) + Missing(ms[1..], ids)
  }

  predicate Mismatched<Db>(ms: seq<Migration<Db>>, history: map<Id, string>) {
    exists i :: 0 <= i < |ms| && ms[i].id in history && history[ms[i].id] != ms[i].checksum
  }

  function Take<T>(xs: seq<T>, steps: Option<int>): seq<T>
    requires steps.Some? ==> steps.value >= 0
  {
    if steps.Some? && steps.value < |xs| then xs[..steps.value] else xs
  }

  function Reverse<T>(xs: seq<T>): (r: seq<T>)
    ensures |r| == |xs| && forall i :: 0 <= i < |xs| ==> r[i] == xs[|xs| - 1 - i]
  {
    if xs == [] then [] else Reverse(xs[1..]) + [xs[0]]
  }

  datatype Options = Options(steps: Option<int>, to: Option<Id>, allowDirty: bool, dryRun: bool)

  /** What `up` will run. */
  function PlanUp<Db>(ms: seq<Migration<Db>>, history: map<Id, string>, options: Options, leq: (Id, Id) -> bool)
    : Result<seq<Migration<Db>>, Error>
  {
    if options.steps.Some? && options.steps.value <= 0 then Err(InvalidSteps)
    else if !DistinctIds(ms) then Err(DuplicateId)
    else if Mismatched(ms, history) && !options.allowDirty then Err(ChecksumMismatch)
    else Ok(Take(Missing(SortedById(ms, leq), history.Keys), options.steps))
  }

  /** `selectRollbackMigrations`: back to the target, which is rolled back too. */
  function CutAt<Db>(ms: seq<Migration<Db>>, to: Id): Option<seq<Migration<Db>>> {
    if ms == [] then None
    else if ms[0].id == to then Some([ms[0]])
    else
      match CutAt(ms[1..], to)
      case None => None
      case Some(rest) => Some([ms[0]] + rest)
  }

  predicate LacksDown<Db>(ms: seq<Migration<Db>>) {
    exists i :: 0 <= i < |ms| && ms[i].down.None?
  }

  /** What `down` will run. */
  function PlanDown<Db>(ms: seq<Migration<Db>>, history: map<Id, string>, options: Options, leq: (Id, Id) -> bool)
    : Result<seq<Migration<Db>>, Error>
  {
    if options.steps.Some? && options.steps.value <= 0 then Err(InvalidSteps)
    else
      var newestFirst := Take(Reverse(Among(SortedById(ms, leq), history.Keys)), options.steps);
      var chosen := if options.to.Some? then CutAt(newestFirst, options.to.value) else Some(newestFirst);
      if chosen == None then Err(TargetNotApplied)
      else if !DistinctIds(ms) then Err(DuplicateId)
      else if Mismatched(ms, history) && !options.allowDirty then Err(ChecksumMismatch)
      else if LacksDown(chosen.value) then Err(NoDownStep)
      else Ok(chosen.value)
  }

  // ----- When there is a plan ----------------------------------------------------------------------

  /** No two listed migrations share an id, and (unless that is allowed) no applied one has another checksum. */
  ghost predicate CleanList<Db>(ms: seq<Migration<Db>>, history: map<Id, string>, options: Options) {
    && (forall i, j :: 0 <= i < |ms| && 0 <= j < |ms| && ms[i].id == ms[j].id ==> i == j)
    && (options.allowDirty || forall m :: m in ms && m.id in history ==> history[m.id] == m.checksum)
  }

  /** `up` has a plan exactly for positive steps and a clean list. */
  lemma {:induction false} UpPlanIff<Db(!new)>(ms: seq<Migration<Db>>, history: map<Id, string>, options: Options, leq: (Id, Id) -> bool)
    ensures PlanUp(ms, history, options, leq).Ok? <==>
      !(options.steps.Some? && options.steps.value < 1) && CleanList(ms, history, options)
    ensures PlanUp(ms, history, options, leq) == Err(InvalidSteps) <==> options.steps.Some? && options.steps.value < 1
  {
    CleanIff(ms, history, options);
  }

  lemma {:induction false} MismatchedIff<Db(!new)>(ms: seq<Migration<Db>>, history: map<Id, string>)
    ensures Mismatched(ms, history) <==> exists m :: m in ms && m.id in history && history[m.id] != m.checksum
  {
    if m :| m in ms && m.id in history && history[m.id] != m.checksum {
      var i :| 0 <= i < |ms| && ms[i] == m;
    }
  }

  /**
   `down` has a plan only for positive steps, a clean list, a target that is among the applied migrations, and
   down steps for all it selects; without a target these suffice, with one and no steps they do too.
   */
  lemma {:induction false} DownPlanIff<Db(!new)>(ms: seq<Migration<Db>>, history: map<Id, string>, options: Options, leq: (Id, Id) -> bool)
    requires Sorting.TotalPreorder(leq)
    ensures var plan := PlanDown(ms, history, options, leq);
      && (plan == Err(InvalidSteps) <==> options.steps.Some? && options.steps.value < 1)
      && (plan.Ok? ==> CleanList(ms, history, options))
      && (!(options.steps.Some? && options.steps.value < 1) && CleanList(ms, history, options)
            && (forall m :: m in ms && m.id in history ==> m.down.Some?)
            && (options.to.Some? ==> options.steps == None && exists m :: m in ms && m.id in history && m.id == options.to.value)
          ==> plan.Ok?)
      && (plan == Err(TargetNotApplied) && options.steps == None ==>
            options.to.Some? && forall m :: m in ms && m.id in history ==> m.id != options.to.value)
  {
    CleanIff(ms, history, options);
    if !(options.steps.Some? && options.steps.value < 1) {
      var applied := Reverse(Among(SortedById(ms, leq), history.Keys));
      NewestFirstIs(ms, history.Keys, leq);
      SelectsIff(applied, options);
    }
  }

  lemma {:induction false} CleanIff<Db(!new)>(ms: seq<Migration<Db>>, history: map<Id, string>, options: Options)
    ensures CleanList(ms, history, options) <==> DistinctIds(ms) && (options.allowDirty || !Mismatched(ms, history))
  {
    MismatchedIff(ms, history);
  }

  /** There is a choice unless the target is missing; without `steps`, unless it is not applied at all. */
  lemma {:induction false} SelectsIff<Db(!new)>(applied: seq<Migration<Db>>, options: Options)
    requires options.steps.Some? ==> options.steps.value > 0
    ensures var taken := Take(applied, options.steps);
      var chosen := if options.to.Some? then CutAt(taken, options.to.value) else Some(taken);
      && (options.to == None ==> chosen.Some?)
      && (options.to.Some? && options.steps == None ==> (chosen.Some? <==> exists m :: m in applied && m.id == options.to.value))
      && (chosen.Some? && LacksDown(chosen.value) ==> exists m :: m in applied && m.down.None?)
  {
    var taken := Take(applied, options.steps);
    assert taken <= applied;
    if options.to.Some? {
      CutIff(taken, options.to.value);
    }
    var chosen := if options.to.Some? then CutAt(taken, options.to.value) else Some(taken);
    if chosen.Some? && LacksDown(chosen.value) {
      var i :| 0 <= i < |chosen.value| && chosen.value[i].down.None?;
      assert chosen.value[i] == applied[i];
    }
  }

  lemma {:induction false} CutIff<Db(!new)>(ms: seq<Migration<Db>>, to: Id)
    ensures CutAt(ms, to).Some? <==> exists m :: m in ms && m.id == to
    ensures CutAt(ms, to).Some? ==> CutAt(ms, to).value <= ms
  {
    if ms != [] {
      CutIff(ms[1..], to);
      assert ms == [ms[0]] + ms[1..];
    }
  }

  // ----- The order of plans and runs --------------------------------------------------------------

  /** Every two of the migrations, in the order of the list, are related so. */
  ghost predicate Ordered<Db>(ms: seq<Migration<Db>>, related: (Id, Id) -> bool) {
    forall i, j :: 0 <= i < j < |ms| ==> related(ms[i].id, ms[j].id)
  }

  lemma {:induction false} PartsKeepOrder<Db(!new)>(ms: seq<Migration<Db>>, ids: set<Id>, related: (Id, Id) -> bool)
    requires Ordered(ms, related)
    ensures Ordered(Among(ms, ids), related) && Ordered(Missing(ms, ids), related)
    ensures forall m :: m in Among(ms, ids) <==> m in ms && m.id in ids
    ensures forall m :: m in Missing(ms, ids) <==> m in ms && m.id !in ids
  {
    if ms != [] {
      var rest := ms[1..];
      PartsKeepOrder(rest, ids, related);
      assert ms == [ms[0]] + rest;
      forall m | m in rest ensures related(ms[0].id, m.id) {
        var i :| 0 <= i < |rest| && rest[i] == m;
        assert ms[i + 1] == m;
      }
    }
  }

  lemma {:induction false} ByIdIsTotal<Db(!new)>(leq: (Id, Id) -> bool)
    requires Sorting.TotalPreorder(leq)
    ensures Sorting.TotalPreorder(ById<Db>(leq))
  {
    var order := ById<Db>(leq);
    forall a: Migration<Db>, b: Migration<Db> ensures order(a, b) || order(b, a) {
      assert leq(a.id, b.id) || leq(b.id, a.id);
    }
    forall a: Migration<Db>, b: Migration<Db>, c: Migration<Db> | order(a, b) && order(b, c) ensures order(a, c) {
      assert leq(a.id, b.id) && leq(b.id, c.id);
    }
  }

  lemma {:induction false} SortedIsOrdered<Db(!new)>(ms: seq<Migration<Db>>, leq: (Id, Id) -> bool)
    requires Sorting.TotalPreorder(leq)
    ensures Ordered(SortedById(ms, leq), leq)
    ensures forall m :: m in SortedById(ms, leq) <==> m in ms
  {
    ByIdIsTotal<Db>(leq);
    Sorting.SortSorts(ms, ById<Db>(leq));
    Sorting.SortKeepsItems(ms, ById<Db>(leq));
    forall m ensures m in SortedById(ms, leq) <==> m in ms {
      Sorting.SameItems(SortedById(ms, leq), ms, m);
    }
  }

  /**
   What `up` plans, for any total preorder of ids: pending migrations of the list, oldest id first, at
   most `steps` of them; one that is left out comes after all of them, and only `steps` can leave it out.
   */
  lemma {:induction false} PlanUpIs<Db(!new)>(ms: seq<Migration<Db>>, history: map<Id, string>, options: Options, leq: (Id, Id) -> bool)
    requires Sorting.TotalPreorder(leq) && PlanUp(ms, history, options, leq).Ok?
    ensures var plan := PlanUp(ms, history, options, leq).value;
      && (forall i, j :: 0 <= i < j < |plan| ==> leq(plan[i].id, plan[j].id))
      && (forall m :: m in plan ==> m in ms && m.id !in history)
      && (forall m :: m in ms && m.id !in history && m !in plan ==>
            options.steps == Some(|plan|) && forall i :: 0 <= i < |plan| ==> leq(plan[i].id, m.id))
      && (options.steps.Some? ==> |plan| <= options.steps.value)
  {
    SortedIsOrdered(ms, leq);
    PartsKeepOrder(SortedById(ms, leq), history.Keys, leq);
    TakeOrdered(Missing(SortedById(ms, leq), history.Keys), options.steps, leq);
  }

  lemma {:induction false} TakeOrdered<Db(!new)>(ms: seq<Migration<Db>>, steps: Option<int>, related: (Id, Id) -> bool)
    requires Ordered(ms, related) && (steps.Some? ==> steps.value >= 0)
    ensures var taken := Take(ms, steps);
      && Ordered(taken, related)
      && (forall m :: m in taken ==> m in ms)
      && (forall m :: m in ms && m !in taken ==>
            steps == Some(|taken|) && forall i :: 0 <= i < |taken| ==> related(taken[i].id, m.id))
      && (steps.Some? ==> |taken| <= steps.value)
  {
    var taken := Take(ms, steps);
    assert forall j :: 0 <= j < |taken| ==> ms[j] in taken;
    forall m | m in ms && m !in taken
      ensures steps == Some(|taken|) && forall i :: 0 <= i < |taken| ==> related(taken[i].id, m.id)
    {
      var k :| 0 <= k < |ms| && ms[k] == m;
    }
  }

  lemma {:induction false} ReverseOrdered<Db(!new)>(ms: seq<Migration<Db>>, related: (Id, Id) -> bool)
    requires Ordered(ms, related)
    ensures Ordered(Reverse(ms), (a: Id, b: Id) => related(b, a))
    ensures forall m :: m in Reverse(ms) <==> m in ms
  {
    forall m | m in ms ensures m in Reverse(ms) {
      var i :| 0 <= i < |ms| && ms[i] == m;
      assert Reverse(ms)[|ms| - 1 - i] == m;
    }
  }

  /**
   What `down` plans: applied migrations of the list, newest id first, at most `steps` of them; without a
   target only `steps` can leave an older one out, with a target the plan ends there.
   */
  lemma {:induction false} PlanDownIs<Db(!new)>(ms: seq<Migration<Db>>, history: map<Id, string>, options: Options, leq: (Id, Id) -> bool)
    requires Sorting.TotalPreorder(leq) && PlanDown(ms, history, options, leq).Ok?
    ensures var plan := PlanDown(ms, history, options, leq).value;
      && (forall i, j :: 0 <= i < j < |plan| ==> leq(plan[j].id, plan[i].id))
      && (forall m :: m in plan ==> m in ms && m.id in history && m.down.Some?)
      && (forall m :: m in ms && m.id in history && m !in plan ==> forall i :: 0 <= i < |plan| ==> leq(m.id, plan[i].id))
      && (forall m :: m in ms && m.id in history && m !in plan && options.to == None ==> options.steps == Some(|plan|))
      && (options.to.Some? ==> plan != [] && plan[|plan| - 1].id == options.to.value)
      && (options.steps.Some? ==> |plan| <= options.steps.value)
  {
    var plan := PlanDown(ms, history, options, leq).value;
    var newestFirst := Reverse(Among(SortedById(ms, leq), history.Keys));
    NewestFirstIs(ms, history.Keys, leq);
    DownSelects(newestFirst, options, plan, (a: Id, b: Id) => leq(b, a));
    PlannedHaveDown(ms, history, options, leq);
  }

  lemma {:induction false} PlannedHaveDown<Db>(ms: seq<Migration<Db>>, history: map<Id, string>, options: Options, leq: (Id, Id) -> bool)
    requires PlanDown(ms, history, options, leq).Ok?
    ensures forall m :: m in PlanDown(ms, history, options, leq).value ==> m.down.Some?
  {
    assert !LacksDown(PlanDown(ms, history, options, leq).value);
  }

  lemma {:induction false} NewestFirstIs<Db(!new)>(ms: seq<Migration<Db>>, ids: set<Id>, leq: (Id, Id) -> bool)
    requires Sorting.TotalPreorder(leq)
    ensures var newestFirst := Reverse(Among(SortedById(ms, leq), ids));
      && Ordered(newestFirst, (a: Id, b: Id) => leq(b, a))
      && forall m :: m in newestFirst <==> m in ms && m.id in ids
  {
    SortedIsOrdered(ms, leq);
    PartsKeepOrder(SortedById(ms, leq), ids, leq);
    ReverseOrdered(Among(SortedById(ms, leq), ids), leq);
  }

  lemma {:induction false} DownSelects<Db(!new)>(all: seq<Migration<Db>>, options: Options, plan: seq<Migration<Db>>, related: (Id, Id) -> bool)
    requires Ordered(all, related) && (options.steps.Some? ==> options.steps.value > 0)
    requires var taken := Take(all, options.steps);
      if options.to.Some? then CutAt(taken, options.to.value) == Some(plan) else plan == taken
    ensures Ordered(plan, related) && plan <= all
    ensures forall m :: m in plan ==> m in all
    ensures forall m :: m in all && m !in plan ==> forall i :: 0 <= i < |plan| ==> related(plan[i].id, m.id)
    ensures forall m :: m in all && m !in plan && options.to == None ==> options.steps == Some(|plan|)
    ensures options.to.Some? ==> plan != [] && plan[|plan| - 1].id == options.to.value
    ensures options.steps.Some? ==> |plan| <= options.steps.value
  {
    var taken := Take(all, options.steps);
    TakeOrdered(all, options.steps, related);
    assert taken <= all;
    if options.to.Some? {
      CutOrdered(taken, options.to.value, related);
      PrefixSelects(all, taken, plan, related);
    }
  }

  lemma {:induction false} PrefixSelects<Db(!new)>(all: seq<Migration<Db>>, some: seq<Migration<Db>>, plan: seq<Migration<Db>>,
                                                  related: (Id, Id) -> bool)
    requires Ordered(all, related) && plan <= some <= all
    ensures forall m :: m in plan ==> m in all
    ensures forall m :: m in all && m !in plan ==> forall i :: 0 <= i < |plan| ==> related(plan[i].id, m.id)
  {
    forall m | m in all && m !in plan ensures forall i :: 0 <= i < |plan| ==> related(plan[i].id, m.id) {
      LeftOut(all, some, plan, m, related);
    }
  }

  /** What a prefix of a prefix of an ordered list leaves out comes after it. */
  lemma {:induction false} LeftOut<Db(!new)>(all: seq<Migration<Db>>, some: seq<Migration<Db>>, plan: seq<Migration<Db>>, m: Migration<Db>,
                                       related: (Id, Id) -> bool)
    requires Ordered(all, related) && plan <= some <= all && m in all && m !in plan
    ensures forall i :: 0 <= i < |plan| ==> related(plan[i].id, m.id)
  {
    assert forall j :: 0 <= j < |plan| ==> all[j] in plan;
    var k :| 0 <= k < |all| && all[k] == m;
    forall i | 0 <= i < |plan| ensures related(plan[i].id, m.id) {
      assert plan[i] == all[i];
    }
  }

  lemma {:induction false} CutOrdered<Db(!new)>(ms: seq<Migration<Db>>, to: Id, related: (Id, Id) -> bool)
    requires Ordered(ms, related) && CutAt(ms, to).Some?
    ensures var cut := CutAt(ms, to).value;
      cut <= ms && cut != [] && cut[|cut| - 1].id == to && Ordered(cut, related)
  {
    if ms[0].id != to {
      CutOrdered(ms[1..], to, related);
    }
  }

  /** The statements logged since `from`, pairwise in the order they were executed. */
  ghost predicate LogOrdered(log: seq<Event>, from: nat, up: bool, related: (Id, Id) -> bool) {
    && (forall a :: from <= a < |log| ==> log[a].up == up)
    && (forall a, b :: from <= a < b < |log| ==>
          related(log[a].id, log[b].id) || (log[a].id == log[b].id && log[a].index < log[b].index))
  }

  lemma {:induction false} EventAt(id: Id, up: bool, count: nat, i: nat)
    requires i < count
    ensures |StepEvents(id, up, count)| == count && StepEvents(id, up, count)[i] == Event(id, up, i)
  {
    EventCount(id, up, count);
    EventCount(id, up, count - 1);
    if i < count - 1 {
      EventAt(id, up, count - 1, i);
    }
  }

  lemma {:induction false} RunLogFollows<Db>(config: Config, ms: seq<Migration<Db>>, up: bool, w: World<Db>,
                                             faults: nat -> Option<Point>, i: nat, related: (Id, Id) -> bool)
    requires i <= |ms| && Ordered(ms, related)
    ensures var log := RunAll(config, ms, up, w, faults, i).world.log;
      && w.log <= log && LogOrdered(log, |w.log|, up, related)
      && forall a :: |w.log| <= a < |log| ==> exists k :: i <= k < |ms| && log[a].id == ms[k].id
    decreases |ms| - i
  {
    if i < |ms| {
      var attempt := AttemptOne(config, ms[i], up, w, faults(i));
      AttemptEvents(config, ms[i], up, w, faults(i));
      if attempt.failed == None {
        RunLogFollows(config, ms, up, attempt.world, faults, i + 1, related);
      }
    }
  }

  lemma {:induction false} AttemptEvents<Db>(config: Config, m: Migration<Db>, up: bool, w: World<Db>, fault: Option<Point>)
    ensures var log := AttemptOne(config, m, up, w, fault).world.log;
      w.log <= log && forall a :: |w.log| <= a < |log| ==> log[a] == Event(m.id, up, a - |w.log|)
  {
    AttemptLog(config, m, up, w, fault);
    var log := AttemptOne(config, m, up, w, fault).world.log;
    forall a | |w.log| <= a < |log| ensures log[a] == Event(m.id, up, a - |w.log|) {
      EventAt(m.id, up, |log| - |w.log|, a - |w.log|);
    }
  }

  /** Whatever fails, a run executes statements in the order of ids: upwards for `up`, downwards for `down`. */
  lemma {:induction false} MigrateFollowsIds<Db(!new)>(config: Config, ms: seq<Migration<Db>>, up: bool, w: World<Db>, locked: bool,
                                                 options: Options, leq: (Id, Id) -> bool, faults: nat -> Option<Point>)
    requires Sorting.TotalPreorder(leq)
    ensures var log := Migrate(config, ms, up, w, locked, options, leq, faults).0.log;
      && w.log <= log
      && LogOrdered(log, |w.log|, up, if up then leq else (a: Id, b: Id) => leq(b, a))
      && forall a :: |w.log| <= a < |log| ==> (log[a].id in w.history) != up
  {
    if up && PlanUp(ms, w.history, options, leq).Ok? {
      PlanUpIs(ms, w.history, options, leq);
      RunLogFollows(config, PlanUp(ms, w.history, options, leq).value, up, w, faults, 0, leq);
    } else if !up && PlanDown(ms, w.history, options, leq).Ok? {
      PlanDownIs(ms, w.history, options, leq);
      RunLogFollows(config, PlanDown(ms, w.history, options, leq).value, up, w, faults, 0, (a: Id, b: Id) => leq(b, a));
    }
  }

  // ----- One call --------------------------------------------------------------------------------------

  /** A plan carried out: dry run, lock, run. */
  function Perform<Db>(config: Config, plan: Result<seq<Migration<Db>>, Error>, up: bool, w: World<Db>, locked: bool,
                       dryRun: bool, faults: nat -> Option<Point>)
    : (World<Db>, Result<nat, Error>)
  {
    match plan
    case Err(error) => (w, Err(error))
    case Ok(ms) =>
      if dryRun then (w, Ok(0))
      else if config.hasLock && locked then (w, Err(LockFailed))
      else
        var run := RunAll(config, ms, up, w, faults, 0);
        (run.world, if run.failed.Some? then Err(StepFailed(run.failed.value)) else Ok(run.executed))
  }

  /** `up` and `down` as one call: plan, lock, run. The lock is free again afterwards. */
  function Migrate<Db>(config: Config, ms: seq<Migration<Db>>, up: bool, w: World<Db>, locked: bool,
                       options: Options, leq: (Id, Id) -> bool, faults: nat -> Option<Point>)
    : (World<Db>, Result<nat, Error>)
  {
    var plan := if up then PlanUp(ms, w.history, options, leq) else PlanDown(ms, w.history, options, leq);
    Perform(config, plan, up, w, locked, options.dryRun, faults)
  }

  /** Without faults a call succeeds exactly with a plan, a free lock and statements that all succeed, and does all of it. */
  lemma {:induction false} FaultlessMigrateIff<Db(!new)>(config: Config, ms: seq<Migration<Db>>, up: bool, w: World<Db>, locked: bool,
                                                   options: Options, leq: (Id, Id) -> bool, faults: nat -> Option<Point>)
    requires forall n :: faults(n) == None
    ensures var plan := if up then PlanUp(ms, w.history, options, leq) else PlanDown(ms, w.history, options, leq);
      var (after, result) := Migrate(config, ms, up, w, locked, options, leq, faults);
      && (result.Ok? <==>
            plan.Ok? && (options.dryRun || (!(config.hasLock && locked) && WholeAll(plan.value, up, w).Some?)))
      && (result.Ok? && !options.dryRun ==> WholeAll(plan.value, up, w) == Some(after) && result.value == |plan.value|)
      && (options.dryRun ==> after == w)
  {
    var plan := if up then PlanUp(ms, w.history, options, leq) else PlanDown(ms, w.history, options, leq);
    if plan.Ok? {
      if up {
        UpPlanIsPending(ms, w.history, options, leq);
      }
      FaultlessRunIff(config, plan.value, up, w, faults, 0);
      assert plan.value[0..] == plan.value;
    }
  }

  lemma {:induction false} UpPlanIsPending<Db(!new)>(ms: seq<Migration<Db>>, history: map<Id, string>, options: Options, leq: (Id, Id) -> bool)
    requires PlanUp(ms, history, options, leq).Ok?
    ensures var plan := PlanUp(ms, history, options, leq).value;
      DistinctIds(plan) && forall i :: 0 <= i < |plan| ==> plan[i].id !in history
  {
    var apart := (a: Id, b: Id) => a != b;
    var sorted := SortedById(ms, leq);
    SortedIdsStayDistinct(ms, leq);
    PartsKeepOrder(sorted, history.Keys, apart);
    var pending := Missing(sorted, history.Keys);
    TakeOrdered(pending, options.steps, apart);
    var plan := PlanUp(ms, history, options, leq).value;
    assert forall i :: 0 <= i < |plan| ==> plan[i] in plan;
    assert forall i, j :: 0 <= i < j < |plan| ==> apart(plan[i].id, plan[j].id);
  }

  // ----- History and database at a point of the sorted list --------------------------------------

  function DbAfter<Db>(sorted: seq<Migration<Db>>, k: nat, base: Db): Option<Db>
    requires k <= |sorted|
  {
    if k == 0 then Some(base)
    else
      match DbAfter(sorted, k - 1, base)
      case None => None
      case Some(db) => StepEffect(sorted[k - 1].up, db)
  }

  function HistoryAfter<Db>(sorted: seq<Migration<Db>>, k: nat): map<Id, string>
    requires k <= |sorted|
  {
    if k == 0 then map[] else HistoryAfter(sorted, k - 1)[sorted[k - 1].id := sorted[k - 1].checksum]
  }

  /** The history is exactly the first k sorted migrations. */
  ghost predicate HistoryAt<Db>(sorted: seq<Migration<Db>>, k: nat, w: World<Db>)
    requires k <= |sorted|
  {
    w.history == HistoryAfter(sorted, k)
  }

  /** The database is `base` after the first k sorted migrations, and exactly those are in the history. */
  ghost predicate AtPoint<Db>(sorted: seq<Migration<Db>>, k: nat, base: Db, w: World<Db>)
    requires k <= |sorted|
  {
    DbAfter(sorted, k, base) == Some(w.db) && HistoryAt(sorted, k, w)
  }

  /** A database that nothing was applied to is at the first point; each migration that succeeds leads to the next. */
  lemma {:induction false} PointsAre<Db>(sorted: seq<Migration<Db>>, k: nat, base: Db, w: World<Db>)
    requires DistinctIds(sorted) && k <= |sorted|
    ensures AtPoint(sorted, 0, base, World(base, map[], []))
    ensures AtPoint(sorted, k, base, w) && k < |sorted| && Whole(sorted[k], true, w).Some? ==>
      AtPoint(sorted, k + 1, base, Whole(sorted[k], true, w).value)
    ensures AtPoint(sorted, k, base, w) ==> forall i :: 0 <= i < |sorted| ==> (sorted[i].id in w.history <==> i < k)
  {
    forall i | 0 <= i < |sorted| && AtPoint(sorted, k, base, w) ensures sorted[i].id in w.history <==> i < k {
      AppliedAtPoint(sorted, k, i);
    }
  }

  lemma {:induction false} AppliedAtPoint<Db>(sorted: seq<Migration<Db>>, k: nat, i: nat)
    requires DistinctIds(sorted) && k <= |sorted| && i < |sorted|
    ensures sorted[i].id in HistoryAfter(sorted, k) <==> i < k
    decreases k
  {
    if k > 0 {
      AppliedAtPoint(sorted, k - 1, i);
      assert i != k - 1 ==> sorted[i].id != sorted[k - 1].id;
    }
  }

  lemma {:induction false} HistoryChecksums<Db>(sorted: seq<Migration<Db>>, k: nat, i: nat)
    requires DistinctIds(sorted) && i < k <= |sorted|
    ensures sorted[i].id in HistoryAfter(sorted, k) && HistoryAfter(sorted, k)[sorted[i].id] == sorted[i].checksum
    decreases k
  {
    if i < k - 1 {
      assert sorted[i].id != sorted[k - 1].id;
      HistoryChecksums(sorted, k - 1, i);
    }
  }

  lemma {:induction false} SplitAt<Db>(ms: seq<Migration<Db>>, ids: set<Id>, k: nat)
    requires k <= |ms| && forall i :: 0 <= i < |ms| ==> (ms[i].id in ids <==> i < k)
    ensures Among(ms, ids) == ms[..k] && Missing(ms, ids) == ms[k..]
    decreases |ms|
  {
    if ms != [] {
      var rest, k' := ms[1..], if k > 0 then k - 1 else 0;
      forall i | 0 <= i < |rest| ensures rest[i].id in ids <==> i < k' {
        assert rest[i] == ms[i + 1];
      }
      SplitAt(rest, ids, k');
      if k > 0 {
        assert ms[..k] == [ms[0]] + rest[..k'] && ms[k..] == rest[k'..];
      } else {
        assert ms[..0] == [] && ms[0..] == [ms[0]] + rest[0..];
      }
    }
  }

  lemma {:induction false} SplitAtPoint<Db>(sorted: seq<Migration<Db>>, k: nat)
    requires DistinctIds(sorted) && k <= |sorted|
    ensures Missing(sorted, HistoryAfter(sorted, k).Keys) == sorted[k..]
    ensures Among(sorted, HistoryAfter(sorted, k).Keys) == sorted[..k]
  {
    var ids := HistoryAfter(sorted, k).Keys;
    forall i | 0 <= i < |sorted| ensures sorted[i].id in ids <==> i < k {
      AppliedAtPoint(sorted, k, i);
    }
    SplitAt(sorted, ids, k);
  }

  lemma {:induction false} UpFromPoint<Db>(sorted: seq<Migration<Db>>, k: nat, n: nat, base: Db, w: World<Db>)
    requires k <= n <= |sorted| && AtPoint(sorted, k, base, w)
    requires WholeAll(sorted[k..n], true, w).Some?
    ensures AtPoint(sorted, n, base, WholeAll(sorted[k..n], true, w).value)
    decreases n - k
  {
    if k < n {
      assert sorted[k..n][0] == sorted[k] && sorted[k..n][1..] == sorted[k + 1..n];
      UpFromPoint(sorted, k + 1, n, base, Whole(sorted[k], true, w).value);
    }
  }

  /** The down step undoes the up step. */
  ghost predicate Inverts<Db(!new)>(m: Migration<Db>) {
    m.down.Some? && forall db: Db :: StepEffect(m.up, db).Some? ==> StepEffect(m.down.value, StepEffect(m.up, db).value) == Some(db)
  }

  /** The migrations number n to k - 1 of the list do. */
  ghost predicate AllInvert<Db(!new)>(sorted: seq<Migration<Db>>, n: nat, k: nat)
    requires k <= |sorted|
  {
    forall i :: n <= i < k ==> Inverts(sorted[i])
  }

  lemma {:induction false} ForgetLast<Db>(sorted: seq<Migration<Db>>, k: nat)
    requires DistinctIds(sorted) && 0 < k <= |sorted|
    ensures HistoryAfter(sorted, k) - {sorted[k - 1].id} == HistoryAfter(sorted, k - 1)
  {
    var before, last := HistoryAfter(sorted, k - 1), sorted[k - 1];
    AppliedAtPoint(sorted, k - 1, k - 1);
    assert before[last.id := last.checksum] - {last.id} == before;
  }

  /** Undoing the last of the first k migrations leads back to the point before it. */
  lemma {:induction false} UndoLast<Db(!new)>(sorted: seq<Migration<Db>>, k: nat, base: Db, w: World<Db>)
    requires DistinctIds(sorted) && 0 < k <= |sorted| && HistoryAt(sorted, k, w)
    requires Whole(sorted[k - 1], false, w).Some?
    ensures HistoryAt(sorted, k - 1, Whole(sorted[k - 1], false, w).value)
    ensures AtPoint(sorted, k, base, w) && Inverts(sorted[k - 1]) ==>
              AtPoint(sorted, k - 1, base, Whole(sorted[k - 1], false, w).value)
  {
    ForgetLast(sorted, k);
  }

  /** The `count` newest of the first k items, newest first. */
  function Newest<T>(xs: seq<T>, k: nat, count: nat): (r: seq<T>)
    requires count <= k <= |xs|
    ensures |r| == count && forall i :: 0 <= i < count ==> r[i] == xs[k - 1 - i]
  {
    if count == 0 then [] else [xs[k - 1]] + Newest(xs, k - 1, count - 1)
  }

  lemma {:induction false} DownFromPoint<Db(!new)>(sorted: seq<Migration<Db>>, k: nat, count: nat, base: Db, w: World<Db>)
    requires DistinctIds(sorted) && count <= k <= |sorted| && HistoryAt(sorted, k, w)
    requires WholeAll(Newest(sorted, k, count), false, w).Some?
    ensures HistoryAt(sorted, k - count, WholeAll(Newest(sorted, k, count), false, w).value)
    ensures AtPoint(sorted, k, base, w) && AllInvert(sorted, k - count, k) ==>
              AtPoint(sorted, k - count, base, WholeAll(Newest(sorted, k, count), false, w).value)
    decreases count
  {
    if count > 0 {
      assert Newest(sorted, k, count)[1..] == Newest(sorted, k - 1, count - 1);
      UndoLast(sorted, k, base, w);
      DownFromPoint(sorted, k - 1, count - 1, base, Whole(sorted[k - 1], false, w).value);
      assert AllInvert(sorted, k - count, k) ==> Inverts(sorted[k - 1]) && AllInvert(sorted, k - count, k - 1);
    }
  }

  // ----- Runs keep a prefix of the sorted migrations applied ---------------------------------------

  lemma SortedIdsStayDistinct<Db(!new)>(ms: seq<Migration<Db>>, leq: (Id, Id) -> bool)
    requires DistinctIds(ms)
    ensures DistinctIds(SortedById(ms, leq)) && |SortedById(ms, leq)| == |ms|
  {
    var sorted := SortedById(ms, leq);
    var sameId := (a: Migration<Db>, b: Migration<Db>) => a.id == b.id;
    Sorting.SortKeepsItems(ms, ById<Db>(leq));
    Sorting.ApartStays(ms, sorted, sameId);
    assert forall i, j :: 0 <= i < j < |sorted| ==> !sameId(sorted[i], sorted[j]);
  }

  /** What runs leave is never reported as changed behind their back: a plan fails only for bad options. */
  lemma {:induction false} PointIsClean<Db(!new)>(ms: seq<Migration<Db>>, k: nat, w: World<Db>, options: Options, leq: (Id, Id) -> bool)
    requires DistinctIds(ms) && k <= |SortedById(ms, leq)| && HistoryAt(SortedById(ms, leq), k, w)
    ensures PlanUp(ms, w.history, options, leq).Ok? <==> (options.steps.Some? ==> options.steps.value > 0)
  {
    var sorted := SortedById(ms, leq);
    SortedIdsStayDistinct(ms, leq);
    Sorting.SortKeepsItems(ms, ById<Db>(leq));
    forall i | 0 <= i < |ms| && ms[i].id in w.history ensures w.history[ms[i].id] == ms[i].checksum {
      Sorting.SameItems(ms, sorted, ms[i]);
      var j :| 0 <= j < |sorted| && sorted[j] == ms[i];
      AppliedAtPoint(sorted, k, j);
      HistoryChecksums(sorted, k, j);
    }
  }

  lemma UpPlanAtPoint<Db(!new)>(ms: seq<Migration<Db>>, k: nat, w: World<Db>, options: Options, leq: (Id, Id) -> bool)
    requires DistinctIds(ms) && k <= |SortedById(ms, leq)|
    requires HistoryAt(SortedById(ms, leq), k, w) && PlanUp(ms, w.history, options, leq).Ok?
    ensures var sorted, plan := SortedById(ms, leq), PlanUp(ms, w.history, options, leq).value;
      && k + |plan| <= |sorted| && plan == sorted[k..k + |plan|]
      && (options.steps == None ==> k + |plan| == |sorted|)
  {
    var sorted := SortedById(ms, leq);
    SortedIdsStayDistinct(ms, leq);
    SplitAtPoint(sorted, k);
    var pending := Missing(sorted, w.history.Keys);
    assert pending == sorted[k..];
    var plan := Take(pending, options.steps);
    assert plan == pending[..|plan|] == sorted[k..k + |plan|];
  }

  lemma {:induction false} CutAtIsPrefix<Db>(ms: seq<Migration<Db>>, to: Id)
    ensures CutAt(ms, to).Some? <==> exists i :: 0 <= i < |ms| && ms[i].id == to
    ensures CutAt(ms, to).Some? ==> CutAt(ms, to).value <= ms
  {
    if ms != [] && ms[0].id != to {
      CutAtIsPrefix(ms[1..], to);
      assert forall i :: 0 < i < |ms| ==> ms[i] == ms[1..][i - 1];
    }
  }

  lemma {:induction false} ReversePrefix<T>(xs: seq<T>, k: nat, plan: seq<T>)
    requires k <= |xs| && plan <= Reverse(xs[..k])
    ensures |plan| <= k && plan == Newest(xs, k, |plan|)
  {
    var r := Reverse(xs[..k]);
    assert |r| == k;
    forall i | 0 <= i < |plan| ensures plan[i] == xs[k - 1 - i] {
      assert plan[i] == r[i];
    }
  }

  /** The rollback list starts with the newest applied migration. */
  lemma RollbackIsPrefix<Db>(ms: seq<Migration<Db>>, history: map<Id, string>, options: Options, leq: (Id, Id) -> bool)
    requires PlanDown(ms, history, options, leq).Ok?
    ensures var applied, plan := Among(SortedById(ms, leq), history.Keys), PlanDown(ms, history, options, leq).value;
      && plan <= Reverse(applied)
      && (options.to == None && options.steps.Some? && options.steps.value <= |applied| ==> |plan| == options.steps.value)
  {
    var applied := Reverse(Among(SortedById(ms, leq), history.Keys));
    var newestFirst := Take(applied, options.steps);
    assert newestFirst <= applied;
    if options.to.Some? {
      CutAtIsPrefix(newestFirst, options.to.value);
    }
  }

  lemma {:induction false} DownPlanAtPoint<Db(!new)>(ms: seq<Migration<Db>>, k: nat, w: World<Db>, options: Options, leq: (Id, Id) -> bool)
    requires DistinctIds(ms) && k <= |SortedById(ms, leq)|
    requires HistoryAt(SortedById(ms, leq), k, w) && PlanDown(ms, w.history, options, leq).Ok?
    ensures var sorted, plan := SortedById(ms, leq), PlanDown(ms, w.history, options, leq).value;
      && |plan| <= k && plan == Newest(sorted, k, |plan|)
      && (options.to == None && options.steps.Some? && options.steps.value <= k ==> |plan| == options.steps.value)
  {
    var sorted, plan := SortedById(ms, leq), PlanDown(ms, w.history, options, leq).value;
    SortedIdsStayDistinct(ms, leq);
    SplitAtPoint(sorted, k);
    RollbackIsPrefix(ms, w.history, options, leq);
    ReversePrefix(sorted, k, plan);
  }

  lemma {:induction false} UpPerformed<Db(!new)>(
    config: Config, sorted: seq<Migration<Db>>, plan: Result<seq<Migration<Db>>, Error>, k: nat, base: Db, w: World<Db>,
    locked: bool, dryRun: bool, faults: nat -> Option<Point>)
    returns (n: nat)
    requires config.transactional && config.shared
    requires k <= |sorted| && AtPoint(sorted, k, base, w)
    requires plan.Ok? ==> k + |plan.value| <= |sorted| && plan.value == sorted[k..k + |plan.value|]
    ensures var (after, result) := Perform(config, plan, true, w, locked, dryRun, faults);
      && k <= n <= |sorted| && AtPoint(sorted, n, base, after)
      && (result.Ok? ==> plan.Ok? && n == k + result.value && (!dryRun ==> n == k + |plan.value|))
  {
    n := k;
    if plan.Ok? && !dryRun && !(config.hasLock && locked) {
      var run := RunAll(config, plan.value, true, w, faults, 0);
      RunIsWholeMigrations(config, plan.value, true, w, faults, 0);
      n := k + run.executed;
      assert plan.value[0..run.executed] == sorted[k..n];
      UpFromPoint(sorted, k, n, base, w);
    }
  }

  /**
   With the history in the transaction, an `up` from a point of the sorted list ends at a point of
   it, whatever fails: k moves forward by exactly the migrations that were executed.
   */
  lemma UpStaysAtAPoint<Db(!new)>(
    config: Config, ms: seq<Migration<Db>>, k: nat, base: Db, w: World<Db>, locked: bool,
    options: Options, leq: (Id, Id) -> bool, faults: nat -> Option<Point>)
    returns (n: nat)
    requires config.transactional && config.shared
    requires DistinctIds(ms) && k <= |SortedById(ms, leq)|
    requires AtPoint(SortedById(ms, leq), k, base, w)
    ensures var (after, result) := Migrate(config, ms, true, w, locked, options, leq, faults);
      && k <= n <= |SortedById(ms, leq)|
      && AtPoint(SortedById(ms, leq), n, base, after)
      && (result.Ok? ==> n == k + result.value)
      && (result.Ok? && !options.dryRun && options.steps == None ==> n == |SortedById(ms, leq)|)
  {
    var plan := PlanUp(ms, w.history, options, leq);
    if plan.Ok? {
      UpPlanAtPoint(ms, k, w, options, leq);
    }
    n := UpPerformed(config, SortedById(ms, leq), plan, k, base, w, locked, options.dryRun, faults);
  }

  lemma {:induction false} NewestFront<T>(xs: seq<T>, k: nat, count: nat, e: nat)
    requires e <= count <= k <= |xs|
    ensures Newest(xs, k, count)[0..e] == Newest(xs, k, e)
  {
  }

  /** Running a rollback list of the newest applied migrations, newest first. */
  lemma {:induction false} DownRunFromPoint<Db(!new)>(
    config: Config, sorted: seq<Migration<Db>>, count: nat, k: nat, base: Db, w: World<Db>, faults: nat -> Option<Point>)
    requires config.transactional && config.shared && DistinctIds(sorted)
    requires count <= k <= |sorted| && HistoryAt(sorted, k, w)
    ensures var run := RunAll(config, Newest(sorted, k, count), false, w, faults, 0);
      && run.executed <= count && (run.failed == None <==> run.executed == count)
      && HistoryAt(sorted, k - run.executed, run.world)
      && (AtPoint(sorted, k, base, w) && AllInvert(sorted, k - run.executed, k) ==>
            AtPoint(sorted, k - run.executed, base, run.world))
  {
    var plan := Newest(sorted, k, count);
    var run := RunAll(config, plan, false, w, faults, 0);
    RunIsWholeMigrations(config, plan, false, w, faults, 0);
    NewestFront(sorted, k, count, run.executed);
    DownFromPoint(sorted, k, run.executed, base, w);
  }

  lemma {:induction false} DownPerformed<Db(!new)>(
    config: Config, sorted: seq<Migration<Db>>, plan: Result<seq<Migration<Db>>, Error>, k: nat, base: Db, w: World<Db>,
    locked: bool, dryRun: bool, faults: nat -> Option<Point>)
    returns (n: nat)
    requires config.transactional && config.shared && DistinctIds(sorted)
    requires k <= |sorted| && HistoryAt(sorted, k, w)
    requires plan.Ok? ==> |plan.value| <= k && plan.value == Newest(sorted, k, |plan.value|)
    ensures var (after, result) := Perform(config, plan, false, w, locked, dryRun, faults);
      && n <= k && HistoryAt(sorted, n, after)
      && (AtPoint(sorted, k, base, w) && AllInvert(sorted, n, k) ==> AtPoint(sorted, n, base, after))
      && (result.Ok? ==> plan.Ok? && n == k - result.value && (!dryRun ==> n == k - |plan.value|))
  {
    n := k;
    if plan.Ok? && !dryRun && !(config.hasLock && locked) {
      DownRunFromPoint(config, sorted, |plan.value|, k, base, w, faults);
      n := k - RunAll(config, plan.value, false, w, faults, 0).executed;
    }
  }

  /**
   A `down` from a prefix of the sorted list in the history ends at a prefix, whatever fails and
   whatever the steps do. If the down steps of the migrations it executed undo their up steps, the
   database is back at that point too; nothing is asked of the others.
   */
  lemma DownStaysAtAPoint<Db(!new)>(
    config: Config, ms: seq<Migration<Db>>, k: nat, base: Db, w: World<Db>, locked: bool,
    options: Options, leq: (Id, Id) -> bool, faults: nat -> Option<Point>)
    returns (n: nat)
    requires config.transactional && config.shared
    requires DistinctIds(ms) && k <= |SortedById(ms, leq)| && HistoryAt(SortedById(ms, leq), k, w)
    ensures var sorted := SortedById(ms, leq);
      var (after, result) := Migrate(config, ms, false, w, locked, options, leq, faults);
      && n <= k
      && HistoryAt(sorted, n, after)
      && (AtPoint(sorted, k, base, w) && AllInvert(sorted, n, k) ==> AtPoint(sorted, n, base, after))
      && (result.Ok? ==> n == k - result.value)
      && (result.Ok? && !options.dryRun && options.to == None && options.steps.Some? && options.steps.value <= k
          ==> n == k - options.steps.value)
  {
    var plan := PlanDown(ms, w.history, options, leq);
    SortedIdsStayDistinct(ms, leq);
    if plan.Ok? {
      DownPlanAtPoint(ms, k, w, options, leq);
    }
    n := DownPerformed(config, SortedById(ms, leq), plan, k, base, w, locked, options.dryRun, faults);
  }

  lemma {:induction false} PointDeterminesState<Db>(sorted: seq<Migration<Db>>, k: nat, base: Db, a: World<Db>, b: World<Db>)
    requires k <= |sorted| && AtPoint(sorted, k, base, a) && AtPoint(sorted, k, base, b)
    ensures a.db == b.db && a.history == b.history
  {
  }

  /**
   A successful `up` followed by a `down` of as many steps restores the history, and the database
   too if the migrations in question have inverse down steps.
   */
  lemma UpThenDownRestores<Db(!new)>(
    config: Config, ms: seq<Migration<Db>>, k: nat, base: Db, w: World<Db>, options: Options, leq: (Id, Id) -> bool,
    faults: nat -> Option<Point>, laterFaults: nat -> Option<Point>)
    requires config.transactional && config.shared
    requires DistinctIds(ms) && k <= |SortedById(ms, leq)| && AtPoint(SortedById(ms, leq), k, base, w)
    ensures var sorted := SortedById(ms, leq);
      var (middle, executed) := Migrate(config, ms, true, w, false, options, leq, faults);
      executed.Ok? && executed.value > 0 ==>
        var back := Options(Some(executed.value), None, options.allowDirty, false);
        var (after, undone) := Migrate(config, ms, false, middle, false, back, leq, laterFaults);
        undone.Ok? ==>
          && after.history == w.history && undone.value == executed.value
          && k + executed.value <= |sorted|
          && (AllInvert(sorted, k, k + executed.value) ==> after.db == w.db)
  {
    var sorted := SortedById(ms, leq);
    var (middle, executed) := Migrate(config, ms, true, w, false, options, leq, faults);
    var n := UpStaysAtAPoint(config, ms, k, base, w, false, options, leq, faults);
    if executed.Ok? && executed.value > 0 {
      DownRestores(config, ms, k, n, base, w, middle, Options(Some(executed.value), None, options.allowDirty, false), leq, laterFaults);
    }
  }

  lemma {:induction false} DownRestores<Db(!new)>(
    config: Config, ms: seq<Migration<Db>>, k: nat, n: nat, base: Db, w: World<Db>, middle: World<Db>, back: Options,
    leq: (Id, Id) -> bool, faults: nat -> Option<Point>)
    requires config.transactional && config.shared && DistinctIds(ms) && k <= n <= |SortedById(ms, leq)|
    requires AtPoint(SortedById(ms, leq), k, base, w) && AtPoint(SortedById(ms, leq), n, base, middle)
    requires back.steps == Some(n - k) && back.to == None && !back.dryRun && n > k
    ensures var (after, undone) := Migrate(config, ms, false, middle, false, back, leq, faults);
      undone.Ok? ==>
        && after.history == w.history && undone.value == n - k
        && (AllInvert(SortedById(ms, leq), k, n) ==> after.db == w.db)
  {
    var (after, undone) := Migrate(config, ms, false, middle, false, back, leq, faults);
    var m := DownStaysAtAPoint(config, ms, n, base, middle, false, back, leq, faults);
    if undone.Ok? && AllInvert(SortedById(ms, leq), k, n) {
      PointDeterminesState(SortedById(ms, leq), k, base, w, after);
    }
  }

  // ----- Stale plans ---------------------------------------------------------------------------------

  /** Some statement executed since `from` belongs to migration `id`. */
  ghost predicate Executed(log: seq<Event>, from: nat, id: Id) {
    exists i :: from <= i < |log| && log[i].id == id
  }

  lemma {:induction false} EventsOf(id: Id, up: bool, count: nat, i: nat)
    requires i < |StepEvents(id, up, count)|
    ensures StepEvents(id, up, count)[i].id == id
  {
    if i < |StepEvents(id, up, count - 1)| {
      EventsOf(id, up, count - 1, i);
    }
  }

  /** Which ids some statements of a log belong to. */
  lemma {:induction false} EventsExecuted(log: seq<Event>, id: Id, up: bool, count: nat, other: Id)
    ensures Executed(log + StepEvents(id, up, count), |log|, other) <==> count > 0 && other == id
  {
    EventCount(id, up, count);
    var all := log + StepEvents(id, up, count);
    forall i | |log| <= i < |all| ensures all[i].id == id {
      EventsOf(id, up, count, i - |log|);
    }
    if count > 0 {
      assert all[|log|].id == id;
    }
  }

  lemma {:induction false} ExecutedSplit(a: seq<Event>, b: seq<Event>, c: seq<Event>, id: Id)
    requires a <= b <= c
    ensures Executed(c, |a|, id) <==> Executed(b, |a|, id) || Executed(c, |b|, id)
  {
    forall i | |a| <= i < |b| ensures b[i] == c[i] {
    }
  }

  lemma {:induction false} WholeRunExecutes<Db>(ms: seq<Migration<Db>>, up: bool, w: World<Db>, id: Id)
    requires WholeAll(ms, up, w).Some?
    ensures w.log <= WholeAll(ms, up, w).value.log
    ensures Executed(WholeAll(ms, up, w).value.log, |w.log|, id) <==>
              exists i :: 0 <= i < |ms| && ms[i].id == id && StepOf(ms[i], up) != []
  {
    if ms != [] {
      var next, count := Whole(ms[0], up, w).value, |StepOf(ms[0], up)|;
      var after := WholeAll(ms, up, w).value;
      WholeRunExecutes(ms[1..], up, next, id);
      EventsExecuted(w.log, ms[0].id, up, count, id);
      ExecutedSplit(w.log, next.log, after.log, id);
      assert forall i :: 0 < i < |ms| ==> ms[i] == ms[1..][i - 1];
    }
  }

  // ----- The migrator, its driver connection and its history store ----------------------------------

  class Migrator<Db> {
    const config: Config
    const migrations: seq<Migration<Db>>
    const leq: (Id, Id) -> bool
    var committed: World<Db>
    /** What the open transaction sees; None outside one. */
    var open: Option<World<Db>>
    var locked: bool

    constructor (config: Config, migrations: seq<Migration<Db>>, leq: (Id, Id) -> bool, world: World<Db>, locked: bool)
      ensures this.config == config && this.migrations == migrations && this.leq == leq
      ensures committed == world && open == None && this.locked == locked
    {
      this.config, this.migrations, this.leq := config, migrations, leq;
      committed, open, this.locked := world, None, locked;
    }

    function View(): World<Db>
      reads this
    {
      if open.Some? then open.value else committed
    }

    /** The statements of a step, in order, up to the first that fails. */
    method ExecuteStep(m: Migration<Db>, up: bool, fault: Option<Point>) returns (failed: Option<Point>)
      modifies `committed, `open
      ensures Attempt(View(), failed) == RunStep(m, up, 0, old(View()), fault)
      ensures old(open).Some? ==> open.Some? && committed == old(committed)
      ensures old(open).None? ==> open.None?
    {
      var step := StepOf(m, up);
      var i := 0;
      while i < |step|
        invariant 0 <= i <= |step|
        invariant RunStep(m, up, i, View(), fault) == RunStep(m, up, 0, old(View()), fault)
        invariant old(open).Some? ==> open.Some? && committed == old(committed)
        invariant old(open).None? ==> open.None?
      {
        if fault == Some(AtStatement(i)) {
          return Some(AtStatement(i));
        }
        var next := step[i](View().db);
        if next.None? {
          return Some(AtStatement(i));
        }
        var after := World(next.value, View().history, View().log + [Event(m.id, up, i)]);
        if open.Some? { open := Some(after); } else { committed := after; }
        i := i + 1;
      }
      failed := None;
    }

    method Begin()
      modifies `open
      ensures open == Some(committed)
    {
      open := Some(committed);
    }

    /** A history store outside the transaction has already written its row. */
    method Commit()
      requires open.Some?
      modifies `committed, `open
      ensures open.None?
      ensures committed == old(World(open.value.db, if config.shared then open.value.history else committed.history, open.value.log))
    {
      committed := World(open.value.db, if config.shared then open.value.history else committed.history, open.value.log);
      open := None;
    }

    method Rollback()
      modifies `open
      ensures open.None?
    {
      open := None;
    }

    /** `markApplied` or `unmarkApplied`. */
    method Record(m: Migration<Db>, up: bool) returns (ok: bool)
      requires open.Some? ==> open.value.history == committed.history
      modifies `committed, `open
      ensures var history := NewHistory(config, m, up, old(committed.history));
        && ok == history.Some?
        && (!ok || (open.Some? && config.shared) ==> committed == old(committed))
        && (!ok || !config.shared ==> open == old(open))
        && (ok && !(open.Some? && config.shared) ==> committed == old(committed).(history := history.value))
        && (ok && config.shared && old(open).Some? ==> open == Some(old(open).value.(history := history.value)))
        && (open.Some? == old(open).Some?)
    {
      var history := NewHistory(config, m, up, committed.history);
      if history.None? {
        return false;
      }
      if open.Some? && config.shared {
        open := Some(open.value.(history := history.value));
      } else {
        committed := committed.(history := history.value);
      }
      ok := true;
    }

    /** One migration, in a transaction of the driver where there is one. */
    method RunOne(m: Migration<Db>, up: bool, fault: Option<Point>) returns (failed: Option<Point>)
      requires open.None?
      modifies `committed, `open
      ensures open.None?
      ensures Attempt(committed, failed) == AttemptOne(config, m, up, old(committed), fault)
    {
      RunStepIsWhole(m, up, 0, committed, fault);
      if config.transactional {
        if fault == Some(AtBegin) {
          return fault;
        }
        Begin();
      }
      failed := ExecuteStep(m, up, fault);
      if failed.None? {
        if fault == Some(AtMark) {
          failed := Some(AtMark);
        } else {
          var ok := Record(m, up);
          failed := if !ok then Some(AtMark) else if config.transactional && fault == Some(AtCommit) then fault else None;
        }
      }
      if config.transactional {
        if failed.None? { Commit(); } else { Rollback(); }
      }
    }

    method RunList(ms: seq<Migration<Db>>, up: bool, faults: nat -> Option<Point>) returns (executed: nat, failed: Option<Point>)
      requires open.None?
      modifies `committed, `open
      ensures open.None?
      ensures Run(committed, executed, failed) == RunAll(config, ms, up, old(committed), faults, 0)
    {
      executed := 0;
      while executed < |ms|
        invariant executed <= |ms| && open.None?
        invariant RunAll(config, ms, up, committed, faults, executed) == RunAll(config, ms, up, old(committed), faults, 0)
      {
        failed := RunOne(ms[executed], up, faults(executed));
        if failed.Some? {
          return;
        }
        executed := executed + 1;
      }
      failed := None;
    }

    /** `up` and `down`: the plan is made before the lock is taken, and the lock is always given back. */
    method MigrateNow(up: bool, options: Options, faults: nat -> Option<Point>) returns (result: Result<nat, Error>)
      requires open.None?
      modifies this
      ensures open.None? && locked == old(locked)
      ensures (committed, result) == Migrate(config, migrations, up, old(committed), old(locked), options, leq, faults)
    {
      var plan := if up then PlanUp(migrations, committed.history, options, leq)
                  else PlanDown(migrations, committed.history, options, leq);
      if plan.Err? {
        return Err(plan.error);
      }
      if options.dryRun {
        return Ok(0);
      }
      if config.hasLock {
        if locked {
          return Err(LockFailed);
        }
        locked := true;
      }
      var executed, failed := RunList(plan.value, up, faults);
      if config.hasLock {
        locked := false;
      }
      result := if failed.Some? then Err(StepFailed(failed.value)) else Ok(executed);
    }
  }
}
