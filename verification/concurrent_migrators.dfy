/**
 Any number of PostgreSQL migrators running `up` at the same time, from plans that may be stale,
 with no lock (the PostgreSQL history store has none). What keeps them apart is the primary key of
 the history table: an insert of a key that is in the table fails, and one that another open
 transaction has inserted waits for that transaction.
 */
module ConcurrentMigrators {

  datatype Option<T> = None | Some(value: T)

  type Id = string

  /** A statement of a migration's up step that has been committed. */
  datatype Event = Event(id: Id, index: nat)

  datatype Phase =
    | Idle
    | Running(id: Id, executed: nat, inserted: bool)

  datatype Worker = Worker(plan: seq<Id>, phase: Phase)

  datatype State = State(workers: seq<Worker>, history: set<Id>, log: seq<Event>)

  /** transactional: the statements and the history insert share one transaction. */
  datatype Setup = Setup(transactional: bool, statements: Id -> nat)

  datatype Action =
    | Replan(w: nat, plan: seq<Id>)
    | Begin(w: nat)
    | Execute(w: nat)
    | Insert(w: nat)
    | Commit(w: nat)
    | Abort(w: nat)

  /** Another worker's open transaction has inserted the key. */
  predicate Held(workers: seq<Worker>, id: Id) {
    exists v :: 0 <= v < |workers| && workers[v].phase.Running? && workers[v].phase.inserted && workers[v].phase.id == id
  }

  function Put(s: State, w: nat, worker: Worker): State
    requires w < |s.workers|
  {
    s.(workers := s.workers[w := worker])
  }

  function Events(id: Id, count: nat): (r: seq<Event>)
    ensures |r| == count && forall i :: 0 <= i < count ==> r[i] == Event(id, i)
  {
    if count == 0 then [] else Events(id, count - 1) + [Event(id, count - 1)]
  }

  /** One step of one migrator; None where it cannot be taken now. */
  function Step(setup: Setup, s: State, a: Action): Option<State> {
    if a.w >= |s.workers| then None
    else
      var worker := s.workers[a.w];
      var phase := worker.phase;
      match a
      case Replan(w, plan) => if phase.Idle? then Some(Put(s, w, Worker(plan, Idle))) else None
      case Begin(w) =>
        if phase.Idle? && worker.plan != [] then Some(Put(s, w, Worker(worker.plan, Running(worker.plan[0], 0, false))))
        else None
      case Execute(w) =>
        if !phase.Running? || phase.executed >= setup.statements(phase.id) then None
        else
          var next := Put(s, w, Worker(worker.plan, Running(phase.id, phase.executed + 1, false)));
          Some(if setup.transactional then next else next.(log := s.log + [Event(phase.id, phase.executed)]))
      case Insert(w) =>
        if !phase.Running? || phase.inserted || phase.executed != setup.statements(phase.id) then None
        else if phase.id in s.history || Held(s.workers, phase.id) then None
        else
          var next := Put(s, w, Worker(worker.plan, Running(phase.id, phase.executed, true)));
          Some(if setup.transactional then next else next.(history := s.history + {phase.id}))
      case Commit(w) =>
        if !phase.Running? || !phase.inserted || worker.plan == [] then None
        else
          var next := Put(s, w, Worker(worker.plan[1..], Idle));
          Some(if setup.transactional
               then next.(history := s.history + {phase.id}, log := s.log + Events(phase.id, phase.executed))
               else next)
      case Abort(w) => if phase.Running? then Some(Put(s, w, Worker([], Idle))) else None
  }

  function Run(setup: Setup, s: State, actions: seq<Action>): Option<State>
    decreases actions
  {
    if actions == [] then Some(s)
    else
      match Step(setup, s, actions[0])
      case None => None
      case Some(next) => Run(setup, next, actions[1..])
  }

  // ----- Safety --------------------------------------------------------------------------------

  /** The statements of whole migrations, one after the other. */
  function WholeLog(setup: Setup, order: seq<Id>): seq<Event> {
    if order == [] then []
    else WholeLog(setup, order[..|order| - 1]) + Events(order[|order| - 1], setup.statements(order[|order| - 1]))
  }

  ghost predicate NoRepeats(order: seq<Id>) {
    forall i, j :: 0 <= i < j < |order| ==> order[i] != order[j]
  }

  /** The committed statements are whole migrations, each once, and exactly those in the history. */
  ghost predicate Consistent(setup: Setup, s: State, order: seq<Id>) {
    s.log == WholeLog(setup, order) && NoRepeats(order) && (forall id :: id in s.history <==> id in order)
  }

  ghost predicate Settled(setup: Setup, history: set<Id>, worker: Worker) {
    worker.phase.Running? && worker.phase.inserted ==>
      worker.phase.executed == setup.statements(worker.phase.id) && worker.phase.id !in history
  }

  /** No key is inserted by two open transactions, and none that is in the table already. */
  ghost predicate KeysHeldOnce(setup: Setup, s: State) {
    && (forall v :: 0 <= v < |s.workers| ==> Settled(setup, s.history, s.workers[v]))
    && (forall u, v :: 0 <= u < v < |s.workers| ==> !SameKey(s.workers[u], s.workers[v]))
  }

  ghost predicate SameKey(a: Worker, b: Worker) {
    a.phase.Running? && b.phase.Running? && a.phase.inserted && b.phase.inserted && a.phase.id == b.phase.id
  }

  lemma PutKeepsKeys(setup: Setup, s: State, w: nat, worker: Worker)
    requires w < |s.workers| && KeysHeldOnce(setup, s) && Settled(setup, s.history, worker)
    requires worker.phase.Running? && worker.phase.inserted ==> !Held(s.workers, worker.phase.id)
    ensures KeysHeldOnce(setup, Put(s, w, worker))
  {
    var workers := s.workers[w := worker];
    forall u, v | 0 <= u < v < |workers| ensures !SameKey(workers[u], workers[v]) {
      assert !SameKey(s.workers[u], s.workers[v]);
    }
  }

  lemma StepKeepsSafety(setup: Setup, s: State, a: Action, order: seq<Id>) returns (order': seq<Id>)
    requires setup.transactional && Step(setup, s, a).Some?
    requires Consistent(setup, s, order) && KeysHeldOnce(setup, s)
    ensures order <= order' && Consistent(setup, Step(setup, s, a).value, order')
    ensures KeysHeldOnce(setup, Step(setup, s, a).value)
  {
    order' := order;
    var next := Step(setup, s, a).value;
    if a.Commit? {
      var id := s.workers[a.w].phase.id;
      assert Settled(setup, s.history, s.workers[a.w]);
      order' := order + [id];
      assert order'[..|order|] == order;
      var worker := Worker(s.workers[a.w].plan[1..], Idle);
      PutKeepsKeys(setup, s, a.w, worker);
      forall v | 0 <= v < |next.workers| ensures Settled(setup, next.history, next.workers[v]) {
        if v != a.w {
          assert Settled(setup, s.history, s.workers[v]);
          assert !SameKey(s.workers[if v < a.w then v else a.w], s.workers[if v < a.w then a.w else v]);
        }
      }
    } else {
      PutKeepsKeys(setup, s, a.w, next.workers[a.w]);
      assert next == Put(s, a.w, next.workers[a.w]);
    }
  }

  ghost predicate Fresh(s: State) {
    s.history == {} && s.log == [] && forall w :: 0 <= w < |s.workers| ==> s.workers[w].phase.Idle?
  }

  lemma {:induction false} RunKeepsSafety(setup: Setup, s: State, actions: seq<Action>, order: seq<Id>) returns (order': seq<Id>)
    requires setup.transactional && Run(setup, s, actions).Some?
    requires Consistent(setup, s, order) && KeysHeldOnce(setup, s)
    ensures order <= order' && Consistent(setup, Run(setup, s, actions).value, order')
    decreases actions
  {
    if actions == [] {
      order' := order;
    } else {
      order' := StepKeepsSafety(setup, s, actions[0], order);
      order' := RunKeepsSafety(setup, Step(setup, s, actions[0]).value, actions[1..], order');
    }
  }

  /** How often statement `e` has been committed. */
  function Times(log: seq<Event>, e: Event): nat {
    multiset(log)[e]
  }

  lemma {:induction false} WholeLogTimes(setup: Setup, order: seq<Id>, e: Event)
    requires NoRepeats(order)
    ensures Times(WholeLog(setup, order), e) == if e.id in order && e.index < setup.statements(e.id) then 1 else 0
    decreases order
  {
    if order != [] {
      var last, before := order[|order| - 1], order[..|order| - 1];
      var count := setup.statements(last);
      assert order == before + [last];
      assert last !in before;
      WholeLogTimes(setup, before, e);
      EventsTimes(last, count, e);
      TimesAdd(WholeLog(setup, before), Events(last, count), e);
    }
  }

  lemma {:induction false} TimesAdd(a: seq<Event>, b: seq<Event>, e: Event)
    ensures Times(a + b, e) == Times(a, e) + Times(b, e)
  {
  }

  lemma {:induction false} EventsTimes(id: Id, count: nat, e: Event)
    ensures multiset(Events(id, count))[e] == if e.id == id && e.index < count then 1 else 0
  {
    if count > 0 {
      EventsTimes(id, count - 1, e);
      TimesAdd(Events(id, count - 1), [Event(id, count - 1)], e);
    }
  }

  /**
   In every interleaving every statement of a migration has been committed at most once, and
   exactly when the migration is in the history.
   */
  lemma {:induction false} EachMigrationAtMostOnce(setup: Setup, s: State, actions: seq<Action>, e: Event)
    requires setup.transactional && Fresh(s) && Run(setup, s, actions).Some?
    ensures var after := Run(setup, s, actions).value;
      Times(after.log, e) == if e.id in after.history && e.index < setup.statements(e.id) then 1 else 0
  {
    var order := RunKeepsSafety(setup, s, actions, []);
    WholeLogTimes(setup, order, e);
  }

  /** What a migrator executes is the first migration left in its plan, and only statements that it has. */
  ghost predicate OnPlan(setup: Setup, s: State) {
    && (forall w :: 0 <= w < |s.workers| && s.workers[w].phase.Running? ==>
          && s.workers[w].plan != [] && s.workers[w].plan[0] == s.workers[w].phase.id
          && s.workers[w].phase.executed <= setup.statements(s.workers[w].phase.id))
    && (forall i :: 0 <= i < |s.log| ==> s.log[i].index < setup.statements(s.log[i].id))
  }

  /** In every run, with or without the transaction. */
  lemma {:induction false} RunStaysOnPlan(setup: Setup, s: State, actions: seq<Action>)
    requires OnPlan(setup, s) && Run(setup, s, actions).Some?
    ensures OnPlan(setup, Run(setup, s, actions).value)
    decreases actions
  {
    if actions != [] {
      RunStaysOnPlan(setup, Step(setup, s, actions[0]).value, actions[1..]);
    }
  }

  // ----- Without the transaction ------------------------------------------------------------------

  function TwoWorkers(id: Id): State {
    State([Worker([id], Idle), Worker([id], Idle)], {}, [])
  }

  /** A first run of steps, then the rest. */
  lemma {:induction false} RunMore(setup: Setup, s: State, first: seq<Action>, rest: seq<Action>)
    requires Run(setup, s, first).Some?
    ensures Run(setup, s, first + rest) == Run(setup, Run(setup, s, first).value, rest)
    decreases first
  {
    if first == [] {
      assert first + rest == rest;
    } else {
      assert (first + rest)[1..] == first[1..] + rest;
      RunMore(setup, Step(setup, s, first[0]).value, first[1..], rest);
    }
  }

  lemma {:induction false} OneStep(setup: Setup, s: State, a: Action)
    requires Step(setup, s, a).Some?
    ensures Run(setup, s, [a]) == Step(setup, s, a)
  {
    assert Run(setup, Step(setup, s, a).value, [a][1..]) == Some(Step(setup, s, a).value);
  }

  /** A migrator that has begun a migration executes its first `count` statements. */
  lemma {:induction false} ExecuteFirst(setup: Setup, s: State, w: nat, id: Id, count: nat) returns (actions: seq<Action>)
    requires count <= setup.statements(id)
    requires w < |s.workers| && s.workers[w].phase == Running(id, 0, false)
    ensures var worker := Worker(s.workers[w].plan, Running(id, count, false));
      Run(setup, s, actions)
      == Some(State(s.workers[w := worker], s.history, s.log + if setup.transactional then [] else Events(id, count)))
  {
    actions := [];
    if count == 0 {
      assert s.workers[w := s.workers[w]] == s.workers && s.log + [] == s.log;
    } else {
      var before := ExecuteFirst(setup, s, w, id, count - 1);
      var s1 := Run(setup, s, before).value;
      var worker := Worker(s.workers[w].plan, Running(id, count, false));
      assert s1.workers[w := worker] == s.workers[w := worker];
      assert !setup.transactional ==> s1.log + [Event(id, count - 1)] == s.log + Events(id, count);
      OneStep(setup, s1, Execute(w));
      RunMore(setup, s, before, [Execute(w)]);
      actions := before + [Execute(w)];
    }
  }

  /** An idle migrator can apply a migration on its own that is in the history neither yet nor by an open transaction. */
  lemma {:induction false} IdleMigratorApplies(setup: Setup, s: State, w: nat, id: Id) returns (actions: seq<Action>)
    requires w < |s.workers| && s.workers[w].phase.Idle? && id !in s.history
    requires forall v :: 0 <= v < |s.workers| && s.workers[v].phase.Running? && s.workers[v].phase.inserted ==>
      s.workers[v].phase.id != id
    ensures Run(setup, s, actions)
         == Some(State(s.workers[w := Worker([], Idle)], s.history + {id}, s.log + Events(id, setup.statements(id))))
  {
    var count := setup.statements(id);
    var planned := Put(s, w, Worker([id], Idle));
    var begun := Put(planned, w, Worker([id], Running(id, 0, false)));
    var before := ExecuteFirst(setup, begun, w, id, count);
    var executed := Run(setup, begun, before).value;
    var inserted := Step(setup, executed, Insert(w)).value;
    var ends := [Insert(w), Commit(w)];
    assert Run(setup, executed, ends) == Step(setup, inserted, Commit(w)) by {
      assert ends[1..] == [Commit(w)];
      OneStep(setup, inserted, Commit(w));
    }
    RunMore(setup, begun, before, ends);
    actions := [Replan(w, [id]), Begin(w)] + (before + ends);
    assert Run(setup, s, actions) == Run(setup, begun, before + ends) by {
      assert actions[1..][1..] == before + ends;
    }
    assert [id][1..] == [];
    assert Run(setup, begun, before + ends).value.workers == s.workers[w := Worker([], Idle)];
    assert s.log + [] == s.log;
  }

  /** Two migrators with one plan both execute the first `count` statements before either inserts its row. */
  lemma {:induction false} ExecutedTwice(setup: Setup, id: Id, count: nat) returns (actions: seq<Action>)
    requires !setup.transactional && count <= setup.statements(id)
    ensures Run(setup, TwoWorkers(id), actions).Some?
    ensures Run(setup, TwoWorkers(id), actions).value.log == Events(id, count) + Events(id, count)
  {
    var s0 := TwoWorkers(id);
    var begun := Worker([id], Running(id, 0, false));
    var s1 := State(s0.workers[0 := begun], {}, []);
    OneStep(setup, s0, Begin(0));
    var first := ExecuteFirst(setup, s1, 0, id, count);
    RunMore(setup, s0, [Begin(0)], first);
    actions := [Begin(0)] + first;
    var s2 := Run(setup, s0, actions).value;
    assert [] + Events(id, count) == Events(id, count);

    OneStep(setup, s2, Begin(1));
    RunMore(setup, s0, actions, [Begin(1)]);
    actions := actions + [Begin(1)];
    var s3 := Run(setup, s0, actions).value;
    var second := ExecuteFirst(setup, s3, 1, id, count);
    RunMore(setup, s0, actions, second);
    actions := actions + second;
  }

  /** No run executes the statement of the migration twice. */
  ghost predicate AtMostOnce(setup: Setup, e: Event) {
    forall s: State, actions: seq<Action> ::
      Fresh(s) && Run(setup, s, actions).Some? ==> Times(Run(setup, s, actions).value.log, e) <= 1
  }

  /**
   For every statement of every migration: the at-most-once guarantee holds of every run exactly
   when the statements and the history insert share a transaction.
   */
  lemma {:induction false} AtMostOnceIffTransactional(setup: Setup, e: Event)
    requires e.index < setup.statements(e.id)
    ensures setup.transactional <==> AtMostOnce(setup, e)
  {
    if setup.transactional {
      forall s: State, actions: seq<Action> | Fresh(s) && Run(setup, s, actions).Some?
        ensures Times(Run(setup, s, actions).value.log, e) <= 1
      {
        EachMigrationAtMostOnce(setup, s, actions, e);
      }
    } else {
      var count := e.index + 1;
      var actions := ExecutedTwice(setup, e.id, count);
      assert Fresh(TwoWorkers(e.id));
      EventsTimes(e.id, count, e);
      assert Times(Run(setup, TwoWorkers(e.id), actions).value.log, e) == 2;
    }
  }
}
