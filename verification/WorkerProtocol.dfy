/**
 The persistent worker (internal/worker) as a state machine: the poll loop and the task
 goroutines take steps in any interleaving, and every finite sequence of steps is a run.
 A step that the state does not allow has no effect.
 */
module WorkerProtocol {
  import opened Common
  import opened Resources
  import opened Sorting

  /** Isolations and warm-up settings are compared as wholes, as proto.Equal does. */
  datatype Isolation = Isolation(spec: string)

  datatype Parameters = Parameters(isolation: Isolation, resources: Resources, warmup: string)

  /** What an instance was created for. */
  datatype Origin = ForStandby(parameters: Parameters) | ForTask(isolation: Isolation)

  function IsolationOf(o: Origin): Isolation {
    match o
    case ForStandby(p) => p.isolation
    case ForTask(isolation) => isolation
  }

  /** A goroutine running a task: its instance and the isolation the task asked for. */
  datatype Goroutine = Goroutine(inst: nat, isolation: Isolation)

  datatype State = State(
    total: Resources,
    tasks: map<string, Task>,
    params: Option<Parameters>,
    standby: Option<nat>,
    running: map<string, Goroutine>,  // goroutines that have not closed their instance yet
    pending: set<string>,             // goroutines blocked on reporting their completion
    failed: set<string>,              // tasks whose instance could not be created
    built: seq<Origin>,               // all instances ever created, by number
    closes: seq<nat>,                 // all Close calls, in order
    spurious: nat)                    // completions of unregistered tasks

  function Initial(total: Resources, params: Option<Parameters>): State {
    State(total, map[], params, None, map[], {}, {}, [], [], 0)
  }

  datatype Creation = NewFailed | WarmupFailed | Warmed

  datatype Step =
    | CreateStandby(outcome: Creation)
    | StartTask(id: string, task: Task, isolation: Isolation, created: bool)
    | Finish(id: string)       // a goroutine closes its instance and reports
    | Complete(id: string)     // the poll loop receives the report
    | StopTask(id: string)
    | UpdateStandby(params: Option<Parameters>)

  // ---------- steps ----------

  function CloseStandby(s: State): State {
    if s.standby.Some? then s.(standby := None, closes := s.closes + [s.standby.value]) else s
  }

  /** getInstance for a task that has just been registered. */
  function GiveInstance(s: State, id: string, isolation: Isolation, created: bool): State {
    if s.standby.Some? && s.params.Some? && s.params.value.isolation == isolation then
      s.(standby := None, running := s.running[id := Goroutine(s.standby.value, isolation)])
    else
      var s1 := CloseStandby(s);
      if created then
        s1.(built := s1.built + [ForTask(isolation)], running := s1.running[id := Goroutine(|s1.built|, isolation)])
      else s1.(failed := s1.failed + {id})
  }

  ghost function DoCreateStandby(s: State, outcome: Creation): State {
    if s.params.None? || s.standby.Some? || !Fits(s.total, s.tasks, s.params.value.resources) then s
    else
      match outcome
      case NewFailed => s
      case WarmupFailed => s.(built := s.built + [ForStandby(s.params.value)], closes := s.closes + [|s.built|])
      case Warmed => s.(built := s.built + [ForStandby(s.params.value)], standby := Some(|s.built|))
  }

  function DoStartTask(s: State, id: string, task: Task, isolation: Isolation, created: bool): State {
    if id in s.tasks then s else GiveInstance(s.(tasks := s.tasks[id := task]), id, isolation, created)
  }

  function DoFinish(s: State, id: string): State {
    if id !in s.running then s
    else s.(running := s.running - {id}, closes := s.closes + [s.running[id].inst], pending := s.pending + {id})
  }

  function DoComplete(s: State, id: string): State {
    if id !in s.pending then s
    else if id in s.tasks then s.(tasks := s.tasks - {id}, pending := s.pending - {id})
    else s.(pending := s.pending - {id}, spurious := s.spurious + 1)
  }

  function DoUpdateStandby(s: State, params: Option<Parameters>): State {
    (if s.params != params then CloseStandby(s) else s).(params := params)
  }

  ghost function Do(s: State, step: Step): State {
    match step
    case CreateStandby(outcome) => DoCreateStandby(s, outcome)
    case StartTask(id, task, isolation, created) => DoStartTask(s, id, task, isolation, created)
    case Finish(id) => DoFinish(s, id)
    case Complete(id) => DoComplete(s, id)
    case StopTask(_) => s
    case UpdateStandby(params) => DoUpdateStandby(s, params)
  }

  /** The state after a sequence of steps. */
  ghost function Replay(s: State, steps: seq<Step>): State {
    if steps == [] then s else Do(Replay(s, steps[..|steps| - 1]), steps[|steps| - 1])
  }

  /** Tasks never ask for a negative amount of a resource. */
  ghost predicate Sane(steps: seq<Step>) {
    forall i :: 0 <= i < |steps| && steps[i].StartTask? ==> NonNegative(steps[i].task.resources)
  }

  // ---------- invariants ----------

  /** Every registered task has exactly one goroutine, or its instance could not be created. */
  ghost predicate Registered(s: State) {
    && s.running.Keys !! s.pending && s.running.Keys !! s.failed && s.pending !! s.failed
    && s.tasks.Keys == s.running.Keys + s.pending + s.failed
    && s.spurious == 0
  }

  /** Who holds an instance. */
  datatype Holder = Closed | Standby | RunBy(id: string)

  ghost predicate Holds(s: State, h: Holder, i: nat) {
    match h
    case Closed => i in s.closes
    case Standby => s.standby == Some(i)
    case RunBy(id) => id in s.running && s.running[id].inst == i
  }

  ghost predicate Held(s: State, i: nat) {
    exists h :: Holds(s, h, i)
  }

  /** Instances are owned linearly: only created ones are held, by one holder each, and closed at most once. */
  ghost predicate Linear(s: State) {
    && NoDuplicates(s.closes)
    && (forall h, i: nat :: Holds(s, h, i) ==> i < |s.built|)
    && (forall i: nat, h, h' :: Holds(s, h, i) && Holds(s, h', i) ==> h == h')
    && (forall i: nat :: i < |s.built| ==> Held(s, i))
  }

  /** A held standby instance was created from the current parameters. */
  ghost predicate StandbyCurrent(s: State) {
    s.standby.Some? ==>
      && s.params.Some? && s.standby.value < |s.built|
      && s.built[s.standby.value] == ForStandby(s.params.value)
  }

  /** Every running task got an instance created for the isolation it asked for. */
  ghost predicate IsolationRespected(s: State) {
    forall id :: id in s.running ==>
      s.running[id].inst < |s.built| && IsolationOf(s.built[s.running[id].inst]) == s.running[id].isolation
  }

  /** While a standby instance is held, its share of the resources is free. */
  ghost predicate Reserved(s: State) {
    s.standby.Some? && s.params.Some? ==> Fits(s.total, s.tasks, s.params.value.resources)
  }

  ghost predicate TasksSane(s: State) {
    forall id :: id in s.tasks ==> NonNegative(s.tasks[id].resources)
  }

  /** Holds in every run. */
  ghost predicate Inv(s: State) {
    Registered(s) && Linear(s) && StandbyCurrent(s) && IsolationRespected(s)
  }

  /** Holds in every run whose tasks ask for non-negative amounts. */
  ghost predicate Budget(s: State) {
    Reserved(s) && TasksSane(s)
  }

  // ---------- preservation, invariant by invariant ----------

  lemma RegisteredStep(s: State, step: Step)
    requires Registered(s)
    ensures Registered(Do(s, step))
  {
  }

  /** Standby slot and goroutines hold one instance each. */
  lemma HoldsOne(s: State, h: Holder, i: nat, j: nat)
    requires h != Closed && Holds(s, h, i) && Holds(s, h, j)
    ensures i == j
  {
  }

  /** Handing an instance from one holder to another keeps ownership linear. */
  lemma LinearMove(s: State, s': State, from: Holder, to: Holder, i: nat)
    requires Linear(s) && from != Closed && Holds(s, from, i)
    requires s'.built == s.built && NoDuplicates(s'.closes)
    requires forall h, j: nat :: Holds(s', h, j) <==> (Holds(s, h, j) && h != from) || (h == to && j == i)
    ensures Linear(s')
  {
    forall j: nat | j < |s'.built| ensures Held(s', j) {
      assert Held(s, j);
      var h :| Holds(s, h, j);
      if h == from {
        HoldsOne(s, from, i, j);
        assert Holds(s', to, j);
      } else {
        assert Holds(s', h, j);
      }
    }
  }

  /** Giving a new instance to a holder keeps ownership linear. */
  lemma LinearCreate(s: State, s': State, origin: Origin, to: Holder)
    requires Linear(s) && s'.built == s.built + [origin] && NoDuplicates(s'.closes)
    requires forall h, j: nat :: Holds(s', h, j) <==> Holds(s, h, j) || (h == to && j == |s.built|)
    ensures Linear(s')
  {
    forall j: nat | j < |s'.built| ensures Held(s', j) {
      if j < |s.built| {
        assert Held(s, j);
        var h :| Holds(s, h, j);
        assert Holds(s', h, j);
      } else {
        assert Holds(s', to, j);
      }
    }
  }

  lemma LinearCloseStandby(s: State)
    requires Linear(s)
    ensures Linear(CloseStandby(s))
  {
    if s.standby.Some? {
      var i, s' := s.standby.value, CloseStandby(s);
      assert Holds(s, Standby, i);
      assert !Holds(s, Closed, i);
      forall h, j: nat ensures Holds(s', h, j) <==> (Holds(s, h, j) && h != Standby) || (h == Closed && j == i) {}
      LinearMove(s, s', Standby, Closed, i);
    }
  }

  lemma LinearFinish(s: State, id: string)
    requires Linear(s)
    ensures Linear(DoFinish(s, id))
  {
    if id in s.running {
      var i, s' := s.running[id].inst, DoFinish(s, id);
      assert Holds(s, RunBy(id), i);
      assert !Holds(s, Closed, i);
      forall h, j: nat ensures Holds(s', h, j) <==> (Holds(s, h, j) && h != RunBy(id)) || (h == Closed && j == i) {}
      LinearMove(s, s', RunBy(id), Closed, i);
    }
  }

  lemma LinearGiveInstance(s: State, id: string, isolation: Isolation, created: bool)
    requires Linear(s) && id !in s.running
    ensures Linear(GiveInstance(s, id, isolation, created))
  {
    var s' := GiveInstance(s, id, isolation, created);
    if s.standby.Some? && s.params.Some? && s.params.value.isolation == isolation {
      var i := s.standby.value;
      assert Holds(s, Standby, i);
      forall h, j: nat ensures Holds(s', h, j) <==> (Holds(s, h, j) && h != Standby) || (h == RunBy(id) && j == i) {}
      LinearMove(s, s', Standby, RunBy(id), i);
    } else {
      LinearCloseStandby(s);
      var s1 := CloseStandby(s);
      if created {
        forall h, j: nat ensures Holds(s', h, j) <==> Holds(s1, h, j) || (h == RunBy(id) && j == |s1.built|) {}
        LinearCreate(s1, s', ForTask(isolation), RunBy(id));
      } else {
        LinearSame(s1, s');
      }
    }
  }

  /** Ownership only depends on who holds what. */
  lemma LinearSame(s: State, s': State)
    requires Linear(s)
    requires s'.built == s.built && s'.closes == s.closes && s'.standby == s.standby && s'.running == s.running
    ensures Linear(s')
  {
    forall h, j: nat ensures Holds(s', h, j) <==> Holds(s, h, j) {}
    forall j: nat | j < |s'.built| ensures Held(s', j) {
      assert Held(s, j);
      var h :| Holds(s, h, j);
      assert Holds(s', h, j);
    }
  }

  lemma LinearCreateStandby(s: State, outcome: Creation)
    requires Linear(s)
    ensures Linear(DoCreateStandby(s, outcome))
  {
    var s' := DoCreateStandby(s, outcome);
    if s'.built != s.built {
      var holder := if outcome.Warmed? then Standby else Closed;
      assert Holds(s, Closed, |s.built|) <==> |s.built| in s.closes;
      forall h, j: nat ensures Holds(s', h, j) <==> Holds(s, h, j) || (h == holder && j == |s.built|) {}
      LinearCreate(s, s', ForStandby(s.params.value), holder);
    }
  }

  lemma LinearStep(s: State, step: Step)
    requires Linear(s) && Registered(s)
    ensures Linear(Do(s, step))
  {
    match step
    case CreateStandby(outcome) =>
      LinearCreateStandby(s, outcome);
    case StartTask(id, task, isolation, created) =>
      if id !in s.tasks {
        var s1 := s.(tasks := s.tasks[id := task]);
        LinearSame(s, s1);
        LinearGiveInstance(s1, id, isolation, created);
      }
    case Finish(id) =>
      LinearFinish(s, id);
    case Complete(id) =>
      LinearSame(s, Do(s, step));
    case StopTask(_) =>
    case UpdateStandby(params) =>
      LinearCloseStandby(s);
      LinearSame(if s.params != params then CloseStandby(s) else s, Do(s, step));
  }

  lemma StandbyStep(s: State, step: Step)
    requires StandbyCurrent(s) && IsolationRespected(s)
    ensures StandbyCurrent(Do(s, step)) && IsolationRespected(Do(s, step))
  {
  }

  lemma ReservedStep(s: State, step: Step)
    requires Budget(s)
    requires step.StartTask? ==> NonNegative(step.task.resources)
    ensures Budget(Do(s, step))
  {
    if step.Complete? && step.id in s.pending && step.id in s.tasks && s.standby.Some? && s.params.Some? {
      FitsAfterRemoval(s.total, s.tasks, step.id, s.params.value.resources);
    }
  }

  /** Every step keeps every invariant. */
  lemma InvStep(s: State, step: Step)
    requires Inv(s)
    ensures Inv(Do(s, step))
  {
    RegisteredStep(s, step);
    LinearStep(s, step);
    StandbyStep(s, step);
  }

  // ---------- what each step changes, and what it leaves alone ----------

  /** The steps that take a held standby out of its slot. */
  ghost predicate GivesUpStandby(s: State, step: Step) {
    match step
    case StartTask(id, _, _, _) => id !in s.tasks
    case UpdateStandby(params) => params != s.params
    case _ => false
  }

  /** A held standby leaves the slot by the start of an unregistered task or an update to other parameters only. */
  lemma StandbyLeavesExactly(s: State, step: Step)
    requires s.standby.Some?
    ensures GivesUpStandby(s, step) ==> Do(s, step).standby.None?
    ensures !GivesUpStandby(s, step) ==> Do(s, step).standby == s.standby
  {
  }

  /** An empty slot is filled by a warmed-up new instance for the current parameters if they fit, and not otherwise. */
  lemma StandbyArrivesExactly(s: State, step: Step)
    requires s.standby.None?
    ensures Do(s, step).standby.Some? <==>
      step == CreateStandby(Warmed) && s.params.Some? && Fits(s.total, s.tasks, s.params.value.resources)
    ensures Do(s, step).standby.Some? ==>
      Do(s, step).standby == Some(|s.built|) && Do(s, step).built == s.built + [ForStandby(s.params.value)]
  {
  }

  /** The parameters are those of the last update. */
  lemma ParametersExactly(s: State, step: Step)
    ensures Do(s, step).params == if step.UpdateStandby? then step.params else s.params
    ensures Do(s, step).total == s.total
  {
  }

  /** A task is registered by its start and deregistered by the receipt of its report, and by nothing else. */
  lemma RegistryExactly(s: State, step: Step, id: string)
    ensures
      var s' := Do(s, step);
      && (id in s'.tasks <==>
            (step.StartTask? && step.id == id) || (id in s.tasks && !(step == Complete(id) && id in s.pending)))
      && (id in s'.tasks ==> s'.tasks[id] == if id in s.tasks then s.tasks[id] else step.task)
  {
  }

  /** A started task runs on the standby if that matches, else on a new instance if that can be created. */
  ghost predicate GetsInstance(s: State, step: Step, id: string) {
    && step.StartTask? && step.id == id && id !in s.tasks
    && (step.created || (s.standby.Some? && s.params.Some? && s.params.value.isolation == step.isolation))
  }

  /** A task runs from its start, with an instance, to its own end, and reports from its end to the receipt. */
  lemma GoroutineExactly(s: State, step: Step, id: string)
    requires Registered(s)
    ensures
      var s' := Do(s, step);
      && (id in s'.running <==> (id in s.running && step != Finish(id)) || GetsInstance(s, step, id))
      && (id in s.running && id in s'.running ==> s'.running[id] == s.running[id])
      && (id in s'.pending <==> (id in s.pending && step != Complete(id)) || (step == Finish(id) && id in s.running))
  {
  }

  /** What a step closes: the instance of the goroutine that ends, a standby given up for nothing, a failed warm-up. */
  ghost function ClosedBy(s: State, step: Step): seq<nat> {
    match step
    case Finish(id) => if id in s.running then [s.running[id].inst] else []
    case StartTask(id, _, isolation, _) =>
      if id !in s.tasks && s.standby.Some? && !(s.params.Some? && s.params.value.isolation == isolation)
      then [s.standby.value] else []
    case UpdateStandby(params) => if params != s.params && s.standby.Some? then [s.standby.value] else []
    case CreateStandby(outcome) =>
      if outcome == WarmupFailed && s.standby.None? && s.params.Some? &&
         Fits(s.total, s.tasks, s.params.value.resources)
      then [|s.built|] else []
    case _ => []
  }

  lemma ClosesExactly(s: State, step: Step)
    ensures Do(s, step).closes == s.closes + ClosedBy(s, step)
  {
  }

  // ---------- whole runs ----------

  lemma {:induction false} InvReplay(s: State, steps: seq<Step>)
    requires Inv(s)
    ensures Inv(Replay(s, steps))
  {
    if steps != [] {
      InvReplay(s, steps[..|steps| - 1]);
      InvStep(Replay(s, steps[..|steps| - 1]), steps[|steps| - 1]);
    }
  }

  lemma {:induction false} BudgetReplay(s: State, steps: seq<Step>)
    requires Budget(s) && Sane(steps)
    ensures Budget(Replay(s, steps))
  {
    if steps != [] {
      BudgetReplay(s, steps[..|steps| - 1]);
      ReservedStep(Replay(s, steps[..|steps| - 1]), steps[|steps| - 1]);
    }
  }

  /** Every run, in every interleaving, stays within the invariants. */
  lemma {:induction false} RunInvariant(total: Resources, params: Option<Parameters>, steps: seq<Step>)
    ensures Inv(Replay(Initial(total, params), steps))
    ensures Sane(steps) ==> Budget(Replay(Initial(total, params), steps))
  {
    InvReplay(Initial(total, params), steps);
    if Sane(steps) {
      BudgetReplay(Initial(total, params), steps);
    }
  }

  /**
   In every run with non-negative amounts, a held standby's share of each resource is left free by
   the registered tasks, and so is within the configured total.
   */
  lemma {:induction false} StandbyShareIsFree(
    total: Resources, params: Option<Parameters>, steps: seq<Step>, key: string)
    requires Sane(steps)
    ensures
      var s := Replay(Initial(total, params), steps);
      s.standby.Some? ==>
        && s.params.Some?
        && (key in s.params.value.resources ==>
              && InUse(s.tasks, key) + s.params.value.resources[key] <= Get(s.total, key)
              && s.params.value.resources[key] <= Get(s.total, key))
  {
    RunInvariant(total, params, steps);
    InUseNonNegative(Replay(Initial(total, params), steps).tasks, key);
  }

  /** With a negative amount, completing the task takes back what made the standby fit. */
  lemma NegativeAmountBreaksReservation(key: string, id: string, isolation: Isolation)
    ensures
      var total, params := map[key := 1.0], Parameters(isolation, map[key := 2.0], "");
      var s := Replay(Initial(total, Some(params)), NegativeRun(key, id, isolation));
      s.standby.Some? && InUse(s.tasks, key) + params.resources[key] > Get(s.total, key)
  {
    var total, params := map[key := 1.0], Parameters(isolation, map[key := 2.0], "");
    var task := Task(0, map[key := -1.0]);
    var run := NegativeRun(key, id, isolation);
    var s0 := Initial(total, Some(params));
    var s1 := Do(s0, run[0]);
    assert s1.tasks == map[id := task] && id in s1.failed + s1.running.Keys;
    InUseRemove(map[id := task], id, key);
    assert map[id := task] - {id} == map[];
    var s2 := Do(s1, run[1]);
    assert s2.standby.Some?;
    var s3 := Do(s2, run[2]);
    var s4 := Do(s3, run[3]);
    assert s4.tasks == map[] && InUse(s4.tasks, key) == 0.0;
    assert run[..4] == run && run[..4][..3] == run[..3] && run[..3][..2] == run[..2];
    assert run[..2][..1] == run[..1] && run[..1][..0] == [];
    assert Replay(s0, run[..1]) == s1;
    assert Replay(s0, run[..2]) == s2;
    assert Replay(s0, run[..3]) == s3;
  }

  function NegativeRun(key: string, id: string, isolation: Isolation): seq<Step> {
    [StartTask(id, Task(0, map[key := -1.0]), isolation, true), CreateStandby(Warmed), Finish(id), Complete(id)]
  }

  /** In every run, each created instance has exactly one holder and is closed at most once. */
  lemma {:induction false} InstanceHasOneHolder(total: Resources, params: Option<Parameters>, steps: seq<Step>, i: nat)
    requires i < |Replay(Initial(total, params), steps).built|
    ensures
      var s := Replay(Initial(total, params), steps);
      && multiset(s.closes)[i] <= 1
      && exists h :: Holds(s, h, i) && forall h' :: Holds(s, h', i) ==> h' == h
  {
    RunInvariant(total, params, steps);
    var s := Replay(Initial(total, params), steps);
    assert Held(s, i);
    var h :| Holds(s, h, i);
    CountNoDuplicates(s.closes, i);
  }

  /**
   In every run, no completion is spurious: a reporting goroutine's task is registered, no task
   has two goroutines, and a registered task without one is a task whose instance creation failed.
   */
  lemma {:induction false} NoSpuriousCompletion(
    total: Resources, params: Option<Parameters>, steps: seq<Step>, id: string)
    ensures
      var s := Replay(Initial(total, params), steps);
      && s.spurious == 0
      && (id in s.pending || id in s.running ==> id in s.tasks)
      && !(id in s.pending && id in s.running)
      && (id in s.tasks && id !in s.pending && id !in s.running <==> id in s.failed)
  {
    RunInvariant(total, params, steps);
  }

  /**
   In every run, a task started while a standby instance is held gets that very instance exactly
   when the isolation of the current parameters is the one it asks for, and that instance was
   created from these parameters.
   */
  lemma {:induction false} StandbyHitMatches(
    total: Resources, params: Option<Parameters>, steps: seq<Step>,
    id: string, task: Task, isolation: Isolation, created: bool)
    requires Replay(Initial(total, params), steps).standby.Some? && id !in Replay(Initial(total, params), steps).tasks
    ensures
      var s := Replay(Initial(total, params), steps);
      var s', i := Do(s, StartTask(id, task, isolation, created)), s.standby.value;
      && s'.standby.None? && s.params.Some? && i < |s.built| && s.built[i] == ForStandby(s.params.value)
      && (id in s'.running && s'.running[id].inst == i <==> s.params.value.isolation == isolation)
      && (s.params.value.isolation != isolation ==> i in s'.closes)
  {
    RunInvariant(total, params, steps);
    var s := Replay(Initial(total, params), steps);
    assert Holds(s, Standby, s.standby.value);
  }

  lemma FailedStep(s: State, step: Step, id: string)
    requires Registered(s) && id in s.failed
    ensures
      var s' := Do(s, step);
      id in s'.failed && id in s.tasks && id in s'.tasks && s'.tasks[id] == s.tasks[id]
  {
  }

  /**
   A task whose instance could not be created keeps its registration, and with it its
   resources, for the rest of the run: no later step removes or restarts it.
   */
  lemma {:induction false} FailedCreationIsForever(s: State, steps: seq<Step>, id: string)
    requires Inv(s) && id in s.failed
    ensures
      var s' := Replay(s, steps);
      && id in s.tasks && id in s'.tasks && s'.tasks[id] == s.tasks[id]
      && id in s'.failed && id !in s'.running && id !in s'.pending
  {
    if steps != [] {
      var init := steps[..|steps| - 1];
      FailedCreationIsForever(s, init, id);
      InvReplay(s, init);
      FailedStep(Replay(s, init), steps[|steps| - 1], id);
      RegisteredStep(Replay(s, init), steps[|steps| - 1]);
    }
  }

  lemma ClosesStep(s: State, step: Step)
    ensures s.closes <= Do(s, step).closes && s.built <= Do(s, step).built
  {
  }

  /** The log of Close calls only grows, so an instance closed once is never handed out again. */
  lemma {:induction false} ClosedStaysClosed(s: State, steps: seq<Step>)
    ensures s.closes <= Replay(s, steps).closes && s.built <= Replay(s, steps).built
  {
    if steps != [] {
      ClosedStaysClosed(s, steps[..|steps| - 1]);
      ClosesStep(Replay(s, steps[..|steps| - 1]), steps[|steps| - 1]);
    }
  }

  /** When no task runs and no standby is held, every instance ever created was closed exactly once. */
  lemma QuiescentClosedAll(s: State)
    requires Inv(s) && s.standby.None? && s.running == map[]
    ensures NoDuplicates(s.closes) && forall i: nat :: i in s.closes <==> i < |s.built|
  {
    forall i: nat ensures i in s.closes <==> i < |s.built| {
      assert Holds(s, Closed, i) <==> i in s.closes;
      if i < |s.built| {
        assert Held(s, i);
        var h :| Holds(s, h, i);
        assert h == Closed;
      }
    }
  }
}
