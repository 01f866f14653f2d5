/** The Worker object of internal/worker/worker.go and internal/worker/task.go. */
module Worker {
  import opened Common
  import opened Resources
  import opened WorkerProtocol

  datatype TaskToStart = TaskToStart(id: string, isolation: Isolation, resources: Resources)

  datatype PollResponse = PollResponse(
    tasksToStop: seq<string>,
    tasksToStart: seq<TaskToStart>,
    shutdown: bool,
    updatedStandbyInstances: seq<Parameters>)

  datatype PollRequest = PollRequest(
    runningTasks: seq<string>,
    resourcesInUse: Resources,
    availableStandby: Option<Parameters>)

  datatype PollOutcome = Continue | Shutdown | Failed

  function Signed(amount: real, subtract: bool): real {
    if subtract then -amount else amount
  }

  /** Adds `resources` to `base`, or subtracts them, key by key. */
  method Accumulate(base: Resources, resources: Resources, subtract: bool) returns (result: Resources)
    ensures forall key :: Get(result, key) == Get(base, key) + Signed(Get(resources, key), subtract)
  {
    result := base;
    var todo := resources.Keys;
    while todo != {}
      invariant todo <= resources.Keys
      invariant forall key ::
        Get(result, key) == Get(base, key) + (if key in todo then 0.0 else Signed(Get(resources, key), subtract))
    {
      var key :| key in todo;
      result := result[key := Get(result, key) + Signed(resources[key], subtract)];
      todo := todo - {key};
    }
  }

  lemma InUseNext(tasks: map<string, Task>, todo: set<string>, id: string, key: string)
    requires id in todo && todo <= tasks.Keys
    ensures InUse(tasks - (todo - {id}), key) == Get(tasks[id].resources, key) + InUse(tasks - todo, key)
  {
    assert tasks - (todo - {id}) == (tasks - todo)[id := tasks[id]];
    InUseAdd(tasks - todo, id, tasks[id], key);
  }

  // ---------- what one poll makes the worker do ----------

  /** Steps the poll loop takes on command, as opposed to goroutines ending and being deregistered. */
  ghost predicate Commanded(step: Step) {
    !step.Finish? && !step.Complete?
  }

  ghost function Commands(steps: seq<Step>): seq<Step> {
    if steps == [] then []
    else
      var last := steps[|steps| - 1];
      Commands(steps[..|steps| - 1]) + (if Commanded(last) then [last] else [])
  }

  lemma CommandsSnoc(steps: seq<Step>, step: Step)
    ensures Commands(steps + [step]) == Commands(steps) + (if Commanded(step) then [step] else [])
  {
    assert (steps + [step])[..|steps|] == steps;
  }

  ghost function Stops(ids: seq<string>): seq<Step> {
    seq(|ids|, i requires 0 <= i < |ids| => WorkerProtocol.StopTask(ids[i]))
  }

  ghost function Start(upstream: int, t: TaskToStart, created: bool): Step {
    WorkerProtocol.StartTask(t.id, Task(upstream, t.resources), t.isolation, created)
  }

  ghost function Starts(upstream: int, tasks: seq<TaskToStart>, created: seq<bool>): seq<Step>
    requires |created| == |tasks|
  {
    seq(|tasks|, i requires 0 <= i < |tasks| => Start(upstream, tasks[i], created[i]))
  }

  /** Standby parameters are not updated by a response that shuts the worker down. */
  ghost function Updates(response: PollResponse): seq<Step> {
    if response.shutdown || response.updatedStandbyInstances == [] then []
    else [WorkerProtocol.UpdateStandby(Some(response.updatedStandbyInstances[0]))]
  }

  /** What a response commands: stops, then starts, then at most one standby update. */
  ghost function Orders(upstream: int, response: PollResponse, created: seq<bool>): seq<Step>
    requires |created| == |response.tasksToStart|
  {
    Stops(response.tasksToStop) + Starts(upstream, response.tasksToStart, created) + Updates(response)
  }

  ghost predicate AllCreated(registered: seq<bool>, responses: seq<Option<PollResponse>>, created: seq<seq<bool>>) {
    && |created| == |registered| == |responses|
    && forall i :: 0 <= i < |created| && Answered(registered[i], responses[i]) ==>
         |created[i]| == |responses[i].value.tasksToStart|
  }

  /** Every stop comes first, every start next, each with what the response says, and a standby update last. */
  lemma OrdersExactly(upstream: int, response: PollResponse, created: seq<bool>, i: nat)
    requires |created| == |response.tasksToStart|
    ensures
      var orders, stops, starts :=
        Orders(upstream, response, created), |response.tasksToStop|, |response.tasksToStart|;
      && (i < stops ==> i < |orders| && orders[i] == WorkerProtocol.StopTask(response.tasksToStop[i]))
      && (i < starts ==>
            var t := response.tasksToStart[i];
            stops + i < |orders| &&
            orders[stops + i] == WorkerProtocol.StartTask(t.id, Task(upstream, t.resources), t.isolation, created[i]))
      && (if !response.shutdown && response.updatedStandbyInstances != []
          then orders[stops + starts..] == [WorkerProtocol.UpdateStandby(Some(response.updatedStandbyInstances[0]))]
          else |orders| == stops + starts)
  {
  }

  /** The commands of one turn of the poll loop, upstream by upstream. */
  ghost function AllOrders(
    upstreams: seq<int>, registered: seq<bool>, responses: seq<Option<PollResponse>>,
    created: seq<seq<bool>>): seq<Step>
    requires |upstreams| == |created| && AllCreated(registered, responses, created)
  {
    if upstreams == [] then []
    else
      var n := |upstreams| - 1;
      AllOrders(upstreams[..n], registered[..n], responses[..n], created[..n]) +
      (if Answered(registered[n], responses[n]) then Orders(upstreams[n], responses[n].value, created[n]) else [])
  }

  predicate Answered(registered: bool, response: Option<PollResponse>) {
    registered && response.Some?
  }

  lemma StopsSnoc(ids: seq<string>, i: nat)
    requires i < |ids|
    ensures Stops(ids[..i + 1]) == Stops(ids[..i]) + [WorkerProtocol.StopTask(ids[i])]
  {
  }

  lemma PolledNext(registered: seq<bool>, responses: seq<Option<PollResponse>>, n: nat)
    requires PolledUntil(registered, responses, n, Continue) && n < |registered|
    ensures PolledUntil(registered, responses, n + 1, OutcomeOf(registered[n], responses[n]))
  {
  }

  lemma StartsSnoc(upstream: int, tasks: seq<TaskToStart>, created: seq<bool>, next: bool)
    requires |created| < |tasks|
    ensures var n := |created|;
      Starts(upstream, tasks[..n + 1], created + [next]) ==
      Starts(upstream, tasks[..n], created) + [Start(upstream, tasks[n], next)]
  {
  }

  lemma AllOrdersSnoc(
    upstreams: seq<int>, registered: seq<bool>, responses: seq<Option<PollResponse>>,
    created: seq<seq<bool>>, next: seq<bool>, n: nat)
    requires n < |upstreams| == |registered| == |responses|
    requires AllCreated(registered[..n], responses[..n], created)
    requires Answered(registered[n], responses[n]) ==> |next| == |responses[n].value.tasksToStart|
    ensures AllCreated(registered[..n + 1], responses[..n + 1], created + [next])
    ensures
      AllOrders(upstreams[..n + 1], registered[..n + 1], responses[..n + 1], created + [next]) ==
      AllOrders(upstreams[..n], registered[..n], responses[..n], created) +
      (if Answered(registered[n], responses[n]) then Orders(upstreams[n], responses[n].value, next) else [])
  {
    assert upstreams[..n + 1][..n] == upstreams[..n] && registered[..n + 1][..n] == registered[..n];
    assert responses[..n + 1][..n] == responses[..n] && (created + [next])[..n] == created;
  }

  /** After `base`, the commands have been those of the first n upstreams. */
  ghost predicate Obeyed(
    base: seq<Step>, now: seq<Step>,
    upstreams: seq<int>, registered: seq<bool>, responses: seq<Option<PollResponse>>, n: nat, created: seq<seq<bool>>)
  {
    && n <= |upstreams| == |registered| == |responses|
    && AllCreated(registered[..n], responses[..n], created)
    && now == base + AllOrders(upstreams[..n], registered[..n], responses[..n], created)
  }

  lemma ObeyedNext(
    base: seq<Step>, now: seq<Step>, now': seq<Step>,
    upstreams: seq<int>, registered: seq<bool>, responses: seq<Option<PollResponse>>, n: nat,
    created: seq<seq<bool>>, next: seq<bool>)
    requires Obeyed(base, now, upstreams, registered, responses, n, created) && n < |upstreams|
    requires Answered(registered[n], responses[n]) ==> |next| == |responses[n].value.tasksToStart|
    requires now' == now +
      if Answered(registered[n], responses[n]) then Orders(upstreams[n], responses[n].value, next) else []
    ensures Obeyed(base, now', upstreams, registered, responses, n + 1, created + [next])
  {
    AllOrdersSnoc(upstreams, registered, responses, created, next, n);
  }

  /** How a poll ends: a worker that cannot register goes on, one without an answer fails. */
  function OutcomeOf(registered: bool, response: Option<PollResponse>): PollOutcome {
    if !registered then Continue
    else if response.None? then Failed
    else if response.value.shutdown then Shutdown
    else Continue
  }

  /** The first n upstreams were polled, each after the one before had gone on, and the last one ended in `outcome`. */
  ghost predicate PolledUntil(
    registered: seq<bool>, responses: seq<Option<PollResponse>>, n: nat, outcome: PollOutcome)
  {
    && n <= |registered| == |responses|
    && forall j :: 0 <= j < n ==> OutcomeOf(registered[j], responses[j]) == if j == n - 1 then outcome else Continue
  }

  /** The request describes the state: the upstream's tasks, each once, what all tasks use, and the standby. */
  ghost predicate Truthful(request: PollRequest, upstream: int, s: State) {
    && NoDuplicates(request.runningTasks)
    && (forall id :: id in request.runningTasks <==> id in s.tasks && s.tasks[id].upstream == upstream)
    && (forall key :: Get(request.resourcesInUse, key) == InUse(s.tasks, key))
    && request.availableStandby == if s.standby.Some? then s.params else None
  }

  /** An offered standby instance fits next to the resources reported in use. */
  ghost predicate StandbyFits(request: PollRequest, total: Resources) {
    request.availableStandby.Some? ==>
      var standby := request.availableStandby.value;
      forall key :: key in standby.resources ==>
        Get(request.resourcesInUse, key) + standby.resources[key] <= Get(total, key)
  }

  ghost predicate OnlyFewer(now: map<string, Task>, before: map<string, Task>) {
    forall id :: id in now ==> id in before && now[id] == before[id]
  }

  class Worker {
    const userSpecifiedResources: Resources
    var tasks: map<string, Task>
    var standbyParameters: Option<Parameters>
    var standbyInstance: Option<nat>

    // The world around the poll loop: goroutines, instances and the calls made on them.
    var running: map<string, Goroutine>
    var taskCompletions: set<string>
    var instances: nat
    ghost var failed: set<string>
    ghost var built: seq<Origin>
    ghost var closes: seq<nat>
    ghost var spurious: nat
    ghost const initial: State
    ghost var history: seq<Step>

    ghost function St(): State
      reads this
    {
      State(userSpecifiedResources, tasks, standbyParameters, standbyInstance, running, taskCompletions,
            failed, built, closes, spurious)
    }

    /** The fields are what the steps taken so far make of the initial state. */
    ghost predicate Valid()
      reads this
    {
      && St() == Replay(initial, history)
      && initial == Initial(initial.total, initial.params)
      && instances == |built|
    }

    constructor (resources: Resources, standby: Option<Parameters>)
      ensures Valid() && history == [] && St() == Initial(resources, standby)
    {
      userSpecifiedResources := resources;
      tasks, standbyParameters, standbyInstance := map[], standby, None;
      running, taskCompletions, instances := map[], {}, 0;
      failed, built, closes, spurious := {}, [], [], 0;
      initial, history := Initial(resources, standby), [];
    }

    lemma ValidInv()
      requires Valid()
      ensures Inv(St()) && (Sane(history) ==> Budget(St()))
    {
      RunInvariant(initial.total, initial.params, history);
    }

    lemma NothingSpurious()
      requires Valid()
      ensures spurious == 0
    {
      ValidInv();
    }

    /** Taking one more step keeps the fields in agreement with the history. */
    static lemma ReplayOne(initial: State, history: seq<Step>, step: Step)
      ensures Replay(initial, history + [step]) == Do(Replay(initial, history), step)
    {
      assert (history + [step])[..|history|] == history;
    }

    // ---------- resource bookkeeping ----------

    method ResourcesInUse() returns (result: Resources)
      ensures forall key :: Get(result, key) == InUse(tasks, key)
    {
      result := map[];
      var todo := tasks.Keys;
      assert tasks - todo == map[];
      while todo != {}
        invariant todo <= tasks.Keys
        invariant forall key :: Get(result, key) == InUse(tasks - todo, key)
      {
        var id :| id in todo;
        forall key
          ensures InUse(tasks - (todo - {id}), key) == Get(tasks[id].resources, key) + InUse(tasks - todo, key)
        {
          InUseNext(tasks, todo, id, key);
        }
        result := Accumulate(result, tasks[id].resources, false);
        todo := todo - {id};
      }
      assert tasks - todo == tasks;
    }

    /** What the tasks use and what is left add up to the configured total, for every key. */
    method ResourcesNotInUse() returns (result: Resources)
      ensures forall key :: Get(result, key) + InUse(tasks, key) == Get(userSpecifiedResources, key)
    {
      result := userSpecifiedResources;
      var todo := tasks.Keys;
      assert tasks - todo == map[];
      while todo != {}
        invariant todo <= tasks.Keys
        invariant forall key :: Get(result, key) + InUse(tasks - todo, key) == Get(userSpecifiedResources, key)
      {
        var id :| id in todo;
        forall key
          ensures InUse(tasks - (todo - {id}), key) == Get(tasks[id].resources, key) + InUse(tasks - todo, key)
        {
          InUseNext(tasks, todo, id, key);
        }
        result := Accumulate(result, tasks[id].resources, true);
        todo := todo - {id};
      }
      assert tasks - todo == tasks;
    }

    method CanFitResources(resources: Resources) returns (fits: bool)
      ensures fits <==> Fits(userSpecifiedResources, tasks, resources)
      ensures fits <==>
        forall key :: key in resources ==> resources[key] <= Get(userSpecifiedResources, key) - InUse(tasks, key)
    {
      var resourcesNotInUse := ResourcesNotInUse();
      var todo := resources.Keys;
      while todo != {}
        invariant todo <= resources.Keys
        invariant forall key :: key in resources && key !in todo ==>
          InUse(tasks, key) + resources[key] <= Get(userSpecifiedResources, key)
      {
        var key :| key in todo;
        assert Get(resourcesNotInUse, key) + InUse(tasks, key) == Get(userSpecifiedResources, key);
        if Get(resourcesNotInUse, key) < resources[key] {
          return false;
        }
        todo := todo - {key};
      }
      return true;
    }

    /** The registered tasks of one upstream, each once: over all upstreams these lists partition the registry. */
    method RunningTasks(upstream: int) returns (result: seq<string>)
      ensures NoDuplicates(result)
      ensures forall id :: id in result <==> id in tasks && tasks[id].upstream == upstream
    {
      result := [];
      var todo := tasks.Keys;
      while todo != {}
        invariant todo <= tasks.Keys && NoDuplicates(result)
        invariant forall id :: id in result <==> id in tasks && id !in todo && tasks[id].upstream == upstream
      {
        var id :| id in todo;
        if tasks[id].upstream == upstream {
          result := result + [id];
        }
        todo := todo - {id};
      }
    }

    // ---------- instances ----------

    /** persistentworker.New, which may fail. */
    method NewInstance(ghost origin: Origin) returns (inst: Option<nat>)
      requires instances == |built|
      modifies this`instances, this`built
      ensures instances == |built|
      ensures inst.None? ==> built == old(built)
      ensures inst.Some? ==> inst.value == |old(built)| && built == old(built) + [origin]
    {
      var ok: bool := *;
      if !ok {
        return None;
      }
      inst := Some(instances);
      instances, built := instances + 1, built + [origin];
    }

    /** Hands out the standby instance if it matches, and otherwise closes it and creates a new one. */
    method GetInstance(isolation: Isolation) returns (inst: Option<nat>)
      requires instances == |built|
      requires standbyInstance.Some? ==> standbyParameters.Some?
      modifies this`standbyInstance, this`closes, this`instances, this`built
      ensures instances == |built| && standbyInstance.None?
      ensures
        if old(standbyInstance).Some? && standbyParameters.value.isolation == isolation
        then inst == old(standbyInstance) && closes == old(closes) && built == old(built)
        else
          && closes == old(closes) + (if old(standbyInstance).Some? then [old(standbyInstance).value] else [])
          && (if inst.Some? then inst.value == |old(built)| && built == old(built) + [ForTask(isolation)]
              else built == old(built))
    {
      if standbyInstance.Some? {
        var standby := standbyInstance.value;
        standbyInstance := None;
        if standbyParameters.value.isolation == isolation {
          return Some(standby);
        }
        closes := closes + [standby];
      }
      inst := NewInstance(ForTask(isolation));
    }

    method StartTask(upstream: int, t: TaskToStart) returns (ghost created: bool)
      requires Valid()
      modifies this`tasks, this`standbyInstance, this`closes, this`instances, this`built
      modifies this`running, this`failed, this`history
      ensures Valid()
      ensures history == old(history) + [Start(upstream, t, created)]
      ensures St() == DoStartTask(old(St()), t.id, Task(upstream, t.resources), t.isolation, created)
      ensures t.id in old(tasks) ==> St() == old(St())
      ensures t.id !in old(tasks) ==>
        && tasks == old(tasks)[t.id := Task(upstream, t.resources)] && standbyInstance.None?
        && (t.id in running <==> t.id !in failed)
        && (t.id in running ==> running == old(running)[t.id := Goroutine(running[t.id].inst, t.isolation)])
        && (t.id in failed ==> running == old(running))
    {
      created := false;
      ValidInv();
      if t.id !in tasks {
        tasks := tasks[t.id := Task(upstream, t.resources)];
        var inst := GetInstance(t.isolation);
        created := inst.Some?;
        if inst.Some? {
          running := running[t.id := Goroutine(inst.value, t.isolation)];
        } else {
          failed := failed + {t.id};
        }
      }
      ghost var step := WorkerProtocol.StartTask(t.id, Task(upstream, t.resources), t.isolation, created);
      assert St() == DoStartTask(old(St()), t.id, Task(upstream, t.resources), t.isolation, created);
      ReplayOne(initial, history, step);
      history := history + [step];
    }

    /** A standby is configured, missing and fits. */
    ghost predicate WantsStandby()
      reads this
    {
      && standbyInstance.None? && standbyParameters.Some?
      && Fits(userSpecifiedResources, tasks, standbyParameters.value.resources)
    }

    /** Creates and warms up a standby instance if one is configured, missing and fits. */
    method TryCreateStandby() returns (failure: bool, ghost outcome: Creation)
      requires Valid()
      modifies this`standbyInstance, this`closes, this`instances, this`built, this`history
      ensures Valid()
      ensures history == old(history) + [CreateStandby(outcome)]
      ensures St() == DoCreateStandby(old(St()), outcome)
      ensures failure ==> !outcome.Warmed? && standbyInstance.None?
      ensures !failure ==> closes == old(closes)
      ensures !failure ==>
        standbyInstance == if old(WantsStandby()) then Some(|old(built)|) else old(standbyInstance)
    {
      failure, outcome := false, Warmed;
      if standbyParameters.Some? && standbyInstance.None? {
        var fits := CanFitResources(standbyParameters.value.resources);
        if fits {
          var inst := NewInstance(ForStandby(standbyParameters.value));
          if inst.None? {
            failure, outcome := true, NewFailed;
          } else {
            var warmed: bool := *;
            if !warmed {
              closes := closes + [inst.value];
              failure, outcome := true, WarmupFailed;
            } else {
              standbyInstance := inst;
            }
          }
        }
      }
      ReplayOne(initial, history, CreateStandby(outcome));
      history := history + [CreateStandby(outcome)];
    }

    method UpdateStandby(parameters: Option<Parameters>)
      requires Valid()
      modifies this`standbyInstance, this`closes, this`standbyParameters, this`history
      ensures Valid()
      ensures history == old(history) + [WorkerProtocol.UpdateStandby(parameters)]
      ensures St() == DoUpdateStandby(old(St()), parameters)
      ensures standbyParameters == parameters
      ensures parameters == old(standbyParameters) ==> standbyInstance == old(standbyInstance) && closes == old(closes)
      ensures parameters != old(standbyParameters) ==>
        && standbyInstance.None?
        && closes == old(closes) + if old(standbyInstance).Some? then [old(standbyInstance).value] else []
    {
      if standbyInstance.Some? && standbyParameters != parameters {
        closes := closes + [standbyInstance.value];
        standbyInstance := None;
      }
      standbyParameters := parameters;
      ReplayOne(initial, history, WorkerProtocol.UpdateStandby(parameters));
      history := history + [WorkerProtocol.UpdateStandby(parameters)];
    }

    /** Cancels a task's context; the goroutine finishes on its own later. */
    method StopTask(id: string)
      requires Valid()
      modifies this`history
      ensures Valid() && St() == old(St()) && history == old(history) + [WorkerProtocol.StopTask(id)]
    {
      ReplayOne(initial, history, WorkerProtocol.StopTask(id));
      history := history + [WorkerProtocol.StopTask(id)];
    }

    // ---------- completions ----------

    /** The deferred end of a task's goroutine: it closes its instance and blocks on reporting the task. */
    method FinishTask(id: string)
      requires Valid() && id in running
      modifies this`running, this`taskCompletions, this`closes, this`history
      ensures Valid() && history == old(history) + [Finish(id)]
      ensures St() == DoFinish(old(St()), id)
      ensures running == old(running) - {id} && taskCompletions == old(taskCompletions) + {id}
      ensures closes == old(closes) + [old(running)[id].inst]
      ensures |running| == old(|running|) - 1 && |taskCompletions| <= old(|taskCompletions|) + 1
    {
      ReplayOne(initial, history, Finish(id));
      ghost var keys := running.Keys;
      closes, taskCompletions := closes + [running[id].inst], taskCompletions + {id};
      running := running - {id};
      assert running.Keys == keys - {id};
      history := history + [Finish(id)];
    }

    /** Any number of goroutines finish. */
    method Interfere()
      requires Valid()
      modifies this`running, this`taskCompletions, this`closes, this`history
      ensures Valid() && old(history) <= history && Commands(history) == Commands(old(history))
      ensures |running| + |taskCompletions| <= old(|running| + |taskCompletions|)
    {
      while running != map[]
        invariant Valid() && old(history) <= history && Commands(history) == Commands(old(history))
        invariant |running| + |taskCompletions| <= old(|running| + |taskCompletions|)
        decreases |running|
      {
        var more: bool := *;
        if !more {
          break;
        }
        var id :| id in running;
        CommandsSnoc(history, Finish(id));
        FinishTask(id);
      }
    }

    /** The poll loop receives one report. */
    method CompleteTask(id: string)
      requires Valid() && id in taskCompletions
      modifies this`taskCompletions, this`history, this`tasks, this`spurious
      ensures Valid() && history == old(history) + [Complete(id)]
      ensures St() == DoComplete(old(St()), id)
      ensures tasks == old(tasks) - {id} && taskCompletions == old(taskCompletions) - {id}
      ensures |taskCompletions| == old(|taskCompletions|) - 1
      ensures OnlyFewer(tasks, old(tasks))
    {
      ReplayOne(initial, history, Complete(id));
      history := history + [Complete(id)];
      taskCompletions := taskCompletions - {id};
      if id in tasks {
        tasks := tasks - {id};
        assert St() == DoComplete(old(St()), id);
      } else {
        spurious := spurious + 1;
        assert St() == DoComplete(old(St()), id);
      }
    }

    /** Receives reports until no goroutine is waiting to send one, while others go on finishing. */
    method RegisterTaskCompletions()
      requires Valid()
      modifies this`running, this`taskCompletions, this`closes, this`history, this`tasks, this`spurious
      ensures Valid() && old(history) <= history && Commands(history) == Commands(old(history))
      ensures taskCompletions == {} && spurious == 0
      ensures OnlyFewer(tasks, old(tasks))
    {
      Interfere();
      while taskCompletions != {}
        invariant Valid() && old(history) <= history && Commands(history) == Commands(old(history))
        invariant OnlyFewer(tasks, old(tasks))
        decreases |running| + |taskCompletions|
      {
        var id :| id in taskCompletions;
        CommandsSnoc(history, Complete(id));
        CompleteTask(id);
        Interfere();
      }
      NothingSpurious();
    }

    // ---------- polling ----------

    /** What the worker reports about itself. */
    method ComposeRequest(upstream: int) returns (request: PollRequest)
      requires Valid()
      ensures Truthful(request, upstream, St())
      ensures Sane(history) ==> StandbyFits(request, userSpecifiedResources)
    {
      ValidInv();
      var runningTasks := RunningTasks(upstream);
      var resourcesInUse := ResourcesInUse();
      var standby := if standbyInstance.Some? then standbyParameters else None;
      request := PollRequest(runningTasks, resourcesInUse, standby);
    }

    method StopTasks(ids: seq<string>)
      requires Valid()
      modifies this`running, this`taskCompletions, this`closes, this`history
      ensures Valid() && old(history) <= history
      ensures Commands(history) == Commands(old(history)) + Stops(ids)
    {
      for i := 0 to |ids|
        invariant Valid() && old(history) <= history
        invariant Commands(history) == Commands(old(history)) + Stops(ids[..i])
      {
        Interfere();
        CommandsSnoc(history, WorkerProtocol.StopTask(ids[i]));
        StopsSnoc(ids, i);
        StopTask(ids[i]);
      }
      assert ids[..|ids|] == ids;
    }

    method StartTasks(upstream: int, starts: seq<TaskToStart>) returns (ghost created: seq<bool>)
      requires Valid()
      modifies this
      ensures Valid() && old(history) <= history
      ensures |created| == |starts| && Commands(history) == Commands(old(history)) + Starts(upstream, starts, created)
    {
      created := [];
      for i := 0 to |starts|
        invariant Valid() && old(history) <= history && |created| == i
        invariant Commands(history) == Commands(old(history)) + Starts(upstream, starts[..i], created)
      {
        Interfere();
        ghost var before := history;
        ghost var ok := StartTask(upstream, starts[i]);
        CommandsSnoc(before, Start(upstream, starts[i], ok));
        StartsSnoc(upstream, starts, created, ok);
        created := created + [ok];
      }
      assert starts[..|starts|] == starts;
    }

    /**
     One poll of an upstream, with task goroutines ending at any moment. What the worker reports
     is true of its state, and if it offers a standby instance and all tasks so far asked for
     non-negative amounts, that instance's share fits next to the resources reported in use. Then
     it does what the response commands, in order, and nothing else.
     */
    method PollSingleUpstream(upstream: int, registered: bool, response: Option<PollResponse>)
      returns (outcome: PollOutcome, request: Option<PollRequest>, ghost reported: nat, ghost created: seq<bool>)
      requires Valid()
      modifies this
      ensures Valid() && old(history) <= history
      ensures outcome == OutcomeOf(registered, response)
      ensures outcome == Failed <==> registered && response.None?
      ensures outcome == Shutdown <==> Answered(registered, response) && response.value.shutdown
      ensures !registered ==> request.None? && St() == old(St())
      ensures registered ==>
        && request.Some? && reported <= |history|
        && Truthful(request.value, upstream, Replay(initial, history[..reported]))
      ensures request.Some? && Sane(history[..reported]) ==> StandbyFits(request.value, userSpecifiedResources)
      ensures Answered(registered, response) ==>
        && |created| == |response.value.tasksToStart|
        && Commands(history) == Commands(old(history)) + Orders(upstream, response.value, created)
      ensures !Answered(registered, response) ==> Commands(history) == Commands(old(history))
    {
      outcome, request, reported, created := Continue, None, 0, [];
      if !registered {
        return;
      }
      RegisterTaskCompletions();
      Interfere();
      var composed := ComposeRequest(upstream);
      request := Some(composed);
      ghost var sent := history;
      reported := |sent|;
      assert sent[..reported] == sent;
      if response.None? {
        outcome := Failed;
        return;
      }
      created := Obey(upstream, response.value);
      assert history[..reported] == sent;
      outcome := if response.value.shutdown then Shutdown else Continue;
    }

    method Obey(upstream: int, response: PollResponse) returns (ghost created: seq<bool>)
      requires Valid()
      modifies this
      ensures Valid() && old(history) <= history
      ensures |created| == |response.tasksToStart|
      ensures Commands(history) == Commands(old(history)) + Orders(upstream, response, created)
    {
      StopTasks(response.tasksToStop);
      ghost var stopped := Commands(history);
      created := StartTasks(upstream, response.tasksToStart);
      ghost var started := Commands(history);
      FollowUpdate(response);
      assert started == stopped + Starts(upstream, response.tasksToStart, created);
      assert Commands(history) == started + Updates(response);
    }

    /** Takes over the first of the updated standby parameters, if any, unless the worker shuts down. */
    method FollowUpdate(response: PollResponse)
      requires Valid()
      modifies this`standbyInstance, this`closes, this`standbyParameters, this`history
      ensures Valid() && old(history) <= history
      ensures Commands(history) == Commands(old(history)) + Updates(response)
    {
      if !response.shutdown && |response.updatedStandbyInstances| > 0 {
        var parameters := Some(response.updatedStandbyInstances[0]);
        CommandsSnoc(history, WorkerProtocol.UpdateStandby(parameters));
        UpdateStandby(parameters);
      }
    }

    /**
     One turn of the poll loop: the standby first, then the upstreams in order until one fails or
     shuts down. Nothing is done but creating the standby and obeying the polled upstreams.
     */
    method PollUpstreams(upstreams: seq<int>, registered: seq<bool>, responses: seq<Option<PollResponse>>)
      returns (outcome: PollOutcome, polled: nat, ghost creation: Creation, ghost created: seq<seq<bool>>)
      requires Valid() && |upstreams| == |registered| == |responses|
      modifies this
      ensures Valid() && old(history) < history
      ensures polled <= |upstreams| && (outcome == Continue ==> polled == |upstreams|)
      ensures PolledUntil(registered, responses, polled, outcome)
      ensures Obeyed(Commands(old(history)) + [CreateStandby(creation)], Commands(history),
                     upstreams, registered, responses, polled, created)
    {
      polled, created := 0, [];
      var failure: bool;
      ghost var before := history;
      failure, creation := TryCreateStandby();
      CommandsSnoc(before, CreateStandby(creation));
      ghost var base := Commands(history);
      if failure {
        outcome := Failed;
        return;
      }
      outcome := Continue;
      while polled < |upstreams|
        invariant polled <= |upstreams| && outcome == Continue
        invariant Valid() && old(history) < history
        invariant PolledUntil(registered, responses, polled, Continue)
        invariant Obeyed(base, Commands(history), upstreams, registered, responses, polled, created)
      {
        var request;
        ghost var now, reported, started := Commands(history), 0, [];
        outcome, request, reported, started :=
          PollSingleUpstream(upstreams[polled], registered[polled], responses[polled]);
        ObeyedNext(base, now, Commands(history), upstreams, registered, responses, polled, created, started);
        PolledNext(registered, responses, polled);
        polled, created := polled + 1, created + [started];
        if outcome != Continue {
          return;
        }
      }
    }
  }
}
