/** The Parser object and the dependency pipeline of Parse (pkg/parser/parser.go). */
module Parser {
  import opened Common
  import opened Graph
  import opened Sorting
  import opened Validate
  import opened Dependencies
  import opened ServiceTasks
  import opened Builds
  import opened TaskLabels
  import opened Configurations
  import opened Records

  class Parser {
    var idNumbering: int
    var indexNumbering: int
    var disabledTaskNamesAndAliases: set<string>

    constructor ()
      ensures idNumbering == 0 && indexNumbering == 0 && disabledTaskNamesAndAliases == {}
    {
      idNumbering, indexNumbering, disabledTaskNamesAndAliases := 0, 0, {};
    }

    method NextTaskID() returns (id: int)
      modifies this`idNumbering
      ensures id == old(idNumbering) && idNumbering == old(idNumbering) + 1
    {
      id := idNumbering;
      idNumbering := idNumbering + 1;
    }

    method NextTaskLocalIndex() returns (index: int)
      modifies this`indexNumbering
      ensures index == old(indexNumbering) && indexNumbering == old(indexNumbering) + 1
    {
      index := indexNumbering;
      indexNumbering := indexNumbering + 1;
    }

    method ParseTasks(raw: seq<RawTask>) returns (tasks: seq<TaskLike>)
      modifies this
      ensures tasks == Numbered(raw, old(idNumbering), old(indexNumbering))
      ensures TasksOfRecords(raw, old(idNumbering), tasks)
      ensures idNumbering == old(idNumbering) + |raw| && indexNumbering == old(indexNumbering) + |tasks|
      ensures disabledTaskNamesAndAliases == old(disabledTaskNamesAndAliases) + DisabledNames(raw)
    {
      tasks := [];
      for i := 0 to |raw|
        invariant tasks == Numbered(raw[..i], old(idNumbering), old(indexNumbering))
        invariant idNumbering == old(idNumbering) + i && indexNumbering == old(indexNumbering) + |tasks|
        invariant disabledTaskNamesAndAliases == old(disabledTaskNamesAndAliases) + DisabledNames(raw[..i])
      {
        assert raw[..i + 1][..i] == raw[..i];
        var t := raw[i];
        var id := NextTaskID();
        var name := if t.name == "" then t.fallbackName else t.name;
        if !t.enabled {
          disabledTaskNamesAndAliases := disabledTaskNamesAndAliases + {name, t.alias};
        } else {
          var index := NextTaskLocalIndex();
          tasks := tasks + [TaskLike(id, name, t.alias, t.fallbackName, t.dependsOnNames, [], index, t.docker)];
        }
      }
      assert raw[..|raw|] == raw;
      NumberedExactly(raw, old(idNumbering), old(indexNumbering));
    }

    /** Finds the service task of a hash or creates it with the next numbers. */
    method ServiceFor(services: map<string, ProtoTask>, hash: string, ghost firstID: int, ghost firstIndex: int,
                      registry: string, repository: string)
      returns (services': map<string, ProtoTask>)
      requires ServicesOk(services, firstID, firstIndex, registry, repository)
      requires idNumbering == firstID + |services| && indexNumbering == firstIndex + |services|
      modifies this`idNumbering, this`indexNumbering
      ensures ServicesOk(services', firstID, firstIndex, registry, repository)
      ensures idNumbering == firstID + |services'| && indexNumbering == firstIndex + |services'|
      ensures hash in services' && (hash in services ==> services' == services)
      ensures hash !in services ==> services' == services[hash := services'[hash]]
    {
      services' := services;
      if hash !in services {
        var id := NextTaskID();
        var index := NextTaskLocalIndex();
        var tag := BuildTag(registry, repository, hash);
        var service := ProtoTask(id, [], index, "Prebuild", Service(hash, tag), NoDockerfile, "");
        ServicesGrow(services, hash, service, firstID, firstIndex, registry, repository);
        services' := services[hash := service];
      }
    }

    /** The body of the loop for one task. */
    method RewriteTask(t: ProtoTask, services: map<string, ProtoTask>, ghost firstID: int, ghost firstIndex: int,
                       registry: string, repository: string)
      returns (u: ProtoTask, services': map<string, ProtoTask>)
      requires HasHash(t.docker) && ServicesOk(services, firstID, firstIndex, registry, repository)
      requires idNumbering == firstID + |services| && indexNumbering == firstIndex + |services|
      modifies this`idNumbering, this`indexNumbering
      ensures ServicesOk(services', firstID, firstIndex, registry, repository)
      ensures idNumbering == firstID + |services'| && indexNumbering == firstIndex + |services'|
      ensures Rewritten(t, u, services', registry, repository)
      ensures Extends(services, t, services')
    {
      u, services' := t, services;
      if t.docker.Dockerfile? {
        var hash := t.docker.hash.value;
        services' := ServiceFor(services, hash, firstID, firstIndex, registry, repository);
        u := t.(requiredGroups := t.requiredGroups + [services'[hash].localGroupId],
                image := ImageName(registry, repository, hash));
      }
    }

    /** One turn of the loop of CreateServiceTasks. */
    method RewriteNext(
      t: ProtoTask, services: map<string, ProtoTask>, ghost tasks: seq<ProtoTask>, ghost updated: seq<ProtoTask>,
      ghost firstID: int, ghost firstIndex: int, registry: string, repository: string)
      returns (u: ProtoTask, services': map<string, ProtoTask>)
      requires HasHash(t.docker) && Progress(tasks, updated, services, registry, repository)
      requires Counted(services, firstID, firstIndex, idNumbering, indexNumbering, registry, repository)
      modifies this`idNumbering, this`indexNumbering
      ensures Progress(tasks + [t], updated + [u], services', registry, repository)
      ensures Counted(services', firstID, firstIndex, idNumbering, indexNumbering, registry, repository)
    {
      u, services' := RewriteTask(t, services, firstID, firstIndex, registry, repository);
      ProgressSnoc(tasks, updated, services, t, u, services', registry, repository);
    }

    /** One prebuild task per distinct Dockerfile hash; fails exactly when a hash is missing. */
    method CreateServiceTasks(protoTasks: seq<ProtoTask>, registry: string, repository: string)
      returns (ok: bool, updated: seq<ProtoTask>, services: map<string, ProtoTask>)
      modifies this`idNumbering, this`indexNumbering
      ensures ok <==> AllHashed(protoTasks)
      ensures ok ==> Progress(protoTasks, updated, services, registry, repository)
      ensures
        Counted(services, old(idNumbering), old(indexNumbering), idNumbering, indexNumbering, registry, repository)
    {
      updated, services := [], map[];
      for i := 0 to |protoTasks|
        invariant Progress(protoTasks[..i], updated, services, registry, repository)
        invariant
          Counted(services, old(idNumbering), old(indexNumbering), idNumbering, indexNumbering, registry, repository)
      {
        var t := protoTasks[i];
        if t.docker.Dockerfile? && t.docker.hash.None? {
          assert t in protoTasks;
          return false, updated, services;
        }
        TakeNext(protoTasks, i);
        var u;
        u, services := RewriteNext(
          t, services, protoTasks[..i], updated, old(idNumbering), old(indexNumbering), registry, repository);
        updated := updated + [u];
      }
      assert protoTasks[..|protoTasks|] == protoTasks;
      RewrittenHashed(protoTasks, updated, services, registry, repository);
      ok := true;
    }

    /**
     From validated tasks to the returned ones: service tasks are appended, all are labelled, and
     everything is sorted by ID. Fails exactly when a hash is missing or computing labels fails.
     */
    method AddServices(
      protoTasks: seq<ProtoTask>, ghost firstIndex: int, registry: string, repository: string, labelsOf: LabelsOf)
      returns (r: Result<seq<Labelled>>)
      requires UserTasks(protoTasks, idNumbering, firstIndex) && indexNumbering == firstIndex + |protoTasks|
      requires Closed(ProtoGraph(protoTasks)) && Acyclic(ProtoGraph(protoTasks))
      modifies this`idNumbering, this`indexNumbering
      ensures
        if AllHashed(protoTasks)
        then Completed(protoTasks, firstIndex, registry, repository, labelsOf, r)
        else r.Err?
    {
      var ok, all := AppendServices(protoTasks, firstIndex, registry, repository);
      if !ok {
        return Err("missing Dockerfile hash");
      }
      r := LabelAndSort(all, labelsOf);
      if r.Err? {
        CannotBeLabelled(protoTasks, Sort(all, ById), firstIndex, registry, repository, labelsOf);
      }
    }

    /** User tasks, rewritten, and their service tasks, which sorted make a well-formed build. */
    method AppendServices(protoTasks: seq<ProtoTask>, ghost firstIndex: int, registry: string, repository: string)
      returns (ok: bool, all: seq<ProtoTask>)
      requires UserTasks(protoTasks, idNumbering, firstIndex) && indexNumbering == firstIndex + |protoTasks|
      requires Closed(ProtoGraph(protoTasks)) && Acyclic(ProtoGraph(protoTasks))
      modifies this`idNumbering, this`indexNumbering
      ensures ok <==> AllHashed(protoTasks)
      ensures ok ==> Built(protoTasks, Sort(all, ById), firstIndex, registry, repository)
    {
      ghost var firstID := idNumbering;
      var updated, services;
      ok, updated, services := CreateServiceTasks(protoTasks, registry, repository);
      if !ok {
        return false, [];
      }
      var list;
      ghost var keys;
      list, keys := ListServices(services);
      BuildIsCorrect(Build(protoTasks, updated, services, keys, firstID, firstIndex, registry, repository), list);
      all := updated + list;
    }

    /** The tail of Parse for tasks with resolved dependencies. */
    method Finish(
      tasks: seq<TaskLike>, ghost firstIndex: int, registry: string, repository: string,
      valid: ProtoTask -> bool, labelsOf: LabelsOf)
      returns (r: Result<seq<Labelled>>)
      requires Ready(tasks, idNumbering, firstIndex) && indexNumbering == firstIndex + |tasks|
      modifies this`idNumbering, this`indexNumbering
      ensures Finished(Protos(tasks), firstIndex, registry, repository, valid, labelsOf, r)
    {
      var user := Protos(tasks);
      var fault := FindFault(tasks, valid);
      if fault.Some? {
        r := Err(fault.value);
        NotFinishable(user, firstIndex, registry, repository, valid, labelsOf, fault.value);
      } else {
        r := AddServices(user, firstIndex, registry, repository, labelsOf);
        FinishedIfHashed(user, firstIndex, registry, repository, valid, labelsOf, r);
      }
    }

    /** Numbers the records, resolves their names and finishes with the resolved tasks. */
    method Process(
      raw: seq<RawTask>, registry: string, repository: string, valid: ProtoTask -> bool, labelsOf: LabelsOf)
      returns (r: Result<seq<Labelled>>)
      modifies this
      ensures
        Processed(Numbered(raw, old(idNumbering), old(indexNumbering)),
                  old(disabledTaskNamesAndAliases) + DisabledNames(raw), old(indexNumbering),
                  registry, repository, valid, labelsOf, r)
    {
      ghost var firstID, firstIndex := idNumbering, indexNumbering;
      var tasks := ParseTasks(raw);
      PipelineFacts(raw, firstID, firstIndex);
      var resolved := ResolveDependenciesShallow(tasks, disabledTaskNamesAndAliases);
      if resolved.Err? {
        r := Err(resolved.message);
      } else if |tasks| == 0 {
        EmptyBuild(firstIndex, registry, repository, valid, labelsOf);
        r := Ok([]);
      } else {
        r := Finish(resolved.value, firstIndex, registry, repository, valid, labelsOf);
      }
    }

    /**
     The dependency pipeline of Parse. It fails if an enabled record lists an unknown name, the
     dependencies go in circles, a Dockerfile hash is missing, a task is invalid or labels of the built
     tasks cannot be computed, and in no other case. What it returns is a well-formed build with
     one user task for each enabled record, which says what the record says and requires exactly the
     tasks whose name or alias the record lists, next to the service task of its Dockerfile, each task
     labelled with what tells it from its namesakes.
     */
    method Parse(
      raw: seq<RawTask>, registry: string, repository: string, valid: ProtoTask -> bool, labelsOf: LabelsOf)
      returns (r: Result<seq<Labelled>>)
      modifies this
      ensures
        Parsed(raw, Numbered(raw, old(idNumbering), old(indexNumbering)), old(disabledTaskNamesAndAliases),
               old(idNumbering), old(indexNumbering), registry, repository, valid, labelsOf, r)
    {
      ghost var firstID, firstIndex, disabled := idNumbering, indexNumbering, disabledTaskNamesAndAliases;
      r := Process(raw, registry, repository, valid, labelsOf);
      NumberedExactly(raw, firstID, firstIndex);
      ProcessedIsParsed(raw, Numbered(raw, firstID, firstIndex), disabled, firstID, firstIndex, registry, repository,
                        valid, labelsOf, r);
    }
  }

  /** The deep dependency check and the check of the single tasks: finds a fault exactly if there is one. */
  method FindFault(tasks: seq<TaskLike>, valid: ProtoTask -> bool) returns (fault: Option<string>)
    requires DistinctIds(GraphOf(tasks)) && Closed(GraphOf(tasks)) && ProtoGraph(Protos(tasks)) == GraphOf(tasks)
    ensures fault.None? <==>
      Acyclic(ProtoGraph(Protos(tasks))) && forall t :: t in Protos(tasks) ==> valid(t)
  {
    var unsatisfied := ValidateDependenciesDeep(tasks);
    if unsatisfied.Some? {
      return Some("error in dependencies between tasks");
    }
    var allValid := ValidateTasks(Protos(tasks), valid);
    fault := if allValid then None else Some("invalid task");
  }

  method ValidateTasks(tasks: seq<ProtoTask>, valid: ProtoTask -> bool) returns (ok: bool)
    ensures ok <==> forall t :: t in tasks ==> valid(t)
  {
    for i := 0 to |tasks|
      invariant forall j :: 0 <= j < i ==> valid(tasks[j])
    {
      if !valid(tasks[i]) {
        assert tasks[i] in tasks;
        return false;
      }
    }
    return true;
  }

  /** The service tasks have taken all the numbers handed out since the first ones. */
  ghost predicate Counted(
    services: map<string, ProtoTask>, firstID: int, firstIndex: int, nextID: int, nextIndex: int,
    registry: string, repository: string)
  {
    && ServicesOk(services, firstID, firstIndex, registry, repository)
    && nextID == firstID + |services| && nextIndex == firstIndex + |services|
  }

  ghost predicate Progress(
    tasks: seq<ProtoTask>, updated: seq<ProtoTask>, services: map<string, ProtoTask>,
    registry: string, repository: string)
  {
    AllRewritten(tasks, updated, services, registry, repository) && ServicesNeeded(tasks, services)
  }

  /** At most the service task of the task's own hash is added. */
  ghost predicate Extends(services: map<string, ProtoTask>, t: ProtoTask, services': map<string, ProtoTask>)
    requires HasHash(t.docker)
  {
    && services'.Keys == services.Keys + (if t.docker.Dockerfile? then {t.docker.hash.value} else {})
    && forall h :: h in services ==> h in services' && services'[h] == services[h]
  }

  lemma ProgressSnoc(
    tasks: seq<ProtoTask>, updated: seq<ProtoTask>, services: map<string, ProtoTask>, t: ProtoTask, u: ProtoTask,
    services': map<string, ProtoTask>, registry: string, repository: string)
    requires Progress(tasks, updated, services, registry, repository) && HasHash(t.docker)
    requires Rewritten(t, u, services', registry, repository) && Extends(services, t, services')
    ensures Progress(tasks + [t], updated + [u], services', registry, repository)
  {
    RewrittenSnoc(tasks, updated, services, t, u, services', registry, repository);
    NeededSnoc(tasks, t, services, services');
  }

  lemma RewrittenHashed(
    tasks: seq<ProtoTask>, updated: seq<ProtoTask>, services: map<string, ProtoTask>,
    registry: string, repository: string)
    requires AllRewritten(tasks, updated, services, registry, repository)
    ensures AllHashed(tasks)
  {
    forall t | t in tasks ensures HasHash(t.docker) {
      var i :| 0 <= i < |tasks| && tasks[i] == t;
      assert Rewritten(tasks[i], updated[i], services, registry, repository);
    }
  }

  lemma RewrittenSnoc(
    tasks: seq<ProtoTask>, updated: seq<ProtoTask>, services: map<string, ProtoTask>, t: ProtoTask, u: ProtoTask,
    services': map<string, ProtoTask>, registry: string, repository: string)
    requires AllRewritten(tasks, updated, services, registry, repository)
    requires forall h :: h in services ==> h in services' && services'[h] == services[h]
    requires Rewritten(t, u, services', registry, repository)
    ensures AllRewritten(tasks + [t], updated + [u], services', registry, repository)
  {
    forall i | 0 <= i < |tasks| ensures Rewritten(tasks[i], updated[i], services', registry, repository) {
      assert Rewritten(tasks[i], updated[i], services, registry, repository);
    }
  }

  /** The service tasks in whatever order the map yields them. */
  method ListServices(services: map<string, ProtoTask>) returns (list: seq<ProtoTask>, ghost keys: seq<string>)
    ensures Enumerates(keys, services.Keys)
    ensures |list| == |keys| && forall i :: 0 <= i < |keys| ==> keys[i] in services && list[i] == services[keys[i]]
  {
    list, keys := [], [];
    var todo := services.Keys;
    while todo != {}
      invariant NoDuplicates(keys) && Elements(keys) + todo == services.Keys && Elements(keys) !! todo
      invariant |list| == |keys| && forall i :: 0 <= i < |keys| ==> keys[i] in services && list[i] == services[keys[i]]
    {
      var key :| key in todo;
      assert key !in Elements(keys);
      assert Elements(keys + [key]) == Elements(keys) + {key};
      list, keys, todo := list + [services[key]], keys + [key], todo - {key};
    }
  }
}
