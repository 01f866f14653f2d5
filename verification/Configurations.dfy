/** What Parse makes of the records of a configuration (pkg/parser/parser.go). */
module Configurations {
  import opened Common
  import opened Graph
  import opened Validate
  import opened Dependencies
  import opened ServiceTasks
  import opened Builds
  import opened TaskLabels

  // ---------- resolved tasks ----------

  function Protos(tasks: seq<TaskLike>): (p: seq<ProtoTask>)
    ensures |p| == |tasks| && forall i :: 0 <= i < |tasks| ==> p[i] == ToProto(tasks[i])
  {
    seq(|tasks|, i requires 0 <= i < |tasks| => ToProto(tasks[i]))
  }

  lemma SameGraph(tasks: seq<TaskLike>)
    ensures ProtoGraph(Protos(tasks)) == GraphOf(tasks)
  {
  }

  /** Resolution keeps the numbering, so the deep check sees distinct, existing IDs. */
  lemma ResolvedNumbered(tasks: seq<TaskLike>, firstID: int, endID: int, firstIndex: int)
    requires WellNumbered(tasks, firstID, endID, firstIndex)
    ensures WellNumbered(Resolved(tasks), firstID, endID, firstIndex)
    ensures DistinctIds(GraphOf(Resolved(tasks))) && Closed(GraphOf(Resolved(tasks)))
  {
    var r := Resolved(tasks);
    assert forall i :: 0 <= i < |r| ==> r[i].id == tasks[i].id && r[i].indexWithinBuild == tasks[i].indexWithinBuild;
    forall i, j | 0 <= i < j < |r| ensures GraphOf(r)[i].id != GraphOf(r)[j].id {
      assert tasks[i].id < tasks[j].id;
    }
    ResolvedClosed(tasks);
  }

  // ---------- how the pipeline ends ----------

  /** `tasks` is a well-formed build of the user tasks. */
  ghost predicate Built(
    user: seq<ProtoTask>, tasks: seq<ProtoTask>, firstIndex: int, registry: string, repository: string)
  {
    WellFormed(tasks, firstIndex) && Carries(user, tasks, registry, repository)
  }

  ghost predicate AllHashed(tasks: seq<ProtoTask>) {
    forall t :: t in tasks ==> HasHash(t.docker)
  }

  ghost predicate Finishable(user: seq<ProtoTask>, valid: ProtoTask -> bool) {
    Acyclic(ProtoGraph(user)) && (forall t :: t in user ==> valid(t)) && AllHashed(user)
  }

  /** The tasks end up in a labelled, well-formed build, unless computing their labels fails. */
  ghost predicate Completed(
    user: seq<ProtoTask>, firstIndex: int, registry: string, repository: string,
    labelsOf: LabelsOf, r: Result<seq<Labelled>>)
  {
    match r
    case Ok(labelled) =>
      AllLabelled(labelsOf, labelled) && Built(user, TasksOf(labelled), firstIndex, registry, repository)
    case Err(_) => BuiltUnlabelable(user, firstIndex, registry, repository, labelsOf)
  }

  /** How the tail of Parse ends: the build is completed, or the tasks are at fault. */
  ghost predicate Finished(
    user: seq<ProtoTask>, firstIndex: int, registry: string, repository: string,
    valid: ProtoTask -> bool, labelsOf: LabelsOf, r: Result<seq<Labelled>>)
  {
    if Finishable(user, valid) then Completed(user, firstIndex, registry, repository, labelsOf, r) else r.Err?
  }

  lemma NotFinishable(
    user: seq<ProtoTask>, firstIndex: int, registry: string, repository: string,
    valid: ProtoTask -> bool, labelsOf: LabelsOf, message: string)
    requires !Acyclic(ProtoGraph(user)) || exists t :: t in user && !valid(t)
    ensures Finished(user, firstIndex, registry, repository, valid, labelsOf, Err(message))
  {
  }

  lemma FinishedIfHashed(
    user: seq<ProtoTask>, firstIndex: int, registry: string, repository: string,
    valid: ProtoTask -> bool, labelsOf: LabelsOf, r: Result<seq<Labelled>>)
    requires Acyclic(ProtoGraph(user)) && forall t :: t in user ==> valid(t)
    requires if AllHashed(user) then Completed(user, firstIndex, registry, repository, labelsOf, r) else r.Err?
    ensures Finished(user, firstIndex, registry, repository, valid, labelsOf, r)
  {
  }

  lemma CannotBeLabelled(
    user: seq<ProtoTask>, tasks: seq<ProtoTask>, firstIndex: int, registry: string, repository: string,
    labelsOf: LabelsOf)
    requires Built(user, tasks, firstIndex, registry, repository) && Unlabelable(labelsOf, tasks)
    ensures BuiltUnlabelable(user, firstIndex, registry, repository, labelsOf)
  {
  }

  /** The user tasks have a well-formed build, but computing the labels for it fails. */
  ghost predicate BuiltUnlabelable(
    user: seq<ProtoTask>, firstIndex: int, registry: string, repository: string, labelsOf: LabelsOf)
  {
    exists tasks :: Built(user, tasks, firstIndex, registry, repository) && Unlabelable(labelsOf, tasks)
  }

  lemma ProtosAreUserTasks(tasks: seq<TaskLike>, firstID: int, endID: int, firstIndex: int)
    requires WellNumbered(tasks, firstID, endID, firstIndex)
    ensures UserTasks(Protos(tasks), endID, firstIndex)
  {
  }

  /** Resolved tasks with distinct, existing IDs below `nextID` and indices from `firstIndex` on. */
  ghost predicate Ready(tasks: seq<TaskLike>, nextID: int, firstIndex: int) {
    && DistinctIds(GraphOf(tasks)) && Closed(GraphOf(tasks)) && ProtoGraph(Protos(tasks)) == GraphOf(tasks)
    && UserTasks(Protos(tasks), nextID, firstIndex)
  }

  /** What numbering and resolution hand to the deep check and to the service tasks. */
  lemma PipelineFacts(raw: seq<RawTask>, firstID: int, firstIndex: int)
    ensures Ready(Resolved(Numbered(raw, firstID, firstIndex)), firstID + |raw|, firstIndex)
  {
    var tasks := Numbered(raw, firstID, firstIndex);
    NumberedIncreasing(raw, firstID, firstIndex);
    ResolvedNumbered(tasks, firstID, firstID + |raw|, firstIndex);
    SameGraph(Resolved(tasks));
    ProtosAreUserTasks(Resolved(tasks), firstID, firstID + |raw|, firstIndex);
  }

  lemma NoNodesAcyclic()
    ensures Acyclic([])
  {
    forall p ensures !Cycle([], p) {
      if |p| >= 2 {
        assert !Edge([], p[0], p[0 + 1]);
      }
    }
  }

  lemma EmptyBuild(
    firstIndex: int, registry: string, repository: string, valid: ProtoTask -> bool, labelsOf: LabelsOf)
    ensures Finished(Protos(Resolved([])), firstIndex, registry, repository, valid, labelsOf, Ok([]))
  {
    NoNodesAcyclic();
    assert ProtoGraph([]) == [] && Protos(Resolved([])) == [] && TasksOf([]) == [];
  }
}
