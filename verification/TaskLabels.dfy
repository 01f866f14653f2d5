/** Labels of the tasks that Parse returns (pkg/parser/parser.go, pkg/parser/labels.go). */
module TaskLabels {
  import opened Common
  import opened Sorting
  import opened ServiceTasks
  import opened Labels
  import opened Builds

  /** A returned task with the labels that tell it from the tasks of the same name. */
  datatype Labelled = Labelled(task: ProtoTask, uniqueLabels: seq<string>)

  predicate ByTask(x: Labelled, y: Labelled) {
    ById(x.task, y.task)
  }

  function TaskOf(x: Labelled): ProtoTask { x.task }

  function TasksOf(labelled: seq<Labelled>): seq<ProtoTask> {
    Map(TaskOf, labelled)
  }

  type LabelsOf = ProtoTask -> Result<seq<string>>

  /** The task with the labels computed for it. */
  function WithLabels(labelsOf: LabelsOf, t: ProtoTask): LabeledTask {
    LabeledTask(t.name, labelsOf(t))
  }

  function AllWithLabels(labelsOf: LabelsOf, tasks: seq<ProtoTask>): seq<LabeledTask> {
    Map(t => WithLabels(labelsOf, t), tasks)
  }

  /** Computing the labels of some task fails. */
  ghost predicate Unlabelable(labelsOf: LabelsOf, tasks: seq<ProtoTask>) {
    exists t :: t in tasks && LabelsFail(WithLabels(labelsOf, t), AllWithLabels(labelsOf, tasks))
  }

  ghost predicate RightlyLabelled(labelsOf: LabelsOf, tasks: seq<ProtoTask>, x: Labelled) {
    var t, all := WithLabels(labelsOf, x.task), AllWithLabels(labelsOf, tasks);
    !LabelsFail(t, all) && x.uniqueLabels == UniqueOf(t, all)
  }

  /** Every task carries what distinguishes it from the returned tasks of the same name. */
  ghost predicate AllLabelled(labelsOf: LabelsOf, labelled: seq<Labelled>) {
    forall x :: x in labelled ==> RightlyLabelled(labelsOf, TasksOf(labelled), x)
  }

  /** The labels of the returned tasks of this name can be computed and do not repeat. */
  ghost predicate ProperNamesakes(labelsOf: LabelsOf, labelled: seq<Labelled>, name: string) {
    forall y :: y in labelled && y.task.name == name ==>
      labelsOf(y.task).Ok? && NoDuplicates(labelsOf(y.task).value)
  }

  ghost predicate NamesakeLacks(labelsOf: LabelsOf, labelled: seq<Labelled>, name: string, l: string) {
    exists y :: y in labelled && y.task.name == name && labelsOf(y.task).Ok? && l !in labelsOf(y.task).value
  }

  lemma WithLabelsAt(labelsOf: LabelsOf, labelled: seq<Labelled>, t: LabeledTask)
    ensures t in AllWithLabels(labelsOf, TasksOf(labelled)) <==>
      exists y :: y in labelled && t == LabeledTask(y.task.name, labelsOf(y.task))
  {
    var all := AllWithLabels(labelsOf, TasksOf(labelled));
    if t in all {
      var i :| 0 <= i < |all| && all[i] == t;
      assert labelled[i] in labelled && t == LabeledTask(labelled[i].task.name, labelsOf(labelled[i].task));
    }
    if y :| y in labelled && t == LabeledTask(y.task.name, labelsOf(y.task)) {
      var i :| 0 <= i < |labelled| && labelled[i] == y;
      assert all[i] == t;
    }
  }

  lemma NamesakesExactly(labelsOf: LabelsOf, labelled: seq<Labelled>, name: string, l: string)
    ensures ProperLabels(name, AllWithLabels(labelsOf, TasksOf(labelled))) <==>
      ProperNamesakes(labelsOf, labelled, name)
    ensures SomeLacks(name, AllWithLabels(labelsOf, TasksOf(labelled)), l) <==>
      NamesakeLacks(labelsOf, labelled, name, l)
  {
    var all := AllWithLabels(labelsOf, TasksOf(labelled));
    forall y | y in labelled ensures LabeledTask(y.task.name, labelsOf(y.task)) in all {
      WithLabelsAt(labelsOf, labelled, LabeledTask(y.task.name, labelsOf(y.task)));
    }
    forall t | t in all ensures exists y :: y in labelled && t == LabeledTask(y.task.name, labelsOf(y.task)) {
      WithLabelsAt(labelsOf, labelled, t);
    }
  }

  /**
   A returned task carries, sorted, exactly those of its labels that some returned task of the same
   name does not have, if the labels of these tasks can be computed and do not repeat.
   */
  lemma LabelledExactly(labelsOf: LabelsOf, labelled: seq<Labelled>, x: Labelled, l: string)
    requires AllLabelled(labelsOf, labelled) && x in labelled
    requires ProperNamesakes(labelsOf, labelled, x.task.name)
    ensures Sorted(x.uniqueLabels, StringLe)
    ensures l in x.uniqueLabels <==>
      l in labelsOf(x.task).value && NamesakeLacks(labelsOf, labelled, x.task.name, l)
  {
    var all, t := AllWithLabels(labelsOf, TasksOf(labelled)), LabeledTask(x.task.name, labelsOf(x.task));
    assert RightlyLabelled(labelsOf, TasksOf(labelled), x);
    NamesakesExactly(labelsOf, labelled, x.task.name, l);
    WithLabelsAt(labelsOf, labelled, t);
    UniqueOfExactly(t, all, l);
  }

  lemma {:induction false} InsertTasks(x: Labelled, s: seq<Labelled>)
    ensures TasksOf(Insert(x, s, ByTask)) == Insert(x.task, TasksOf(s), ById)
  {
    if s != [] {
      assert TasksOf(s)[1..] == TasksOf(s[1..]);
      InsertTasks(x, s[1..]);
    }
  }

  /** Sorting labelled tasks sorts the tasks. */
  lemma {:induction false} SortTasks(s: seq<Labelled>)
    ensures TasksOf(Sort(s, ByTask)) == Sort(TasksOf(s), ById)
  {
    if s != [] {
      assert TasksOf(s)[1..] == TasksOf(s[1..]) && TasksOf(s)[0] == s[0].task;
      SortTasks(s[1..]);
      InsertTasks(s[0], Sort(s[1..], ByTask));
    }
  }

  lemma LabelsRearranged(labelsOf: LabelsOf, a: seq<ProtoTask>, b: seq<ProtoTask>, x: Labelled)
    requires multiset(a) == multiset(b)
    ensures RightlyLabelled(labelsOf, a, x) <==> RightlyLabelled(labelsOf, b, x)
    ensures LabelsFail(WithLabels(labelsOf, x.task), AllWithLabels(labelsOf, a)) <==>
      LabelsFail(WithLabels(labelsOf, x.task), AllWithLabels(labelsOf, b))
  {
    MapRearranged(t => WithLabels(labelsOf, t), a, b);
    UniqueOfIsOrderFree(WithLabels(labelsOf, x.task), AllWithLabels(labelsOf, a), AllWithLabels(labelsOf, b));
  }

  /** Labels attached before sorting are right for the sorted tasks. */
  lemma LabelledSorted(labelsOf: LabelsOf, labelled: seq<Labelled>)
    requires AllLabelled(labelsOf, labelled)
    ensures AllLabelled(labelsOf, Sort(labelled, ByTask))
  {
    var sorted := Sort(labelled, ByTask);
    SortKeeps(labelled, ByTask);
    SameElements(labelled, sorted);
    MapRearranged(TaskOf, labelled, sorted);
    forall x | x in sorted ensures RightlyLabelled(labelsOf, TasksOf(sorted), x) {
      LabelsRearranged(labelsOf, TasksOf(labelled), TasksOf(sorted), x);
    }
  }

  lemma UnlabelableSorted(labelsOf: LabelsOf, tasks: seq<ProtoTask>)
    requires Unlabelable(labelsOf, tasks)
    ensures Unlabelable(labelsOf, Sort(tasks, ById))
  {
    SortKeeps(tasks, ById);
    SameElements(tasks, Sort(tasks, ById));
    var t :| t in tasks && LabelsFail(WithLabels(labelsOf, t), AllWithLabels(labelsOf, tasks));
    LabelsRearranged(labelsOf, tasks, Sort(tasks, ById), Labelled(t, []));
  }

  /** Gives every task its unique labels; fails exactly when computing some labels fails. */
  method AttachLabels(tasks: seq<ProtoTask>, labelsOf: LabelsOf) returns (r: Result<seq<Labelled>>)
    ensures r.Err? <==> Unlabelable(labelsOf, tasks)
    ensures r.Ok? ==> TasksOf(r.value) == tasks && AllLabelled(labelsOf, r.value)
  {
    var all := AllWithLabels(labelsOf, tasks);
    var labelled: seq<Labelled> := [];
    for i := 0 to |tasks|
      invariant |labelled| == i && forall j :: 0 <= j < i ==> labelled[j].task == tasks[j]
      invariant forall j :: 0 <= j < i ==> RightlyLabelled(labelsOf, tasks, labelled[j])
    {
      var labels := UniqueLabels(WithLabels(labelsOf, tasks[i]), all);
      if labels.Err? {
        assert tasks[i] in tasks;
        return Err(labels.message);
      }
      labelled := labelled + [Labelled(tasks[i], labels.value)];
    }
    assert TasksOf(labelled) == tasks;
    NoneUnlabelable(labelsOf, labelled);
    r := Ok(labelled);
  }

  lemma NoneUnlabelable(labelsOf: LabelsOf, labelled: seq<Labelled>)
    requires forall j :: 0 <= j < |labelled| ==> RightlyLabelled(labelsOf, TasksOf(labelled), labelled[j])
    ensures AllLabelled(labelsOf, labelled) && !Unlabelable(labelsOf, TasksOf(labelled))
  {
    forall t | t in TasksOf(labelled)
      ensures !LabelsFail(WithLabels(labelsOf, t), AllWithLabels(labelsOf, TasksOf(labelled)))
    {
      var j :| 0 <= j < |labelled| && TasksOf(labelled)[j] == t;
      assert RightlyLabelled(labelsOf, TasksOf(labelled), labelled[j]);
    }
  }

  /** Labels the tasks, then sorts them by ID. */
  method LabelAndSort(tasks: seq<ProtoTask>, labelsOf: LabelsOf) returns (r: Result<seq<Labelled>>)
    ensures r.Ok? ==> TasksOf(r.value) == Sort(tasks, ById) && AllLabelled(labelsOf, r.value)
    ensures r.Err? ==> Unlabelable(labelsOf, Sort(tasks, ById))
  {
    var labelled := AttachLabels(tasks, labelsOf);
    if labelled.Err? {
      UnlabelableSorted(labelsOf, tasks);
      return labelled;
    }
    SortTasks(labelled.value);
    LabelledSorted(labelsOf, labelled.value);
    r := Ok(Sort(labelled.value, ByTask));
  }
}
