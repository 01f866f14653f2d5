/** Labels that tell identically named tasks apart (pkg/parser/labels.go). */
module Labels {
  import opened Common
  import opened Sorting

  /** A task with the labels computed for it, or the error of computing them. */
  datatype LabeledTask = LabeledTask(name: string, labels: Result<seq<string>>)

  // ---------- what is computed ----------

  /** How often the label occurs in all the lists together. */
  function Count(siblings: seq<seq<string>>, l: string): nat {
    if siblings == [] then 0
    else Count(siblings[..|siblings| - 1], l) + multiset(siblings[|siblings| - 1])[l]
  }

  /** What the counting takes for a common label. */
  predicate CountedInAll(siblings: seq<seq<string>>, l: string) {
    siblings != [] && Count(siblings, l) == |siblings|
  }

  /** The labels whose total count differs from the number of siblings. */
  function Kept(own: seq<string>, siblings: seq<seq<string>>): seq<string> {
    if own == [] then []
    else
      var l := own[|own| - 1];
      Kept(own[..|own| - 1], siblings) + (if CountedInAll(siblings, l) then [] else [l])
  }

  function Unique(own: seq<string>, siblings: seq<seq<string>>): seq<string> {
    Sort(Kept(own, siblings), StringLe)
  }

  // ---------- what is meant ----------

  ghost predicate CommonToAll(siblings: seq<seq<string>>, l: string) {
    forall i :: 0 <= i < |siblings| ==> l in siblings[i]
  }

  ghost predicate DuplicateFree(siblings: seq<seq<string>>) {
    forall i :: 0 <= i < |siblings| ==> NoDuplicates(siblings[i])
  }

  lemma {:induction false} KeptMembers(own: seq<string>, siblings: seq<seq<string>>)
    ensures forall l :: l in Kept(own, siblings) <==> l in own && !CountedInAll(siblings, l)
    ensures NoDuplicates(own) ==> NoDuplicates(Kept(own, siblings))
  {
    if own != [] {
      var init, last := own[..|own| - 1], own[|own| - 1];
      assert own == init + [last];
      KeptMembers(init, siblings);
    }
  }

  /** Without repetitions, the count reaches the number of siblings exactly for the labels common to all. */
  lemma {:induction false} CountIsCommon(siblings: seq<seq<string>>, l: string)
    requires DuplicateFree(siblings)
    ensures Count(siblings, l) <= |siblings|
    ensures Count(siblings, l) == |siblings| <==> CommonToAll(siblings, l)
  {
    if siblings != [] {
      var init, last := siblings[..|siblings| - 1], siblings[|siblings| - 1];
      CountIsCommon(init, l);
      CountNoDuplicates(last, l);
      assert forall i :: 0 <= i < |init| ==> init[i] == siblings[i];
    }
  }

  /** The unique labels are the task's own labels minus the ones common to all siblings, sorted. */
  lemma UniqueIsDifference(own: seq<string>, siblings: seq<seq<string>>)
    requires DuplicateFree(siblings) && siblings != []
    ensures Sorted(Unique(own, siblings), StringLe)
    ensures forall l :: l in Unique(own, siblings) <==> l in own && !CommonToAll(siblings, l)
    ensures NoDuplicates(own) ==> NoDuplicates(Unique(own, siblings))
  {
    var kept := Kept(own, siblings);
    StringOrder();
    SortSorts(kept, StringLe);
    SortKeeps(kept, StringLe);
    SameElements(Sort(kept, StringLe), kept);
    KeptMembers(own, siblings);
    forall l ensures CountedInAll(siblings, l) <==> CommonToAll(siblings, l) {
      CountIsCommon(siblings, l);
    }
    if NoDuplicates(own) {
      NoDuplicatesRearranged(kept, Sort(kept, StringLe));
    }
  }

  /** Two siblings get the same unique labels exactly when they have the same labels. */
  lemma UniqueTellsApart(siblings: seq<seq<string>>, i: nat, j: nat)
    requires DuplicateFree(siblings) && i < |siblings| && j < |siblings|
    ensures Unique(siblings[i], siblings) == Unique(siblings[j], siblings) <==>
      forall l :: l in siblings[i] <==> l in siblings[j]
  {
    var a, b := siblings[i], siblings[j];
    UniqueIsDifference(a, siblings);
    UniqueIsDifference(b, siblings);
    if Unique(a, siblings) == Unique(b, siblings) {
      forall l ensures l in a <==> l in b {
        assert l in Unique(a, siblings) <==> l in Unique(b, siblings);
      }
    } else if forall l :: l in a <==> l in b {
      SameMembersSameMultiset(Unique(a, siblings), Unique(b, siblings));
      StringOrder();
      SortedUnique(Unique(a, siblings), Unique(b, siblings), StringLe);
    }
  }

  lemma SameMembersSameMultiset(s: seq<string>, t: seq<string>)
    requires NoDuplicates(s) && NoDuplicates(t) && forall l :: l in s <==> l in t
    ensures multiset(s) == multiset(t)
  {
    forall l ensures multiset(s)[l] == multiset(t)[l] {
      CountNoDuplicates(s, l);
      CountNoDuplicates(t, l);
    }
  }

  lemma CountOwn(own: seq<string>, l: string)
    ensures Count([own], l) == multiset(own)[l]
  {
    assert [own][..0] == [];
  }

  /** The shortcut for a task without siblings agrees with the general formula exactly if no label is repeated. */
  lemma ShortcutAgrees(own: seq<string>)
    ensures Unique(own, [own]) == [] <==> NoDuplicates(own)
  {
    var kept := Kept(own, [own]);
    SortKeeps(kept, StringLe);
    SameElements(Sort(kept, StringLe), kept);
    KeptMembers(own, [own]);
    assert kept != [] ==> kept[0] in kept;
    if NoDuplicates(own) {
      forall l | l in own ensures l !in kept {
        CountOwn(own, l);
        CountNoDuplicates(own, l);
      }
    } else {
      var i, j :| 0 <= i < j < |own| && own[i] == own[j];
      RepeatedCount(own, i, j);
      CountOwn(own, own[i]);
      assert own[i] in kept;
    }
  }

  lemma {:induction false} CountConcat(a: seq<seq<string>>, b: seq<seq<string>>, l: string)
    ensures Count(a + b, l) == Count(a, l) + Count(b, l)
  {
    if b == [] {
      assert a + b == a;
    } else {
      assert (a + b)[..|a + b| - 1] == a + b[..|b| - 1];
      CountConcat(a, b[..|b| - 1], l);
    }
  }

  lemma CountMiddle(a: seq<seq<string>>, x: seq<string>, b: seq<seq<string>>, l: string)
    ensures Count(a + [x] + b, l) == Count(a + b, l) + multiset(x)[l]
  {
    CountConcat(a + [x], b, l);
    CountConcat(a, b, l);
    assert (a + [x])[..|a|] == a;
  }

  lemma {:induction false} CountRearranged(a: seq<seq<string>>, b: seq<seq<string>>, l: string)
    requires multiset(a) == multiset(b)
    ensures Count(a, l) == Count(b, l)
    decreases |a|
  {
    SameElements(a, b);
    if a != [] {
      var x := a[|a| - 1];
      var b1, b2 := SplitAt(b, x);
      assert a == a[..|a| - 1] + [x];
      CountRearranged(a[..|a| - 1], b1 + b2, l);
      CountMiddle(b1, x, b2, l);
    }
  }

  lemma {:induction false} KeptCounts(own: seq<string>, siblings: seq<seq<string>>, l: string)
    ensures multiset(Kept(own, siblings))[l] == if CountedInAll(siblings, l) then 0 else multiset(own)[l]
  {
    if own != [] {
      var init, last := own[..|own| - 1], own[|own| - 1];
      KeptCounts(init, siblings, l);
      assert own == init + [last];
      assert multiset(own)[l] == multiset(init)[l] + multiset{last}[l];
    }
  }

  /** Neither the order of a task's labels nor that of its siblings matters, so map iteration order does not. */
  lemma UniqueIsOrderFree(own: seq<string>, own': seq<string>, siblings: seq<seq<string>>, siblings': seq<seq<string>>)
    requires multiset(own) == multiset(own') && multiset(siblings) == multiset(siblings')
    ensures Unique(own, siblings) == Unique(own', siblings')
  {
    var kept, kept' := Kept(own, siblings), Kept(own', siblings');
    SameElements(siblings, siblings');
    forall l ensures multiset(kept)[l] == multiset(kept')[l] {
      CountRearranged(siblings, siblings', l);
      KeptCounts(own, siblings, l);
      KeptCounts(own', siblings', l);
    }
    assert multiset(kept) == multiset(kept');
    SortsAlike(kept, kept');
  }

  /**
   Without the assumption on repetitions, the result is the intended difference exactly when
   counting a label of the task gives the number of siblings just for the common ones.
   */
  lemma {:induction false} DifferenceExactly(own: seq<string>, siblings: seq<seq<string>>)
    requires siblings != []
    ensures
      (forall l :: l in Unique(own, siblings) <==> l in own && !CommonToAll(siblings, l)) <==>
      (forall l :: l in own ==> (Count(siblings, l) == |siblings| <==> CommonToAll(siblings, l)))
  {
    var kept := Kept(own, siblings);
    SortKeeps(kept, StringLe);
    SameElements(Sort(kept, StringLe), kept);
    KeptMembers(own, siblings);
  }

  /**
   Without that assumption, two siblings get the same unique labels exactly when they list every
   label that is not counted as common equally often.
   */
  lemma TellsApartExactly(siblings: seq<seq<string>>, i: nat, j: nat)
    requires i < |siblings| && j < |siblings|
    ensures Unique(siblings[i], siblings) == Unique(siblings[j], siblings) <==>
      forall l :: !CountedInAll(siblings, l) ==> multiset(siblings[i])[l] == multiset(siblings[j])[l]
  {
    var a, b := Kept(siblings[i], siblings), Kept(siblings[j], siblings);
    forall l ensures
      && multiset(a)[l] == (if CountedInAll(siblings, l) then 0 else multiset(siblings[i])[l])
      && multiset(b)[l] == (if CountedInAll(siblings, l) then 0 else multiset(siblings[j])[l])
    {
      KeptCounts(siblings[i], siblings, l);
      KeptCounts(siblings[j], siblings, l);
    }
    SortsAlike(a, b);
  }

  lemma SortsAlike(a: seq<string>, b: seq<string>)
    ensures Sort(a, StringLe) == Sort(b, StringLe) <==> multiset(a) == multiset(b)
  {
    SortKeeps(a, StringLe);
    SortKeeps(b, StringLe);
    if multiset(a) == multiset(b) {
      StringOrder();
      SortSorts(a, StringLe);
      SortSorts(b, StringLe);
      SortedUnique(Sort(a, StringLe), Sort(b, StringLe), StringLe);
    }
  }

  /** A label listed twice by one task and not at all by its only sibling is taken for a common one. */
  lemma RepeatedLabelIsLost(l: string)
    ensures
      var siblings := [[l, l], []];
      Unique(siblings[0], siblings) == Unique(siblings[1], siblings) == []
  {
    var twice := [l, l];
    var siblings: seq<seq<string>> := [twice, []];
    assert siblings[..1] == [twice];
    assert Count([twice], l) == 2 by { assert [twice][..0] == []; }
    assert Count(siblings, l) == 2;
    KeptMembers(twice, siblings);
    assert Kept(twice, siblings) == [] || Kept(twice, siblings)[0] in Kept(twice, siblings);
  }

  // ---------- the method ----------

  function Lookup(counts: map<string, nat>, l: string): nat {
    if l in counts then counts[l] else 0
  }

  predicate Positive(counts: map<string, nat>) {
    forall l :: l in counts ==> counts[l] > 0
  }

  method CountLabels(counts: map<string, nat>, labels: seq<string>) returns (counts': map<string, nat>)
    requires Positive(counts)
    ensures Positive(counts')
    ensures forall l :: Lookup(counts', l) == Lookup(counts, l) + multiset(labels)[l]
  {
    counts' := counts;
    for i := 0 to |labels|
      invariant Positive(counts')
      invariant forall l :: Lookup(counts', l) == Lookup(counts, l) + multiset(labels[..i])[l]
    {
      assert labels[..i + 1] == labels[..i] + [labels[i]];
      counts' := counts'[labels[i] := Lookup(counts', labels[i]) + 1];
    }
    assert labels[..|labels|] == labels;
  }

  ghost predicate Failing(similar: seq<LabeledTask>) {
    exists t :: t in similar && t.labels.Err?
  }

  ghost function LabelLists(similar: seq<LabeledTask>): (lists: seq<seq<string>>)
    requires !Failing(similar)
    ensures |lists| == |similar| && forall i :: 0 <= i < |similar| ==> similar[i].labels == Ok(lists[i])
  {
    seq(|similar|, i requires 0 <= i < |similar| => assert similar[i] in similar; similar[i].labels.value)
  }

  function Similar(name: string, tasks: seq<LabeledTask>): seq<LabeledTask> {
    if tasks == [] then []
    else
      var last := tasks[|tasks| - 1];
      Similar(name, tasks[..|tasks| - 1]) + (if last.name == name then [last] else [])
  }

  /** The labels of a task cannot be told: it has siblings, and computing the labels of one of them fails. */
  ghost predicate LabelsFail(task: LabeledTask, tasks: seq<LabeledTask>) {
    var similar := Similar(task.name, tasks);
    |similar| != 1 && (Failing(similar) || task.labels.Err?)
  }

  /** What distinguishes a task from the tasks of the same name. */
  ghost function UniqueOf(task: LabeledTask, tasks: seq<LabeledTask>): seq<string>
    requires !LabelsFail(task, tasks)
  {
    var similar := Similar(task.name, tasks);
    if |similar| == 1 then [] else Unique(task.labels.value, LabelLists(similar))
  }

  lemma {:induction false} SimilarCounts(name: string, tasks: seq<LabeledTask>, t: LabeledTask)
    ensures multiset(Similar(name, tasks))[t] == if t.name == name then multiset(tasks)[t] else 0
  {
    if tasks != [] {
      var init, last := tasks[..|tasks| - 1], tasks[|tasks| - 1];
      SimilarCounts(name, init, t);
      assert tasks == init + [last];
      assert multiset(tasks)[t] == multiset(init)[t] + multiset{last}[t];
    }
  }

  lemma SimilarRearranged(name: string, a: seq<LabeledTask>, b: seq<LabeledTask>)
    requires multiset(a) == multiset(b)
    ensures multiset(Similar(name, a)) == multiset(Similar(name, b))
  {
    forall t ensures multiset(Similar(name, a))[t] == multiset(Similar(name, b))[t] {
      SimilarCounts(name, a, t);
      SimilarCounts(name, b, t);
    }
  }

  lemma SimilarExactly(name: string, tasks: seq<LabeledTask>, t: LabeledTask)
    ensures t in Similar(name, tasks) <==> t in tasks && t.name == name
  {
    SimilarCounts(name, tasks, t);
    assert t in tasks <==> t in multiset(tasks);
    assert t in Similar(name, tasks) <==> t in multiset(Similar(name, tasks));
  }

  /** The labels of the tasks of this name can be computed and do not repeat. */
  ghost predicate ProperLabels(name: string, tasks: seq<LabeledTask>) {
    forall t :: t in tasks && t.name == name ==> t.labels.Ok? && NoDuplicates(t.labels.value)
  }

  /** Some task of this name does not have the label. */
  ghost predicate SomeLacks(name: string, tasks: seq<LabeledTask>, l: string) {
    exists t :: t in tasks && t.name == name && t.labels.Ok? && l !in t.labels.value
  }

  lemma ListsOfNamesakes(name: string, tasks: seq<LabeledTask>, l: string)
    requires ProperLabels(name, tasks)
    ensures !Failing(Similar(name, tasks)) && DuplicateFree(LabelLists(Similar(name, tasks)))
    ensures CommonToAll(LabelLists(Similar(name, tasks)), l) <==> !SomeLacks(name, tasks, l)
  {
    var similar := Similar(name, tasks);
    forall t ensures t in similar <==> t in tasks && t.name == name {
      SimilarExactly(name, tasks, t);
    }
    var lists := LabelLists(similar);
    forall i | 0 <= i < |similar| ensures similar[i].labels == Ok(lists[i]) && NoDuplicates(lists[i]) {
      assert similar[i] in similar;
    }
    if SomeLacks(name, tasks, l) {
      var t :| t in tasks && t.name == name && t.labels.Ok? && l !in t.labels.value;
      var i :| 0 <= i < |similar| && similar[i] == t;
      assert l !in lists[i];
    } else {
      forall i | 0 <= i < |similar| ensures l in lists[i] {
        assert similar[i] in similar;
      }
    }
  }

  /**
   A task that is one of the tasks has as unique labels, sorted, those of its labels that some task
   of the same name does not have.
   */
  lemma UniqueOfExactly(task: LabeledTask, tasks: seq<LabeledTask>, l: string)
    requires task in tasks && ProperLabels(task.name, tasks)
    ensures !LabelsFail(task, tasks) && Sorted(UniqueOf(task, tasks), StringLe)
    ensures l in UniqueOf(task, tasks) <==> l in task.labels.value && SomeLacks(task.name, tasks, l)
  {
    var similar := Similar(task.name, tasks);
    ListsOfNamesakes(task.name, tasks, l);
    SimilarExactly(task.name, tasks, task);
    if |similar| == 1 {
      assert similar[0] == task && LabelLists(similar)[0] == task.labels.value;
    } else {
      UniqueIsDifference(task.labels.value, LabelLists(similar));
    }
  }

  function ListOf(t: LabeledTask): seq<string> {
    if t.labels.Ok? then t.labels.value else []
  }

  lemma ListsRearranged(a: seq<LabeledTask>, b: seq<LabeledTask>)
    requires multiset(a) == multiset(b) && !Failing(a) && !Failing(b)
    ensures multiset(LabelLists(a)) == multiset(LabelLists(b))
  {
    assert LabelLists(a) == Map(ListOf, a) && LabelLists(b) == Map(ListOf, b);
    MapRearranged(ListOf, a, b);
  }

  /** The order of the tasks matters neither for the labels nor for failing. */
  lemma UniqueOfIsOrderFree(task: LabeledTask, a: seq<LabeledTask>, b: seq<LabeledTask>)
    requires multiset(a) == multiset(b)
    ensures LabelsFail(task, a) <==> LabelsFail(task, b)
    ensures !LabelsFail(task, a) ==> UniqueOf(task, a) == UniqueOf(task, b)
  {
    var s, t := Similar(task.name, a), Similar(task.name, b);
    SimilarRearranged(task.name, a, b);
    SameElements(s, t);
    if !LabelsFail(task, a) && |s| != 1 {
      ListsRearranged(s, t);
      UniqueIsOrderFree(task.labels.value, task.labels.value, LabelLists(s), LabelLists(t));
    }
  }

  /** Counts the labels of all similarly named tasks. */
  method CountAll(similar: seq<LabeledTask>) returns (r: Result<map<string, nat>>)
    ensures r.Err? <==> Failing(similar)
    ensures r.Ok? ==> Positive(r.value) && forall l :: Lookup(r.value, l) == Count(LabelLists(similar), l)
  {
    var counts: map<string, nat> := map[];
    for i := 0 to |similar|
      invariant !Failing(similar[..i]) && Positive(counts)
      invariant forall l :: Lookup(counts, l) == Count(LabelLists(similar[..i]), l)
    {
      assert similar[..i + 1] == similar[..i] + [similar[i]];
      if similar[i].labels.Err? {
        assert similar[i] in similar && Failing(similar);
        return Err(similar[i].labels.message);
      }
      counts := CountLabels(counts, similar[i].labels.value);
      assert LabelLists(similar[..i + 1])[..i] == LabelLists(similar[..i]);
    }
    assert similar[..|similar|] == similar;
    r := Ok(counts);
  }

  method UniqueLabels(task: LabeledTask, tasks: seq<LabeledTask>) returns (r: Result<seq<string>>)
    ensures r.Err? <==> LabelsFail(task, tasks)
    ensures r.Ok? ==> r.value == UniqueOf(task, tasks)
  {
    var similar := [];
    for i := 0 to |tasks|
      invariant similar == Similar(task.name, tasks[..i])
    {
      assert tasks[..i + 1][..i] == tasks[..i];
      if task.name == tasks[i].name {
        similar := similar + [tasks[i]];
      }
    }
    assert tasks[..|tasks|] == tasks;
    if |similar| == 1 {
      return Ok([]);
    }
    var counted := CountAll(similar);
    if counted.Err? {
      return Err(counted.message);
    }
    var common := map l | l in counted.value && counted.value[l] == |similar| :: counted.value[l];
    if task.labels.Err? {
      return Err(task.labels.message);
    }
    var labels := task.labels.value;
    ghost var lists := LabelLists(similar);
    var kept := [];
    for i := 0 to |labels|
      invariant kept == Kept(labels[..i], lists)
    {
      assert labels[..i + 1][..i] == labels[..i];
      assert Lookup(counted.value, labels[i]) == Count(lists, labels[i]);
      if labels[i] !in common {
        kept := kept + [labels[i]];
      }
    }
    assert labels[..|labels|] == labels;
    r := Ok(Sort(kept, StringLe));
  }
}
