/** Task numbering and name resolution (pkg/parser/parser.go). */
module Dependencies {
  import opened Common
  import opened Graph
  import opened Sorting
  import opened Validate

  /** A task-like object as parsed from the configuration, before numbering. */
  datatype RawTask = RawTask(
    name: string,
    alias: string,
    fallbackName: string,
    dependsOnNames: seq<string>,
    enabled: bool,
    docker: Docker)

  // ---------- numbering ----------

  function TaskName(t: RawTask): string {
    if t.name == "" then t.fallbackName else t.name
  }

  /** Enabled tasks keep the number of their position; indices within the build are consecutive. */
  function Numbered(raw: seq<RawTask>, firstID: int, firstIndex: int): (tasks: seq<TaskLike>)
    ensures |tasks| <= |raw|
  {
    if raw == [] then []
    else
      var tasks, t := Numbered(raw[..|raw| - 1], firstID, firstIndex), raw[|raw| - 1];
      if t.enabled then
        tasks + [TaskLike(firstID + |raw| - 1, TaskName(t), t.alias, t.fallbackName, t.dependsOnNames, [],
                          firstIndex + |tasks|, t.docker)]
      else tasks
  }

  function DisabledNames(raw: seq<RawTask>): set<string> {
    if raw == [] then {}
    else
      var t := raw[|raw| - 1];
      DisabledNames(raw[..|raw| - 1]) + (if t.enabled then {} else {TaskName(t), t.alias})
  }

  /** Numbers increase strictly within [firstID, endID) and indices count up from firstIndex. */
  ghost predicate WellNumbered(tasks: seq<TaskLike>, firstID: int, endID: int, firstIndex: int) {
    && (forall i :: 0 <= i < |tasks| ==> firstID <= tasks[i].id < endID)
    && (forall i :: 0 <= i < |tasks| ==> tasks[i].indexWithinBuild == firstIndex + i)
    && (forall i, j :: 0 <= i < j < |tasks| ==> tasks[i].id < tasks[j].id)
  }

  /** Numbers are strictly increasing, so IDs are distinct, and indices count the enabled tasks. */
  lemma {:induction false} NumberedIncreasing(raw: seq<RawTask>, firstID: int, firstIndex: int)
    ensures WellNumbered(Numbered(raw, firstID, firstIndex), firstID, firstID + |raw|, firstIndex)
  {
    if raw != [] {
      var init := Numbered(raw[..|raw| - 1], firstID, firstIndex);
      NumberedIncreasing(raw[..|raw| - 1], firstID, firstIndex);
      if raw[|raw| - 1].enabled {
        var last := Numbered(raw, firstID, firstIndex)[|init|];
        assert Numbered(raw, firstID, firstIndex) == init + [last];
        assert last.id == firstID + |raw| - 1;
      }
    }
  }

  /** The record goes by this name: the one it was given, or else its fallback name, or its alias. */
  ghost predicate AnswersTo(r: RawTask, name: string) {
    (if r.name == "" then r.fallbackName else r.name) == name || r.alias == name
  }

  /** The task has the number of an enabled record and carries what that record says. */
  ghost predicate FromRecord(raw: seq<RawTask>, firstID: int, t: TaskLike) {
    && 0 <= t.id - firstID < |raw|
    && var r := raw[t.id - firstID];
       && r.enabled && t.name == (if r.name == "" then r.fallbackName else r.name) && t.alias == r.alias
       && t.fallbackName == r.fallbackName && t.dependsOnNames == r.dependsOnNames && t.docker == r.docker
  }

  ghost predicate HasTask(tasks: seq<TaskLike>, id: int) {
    exists t :: t in tasks && t.id == id
  }

  /** Every enabled record, and no other, has become a task that carries what the record says. */
  ghost predicate TasksOfRecords(raw: seq<RawTask>, firstID: int, tasks: seq<TaskLike>) {
    && (forall t :: t in tasks ==> FromRecord(raw, firstID, t))
    && (forall i :: 0 <= i < |raw| ==> TaskIffEnabled(raw, firstID, tasks, i))
  }

  ghost predicate TaskIffEnabled(raw: seq<RawTask>, firstID: int, tasks: seq<TaskLike>, i: int)
    requires 0 <= i < |raw|
  {
    raw[i].enabled <==> HasTask(tasks, firstID + i)
  }

  lemma {:induction false} NumberedExactly(raw: seq<RawTask>, firstID: int, firstIndex: int)
    ensures TasksOfRecords(raw, firstID, Numbered(raw, firstID, firstIndex))
  {
    if raw != [] {
      var init, last := raw[..|raw| - 1], raw[|raw| - 1];
      var before, tasks := Numbered(init, firstID, firstIndex), Numbered(raw, firstID, firstIndex);
      NumberedExactly(init, firstID, firstIndex);
      forall t | t in before ensures FromRecord(raw, firstID, t) {
        assert FromRecord(init, firstID, t);
      }
      if last.enabled {
        var t := tasks[|before|];
        assert tasks == before + [t] && t.id == firstID + |init| && t in tasks;
      } else {
        assert tasks == before;
      }
      forall i | 0 <= i < |raw| ensures TaskIffEnabled(raw, firstID, tasks, i) {
        assert i < |init| ==> TaskIffEnabled(init, firstID, before, i);
        OneMoreTask(before, tasks, firstID + i, firstID + |init|, last.enabled);
        if i == |init| {
          assert !HasTask(before, firstID + i) by {
            forall t | t in before ensures t.id != firstID + i {
              assert FromRecord(init, firstID, t);
            }
          }
        }
      }
    }
  }

  lemma OneMoreTask(before: seq<TaskLike>, tasks: seq<TaskLike>, id: int, last: int, added: bool)
    requires if added then |tasks| == |before| + 1 && tasks[..|before|] == before && tasks[|before|].id == last
      else tasks == before
    ensures HasTask(tasks, id) <==> HasTask(before, id) || (added && id == last)
  {
    if added {
      assert tasks == before + [tasks[|before|]];
    }
  }

  /** A name is recorded as disabled exactly if a disabled record goes by it. */
  lemma {:induction false} DisabledExactly(raw: seq<RawTask>, name: string)
    ensures name in DisabledNames(raw) <==>
      exists i :: 0 <= i < |raw| && !raw[i].enabled && AnswersTo(raw[i], name)
  {
    if raw != [] {
      var init, last := raw[..|raw| - 1], raw[|raw| - 1];
      DisabledExactly(init, name);
      if name in DisabledNames(init) {
        var i :| 0 <= i < |init| && !init[i].enabled && AnswersTo(init[i], name);
        assert raw[i] == init[i];
      }
      if i :| 0 <= i < |raw| && !raw[i].enabled && AnswersTo(raw[i], name) {
        assert i < |init| ==> init[i] == raw[i];
      }
    }
  }

  // ---------- resolving names ----------

  predicate Answers(t: TaskLike, name: string) {
    t.name == name || t.alias == name
  }

  /** IDs of the tasks with this name or alias. */
  function Matches(tasks: seq<TaskLike>, name: string): seq<int> {
    if tasks == [] then []
    else
      var t := tasks[|tasks| - 1];
      Matches(tasks[..|tasks| - 1], name) + (if Answers(t, name) then [t.id] else [])
  }

  function AllMatches(tasks: seq<TaskLike>, names: seq<string>): seq<int> {
    if names == [] then []
    else AllMatches(tasks, names[..|names| - 1]) + Matches(tasks, names[|names| - 1])
  }

  /** A dependency may be missing only because the task it names is disabled. */
  predicate Resolvable(tasks: seq<TaskLike>, disabled: set<string>, name: string) {
    Matches(tasks, name) != [] || name in disabled
  }

  predicate AllResolvable(tasks: seq<TaskLike>, disabled: set<string>, t: TaskLike) {
    forall name :: name in t.dependsOnNames ==> Resolvable(tasks, disabled, name)
  }

  function Resolve(tasks: seq<TaskLike>, t: TaskLike): TaskLike {
    t.(dependsOnIDs := Sort(AllMatches(tasks, t.dependsOnNames), IntLe))
  }

  function Resolved(tasks: seq<TaskLike>): (r: seq<TaskLike>)
    ensures |r| == |tasks| && forall i :: 0 <= i < |tasks| ==> r[i] == Resolve(tasks, tasks[i])
  {
    seq(|tasks|, i requires 0 <= i < |tasks| => Resolve(tasks, tasks[i]))
  }

  lemma {:induction false} MatchesMeaning(tasks: seq<TaskLike>, name: string, d: int)
    ensures d in Matches(tasks, name) <==> exists t :: t in tasks && Answers(t, name) && t.id == d
  {
    if tasks != [] {
      var init, last := tasks[..|tasks| - 1], tasks[|tasks| - 1];
      MatchesMeaning(init, name, d);
      assert tasks == init + [last];
    }
  }

  lemma {:induction false} AllMatchesMembers(tasks: seq<TaskLike>, names: seq<string>, d: int)
    ensures d in AllMatches(tasks, names) <==> exists name :: name in names && d in Matches(tasks, name)
  {
    if names != [] {
      var init, last := names[..|names| - 1], names[|names| - 1];
      AllMatchesMembers(tasks, init, d);
      assert names == init + [last];
      if d in AllMatches(tasks, init) {
        var name :| name in init && d in Matches(tasks, name);
        assert name in names;
      } else if d in Matches(tasks, last) {
        assert last in names;
      } else {
        forall name | name in names ensures d !in Matches(tasks, name) {
          assert name in init || name == last;
        }
      }
    }
  }

  /** `d` is the ID of a task that answers to one of the names. */
  ghost predicate Meant(tasks: seq<TaskLike>, names: seq<string>, d: int) {
    exists name, t :: name in names && t in tasks && Answers(t, name) && t.id == d
  }

  /** A task depends on exactly the tasks that answer to one of the names it lists. */
  lemma AllMatchesMeaning(tasks: seq<TaskLike>, names: seq<string>, d: int)
    ensures d in AllMatches(tasks, names) <==> Meant(tasks, names, d)
  {
    AllMatchesMembers(tasks, names, d);
    if d in AllMatches(tasks, names) {
      var name :| name in names && d in Matches(tasks, name);
      MatchesMeaning(tasks, name, d);
    }
    if Meant(tasks, names, d) {
      var name, t :| name in names && t in tasks && Answers(t, name) && t.id == d;
      MatchesMeaning(tasks, name, d);
    }
  }

  lemma IntOrder()
    ensures TotalOrder(IntLe)
  {
  }

  lemma ResolveMeaning(tasks: seq<TaskLike>, t: TaskLike)
    ensures
      var ids := Resolve(tasks, t).dependsOnIDs;
      forall i, j :: 0 <= i < j < |ids| ==> ids[i] <= ids[j]
    ensures forall d :: d in Resolve(tasks, t).dependsOnIDs <==> Meant(tasks, t.dependsOnNames, d)
  {
    var all := AllMatches(tasks, t.dependsOnNames);
    IntOrder();
    SortSorts(all, IntLe);
    SortKeeps(all, IntLe);
    SameElements(Sort(all, IntLe), all);
    forall d ensures d in all <==> Meant(tasks, t.dependsOnNames, d) {
      AllMatchesMeaning(tasks, t.dependsOnNames, d);
    }
  }

  /** Resolved dependencies always exist: dropping disabled tasks never leaves a dangling ID. */
  lemma ResolvedClosed(tasks: seq<TaskLike>)
    ensures Closed(GraphOf(Resolved(tasks)))
  {
    var r := Resolved(tasks);
    var g := GraphOf(r);
    forall n, d | n in g && d in n.deps ensures HasId(g, d) {
      var i :| 0 <= i < |g| && g[i] == n;
      ResolveMeaning(tasks, tasks[i]);
      var name, u :| name in tasks[i].dependsOnNames && u in tasks && Answers(u, name) && u.id == d;
      var j :| 0 <= j < |tasks| && tasks[j] == u;
      assert g[j] in g && g[j].id == d;
    }
  }

  method FindMatches(tasks: seq<TaskLike>, name: string) returns (ids: seq<int>)
    ensures ids == Matches(tasks, name)
  {
    ids := [];
    for i := 0 to |tasks|
      invariant ids == Matches(tasks[..i], name)
    {
      assert tasks[..i + 1][..i] == tasks[..i];
      if tasks[i].name == name || tasks[i].alias == name {
        ids := ids + [tasks[i].id];
      }
    }
    assert tasks[..|tasks|] == tasks;
  }

  lemma MatchesNext(tasks: seq<TaskLike>, names: seq<string>, i: nat)
    requires i < |names|
    ensures AllMatches(tasks, names[..i + 1]) == AllMatches(tasks, names[..i]) + Matches(tasks, names[i])
  {
    assert names[..i + 1][..i] == names[..i];
  }

  method DependencyIDs(tasks: seq<TaskLike>, disabled: set<string>, t: TaskLike) returns (r: Result<seq<int>>)
    ensures r.Ok? <==> AllResolvable(tasks, disabled, t)
    ensures r.Ok? ==> r.value == AllMatches(tasks, t.dependsOnNames)
  {
    var ids := [];
    for i := 0 to |t.dependsOnNames|
      invariant ids == AllMatches(tasks, t.dependsOnNames[..i])
      invariant forall j :: 0 <= j < i ==> Resolvable(tasks, disabled, t.dependsOnNames[j])
    {
      var name := t.dependsOnNames[i];
      MatchesNext(tasks, t.dependsOnNames, i);
      var found := FindMatches(tasks, name);
      ids := ids + found;
      if found == [] && name !in disabled {
        assert name in t.dependsOnNames;
        var overridden := exists u :: u in tasks && u.fallbackName == name;
        return Err(if overridden then "dependency was renamed" else "no such task");
      }
    }
    assert t.dependsOnNames[..|t.dependsOnNames|] == t.dependsOnNames;
    r := Ok(ids);
  }

  method ResolveTask(tasks: seq<TaskLike>, disabled: set<string>, t: TaskLike) returns (r: Result<TaskLike>)
    ensures r.Ok? <==> AllResolvable(tasks, disabled, t)
    ensures r.Ok? ==> r.value == Resolve(tasks, t)
  {
    var ids := DependencyIDs(tasks, disabled, t);
    r := if ids.Err? then Err(ids.message) else Ok(t.(dependsOnIDs := Sort(ids.value, IntLe)));
  }

  ghost predicate AllNamesResolve(tasks: seq<TaskLike>, disabled: set<string>) {
    forall t :: t in tasks ==> AllResolvable(tasks, disabled, t)
  }

  /** The first i tasks have been resolved. */
  ghost predicate ResolvedUpTo(tasks: seq<TaskLike>, disabled: set<string>, i: nat, resolved: seq<TaskLike>) {
    && |resolved| == i <= |tasks|
    && forall j :: 0 <= j < i ==> AllResolvable(tasks, disabled, tasks[j]) && resolved[j] == Resolve(tasks, tasks[j])
  }

  lemma OneMoreResolved(tasks: seq<TaskLike>, disabled: set<string>, i: nat, resolved: seq<TaskLike>, t: TaskLike)
    requires ResolvedUpTo(tasks, disabled, i, resolved) && i < |tasks|
    requires AllResolvable(tasks, disabled, tasks[i]) && t == Resolve(tasks, tasks[i])
    ensures ResolvedUpTo(tasks, disabled, i + 1, resolved + [t])
  {
  }

  lemma SomeNameUnknown(tasks: seq<TaskLike>, disabled: set<string>, i: nat)
    requires i < |tasks| && !AllResolvable(tasks, disabled, tasks[i])
    ensures !AllNamesResolve(tasks, disabled)
  {
    assert tasks[i] in tasks;
  }

  lemma AllAreResolved(tasks: seq<TaskLike>, disabled: set<string>, resolved: seq<TaskLike>)
    requires ResolvedUpTo(tasks, disabled, |tasks|, resolved)
    ensures AllNamesResolve(tasks, disabled) && resolved == Resolved(tasks)
  {
    forall t | t in tasks ensures AllResolvable(tasks, disabled, t) {
      var j :| 0 <= j < |tasks| && tasks[j] == t;
    }
  }

  /** Replaces the names tasks depend on by sorted IDs; fails exactly when some name is unknown. */
  method ResolveDependenciesShallow(tasks: seq<TaskLike>, disabled: set<string>) returns (r: Result<seq<TaskLike>>)
    ensures r.Ok? <==> AllNamesResolve(tasks, disabled)
    ensures r.Ok? ==> r.value == Resolved(tasks)
  {
    var resolved := [];
    for i := 0 to |tasks|
      invariant ResolvedUpTo(tasks, disabled, i, resolved)
    {
      var t := ResolveTask(tasks, disabled, tasks[i]);
      if t.Err? {
        SomeNameUnknown(tasks, disabled, i);
        return Err(t.message);
      }
      OneMoreResolved(tasks, disabled, i, resolved, t.value);
      resolved := resolved + [t.value];
    }
    AllAreResolved(tasks, disabled, resolved);
    r := Ok(resolved);
  }
}
