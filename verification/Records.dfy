/** What Parse promises about the records of a configuration, in terms of the records alone (pkg/parser/parser.go). */
module Records {
  import opened Common
  import opened Graph
  import opened Validate
  import opened Dependencies
  import opened ServiceTasks
  import opened Builds
  import opened TaskLabels
  import opened Configurations

  // ---------- dependencies between records ----------

  ghost predicate Lists(names: seq<string>, r: RawTask) {
    exists name :: name in names && AnswersTo(r, name)
  }

  /** Record i is enabled and lists a name that the enabled record j goes by. */
  ghost predicate DependsOn(raw: seq<RawTask>, i: int, j: int) {
    && 0 <= i < |raw| && 0 <= j < |raw| && raw[i].enabled && raw[j].enabled
    && Lists(raw[i].dependsOnNames, raw[j])
  }

  /** A chain of dependencies that comes back to where it starts. */
  ghost predicate RecordCycle(raw: seq<RawTask>, p: seq<int>) {
    |p| >= 2 && p[0] == p[|p| - 1] && forall i :: 0 <= i < |p| - 1 ==> DependsOn(raw, p[i], p[i + 1])
  }

  /** The names an enabled record lists are those of records, enabled or not, or known as disabled before. */
  ghost predicate NamesKnown(raw: seq<RawTask>, disabled: set<string>) {
    forall i, name :: 0 <= i < |raw| && raw[i].enabled && name in raw[i].dependsOnNames ==>
      name in disabled || SomeAnswer(raw, name)
  }

  ghost predicate SomeAnswer(raw: seq<RawTask>, name: string) {
    exists j :: 0 <= j < |raw| && AnswersTo(raw[j], name)
  }

  ghost predicate HashesKnown(raw: seq<RawTask>) {
    forall i :: 0 <= i < |raw| && raw[i].enabled && raw[i].docker.Dockerfile? ==> raw[i].docker.hash.Some?
  }

  // ---------- what the returned tasks are ----------

  /** The image a task is told to use: that of its Dockerfile hash, if it has one. */
  function ImageOf(docker: Docker, registry: string, repository: string): string {
    match docker
    case Dockerfile(Some(hash)) => registry + "/" + repository + "/" + hash + ":latest"
    case _ => ""
  }

  /** The group is that of a record depended on, or of the service task for the record's own Dockerfile. */
  ghost predicate Requires(raw: seq<RawTask>, firstID: int, tasks: seq<ProtoTask>, i: int, d: int)
    requires 0 <= i < |raw|
  {
    DependsOn(raw, i, d - firstID) || ServiceOf(tasks, raw[i].docker, d)
  }

  ghost predicate ServiceOf(tasks: seq<ProtoTask>, docker: Docker, d: int) {
    exists s :: s in tasks && s.kind.Service? && s.localGroupId == d && docker == Dockerfile(Some(s.kind.hash))
  }

  /** The task has the name, Dockerfile and image that the record asks for. */
  ghost predicate SaysRecord(r: RawTask, registry: string, repository: string, t: ProtoTask) {
    && t.name == (if r.name == "" then r.fallbackName else r.name)
    && t.docker == r.docker && t.image == ImageOf(r.docker, registry, repository)
  }

  ghost predicate RequiresExactly(raw: seq<RawTask>, firstID: int, tasks: seq<ProtoTask>, i: int, groups: seq<int>)
    requires 0 <= i < |raw|
  {
    forall d :: d in groups <==> Requires(raw, firstID, tasks, i, d)
  }

  /** The returned task has the number of an enabled record, says what the record says and has its dependencies. */
  ghost predicate ReturnsRecord(
    raw: seq<RawTask>, firstID: int, registry: string, repository: string, tasks: seq<ProtoTask>, t: ProtoTask)
  {
    ReturnsRecordAt(raw, firstID, registry, repository, tasks, t, t.localGroupId - firstID)
  }

  ghost predicate ReturnsRecordAt(
    raw: seq<RawTask>, firstID: int, registry: string, repository: string, tasks: seq<ProtoTask>, t: ProtoTask, i: int)
  {
    && 0 <= i < |raw| && raw[i].enabled && SaysRecord(raw[i], registry, repository, t)
    && RequiresExactly(raw, firstID, tasks, i, t.requiredGroups)
  }

  ghost predicate HasUserTask(tasks: seq<ProtoTask>, id: int) {
    exists t :: t in tasks && t.kind == User && t.localGroupId == id
  }

  ghost predicate ReturnedIffEnabled(raw: seq<RawTask>, firstID: int, tasks: seq<ProtoTask>, i: int)
    requires 0 <= i < |raw|
  {
    raw[i].enabled <==> HasUserTask(tasks, firstID + i)
  }

  /** The user tasks among the returned ones are exactly the enabled records. */
  ghost predicate ReturnsRecords(
    raw: seq<RawTask>, firstID: int, registry: string, repository: string, tasks: seq<ProtoTask>)
  {
    && (forall i :: 0 <= i < |raw| ==> ReturnedIffEnabled(raw, firstID, tasks, i))
    && (forall t :: t in tasks && t.kind == User ==> ReturnsRecord(raw, firstID, registry, repository, tasks, t))
  }

  // ---------- tasks and records ----------

  /** The task of an enabled record. */
  lemma {:induction false} TaskAt(raw: seq<RawTask>, firstID: int, tasks: seq<TaskLike>, i: int) returns (k: nat)
    requires TasksOfRecords(raw, firstID, tasks) && 0 <= i < |raw| && raw[i].enabled
    ensures k < |tasks| && tasks[k].id == firstID + i && FromRecord(raw, firstID, tasks[k])
  {
    assert TaskIffEnabled(raw, firstID, tasks, i);
    var t :| t in tasks && t.id == firstID + i;
    k :| 0 <= k < |tasks| && tasks[k] == t;
  }

  lemma {:induction false} RecordAt(raw: seq<RawTask>, firstID: int, tasks: seq<TaskLike>, k: nat)
    requires TasksOfRecords(raw, firstID, tasks) && k < |tasks|
    ensures FromRecord(raw, firstID, tasks[k])
  {
    assert tasks[k] in tasks;
  }

  lemma {:induction false} AnswersExactly(raw: seq<RawTask>, firstID: int, t: TaskLike, name: string)
    requires FromRecord(raw, firstID, t)
    ensures Answers(t, name) <==> AnswersTo(raw[t.id - firstID], name)
  {
  }

  lemma {:induction false} MeantIsListed(
    raw: seq<RawTask>, firstID: int, tasks: seq<TaskLike>, names: seq<string>, d: int, j: int)
    requires TasksOfRecords(raw, firstID, tasks) && d - firstID == j && Meant(tasks, names, d)
    ensures 0 <= j < |raw| && raw[j].enabled && Lists(names, raw[j])
  {
    var name, t :| name in names && t in tasks && Answers(t, name) && t.id == d;
    AnswersExactly(raw, firstID, t, name);
  }

  lemma {:induction false} ListedIsMeant(
    raw: seq<RawTask>, firstID: int, tasks: seq<TaskLike>, names: seq<string>, d: int, j: int)
    requires TasksOfRecords(raw, firstID, tasks) && d - firstID == j
    requires 0 <= j < |raw| && raw[j].enabled && Lists(names, raw[j])
    ensures Meant(tasks, names, d)
  {
    var name :| name in names && AnswersTo(raw[j], name);
    var k := TaskAt(raw, firstID, tasks, j);
    AnswersExactly(raw, firstID, tasks[k], name);
    assert tasks[k] in tasks;
  }

  lemma {:induction false} ResolvedIsDependency(
    raw: seq<RawTask>, firstID: int, tasks: seq<TaskLike>, k: nat, i: int, d: int, j: int)
    requires TasksOfRecords(raw, firstID, tasks) && k < |tasks| && tasks[k].id - firstID == i && d - firstID == j
    requires d in Resolved(tasks)[k].dependsOnIDs
    ensures DependsOn(raw, i, j)
  {
    RecordAt(raw, firstID, tasks, k);
    ResolveMeaning(tasks, tasks[k]);
    MeantIsListed(raw, firstID, tasks, tasks[k].dependsOnNames, d, j);
  }

  lemma {:induction false} DependencyIsResolved(
    raw: seq<RawTask>, firstID: int, tasks: seq<TaskLike>, k: nat, i: int, d: int, j: int)
    requires TasksOfRecords(raw, firstID, tasks) && k < |tasks| && tasks[k].id - firstID == i && d - firstID == j
    requires DependsOn(raw, i, j)
    ensures d in Resolved(tasks)[k].dependsOnIDs
  {
    RecordAt(raw, firstID, tasks, k);
    ResolveMeaning(tasks, tasks[k]);
    ListedIsMeant(raw, firstID, tasks, tasks[k].dependsOnNames, d, j);
  }

  /** Resolved dependencies are the dependencies between records. */
  lemma {:induction false} DependenciesExactly(
    raw: seq<RawTask>, firstID: int, tasks: seq<TaskLike>, k: nat, i: int, d: int, j: int)
    requires TasksOfRecords(raw, firstID, tasks) && k < |tasks| && tasks[k].id - firstID == i && d - firstID == j
    ensures d in Resolved(tasks)[k].dependsOnIDs <==> DependsOn(raw, i, j)
  {
    if d in Resolved(tasks)[k].dependsOnIDs {
      ResolvedIsDependency(raw, firstID, tasks, k, i, d, j);
    }
    if DependsOn(raw, i, j) {
      DependencyIsResolved(raw, firstID, tasks, k, i, d, j);
    }
  }

  // ---------- names ----------

  ghost predicate EnabledAnswer(raw: seq<RawTask>, name: string) {
    exists j :: 0 <= j < |raw| && raw[j].enabled && AnswersTo(raw[j], name)
  }

  lemma {:induction false} MatchIsAnswer(raw: seq<RawTask>, firstID: int, tasks: seq<TaskLike>, name: string)
    requires TasksOfRecords(raw, firstID, tasks) && Matches(tasks, name) != []
    ensures EnabledAnswer(raw, name)
  {
    var d := Matches(tasks, name)[0];
    MatchesMeaning(tasks, name, d);
    var t :| t in tasks && Answers(t, name) && t.id == d;
    AnswersExactly(raw, firstID, t, name);
  }

  lemma {:induction false} AnswerIsMatch(raw: seq<RawTask>, firstID: int, tasks: seq<TaskLike>, name: string)
    requires TasksOfRecords(raw, firstID, tasks) && EnabledAnswer(raw, name)
    ensures Matches(tasks, name) != []
  {
    var j :| 0 <= j < |raw| && raw[j].enabled && AnswersTo(raw[j], name);
    var k := TaskAt(raw, firstID, tasks, j);
    AnswersExactly(raw, firstID, tasks[k], name);
    TaskMatches(tasks, k, name);
  }

  lemma {:induction false} TaskMatches(tasks: seq<TaskLike>, k: nat, name: string)
    requires k < |tasks| && Answers(tasks[k], name)
    ensures tasks[k].id in Matches(tasks, name)
  {
    assert tasks[k] in tasks;
    MatchesMeaning(tasks, name, tasks[k].id);
  }

  lemma {:induction false} ResolvableExactly(
    raw: seq<RawTask>, firstID: int, tasks: seq<TaskLike>, disabled: set<string>, name: string)
    requires TasksOfRecords(raw, firstID, tasks)
    ensures Resolvable(tasks, disabled + DisabledNames(raw), name) <==> name in disabled || SomeAnswer(raw, name)
  {
    DisabledExactly(raw, name);
    if Matches(tasks, name) != [] {
      MatchIsAnswer(raw, firstID, tasks, name);
    } else if EnabledAnswer(raw, name) {
      AnswerIsMatch(raw, firstID, tasks, name);
    }
  }

  /** All names resolve exactly if they are known. */
  lemma {:induction false} NamesExactly(raw: seq<RawTask>, firstID: int, tasks: seq<TaskLike>, disabled: set<string>)
    requires TasksOfRecords(raw, firstID, tasks)
    ensures AllNamesResolve(tasks, disabled + DisabledNames(raw)) <==> NamesKnown(raw, disabled)
  {
    forall name
      ensures Resolvable(tasks, disabled + DisabledNames(raw), name) <==> name in disabled || SomeAnswer(raw, name)
    {
      ResolvableExactly(raw, firstID, tasks, disabled, name);
    }
    if AllNamesResolve(tasks, disabled + DisabledNames(raw)) {
      forall i, name | 0 <= i < |raw| && raw[i].enabled && name in raw[i].dependsOnNames
        ensures name in disabled || SomeAnswer(raw, name)
      {
        var k := TaskAt(raw, firstID, tasks, i);
        assert tasks[k] in tasks && AllResolvable(tasks, disabled + DisabledNames(raw), tasks[k]);
      }
    }
    if NamesKnown(raw, disabled) {
      forall t | t in tasks ensures AllResolvable(tasks, disabled + DisabledNames(raw), t) {
        assert FromRecord(raw, firstID, t);
      }
    }
  }

  // ---------- cycles ----------

  lemma {:induction false} NodeAt(tasks: seq<TaskLike>, k: nat)
    requires k < |tasks|
    ensures ProtoGraph(Protos(Resolved(tasks)))[k] == Node(tasks[k].id, Resolved(tasks)[k].dependsOnIDs)
  {
  }

  /** An edge of the graph starts at some task. */
  lemma {:induction false} EdgeAt(tasks: seq<TaskLike>, a: int, b: int) returns (k: nat)
    requires Edge(ProtoGraph(Protos(Resolved(tasks))), a, b)
    ensures k < |tasks| && tasks[k].id == a && b in Resolved(tasks)[k].dependsOnIDs
  {
    var g := ProtoGraph(Protos(Resolved(tasks)));
    var n :| n in g && n.id == a && b in n.deps;
    k :| 0 <= k < |g| && g[k] == n;
    NodeAt(tasks, k);
  }

  lemma {:induction false} EdgeFrom(tasks: seq<TaskLike>, k: nat, b: int)
    requires k < |tasks| && b in Resolved(tasks)[k].dependsOnIDs
    ensures Edge(ProtoGraph(Protos(Resolved(tasks))), tasks[k].id, b)
  {
    var g := ProtoGraph(Protos(Resolved(tasks)));
    NodeAt(tasks, k);
    assert g[k] in g;
  }

  lemma {:induction false} EdgeIsDependency(
    raw: seq<RawTask>, firstID: int, tasks: seq<TaskLike>, a: int, b: int, i: int, j: int)
    requires TasksOfRecords(raw, firstID, tasks) && i == a - firstID && j == b - firstID
    requires Edge(ProtoGraph(Protos(Resolved(tasks))), a, b)
    ensures DependsOn(raw, i, j)
  {
    var k := EdgeAt(tasks, a, b);
    DependenciesExactly(raw, firstID, tasks, k, i, b, j);
  }

  lemma {:induction false} DependencyIsEdge(
    raw: seq<RawTask>, firstID: int, tasks: seq<TaskLike>, a: int, b: int, i: int, j: int)
    requires TasksOfRecords(raw, firstID, tasks) && i == a - firstID && j == b - firstID && DependsOn(raw, i, j)
    ensures Edge(ProtoGraph(Protos(Resolved(tasks))), a, b)
  {
    var k := TaskAt(raw, firstID, tasks, i);
    DependenciesExactly(raw, firstID, tasks, k, i, b, j);
    EdgeFrom(tasks, k, b);
  }

  function Shift(p: seq<int>, offset: int): (q: seq<int>)
    ensures |q| == |p| && forall i :: 0 <= i < |p| ==> q[i] == p[i] + offset
  {
    seq(|p|, i requires 0 <= i < |p| => p[i] + offset)
  }

  ghost predicate SameEdges(raw: seq<RawTask>, firstID: int, g: Graph) {
    forall a, b :: Edge(g, a, b) <==> DependsOn(raw, a - firstID, b - firstID)
  }

  lemma {:induction false} CycleExactly(raw: seq<RawTask>, firstID: int, g: Graph, p: seq<int>)
    requires SameEdges(raw, firstID, g)
    ensures Cycle(g, p) <==> RecordCycle(raw, Shift(p, -firstID))
  {
    var q := Shift(p, -firstID);
    forall i | 0 <= i < |p| - 1 ensures Edge(g, p[i], p[i + 1]) <==> DependsOn(raw, q[i], q[i + 1]) {
      assert q[i] == p[i] - firstID && q[i + 1] == p[i + 1] - firstID;
    }
  }

  /** The graph of the tasks is acyclic exactly if the records are. */
  lemma {:induction false} AcyclicExactly(raw: seq<RawTask>, firstID: int, tasks: seq<TaskLike>)
    requires TasksOfRecords(raw, firstID, tasks)
    ensures Acyclic(ProtoGraph(Protos(Resolved(tasks)))) <==> forall p :: !RecordCycle(raw, p)
  {
    var g := ProtoGraph(Protos(Resolved(tasks)));
    forall a, b ensures Edge(g, a, b) <==> DependsOn(raw, a - firstID, b - firstID) {
      if Edge(g, a, b) {
        EdgeIsDependency(raw, firstID, tasks, a, b, a - firstID, b - firstID);
      } else if DependsOn(raw, a - firstID, b - firstID) {
        DependencyIsEdge(raw, firstID, tasks, a, b, a - firstID, b - firstID);
      }
    }
    forall p ensures Cycle(g, p) <==> RecordCycle(raw, Shift(p, -firstID)) {
      CycleExactly(raw, firstID, g, p);
    }
    forall p ensures RecordCycle(raw, p) ==> Cycle(g, Shift(p, firstID)) {
      assert Shift(Shift(p, firstID), -firstID) == p;
    }
  }

  // ---------- hashes ----------

  lemma {:induction false} HashOf(raw: seq<RawTask>, firstID: int, tasks: seq<TaskLike>, i: int)
    requires TasksOfRecords(raw, firstID, tasks) && AllHashed(Protos(Resolved(tasks)))
    requires 0 <= i < |raw| && raw[i].enabled
    ensures HasHash(raw[i].docker)
  {
    var p := Protos(Resolved(tasks));
    var k := TaskAt(raw, firstID, tasks, i);
    assert p[k] in p;
  }

  lemma {:induction false} HashesExactly(raw: seq<RawTask>, firstID: int, tasks: seq<TaskLike>)
    requires TasksOfRecords(raw, firstID, tasks)
    ensures AllHashed(Protos(Resolved(tasks))) <==> HashesKnown(raw)
  {
    var p := Protos(Resolved(tasks));
    if AllHashed(p) {
      forall i | 0 <= i < |raw| && raw[i].enabled && raw[i].docker.Dockerfile? ensures raw[i].docker.hash.Some? {
        HashOf(raw, firstID, tasks, i);
      }
    } else if HashesKnown(raw) {
      forall t | t in p ensures HasHash(t.docker) {
        var k :| 0 <= k < |p| && p[k] == t;
        RecordAt(raw, firstID, tasks, k);
      }
    }
  }

  // ---------- the returned tasks ----------

  lemma {:induction false} GroupsDistinct(tasks: seq<ProtoTask>, s: ProtoTask, t: ProtoTask)
    requires IncreasingGroups(tasks) && s in tasks && t in tasks && s.localGroupId == t.localGroupId
    ensures s == t
  {
    var i :| 0 <= i < |tasks| && tasks[i] == s;
    var j :| 0 <= j < |tasks| && tasks[j] == t;
  }

  lemma {:induction false} NoUserTask(tasks: seq<ProtoTask>, s: ProtoTask)
    requires IncreasingGroups(tasks) && s in tasks && s.kind.Service?
    ensures !HasUserTask(tasks, s.localGroupId)
  {
    forall t | t in tasks && t.localGroupId == s.localGroupId ensures t == s {
      GroupsDistinct(tasks, s, t);
    }
  }

  /** What the dependencies of a returned task rest on: distinct IDs, and service tasks by hash. */
  ghost predicate Linked(tasks: seq<ProtoTask>) {
    IncreasingGroups(tasks) && AllServed(tasks) && SharedByHash(tasks)
  }

  /** What a Dockerfile task requires beyond its dependencies is the service task of its hash, and that only. */
  lemma {:induction false} ExtraGroup(
    user: seq<ProtoTask>, tasks: seq<ProtoTask>, registry: string, repository: string, k: nat, d: int)
    requires Linked(tasks) && Carries(user, tasks, registry, repository) && k < |user| && user[k].kind == User
    requires forall e :: e in user[k].requiredGroups ==> HasUserTask(tasks, e)
    ensures d in tasks[k].requiredGroups <==>
      d in user[k].requiredGroups || ServiceOf(tasks, user[k].docker, d)
  {
    var t := tasks[k];
    assert t in tasks && Becomes(user[k], t, registry, repository);
    if user[k].docker.Dockerfile? {
      var h := user[k].docker.hash.value;
      assert Uses(t, h) && Served(tasks, t, h);
      var s :| ServedBy(tasks, t, s) && s.kind.hash == h && s.kind.tag == t.image;
      NoUserTask(tasks, s);
      assert t.requiredGroups == user[k].requiredGroups + [s.localGroupId];
      if ServiceOf(tasks, user[k].docker, d) {
        var s' :| s' in tasks && s'.kind.Service? && s'.localGroupId == d && s'.kind.hash == h;
        assert s' == s;
      }
    }
  }

  lemma {:induction false} UserTaskAt(
    user: seq<ProtoTask>, tasks: seq<ProtoTask>, registry: string, repository: string, t: ProtoTask) returns (k: nat)
    requires Carries(user, tasks, registry, repository) && t in tasks && t.kind == User
    ensures k < |user| && tasks[k] == t && Becomes(user[k], t, registry, repository)
  {
    k :| 0 <= k < |tasks| && tasks[k] == t;
  }

  lemma {:induction false} BuiltHasUserTask(
    likes: seq<TaskLike>, tasks: seq<ProtoTask>, registry: string, repository: string, id: int)
    requires Carries(Protos(Resolved(likes)), tasks, registry, repository)
    ensures HasUserTask(tasks, id) <==> HasTask(likes, id)
  {
    var user := Protos(Resolved(likes));
    if HasTask(likes, id) {
      var t :| t in likes && t.id == id;
      var k :| 0 <= k < |likes| && likes[k] == t;
      assert Becomes(user[k], tasks[k], registry, repository) && tasks[k] in tasks;
    }
    if HasUserTask(tasks, id) {
      var t :| t in tasks && t.kind == User && t.localGroupId == id;
      var k := UserTaskAt(user, tasks, registry, repository, t);
      assert likes[k] in likes && likes[k].id == id;
    }
  }

  lemma {:induction false} DependenciesAreReturned(
    raw: seq<RawTask>, firstID: int, likes: seq<TaskLike>, tasks: seq<ProtoTask>,
    registry: string, repository: string, k: nat, i: int)
    requires TasksOfRecords(raw, firstID, likes) && k < |likes| && likes[k].id - firstID == i
    requires Carries(Protos(Resolved(likes)), tasks, registry, repository)
    ensures forall e :: e in Protos(Resolved(likes))[k].requiredGroups ==> HasUserTask(tasks, e)
  {
    forall e | e in Resolved(likes)[k].dependsOnIDs ensures HasUserTask(tasks, e) {
      DependenciesExactly(raw, firstID, likes, k, i, e, e - firstID);
      var j := TaskAt(raw, firstID, likes, e - firstID);
      assert likes[j] in likes;
      BuiltHasUserTask(likes, tasks, registry, repository, e);
    }
  }

  /** The groups required by the user task of record i. */
  lemma {:induction false} GroupsExactly(
    raw: seq<RawTask>, firstID: int, likes: seq<TaskLike>, tasks: seq<ProtoTask>,
    registry: string, repository: string, k: nat, i: int, d: int)
    requires TasksOfRecords(raw, firstID, likes) && k < |likes| && likes[k].id - firstID == i
    requires 0 <= i < |raw| && likes[k].docker == raw[i].docker
    requires Linked(tasks) && Carries(Protos(Resolved(likes)), tasks, registry, repository)
    ensures d in tasks[k].requiredGroups <==> Requires(raw, firstID, tasks, i, d)
  {
    var user := Protos(Resolved(likes));
    DependenciesExactly(raw, firstID, likes, k, i, d, d - firstID);
    DependenciesAreReturned(raw, firstID, likes, tasks, registry, repository, k, i);
    ExtraGroup(user, tasks, registry, repository, k, d);
  }

  lemma {:induction false} CarriedNumber(
    likes: seq<TaskLike>, k: nat, registry: string, repository: string, t: ProtoTask)
    requires k < |likes| && Becomes(Protos(Resolved(likes))[k], t, registry, repository)
    ensures t.localGroupId == likes[k].id
  {
  }

  lemma {:induction false} FieldsExactly(
    raw: seq<RawTask>, firstID: int, likes: seq<TaskLike>, k: nat, registry: string, repository: string, t: ProtoTask,
    i: int)
    requires k < |likes| && FromRecord(raw, firstID, likes[k]) && likes[k].id - firstID == i
    requires Becomes(Protos(Resolved(likes))[k], t, registry, repository)
    ensures t.localGroupId - firstID == i && 0 <= i < |raw| && raw[i].enabled && likes[k].docker == raw[i].docker
    ensures SaysRecord(raw[i], registry, repository, t)
  {
  }

  lemma {:induction false} AllGroupsExactly(
    raw: seq<RawTask>, firstID: int, likes: seq<TaskLike>, tasks: seq<ProtoTask>,
    registry: string, repository: string, k: nat, i: int)
    requires TasksOfRecords(raw, firstID, likes) && k < |likes| && likes[k].id - firstID == i
    requires 0 <= i < |raw| && likes[k].docker == raw[i].docker
    requires Linked(tasks) && Carries(Protos(Resolved(likes)), tasks, registry, repository)
    ensures RequiresExactly(raw, firstID, tasks, i, tasks[k].requiredGroups)
  {
    forall d ensures d in tasks[k].requiredGroups <==> Requires(raw, firstID, tasks, i, d) {
      GroupsExactly(raw, firstID, likes, tasks, registry, repository, k, i, d);
    }
  }

  /** The record of a returned user task. */
  lemma {:induction false} RecordOf(
    raw: seq<RawTask>, firstID: int, likes: seq<TaskLike>, tasks: seq<ProtoTask>,
    registry: string, repository: string, t: ProtoTask, i: int) returns (k: nat)
    requires TasksOfRecords(raw, firstID, likes) && Carries(Protos(Resolved(likes)), tasks, registry, repository)
    requires t in tasks && t.kind == User && t.localGroupId - firstID == i
    ensures k < |likes| && tasks[k] == t && likes[k].id - firstID == i
    ensures 0 <= i < |raw| && raw[i].enabled && likes[k].docker == raw[i].docker
    ensures SaysRecord(raw[i], registry, repository, t)
  {
    k := UserTaskAt(Protos(Resolved(likes)), tasks, registry, repository, t);
    RecordAt(raw, firstID, likes, k);
    CarriedNumber(likes, k, registry, repository, t);
    FieldsExactly(raw, firstID, likes, k, registry, repository, t, i);
  }

  lemma {:induction false} BuiltReturnsRecord(
    raw: seq<RawTask>, firstID: int, likes: seq<TaskLike>, tasks: seq<ProtoTask>,
    registry: string, repository: string, t: ProtoTask, i: int)
    requires TasksOfRecords(raw, firstID, likes)
    requires Linked(tasks) && Carries(Protos(Resolved(likes)), tasks, registry, repository)
    requires t in tasks && t.kind == User && t.localGroupId - firstID == i
    ensures ReturnsRecordAt(raw, firstID, registry, repository, tasks, t, i)
  {
    var k := RecordOf(raw, firstID, likes, tasks, registry, repository, t, i);
    AllGroupsExactly(raw, firstID, likes, tasks, registry, repository, k, i);
  }

  lemma {:induction false} EnabledAreReturned(
    raw: seq<RawTask>, firstID: int, likes: seq<TaskLike>, tasks: seq<ProtoTask>, registry: string, repository: string)
    requires TasksOfRecords(raw, firstID, likes) && Carries(Protos(Resolved(likes)), tasks, registry, repository)
    ensures forall i :: 0 <= i < |raw| ==> ReturnedIffEnabled(raw, firstID, tasks, i)
  {
    forall i | 0 <= i < |raw| ensures ReturnedIffEnabled(raw, firstID, tasks, i) {
      assert TaskIffEnabled(raw, firstID, likes, i);
      BuiltHasUserTask(likes, tasks, registry, repository, firstID + i);
    }
  }

  lemma {:induction false} ReturnedAreRecords(
    raw: seq<RawTask>, firstID: int, likes: seq<TaskLike>, tasks: seq<ProtoTask>,
    registry: string, repository: string)
    requires TasksOfRecords(raw, firstID, likes)
    requires Linked(tasks) && Carries(Protos(Resolved(likes)), tasks, registry, repository)
    ensures forall t :: t in tasks && t.kind == User ==> ReturnsRecord(raw, firstID, registry, repository, tasks, t)
  {
    forall t | t in tasks && t.kind == User ensures ReturnsRecord(raw, firstID, registry, repository, tasks, t) {
      ReturnedIsRecord(raw, firstID, likes, tasks, registry, repository, t);
    }
  }

  lemma {:induction false} ReturnedIsRecord(
    raw: seq<RawTask>, firstID: int, likes: seq<TaskLike>, tasks: seq<ProtoTask>,
    registry: string, repository: string, t: ProtoTask)
    requires TasksOfRecords(raw, firstID, likes)
    requires Linked(tasks) && Carries(Protos(Resolved(likes)), tasks, registry, repository)
    requires t in tasks && t.kind == User
    ensures ReturnsRecord(raw, firstID, registry, repository, tasks, t)
  {
    BuiltReturnsRecord(raw, firstID, likes, tasks, registry, repository, t, t.localGroupId - firstID);
  }

  /** A well-formed build of the tasks of the records returns the records. */
  lemma {:induction false} BuiltReturnsRecords(
    raw: seq<RawTask>, firstID: int, likes: seq<TaskLike>, tasks: seq<ProtoTask>, firstIndex: int,
    registry: string, repository: string)
    requires TasksOfRecords(raw, firstID, likes)
    requires Built(Protos(Resolved(likes)), tasks, firstIndex, registry, repository)
    ensures ReturnsRecords(raw, firstID, registry, repository, tasks)
  {
    EnabledAreReturned(raw, firstID, likes, tasks, registry, repository);
    ReturnedAreRecords(raw, firstID, likes, tasks, registry, repository);
  }

  // ---------- the pipeline as a whole ----------

  /** Names are known, dependencies do not go in circles, and Dockerfile hashes are known. */
  ghost predicate Coherent(raw: seq<RawTask>, disabled: set<string>) {
    NamesKnown(raw, disabled) && HashesKnown(raw) && forall p :: !RecordCycle(raw, p)
  }

  /** The result in terms of resolution and the tail of the pipeline. */
  ghost predicate Processed(
    likes: seq<TaskLike>, disabled: set<string>, firstIndex: int, registry: string, repository: string,
    valid: ProtoTask -> bool, labelsOf: LabelsOf, r: Result<seq<Labelled>>)
  {
    if AllNamesResolve(likes, disabled)
    then Finished(Protos(Resolved(likes)), firstIndex, registry, repository, valid, labelsOf, r)
    else r.Err?
  }

  /** The result in terms of the records: a labelled, well-formed build of them, if they are coherent and valid. */
  ghost predicate Parsed(
    raw: seq<RawTask>, likes: seq<TaskLike>, disabled: set<string>, firstID: int, firstIndex: int,
    registry: string, repository: string, valid: ProtoTask -> bool, labelsOf: LabelsOf, r: Result<seq<Labelled>>)
  {
    if Coherent(raw, disabled) && forall t :: t in Protos(Resolved(likes)) ==> valid(t)
    then
      match r
      case Ok(labelled) =>
        && Built(Protos(Resolved(likes)), TasksOf(labelled), firstIndex, registry, repository)
        && AllLabelled(labelsOf, labelled)
        && ReturnsRecords(raw, firstID, registry, repository, TasksOf(labelled))
      case Err(_) => BuiltUnlabelable(Protos(Resolved(likes)), firstIndex, registry, repository, labelsOf)
    else r.Err?
  }

  lemma {:induction false} CoherentExactly(
    raw: seq<RawTask>, firstID: int, likes: seq<TaskLike>, disabled: set<string>, valid: ProtoTask -> bool)
    requires TasksOfRecords(raw, firstID, likes)
    ensures
      AllNamesResolve(likes, disabled + DisabledNames(raw)) && Finishable(Protos(Resolved(likes)), valid) <==>
      Coherent(raw, disabled) && forall t :: t in Protos(Resolved(likes)) ==> valid(t)
  {
    NamesExactly(raw, firstID, likes, disabled);
    AcyclicExactly(raw, firstID, likes);
    HashesExactly(raw, firstID, likes);
  }

  lemma {:induction false} ProcessedIsParsed(
    raw: seq<RawTask>, likes: seq<TaskLike>, disabled: set<string>, firstID: int, firstIndex: int,
    registry: string, repository: string, valid: ProtoTask -> bool, labelsOf: LabelsOf, r: Result<seq<Labelled>>)
    requires TasksOfRecords(raw, firstID, likes)
    requires Processed(likes, disabled + DisabledNames(raw), firstIndex, registry, repository, valid, labelsOf, r)
    ensures Parsed(raw, likes, disabled, firstID, firstIndex, registry, repository, valid, labelsOf, r)
  {
    CoherentExactly(raw, firstID, likes, disabled, valid);
    if r.Ok? {
      BuiltReturnsRecords(raw, firstID, likes, TasksOf(r.value), firstIndex, registry, repository);
    }
  }
}
