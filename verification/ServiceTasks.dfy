/** Service tasks that prebuild Dockerfile images (pkg/parser/parser.go). */
module ServiceTasks {
  import opened Common
  import opened Graph
  import opened Validate

  datatype Kind = User | Service(hash: string, tag: string)

  /** The fields of api.Task that the tail of Parse deals with. */
  datatype ProtoTask = ProtoTask(
    localGroupId: int,
    requiredGroups: seq<int>,
    indexWithinBuild: int,
    name: string,
    kind: Kind,
    docker: Docker,
    image: string)

  function ToProto(t: TaskLike): ProtoTask {
    ProtoTask(t.id, t.dependsOnIDs, t.indexWithinBuild, t.name, User, t.docker, "")
  }

  function ProtoNode(t: ProtoTask): Node { Node(t.localGroupId, t.requiredGroups) }

  function ProtoGraph(tasks: seq<ProtoTask>): (g: Graph)
    ensures |g| == |tasks| && forall i :: 0 <= i < |tasks| ==> g[i] == ProtoNode(tasks[i])
  {
    seq(|tasks|, i requires 0 <= i < |tasks| => ProtoNode(tasks[i]))
  }

  /** The image a Dockerfile task is told to use. */
  function ImageName(registry: string, repository: string, hash: string): string {
    registry + "/" + repository + "/" + hash + ":latest"
  }

  /** The tag a service task builds and pushes: registry/Repository:Reference. */
  function BuildTag(registry: string, repository: string, hash: string): string {
    var prebuiltRepository := repository + "/" + hash;
    var reference := "latest";
    registry + "/" + prebuiltRepository + ":" + reference
  }

  /** A task runs in the very image that the service task of its hash pushes. */
  lemma ImageIsTag(registry: string, repository: string, hash: string)
    ensures ImageName(registry, repository, hash) == BuildTag(registry, repository, hash)
  {
    var a, b := ImageName(registry, repository, hash), BuildTag(registry, repository, hash);
    assert registry + "/" + (repository + "/" + hash) == registry + "/" + repository + "/" + hash;
    assert ":" + "latest" == ":latest";
    assert b == registry + "/" + repository + "/" + hash + (":" + "latest");
  }

  // ---------- what createServiceTasks has established for the tasks seen so far ----------

  /** One service task per hash, numbered consecutively from `firstID` and `firstIndex`. */
  ghost predicate ServicesOk(
    services: map<string, ProtoTask>, firstID: int, firstIndex: int, registry: string, repository: string)
  {
    && (forall h :: h in services ==>
          ServiceOk(h, services[h], firstID, firstIndex, |services|, registry, repository))
    && DistinctServices(services)
    && (forall n :: firstID <= n < firstID + |services| ==> Numbers(services, n))
  }

  /** A service task for hash `h` with one of `count` consecutive numbers. */
  ghost predicate ServiceOk(
    h: string, s: ProtoTask, firstID: int, firstIndex: int, count: nat, registry: string, repository: string)
  {
    && s.kind == Service(h, BuildTag(registry, repository, h)) && s.requiredGroups == [] && s.docker == NoDockerfile
    && firstID <= s.localGroupId < firstID + count
    && s.indexWithinBuild - firstIndex == s.localGroupId - firstID
  }

  ghost predicate DistinctServices(services: map<string, ProtoTask>) {
    forall h, h' :: h in services && h' in services && services[h].localGroupId == services[h'].localGroupId ==>
      h == h'
  }

  ghost predicate Numbers(services: map<string, ProtoTask>, n: int) {
    exists h :: h in services && services[h].localGroupId == n
  }

  /** What becomes of a task: a Dockerfile task also requires the service task of its hash and uses its image. */
  ghost predicate Rewritten(
    t: ProtoTask, u: ProtoTask, services: map<string, ProtoTask>, registry: string, repository: string)
  {
    match t.docker
    case NoDockerfile => u == t
    case Dockerfile(None) => false
    case Dockerfile(Some(hash)) =>
      && hash in services
      && u == t.(requiredGroups := t.requiredGroups + [services[hash].localGroupId],
                 image := ImageName(registry, repository, hash))
  }

  ghost predicate AllRewritten(
    tasks: seq<ProtoTask>, updated: seq<ProtoTask>, services: map<string, ProtoTask>,
    registry: string, repository: string)
  {
    |updated| == |tasks| &&
    forall i :: 0 <= i < |tasks| ==> Rewritten(tasks[i], updated[i], services, registry, repository)
  }

  ghost predicate Uses(t: ProtoTask, hash: string) {
    t.docker == Dockerfile(Some(hash))
  }

  ghost predicate Needed(tasks: seq<ProtoTask>, hash: string) {
    exists t :: t in tasks && Uses(t, hash)
  }

  /** Service tasks exist for the hashes in use and no others. */
  ghost predicate ServicesNeeded(tasks: seq<ProtoTask>, services: map<string, ProtoTask>) {
    forall h :: h in services <==> Needed(tasks, h)
  }

  lemma ServicesGrow(
    services: map<string, ProtoTask>, hash: string, s: ProtoTask,
    firstID: int, firstIndex: int, registry: string, repository: string)
    requires ServicesOk(services, firstID, firstIndex, registry, repository) && hash !in services
    requires s.kind == Service(hash, BuildTag(registry, repository, hash))
    requires s.requiredGroups == [] && s.docker == NoDockerfile
    requires s.localGroupId == firstID + |services| && s.indexWithinBuild == firstIndex + |services|
    ensures ServicesOk(services[hash := s], firstID, firstIndex, registry, repository)
    ensures |services[hash := s]| == |services| + 1
  {
    assert forall h :: h in services ==> services[h].localGroupId != s.localGroupId;
    var services' := services[hash := s];
    assert services'.Keys == services.Keys + {hash};
    forall h | h in services'
      ensures ServiceOk(h, services'[h], firstID, firstIndex, |services'|, registry, repository)
    {
      assert h != hash ==> ServiceOk(h, services[h], firstID, firstIndex, |services|, registry, repository);
    }
    DistinctGrow(services, hash, s);
    forall n | firstID <= n < firstID + |services'| ensures Numbers(services', n) {
      NumbersGrow(services, hash, s, n);
    }
  }

  lemma DistinctGrow(services: map<string, ProtoTask>, hash: string, s: ProtoTask)
    requires hash !in services && DistinctServices(services)
    requires forall h :: h in services ==> services[h].localGroupId != s.localGroupId
    ensures DistinctServices(services[hash := s])
  {
  }

  lemma NumbersGrow(services: map<string, ProtoTask>, hash: string, s: ProtoTask, n: int)
    requires hash !in services && (n == s.localGroupId || Numbers(services, n))
    ensures Numbers(services[hash := s], n)
  {
    var services' := services[hash := s];
    if n == s.localGroupId {
      assert services'[hash].localGroupId == n;
    } else {
      var h :| h in services && services[h].localGroupId == n;
      assert h in services' && services'[h].localGroupId == n;
    }
  }

  lemma NeededSnoc(
    tasks: seq<ProtoTask>, t: ProtoTask, services: map<string, ProtoTask>, services': map<string, ProtoTask>)
    requires ServicesNeeded(tasks, services) && HasHash(t.docker)
    requires services'.Keys == services.Keys + (if t.docker.Dockerfile? then {t.docker.hash.value} else {})
    ensures ServicesNeeded(tasks + [t], services')
  {
    forall h ensures h in services' <==> Needed(tasks + [t], h) {
      if h in services {
        var u :| u in tasks && Uses(u, h);
        assert u in tasks + [t];
      }
      if h in services' && h !in services {
        assert t in tasks + [t] && Uses(t, h);
      }
      if u :| u in tasks + [t] && Uses(u, h) {
        assert u in tasks || u == t;
      }
    }
  }

  // ---------- graphs ----------

  /** Appending tasks that require nothing, and letting others require them, keeps a graph closed and acyclic. */
  lemma ServicesKeepAcyclic(
    tasks: seq<ProtoTask>, updated: seq<ProtoTask>, services: map<string, ProtoTask>, list: seq<ProtoTask>,
    firstID: int, firstIndex: int, registry: string, repository: string)
    requires Closed(ProtoGraph(tasks)) && Acyclic(ProtoGraph(tasks))
    requires forall t :: t in tasks ==> t.localGroupId < firstID
    requires ServicesOk(services, firstID, firstIndex, registry, repository)
    requires AllRewritten(tasks, updated, services, registry, repository)
    requires forall s :: s in list <==> s in services.Values
    ensures Closed(ProtoGraph(updated + list)) && Acyclic(ProtoGraph(updated + list))
  {
    var g, g' := ProtoGraph(tasks), ProtoGraph(updated + list);
    forall a, b | Edge(g', a, b) ensures a < firstID && (Edge(g, a, b) || b >= firstID) && HasId(g', b) {
      EdgeOrigin(tasks, updated, services, list, firstID, firstIndex, registry, repository, a, b);
    }
    forall n, d | n in g' && d in n.deps ensures HasId(g', d) {
      assert Edge(g', n.id, d);
    }
    forall p ensures !Cycle(g', p) {
      if Cycle(g', p) {
        forall i | 0 <= i < |p| - 1 ensures Edge(g, p[i], p[i + 1]) {
          assert Edge(g', p[i], p[i + 1]);
          if i + 1 < |p| - 1 {
            assert Edge(g', p[i + 1], p[i + 1 + 1]);
          } else {
            assert Edge(g', p[0], p[0 + 1]);
          }
        }
        assert Cycle(g, p);
        assert false;
      }
    }
  }

  /** Only user tasks have dependencies. */
  lemma EdgeSource(
    updated: seq<ProtoTask>, services: map<string, ProtoTask>, list: seq<ProtoTask>,
    firstID: int, firstIndex: int, registry: string, repository: string, a: int, b: int) returns (i: nat)
    requires ServicesOk(services, firstID, firstIndex, registry, repository)
    requires forall s :: s in list <==> s in services.Values
    requires Edge(ProtoGraph(updated + list), a, b)
    ensures i < |updated| && updated[i].localGroupId == a && b in updated[i].requiredGroups
  {
    var all := updated + list;
    var g := ProtoGraph(all);
    var n :| n in g && n.id == a && b in n.deps;
    i :| 0 <= i < |g| && g[i] == n;
    forall k | |updated| <= k < |all| ensures all[k].requiredGroups == [] {
      assert all[k] in list;
      var h :| h in services && services[h] == all[k];
    }
  }

  lemma ListedNode(tasks: seq<ProtoTask>, i: nat)
    requires i < |tasks|
    ensures HasId(ProtoGraph(tasks), tasks[i].localGroupId)
  {
    assert ProtoGraph(tasks)[i] in ProtoGraph(tasks);
  }

  lemma EdgeOrigin(
    tasks: seq<ProtoTask>, updated: seq<ProtoTask>, services: map<string, ProtoTask>, list: seq<ProtoTask>,
    firstID: int, firstIndex: int, registry: string, repository: string, a: int, b: int)
    requires Closed(ProtoGraph(tasks))
    requires forall t :: t in tasks ==> t.localGroupId < firstID
    requires ServicesOk(services, firstID, firstIndex, registry, repository)
    requires AllRewritten(tasks, updated, services, registry, repository)
    requires forall s :: s in list <==> s in services.Values
    requires Edge(ProtoGraph(updated + list), a, b)
    ensures a < firstID && (Edge(ProtoGraph(tasks), a, b) || b >= firstID)
    ensures HasId(ProtoGraph(updated + list), b)
  {
    var i := EdgeSource(updated, services, list, firstID, firstIndex, registry, repository, a, b);
    var t := tasks[i];
    assert Rewritten(t, updated[i], services, registry, repository) && t in tasks;
    if b in t.requiredGroups {
      UserTarget(tasks, updated, services, list, registry, repository, i, b);
    } else {
      var s := services[t.docker.hash.value];
      assert s in services.Values;
      var j :| 0 <= j < |list| && list[j] == s;
      ListedNode(updated + list, |updated| + j);
    }
  }

  lemma UserTarget(
    tasks: seq<ProtoTask>, updated: seq<ProtoTask>, services: map<string, ProtoTask>, list: seq<ProtoTask>,
    registry: string, repository: string, i: nat, b: int)
    requires Closed(ProtoGraph(tasks)) && AllRewritten(tasks, updated, services, registry, repository)
    requires i < |tasks| && b in tasks[i].requiredGroups
    ensures Edge(ProtoGraph(tasks), tasks[i].localGroupId, b) && HasId(ProtoGraph(updated + list), b)
  {
    var g := ProtoGraph(tasks);
    assert g[i] in g && b in g[i].deps;
    assert HasId(g, b);
    var m :| m in g && m.id == b;
    var j :| 0 <= j < |g| && g[j] == m;
    assert Rewritten(tasks[j], updated[j], services, registry, repository);
    ListedNode(updated + list, j);
  }
}
