/** What a well-formed build is, and how user tasks and service tasks make one (pkg/parser/parser.go). */
module Builds {
  import opened Common
  import opened Graph
  import opened Sorting
  import opened Validate
  import opened ServiceTasks

  // ---------- properties of the tasks Parse returns ----------

  predicate ById(x: ProtoTask, y: ProtoTask) {
    x.localGroupId <= y.localGroupId
  }

  ghost predicate IncreasingGroups(tasks: seq<ProtoTask>) {
    forall i, j :: 0 <= i < j < |tasks| ==> tasks[i].localGroupId < tasks[j].localGroupId
  }

  ghost predicate DistinctGroups(tasks: seq<ProtoTask>) {
    forall i, j :: 0 <= i < j < |tasks| ==> tasks[i].localGroupId != tasks[j].localGroupId
  }

  /** Task `t` requires the service task `s`. */
  ghost predicate ServedBy(tasks: seq<ProtoTask>, t: ProtoTask, s: ProtoTask) {
    s in tasks && s.kind.Service? && s.localGroupId in t.requiredGroups
  }

  /** Every Dockerfile task requires a service task that builds the image it runs in. */
  ghost predicate AllServed(tasks: seq<ProtoTask>) {
    forall t, h :: t in tasks && Uses(t, h) ==> Served(tasks, t, h)
  }

  ghost predicate Served(tasks: seq<ProtoTask>, t: ProtoTask, h: string) {
    exists s :: ServedBy(tasks, t, s) && s.kind.hash == h && s.kind.tag == t.image
  }

  /** Tasks require the service tasks of their own hash only: two tasks share one exactly when their hashes agree. */
  ghost predicate SharedByHash(tasks: seq<ProtoTask>) {
    && (forall t, s :: t in tasks && ServedBy(tasks, t, s) ==> Uses(t, s.kind.hash))
    && (forall s, s' ::
          s in tasks && s' in tasks && s.kind.Service? && s'.kind.Service? && s.kind.hash == s'.kind.hash ==> s == s')
  }

  ghost predicate NoIdleService(tasks: seq<ProtoTask>) {
    forall s :: s in tasks && s.kind.Service? ==> Needed(tasks, s.kind.hash)
  }

  /** The indices within the build are exactly the numbers from `first` on. */
  ghost predicate IndicesExact(tasks: seq<ProtoTask>, first: int) {
    && (forall t :: t in tasks ==> first <= t.indexWithinBuild < first + |tasks|)
    && (forall n :: first <= n < first + |tasks| ==> HasIndex(tasks, n))
  }

  ghost predicate HasIndex(tasks: seq<ProtoTask>, n: int) {
    exists t :: t in tasks && t.indexWithinBuild == n
  }

  ghost predicate WellFormed(tasks: seq<ProtoTask>, firstIndex: int) {
    && IncreasingGroups(tasks)
    && Closed(ProtoGraph(tasks)) && Acyclic(ProtoGraph(tasks))
    && AllServed(tasks) && SharedByHash(tasks) && NoIdleService(tasks)
    && IndicesExact(tasks, firstIndex)
  }

  /** What a user task becomes: a Dockerfile task gains one dependency and an image, any other task stays as it is. */
  ghost predicate Becomes(t: ProtoTask, u: ProtoTask, registry: string, repository: string) {
    match t.docker
    case NoDockerfile => u == t
    case Dockerfile(None) => false
    case Dockerfile(Some(hash)) =>
      && |u.requiredGroups| == |t.requiredGroups| + 1
      && u == t.(requiredGroups := t.requiredGroups + [u.requiredGroups[|t.requiredGroups|]],
                 image := ImageName(registry, repository, hash))
  }

  /** The returned tasks are the user tasks in their order, followed by service tasks that require nothing. */
  ghost predicate Carries(user: seq<ProtoTask>, tasks: seq<ProtoTask>, registry: string, repository: string) {
    && |user| <= |tasks|
    && (forall i :: 0 <= i < |user| ==> Becomes(user[i], tasks[i], registry, repository))
    && (forall i :: |user| <= i < |tasks| ==> tasks[i].kind.Service? && tasks[i].requiredGroups == [])
  }

  // ---------- user tasks followed by service tasks ----------

  ghost predicate UserTasks(tasks: seq<ProtoTask>, endID: int, firstIndex: int) {
    && IncreasingGroups(tasks)
    && forall i :: 0 <= i < |tasks| ==>
         tasks[i].kind == User && tasks[i].localGroupId < endID && tasks[i].indexWithinBuild == firstIndex + i
  }

  /** The user tasks before and after createServiceTasks, the service tasks, and one order of listing them. */
  datatype Build = Build(
    tasks: seq<ProtoTask>, updated: seq<ProtoTask>, services: map<string, ProtoTask>, keys: seq<string>,
    firstID: int, firstIndex: int, registry: string, repository: string)
  {
    ghost predicate Shape() {
      && UserTasks(tasks, firstID, firstIndex)
      && ServicesOk(services, firstID, firstIndex + |tasks|, registry, repository)
      && AllRewritten(tasks, updated, services, registry, repository)
      && NoDuplicates(keys) && |keys| == |services| && forall h :: h in keys <==> h in services
    }

    ghost predicate Valid() {
      Shape() && ServicesNeeded(tasks, services) && Closed(ProtoGraph(tasks)) && Acyclic(ProtoGraph(tasks))
    }

    function List(): (list: seq<ProtoTask>)
      requires forall h :: h in keys ==> h in services
      ensures |list| == |keys| && forall i :: 0 <= i < |keys| ==> list[i] == services[keys[i]]
    {
      seq(|keys|, i requires 0 <= i < |keys| => services[keys[i]])
    }
  }

  lemma {:induction false} EnumerationLength(keys: seq<string>, all: set<string>)
    requires Enumerates(keys, all)
    ensures |keys| == |all| && forall h :: h in keys <==> h in all
  {
    assert forall h :: h in keys <==> h in Elements(keys);
    if keys == [] {
      assert all == {};
    } else {
      var k := keys[0];
      assert k in all && k !in keys[1..];
      assert Elements(keys[1..]) == all - {k};
      EnumerationLength(keys[1..], all - {k});
    }
  }

  lemma ListIsServices(b: Build)
    requires b.Shape()
    ensures forall s :: s in b.List() <==> s in b.services.Values
  {
    forall s | s in b.services.Values ensures s in b.List() {
      var h :| h in b.services && b.services[h] == s;
      assert h in b.keys;
      var i :| 0 <= i < |b.keys| && b.keys[i] == h;
      assert b.List()[i] == s;
    }
  }

  lemma UserFacts(b: Build)
    requires b.Shape()
    ensures |b.updated| == |b.tasks|
    ensures forall i :: 0 <= i < |b.tasks| ==>
      && b.updated[i].localGroupId == b.tasks[i].localGroupId < b.firstID
      && b.updated[i].indexWithinBuild == b.firstIndex + i
      && b.updated[i].kind == User && b.updated[i].docker == b.tasks[i].docker
    ensures IncreasingGroups(b.updated)
  {
    forall i | 0 <= i < |b.tasks|
      ensures b.updated[i].localGroupId == b.tasks[i].localGroupId < b.firstID
      ensures b.updated[i].indexWithinBuild == b.firstIndex + i
      ensures b.updated[i].kind == User && b.updated[i].docker == b.tasks[i].docker
    {
      assert Rewritten(b.tasks[i], b.updated[i], b.services, b.registry, b.repository);
    }
  }

  lemma ServiceFacts(b: Build)
    requires b.Shape()
    ensures |b.List()| == |b.services|
    ensures forall i :: 0 <= i < |b.keys| ==>
      && b.firstID <= b.List()[i].localGroupId < b.firstID + |b.services|
      && b.List()[i].indexWithinBuild - (b.firstIndex + |b.tasks|) == b.List()[i].localGroupId - b.firstID
    ensures DistinctGroups(b.List())
  {
    forall i, j | 0 <= i < j < |b.keys| ensures b.List()[i].localGroupId != b.List()[j].localGroupId {
      assert b.keys[i] != b.keys[j];
      assert b.keys[i] in b.services && b.keys[j] in b.services;
    }
  }

  lemma DistinctConcat(u: seq<ProtoTask>, l: seq<ProtoTask>, bound: int)
    requires IncreasingGroups(u) && DistinctGroups(l)
    requires forall i :: 0 <= i < |u| ==> u[i].localGroupId < bound
    requires forall i :: 0 <= i < |l| ==> bound <= l[i].localGroupId
    ensures DistinctGroups(u + l)
  {
  }

  /** No two returned tasks share an ID. */
  lemma BuildDistinct(b: Build)
    requires b.Shape()
    ensures DistinctGroups(b.updated + b.List())
  {
    UserFacts(b);
    ServiceFacts(b);
    DistinctConcat(b.updated, b.List(), b.firstID);
  }

  lemma UserIndex(b: Build, n: int)
    requires b.Shape()
    requires b.firstIndex <= n < b.firstIndex + |b.updated|
    ensures HasIndex(b.updated + b.List(), n)
  {
    UserFacts(b);
    var all, i := b.updated + b.List(), n - b.firstIndex;
    assert all[i] == b.updated[i] && all[i] in all;
  }

  lemma IndexedService(b: Build, n: int) returns (h: string)
    requires ServicesOk(b.services, b.firstID, b.firstIndex + |b.tasks|, b.registry, b.repository)
    requires b.firstIndex + |b.tasks| <= n < b.firstIndex + |b.tasks| + |b.services|
    ensures h in b.services && b.services[h].indexWithinBuild == n
  {
    var id := b.firstID + (n - b.firstIndex - |b.tasks|);
    assert Numbers(b.services, id);
    h :| h in b.services && b.services[h].localGroupId == id;
  }

  lemma ServiceIndex(b: Build, n: int)
    requires b.Shape()
    requires b.firstIndex + |b.tasks| <= n < b.firstIndex + |b.tasks| + |b.services|
    ensures HasIndex(b.updated + b.List(), n)
  {
    var h := IndexedService(b, n);
    ServiceListed(b, h);
  }

  lemma ServiceListed(b: Build, h: string)
    requires b.Shape() && h in b.services
    ensures b.services[h] in b.updated + b.List()
  {
    ListIsServices(b);
    assert b.services[h] in b.List();
  }

  lemma IndexInRange(b: Build, t: ProtoTask)
    requires b.Shape() && t in b.updated + b.List()
    ensures b.firstIndex <= t.indexWithinBuild < b.firstIndex + |b.updated + b.List()|
  {
    var i := MemberOf(b, t);
    if t.kind == User {
      assert b.tasks[i].indexWithinBuild == t.indexWithinBuild;
    } else {
      assert t.indexWithinBuild - (b.firstIndex + |b.tasks|) == t.localGroupId - b.firstID;
    }
  }

  lemma IndexTaken(b: Build, n: int)
    requires b.Shape()
    requires b.firstIndex <= n < b.firstIndex + |b.updated + b.List()|
    ensures HasIndex(b.updated + b.List(), n)
  {
    if n < b.firstIndex + |b.updated| {
      UserIndex(b, n);
    } else {
      ServiceIndex(b, n);
    }
  }

  lemma BuildIndices(b: Build)
    requires b.Shape()
    ensures IndicesExact(b.updated + b.List(), b.firstIndex)
  {
    var all := b.updated + b.List();
    forall t | t in all ensures b.firstIndex <= t.indexWithinBuild < b.firstIndex + |all| {
      IndexInRange(b, t);
    }
    forall n | b.firstIndex <= n < b.firstIndex + |all| ensures HasIndex(all, n) {
      IndexTaken(b, n);
    }
  }

  lemma ListedService(b: Build, k: nat)
    requires b.Shape() && k < |b.keys|
    ensures
      var t := b.List()[k];
      t.kind.Service? && t.docker == NoDockerfile && t.kind.hash in b.services && t == b.services[t.kind.hash]
  {
    assert b.keys[k] in b.services;
  }

  /** What a member of the combined list is. */
  lemma MemberOf(b: Build, t: ProtoTask) returns (i: nat)
    requires b.Shape() && t in b.updated + b.List()
    ensures t.kind == User ==>
      i < |b.tasks| && t == b.updated[i] && Rewritten(b.tasks[i], t, b.services, b.registry, b.repository)
    ensures t.kind.Service? ==>
      t.kind.hash in b.services && t == b.services[t.kind.hash]
    ensures t.docker.Dockerfile? ==> t.kind == User
  {
    var all := b.updated + b.List();
    i :| 0 <= i < |all| && all[i] == t;
    if i < |b.updated| {
      assert Rewritten(b.tasks[i], b.updated[i], b.services, b.registry, b.repository);
    } else {
      ListedService(b, i - |b.updated|);
    }
  }

  lemma BuildServed(b: Build)
    requires b.Shape()
    ensures AllServed(b.updated + b.List())
  {
    var all := b.updated + b.List();
    forall t, h | t in all && Uses(t, h) ensures Served(all, t, h) {
      var i := MemberOf(b, t);
      UserFacts(b);
      var s := b.services[h];
      ServiceListed(b, h);
      ImageIsTag(b.registry, b.repository, h);
      assert ServedBy(all, t, s);
    }
  }

  lemma OnlyOwnService(b: Build, t: ProtoTask, s: ProtoTask)
    requires b.Valid()
    requires t in b.updated + b.List() && ServedBy(b.updated + b.List(), t, s)
    ensures Uses(t, s.kind.hash)
  {
    var i := MemberOf(b, t);
    var j := MemberOf(b, s);
    assert b.services[s.kind.hash].localGroupId >= b.firstID;
    if t.kind == User {
      OldDependency(b, i, s.localGroupId);
      assert t.docker.Dockerfile? && s.localGroupId == b.services[t.docker.hash.value].localGroupId;
    }
  }

  /** Dependencies among user tasks never name a service task. */
  lemma OldDependency(b: Build, i: nat, d: int)
    requires b.Valid() && i < |b.tasks|
    ensures d in b.tasks[i].requiredGroups ==> d < b.firstID
  {
    if d in b.tasks[i].requiredGroups {
      var g := ProtoGraph(b.tasks);
      assert g[i] in g && d in g[i].deps;
      assert HasId(g, d);
      var n :| n in g && n.id == d;
      var k :| 0 <= k < |g| && g[k] == n;
    }
  }

  lemma BuildShared(b: Build)
    requires b.Valid()
    ensures SharedByHash(b.updated + b.List())
  {
    var all := b.updated + b.List();
    forall t, s | t in all && ServedBy(all, t, s) ensures Uses(t, s.kind.hash) {
      OnlyOwnService(b, t, s);
    }
    forall s, s' | s in all && s' in all && s.kind.Service? && s'.kind.Service? && s.kind.hash == s'.kind.hash
      ensures s == s'
    {
      var i := MemberOf(b, s);
      var j := MemberOf(b, s');
    }
  }

  lemma BuildNotIdle(b: Build)
    requires b.Valid()
    ensures NoIdleService(b.updated + b.List())
  {
    var all := b.updated + b.List();
    forall s | s in all && s.kind.Service? ensures Needed(all, s.kind.hash) {
      var j := MemberOf(b, s);
      var t :| t in b.tasks && Uses(t, s.kind.hash);
      var i :| 0 <= i < |b.tasks| && b.tasks[i] == t;
      UserFacts(b);
      assert all[i] == b.updated[i] && all[i] in all && Uses(all[i], s.kind.hash);
    }
  }

  lemma BuildAcyclic(b: Build)
    requires b.Valid()
    ensures Closed(ProtoGraph(b.updated + b.List())) && Acyclic(ProtoGraph(b.updated + b.List()))
  {
    ListIsServices(b);
    ServicesKeepAcyclic(b.tasks, b.updated, b.services, b.List(),
      b.firstID, b.firstIndex + |b.tasks|, b.registry, b.repository);
  }

  // ---------- the final sort ----------

  lemma SortedIncreasing(tasks: seq<ProtoTask>)
    requires DistinctGroups(tasks)
    ensures IncreasingGroups(Sort(tasks, ById))
    ensures multiset(Sort(tasks, ById)) == multiset(tasks)
  {
    assert TotalPreorder(ById);
    SortSorts(tasks, ById);
    SortKeeps(tasks, ById);
    DistinctRearranged(tasks, Sort(tasks, ById));
  }

  /** Distinctness of IDs is a property of the multiset of tasks. */
  lemma DistinctRearranged(s: seq<ProtoTask>, t: seq<ProtoTask>)
    requires DistinctGroups(s) && multiset(s) == multiset(t)
    ensures DistinctGroups(t)
  {
    assert NoDuplicates(s);
    NoDuplicatesRearranged(s, t);
    SameElements(s, t);
    forall i, j | 0 <= i < j < |t| ensures t[i].localGroupId != t[j].localGroupId {
      assert t[i] in s && t[j] in s;
    }
  }

  /** Sorting changes none of the properties that speak of the tasks as a set. */
  lemma RearrangedWellFormed(all: seq<ProtoTask>, sorted: seq<ProtoTask>, firstIndex: int)
    requires multiset(sorted) == multiset(all)
    requires Closed(ProtoGraph(all)) && Acyclic(ProtoGraph(all)) && IndicesExact(all, firstIndex)
    ensures Closed(ProtoGraph(sorted)) && Acyclic(ProtoGraph(sorted)) && IndicesExact(sorted, firstIndex)
  {
    SameElements(all, sorted);
    forall n ensures n in ProtoGraph(all) <==> n in ProtoGraph(sorted) {
      NodeMember(all, n);
      NodeMember(sorted, n);
    }
    SameNodes(ProtoGraph(all), ProtoGraph(sorted));
    forall n | firstIndex <= n < firstIndex + |sorted| ensures HasIndex(sorted, n) {
      assert HasIndex(all, n);
    }
  }

  lemma NodeMember(tasks: seq<ProtoTask>, n: Node)
    ensures n in ProtoGraph(tasks) <==> exists t :: t in tasks && ProtoNode(t) == n
  {
    var g := ProtoGraph(tasks);
    if n in g {
      var i :| 0 <= i < |g| && g[i] == n;
      assert tasks[i] in tasks;
    }
    if t :| t in tasks && ProtoNode(t) == n {
      var i :| 0 <= i < |tasks| && tasks[i] == t;
      assert g[i] == n;
    }
  }

  lemma RearrangedServices(all: seq<ProtoTask>, sorted: seq<ProtoTask>)
    requires forall t :: t in all <==> t in sorted
    requires AllServed(all) && SharedByHash(all) && NoIdleService(all)
    ensures AllServed(sorted) && SharedByHash(sorted) && NoIdleService(sorted)
  {
    forall t, s ensures ServedBy(all, t, s) <==> ServedBy(sorted, t, s) {}
    forall t, h | t in sorted && Uses(t, h) ensures Served(sorted, t, h) {
      assert Served(all, t, h);
      var s :| ServedBy(all, t, s) && s.kind.hash == h && s.kind.tag == t.image;
      assert ServedBy(sorted, t, s);
    }
    forall s | s in sorted && s.kind.Service? ensures Needed(sorted, s.kind.hash) {
      assert Needed(all, s.kind.hash);
      var t :| t in all && Uses(t, s.kind.hash);
      assert t in sorted;
    }
  }

  /** Whatever order the service tasks are listed in, the sorted result is a well-formed build. */
  lemma BuildIsWellFormed(b: Build)
    requires b.Valid()
    ensures WellFormed(Sort(b.updated + b.List(), ById), b.firstIndex)
  {
    var all := b.updated + b.List();
    BuildDistinct(b);
    SortedIncreasing(all);
    BuildAcyclic(b);
    BuildIndices(b);
    RearrangedWellFormed(all, Sort(all, ById), b.firstIndex);
    BuildServed(b);
    BuildShared(b);
    BuildNotIdle(b);
    SameElements(all, Sort(all, ById));
    RearrangedServices(all, Sort(all, ById));
  }

  lemma IncreasingConcat(u: seq<ProtoTask>, l: seq<ProtoTask>, bound: int)
    requires IncreasingGroups(u) && IncreasingGroups(l)
    requires forall t :: t in u ==> t.localGroupId < bound
    requires forall t :: t in l ==> bound <= t.localGroupId
    ensures IncreasingGroups(u + l)
  {
    forall i, j | 0 <= i < j < |u + l| ensures (u + l)[i].localGroupId < (u + l)[j].localGroupId {
      if i < |u| <= j {
        assert u[i] in u && l[j - |u|] in l;
      }
    }
  }

  lemma {:induction false} SortedConcat(u: seq<ProtoTask>, list: seq<ProtoTask>, bound: int)
    requires IncreasingGroups(u) && DistinctGroups(list)
    requires forall t :: t in u ==> t.localGroupId < bound
    requires forall t :: t in list ==> bound <= t.localGroupId
    ensures Sort(u + list, ById) == u + Sort(list, ById)
  {
    SortedIncreasing(list);
    SameElements(list, Sort(list, ById));
    IncreasingConcat(u, Sort(list, ById), bound);
    assert TotalPreorder(ById);
    SortSorts(u + list, ById);
    SortKeeps(u + list, ById);
    IncreasingIsStrict(u + Sort(list, ById));
    SortedUnique(u + Sort(list, ById), Sort(u + list, ById), ById);
  }

  lemma IncreasingIsStrict(tasks: seq<ProtoTask>)
    requires IncreasingGroups(tasks)
    ensures Sorted(tasks, ById) && Strict(tasks, ById)
  {
    forall x, y | x in tasks && y in tasks && ById(x, y) && ById(y, x) ensures x == y {
      var i :| 0 <= i < |tasks| && tasks[i] == x;
      var j :| 0 <= j < |tasks| && tasks[j] == y;
    }
  }

  /** Service tasks have the highest IDs, so sorting leaves the user tasks where they are. */
  lemma SortedBuild(b: Build)
    requires b.Shape()
    ensures Sort(b.updated + b.List(), ById) == b.updated + Sort(b.List(), ById)
  {
    UserFacts(b);
    ServiceFacts(b);
    SortedConcat(b.updated, b.List(), b.firstID);
  }

  lemma ServicesRequireNothing(b: Build)
    requires b.Shape()
    ensures forall s :: s in Sort(b.List(), ById) ==> s.kind.Service? && s.requiredGroups == []
  {
    SortKeeps(b.List(), ById);
    SameElements(b.List(), Sort(b.List(), ById));
    forall s | s in b.List() ensures s.kind.Service? && s.requiredGroups == [] {
      ListIsServices(b);
      var h :| h in b.services && b.services[h] == s;
    }
  }

  /** No user task is lost, reordered or changed beyond its image and one more dependency. */
  lemma BuildCarries(b: Build)
    requires b.Shape()
    ensures Carries(b.tasks, Sort(b.updated + b.List(), ById), b.registry, b.repository)
  {
    SortedBuild(b);
    ServicesRequireNothing(b);
    forall i | 0 <= i < |b.tasks| ensures Becomes(b.tasks[i], b.updated[i], b.registry, b.repository) {
      assert Rewritten(b.tasks[i], b.updated[i], b.services, b.registry, b.repository);
    }
  }

  lemma ListedServices(b: Build, list: seq<ProtoTask>)
    requires (forall h :: h in b.keys ==> h in b.services) && |list| == |b.keys|
    requires forall i :: 0 <= i < |list| ==> list[i] == b.services[b.keys[i]]
    ensures list == b.List()
  {
  }

  lemma BuildIsCorrect(b: Build, list: seq<ProtoTask>)
    requires UserTasks(b.tasks, b.firstID, b.firstIndex)
    requires Closed(ProtoGraph(b.tasks)) && Acyclic(ProtoGraph(b.tasks))
    requires ServicesOk(b.services, b.firstID, b.firstIndex + |b.tasks|, b.registry, b.repository)
    requires AllRewritten(b.tasks, b.updated, b.services, b.registry, b.repository)
    requires ServicesNeeded(b.tasks, b.services)
    requires Enumerates(b.keys, b.services.Keys) && |list| == |b.keys|
    requires forall i :: 0 <= i < |list| ==> b.keys[i] in b.services && list[i] == b.services[b.keys[i]]
    ensures WellFormed(Sort(b.updated + list, ById), b.firstIndex)
    ensures Carries(b.tasks, Sort(b.updated + list, ById), b.registry, b.repository)
  {
    EnumerationLength(b.keys, b.services.Keys);
    ListedServices(b, list);
    BuildIsWellFormed(b);
    BuildCarries(b);
  }
}
