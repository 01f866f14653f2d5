/** The deep dependency check of pkg/parser/validate.go. */
module Validate {
  import opened Common
  import opened Graph

  datatype TaskLike = TaskLike(
    id: int,
    name: string,
    alias: string,
    fallbackName: string,
    dependsOnNames: seq<string>,
    dependsOnIDs: seq<int>,
    indexWithinBuild: int,
    docker: Docker)

  /** Whether a task's container is built from a Dockerfile, and the hash calculated for it. */
  datatype Docker = NoDockerfile | Dockerfile(hash: Option<string>)

  /** A hash was calculated if one is needed. */
  predicate HasHash(d: Docker) {
    d.Dockerfile? ==> d.hash.Some?
  }

  function NodeOf(t: TaskLike): Node { Node(t.id, t.dependsOnIDs) }

  function GraphOf(tasks: seq<TaskLike>): (g: Graph)
    ensures |g| == |tasks| && forall i :: 0 <= i < |tasks| ==> g[i] == NodeOf(tasks[i])
  {
    seq(|tasks|, i requires 0 <= i < |tasks| => NodeOf(tasks[i]))
  }

  /** The names of the tasks whose ID is not in `sat`, in order. */
  function NamesOutside(tasks: seq<TaskLike>, sat: set<int>): seq<string> {
    if tasks == [] then []
    else
      var last := tasks[|tasks| - 1];
      NamesOutside(tasks[..|tasks| - 1], sat) + (if last.id in sat then [] else [last.name])
  }

  /** The names of the tasks that lead to a missing ID or to a cycle, in order. */
  ghost function DoomedNames(tasks: seq<TaskLike>, g: Graph): seq<string> {
    if tasks == [] then []
    else
      var last := tasks[|tasks| - 1];
      DoomedNames(tasks[..|tasks| - 1], g) + (if Doomed(g, last.id) then [last.name] else [])
  }

  lemma {:induction false} NamesAgree(tasks: seq<TaskLike>, g: Graph, sat: set<int>)
    requires forall i :: 0 <= i < |tasks| ==> (tasks[i].id in sat <==> !Doomed(g, tasks[i].id))
    ensures NamesOutside(tasks, sat) == DoomedNames(tasks, g)
  {
    if tasks != [] {
      NamesAgree(tasks[..|tasks| - 1], g, sat);
    }
  }

  predicate DepsIn(t: TaskLike, sat: set<int>) {
    forall d :: d in t.dependsOnIDs ==> d in sat
  }

  /** The tasks that still have unsatisfied dependencies but could be satisfied now. */
  method NewlySatisfied(tasks: seq<TaskLike>, satisfiedIDs: set<int>) returns (newly: set<int>)
    ensures forall a :: a in newly <==>
      a !in satisfiedIDs && exists t :: t in tasks && t.id == a && DepsIn(t, satisfiedIDs)
  {
    newly := {};
    for i := 0 to |tasks|
      invariant forall a :: a in newly <==>
        a !in satisfiedIDs && exists t :: t in tasks[..i] && t.id == a && DepsIn(t, satisfiedIDs)
    {
      var t := tasks[i];
      assert tasks[..i + 1] == tasks[..i] + [t];
      if t.id !in satisfiedIDs {
        var satisfied := DependenciesSatisfied(t, satisfiedIDs);
        if satisfied {
          newly := newly + {t.id};
        }
      }
    }
    assert tasks[..|tasks|] == tasks;
  }

  method DependenciesSatisfied(t: TaskLike, satisfiedIDs: set<int>) returns (satisfied: bool)
    ensures satisfied <==> DepsIn(t, satisfiedIDs)
  {
    for i := 0 to |t.dependsOnIDs|
      invariant forall j :: 0 <= j < i ==> t.dependsOnIDs[j] in satisfiedIDs
    {
      var dependencyID := t.dependsOnIDs[i];
      if dependencyID !in satisfiedIDs {
        assert dependencyID in t.dependsOnIDs && !DepsIn(t, satisfiedIDs);
        return false;
      }
    }
    return true;
  }

  method UnsatisfiedNames(tasks: seq<TaskLike>, satisfiedIDs: set<int>) returns (names: seq<string>)
    ensures names == NamesOutside(tasks, satisfiedIDs)
  {
    names := [];
    for i := 0 to |tasks|
      invariant names == NamesOutside(tasks[..i], satisfiedIDs)
    {
      assert tasks[..i + 1][..i] == tasks[..i];
      if tasks[i].id !in satisfiedIDs {
        names := names + [tasks[i].name];
      }
    }
    assert tasks[..|tasks|] == tasks;
  }

  /** Adding a round of newly satisfied tasks keeps the satisfied set grounded, if IDs are distinct. */
  lemma GroundedRound(tasks: seq<TaskLike>, sat: set<int>, newly: set<int>, rank: map<int, nat>, round: nat)
    returns (rank': map<int, nat>)
    requires DistinctIds(GraphOf(tasks)) && Grounded(GraphOf(tasks), sat, rank)
    requires forall a :: a in rank ==> rank[a] < round
    requires forall a :: a in newly ==>
      a !in sat && exists t :: t in tasks && t.id == a && DepsIn(t, sat)
    ensures Grounded(GraphOf(tasks), sat + newly, rank')
    ensures forall a :: a in rank' ==> rank'[a] < round + 1
  {
    var g := GraphOf(tasks);
    rank' := map a | a in sat + newly :: if a in sat then rank[a] else round;
    forall n | n in g && n.id in sat + newly
      ensures forall d :: d in n.deps ==> d in sat + newly && rank'[d] < rank'[n.id]
    {
      if n.id !in sat {
        var t :| t in tasks && t.id == n.id && DepsIn(t, sat);
        UniqueNode(tasks, n, t);
      }
    }
  }

  lemma UniqueNode(tasks: seq<TaskLike>, n: Node, t: TaskLike)
    requires DistinctIds(GraphOf(tasks)) && n in GraphOf(tasks) && t in tasks && t.id == n.id
    ensures n == NodeOf(t)
  {
    var g := GraphOf(tasks);
    var i :| 0 <= i < |g| && g[i] == n;
    var j :| 0 <= j < |tasks| && tasks[j] == t;
    assert g[j].id == g[i].id;
  }

  lemma DistinctCons(g: Graph)
    requires g != []
    ensures Ids(g) == {g[0].id} + Ids(g[1..])
    ensures DistinctIds(g) <==> g[0].id !in Ids(g[1..]) && DistinctIds(g[1..])
  {
    var rest := g[1..];
    if g[0].id in Ids(rest) {
      var n :| n in rest && n.id == g[0].id;
      var j :| 0 <= j < |rest| && rest[j] == n;
      assert g[0].id == g[j + 1].id;
    } else if DistinctIds(rest) {
      forall i, j | 0 <= i < j < |g| ensures g[i].id != g[j].id {
        assert g[j] == rest[j - 1];
      }
    }
  }

  lemma {:induction false} DistinctCount(g: Graph)
    ensures |Ids(g)| == |g| <==> DistinctIds(g)
  {
    if g == [] {
      assert Ids(g) == {};
    } else {
      DistinctCons(g);
      DistinctCount(g[1..]);
      IdsAtMost(g[1..]);
      if g[0].id in Ids(g[1..]) {
        assert Ids(g) == Ids(g[1..]);
      }
    }
  }

  lemma SubsetCount(a: set<int>, b: set<int>)
    requires a <= b
    ensures |a| <= |b| && (|a| == |b| ==> a == b)
  {
    assert b == a + (b - a);
  }

  /** What the satisfied set says about the graph once a round satisfies nothing new. */
  lemma {:induction false} VerdictIsRight(tasks: seq<TaskLike>, sat: set<int>, rank: map<int, nat>)
    requires sat <= Ids(GraphOf(tasks)) && Stuck(GraphOf(tasks), sat)
    requires DistinctIds(GraphOf(tasks)) ==> Grounded(GraphOf(tasks), sat, rank)
    ensures |sat| == |tasks| <==>
      DistinctIds(GraphOf(tasks)) && Closed(GraphOf(tasks)) && Acyclic(GraphOf(tasks))
    ensures DistinctIds(GraphOf(tasks)) ==> NamesOutside(tasks, sat) == DoomedNames(tasks, GraphOf(tasks))
  {
    var g := GraphOf(tasks);
    IdsAtMost(g);
    DistinctCount(g);
    SubsetCount(sat, Ids(g));
    if DistinctIds(g) {
      forall n | n in g ensures n.id in sat <==> !Doomed(g, n.id) {
        if n.id in sat {
          SatisfiedNotDoomed(g, sat, rank, n.id);
        } else {
          UnsatisfiedDoomed(g, sat, n.id);
        }
      }
      forall i | 0 <= i < |tasks| ensures tasks[i].id in sat <==> !Doomed(g, tasks[i].id) {
        assert g[i] in g;
      }
      NamesAgree(tasks, g, sat);
      NoneDoomed(g);
      assert sat == Ids(g) <==> forall n :: n in g ==> n.id in sat;
    }
  }

  /**
   Rounds of satisfaction until nothing new is satisfied. Accepts exactly the lists with distinct
   IDs whose dependencies all exist and contain no cycle; for distinct IDs, a rejection lists
   exactly the tasks that lead to a missing ID or to a cycle.
   */
  method ValidateDependenciesDeep(tasks: seq<TaskLike>) returns (unsatisfied: Option<seq<string>>)
    ensures unsatisfied.None? <==>
      DistinctIds(GraphOf(tasks)) && Closed(GraphOf(tasks)) && Acyclic(GraphOf(tasks))
    ensures unsatisfied.Some? && DistinctIds(GraphOf(tasks)) ==>
      unsatisfied.value == DoomedNames(tasks, GraphOf(tasks))
  {
    var satisfiedIDs := {};
    ghost var g, rank: map<int, nat>, round := GraphOf(tasks), map[], 0;
    var newly := NewlySatisfied(tasks, satisfiedIDs);
    while newly != {}
      invariant satisfiedIDs <= Ids(g)
      invariant forall a :: a in newly <==>
        a !in satisfiedIDs && exists t :: t in tasks && t.id == a && DepsIn(t, satisfiedIDs)
      invariant DistinctIds(g) ==> Grounded(g, satisfiedIDs, rank) && forall a :: a in rank ==> rank[a] < round
      decreases |Ids(g) - satisfiedIDs|
    {
      if DistinctIds(g) {
        rank := GroundedRound(tasks, satisfiedIDs, newly, rank, round);
      }
      NewIdsExist(tasks, newly);
      SmallerRest(Ids(g), satisfiedIDs, newly);
      satisfiedIDs, round := satisfiedIDs + newly, round + 1;
      newly := NewlySatisfied(tasks, satisfiedIDs);
    }
    NothingNewIsStuck(tasks, satisfiedIDs);
    VerdictIsRight(tasks, satisfiedIDs, rank);
    if |satisfiedIDs| != |tasks| {
      var names := UnsatisfiedNames(tasks, satisfiedIDs);
      unsatisfied := Some(names);
    } else {
      unsatisfied := None;
    }
  }

  lemma NewIdsExist(tasks: seq<TaskLike>, newly: set<int>)
    requires forall a :: a in newly ==> exists t :: t in tasks && t.id == a
    ensures newly <= Ids(GraphOf(tasks))
  {
    forall a | a in newly ensures a in Ids(GraphOf(tasks)) {
      var t :| t in tasks && t.id == a;
      var i :| 0 <= i < |tasks| && tasks[i] == t;
      assert GraphOf(tasks)[i] in GraphOf(tasks);
    }
  }

  lemma SmallerRest(all: set<int>, sat: set<int>, newly: set<int>)
    requires newly != {} && newly <= all && newly !! sat
    ensures |all - (sat + newly)| < |all - sat|
  {
    SubsetCount(all - (sat + newly), all - sat);
    assert all - sat - (all - (sat + newly)) == newly;
  }

  lemma NothingNewIsStuck(tasks: seq<TaskLike>, sat: set<int>)
    requires forall t :: t in tasks && t.id !in sat ==> !DepsIn(t, sat)
    ensures Stuck(GraphOf(tasks), sat)
  {
    var g := GraphOf(tasks);
    forall n | n in g && n.id !in sat ensures exists d :: d in n.deps && d !in sat {
      var i :| 0 <= i < |g| && g[i] == n;
      assert tasks[i] in tasks;
    }
  }
}
