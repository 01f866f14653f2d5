/** Dependency graphs between tasks, given as lists of IDs with the IDs they depend on. */
module Graph {

  datatype Node = Node(id: int, deps: seq<int>)
  type Graph = seq<Node>

  ghost predicate HasId(g: Graph, a: int) {
    exists n :: n in g && n.id == a
  }

  ghost predicate Edge(g: Graph, a: int, b: int) {
    exists n :: n in g && n.id == a && b in n.deps
  }

  ghost predicate Path(g: Graph, p: seq<int>) {
    p != [] && forall i :: 0 <= i < |p| - 1 ==> Edge(g, p[i], p[i + 1])
  }

  function Last(p: seq<int>): int
    requires p != []
  {
    p[|p| - 1]
  }

  ghost predicate Cycle(g: Graph, p: seq<int>) {
    Path(g, p) && |p| >= 2 && p[0] == Last(p)
  }

  ghost predicate Acyclic(g: Graph) {
    forall p :: !Cycle(g, p)
  }

  /** Every dependency is the ID of some task. */
  ghost predicate Closed(g: Graph) {
    forall n, d :: n in g && d in n.deps ==> HasId(g, d)
  }

  ghost predicate DistinctIds(g: Graph) {
    forall i, j :: 0 <= i < j < |g| ==> g[i].id != g[j].id
  }

  ghost predicate OnCycle(g: Graph, a: int) {
    exists p :: Cycle(g, p) && p[0] == a
  }

  /** Leads to an ID that does not exist or to a cycle. */
  ghost predicate Doomed(g: Graph, a: int) {
    exists p :: Path(g, p) && p[0] == a && (!HasId(g, Last(p)) || OnCycle(g, Last(p)))
  }

  // ---------- basic facts ----------

  lemma SameNodes(g: Graph, g': Graph)
    requires forall n :: n in g <==> n in g'
    ensures forall a, b :: Edge(g, a, b) <==> Edge(g', a, b)
    ensures forall a :: HasId(g, a) <==> HasId(g', a)
    ensures Acyclic(g) ==> Acyclic(g')
    ensures Closed(g) ==> Closed(g')
  {
    forall a ensures HasId(g, a) <==> HasId(g', a) {
      if HasId(g, a) {
        var n :| n in g && n.id == a;
        assert n in g';
      }
      if HasId(g', a) {
        var n :| n in g' && n.id == a;
        assert n in g;
      }
    }
    forall a, b ensures Edge(g, a, b) <==> Edge(g', a, b) {
      if Edge(g, a, b) {
        var n :| n in g && n.id == a && b in n.deps;
        assert n in g';
      }
      if Edge(g', a, b) {
        var n :| n in g' && n.id == a && b in n.deps;
        assert n in g;
      }
    }
    if Acyclic(g) {
      forall p ensures !Cycle(g', p) {
        assert !Cycle(g, p);
      }
    }
  }

  lemma CycleDooms(g: Graph, p: seq<int>)
    requires Cycle(g, p)
    ensures exists n :: n in g && Doomed(g, n.id)
  {
    assert Edge(g, p[0], p[0 + 1]);
    var n :| n in g && n.id == p[0];
    var q := [p[0]];
    assert Path(g, q) && Last(q) == p[0] && OnCycle(g, p[0]);
    assert Doomed(g, n.id);
  }

  /** No task is doomed exactly when the graph is closed and acyclic. */
  lemma NoneDoomed(g: Graph)
    ensures (forall n :: n in g ==> !Doomed(g, n.id)) <==> Closed(g) && Acyclic(g)
  {
    if Closed(g) && Acyclic(g) {
      forall n | n in g ensures !Doomed(g, n.id) {
        forall p | Path(g, p) && p[0] == n.id ensures HasId(g, Last(p)) && !OnCycle(g, Last(p)) {
          if |p| >= 2 {
            assert Edge(g, p[|p| - 2], p[|p| - 2 + 1]);
          }
        }
      }
    }
    if forall n :: n in g ==> !Doomed(g, n.id) {
      forall n, d | n in g && d in n.deps ensures HasId(g, d) {
        var p := [n.id, d];
        assert Edge(g, n.id, d);
        assert Path(g, p) && p[0] == n.id && Last(p) == d;
      }
      forall p ensures !Cycle(g, p) {
        if Cycle(g, p) {
          CycleDooms(g, p);
          assert false;
        }
      }
    }
  }

  // ---------- satisfied sets ----------

  /** Every dependency of an ID in `sat` is in `sat` with a smaller rank. */
  ghost predicate Grounded(g: Graph, sat: set<int>, rank: map<int, nat>) {
    && rank.Keys == sat
    && forall n :: n in g && n.id in sat ==> forall d :: d in n.deps ==> d in sat && rank[d] < rank[n.id]
  }

  lemma {:induction false} PathDescends(g: Graph, sat: set<int>, rank: map<int, nat>, p: seq<int>)
    requires Grounded(g, sat, rank) && Path(g, p) && p[0] in sat
    ensures Last(p) in sat && (|p| >= 2 ==> rank[Last(p)] < rank[p[0]])
  {
    if |p| >= 2 {
      assert Edge(g, p[0], p[0 + 1]);
      var n :| n in g && n.id == p[0] && p[1] in n.deps;
      var q := p[1..];
      forall i | 0 <= i < |q| - 1 ensures Edge(g, q[i], q[i + 1]) {
        assert Edge(g, p[i + 1], p[i + 1 + 1]);
      }
      PathDescends(g, sat, rank, q);
    }
  }

  /** Satisfied tasks lead nowhere bad. */
  lemma SatisfiedNotDoomed(g: Graph, sat: set<int>, rank: map<int, nat>, a: int)
    requires Grounded(g, sat, rank) && a in sat
    requires forall b :: b in sat ==> HasId(g, b)
    ensures !Doomed(g, a)
  {
    forall p | Path(g, p) && p[0] == a ensures HasId(g, Last(p)) && !OnCycle(g, Last(p)) {
      PathDescends(g, sat, rank, p);
      forall q | Cycle(g, q) ensures q[0] != Last(p) {
        if q[0] in sat {
          PathDescends(g, sat, rank, q);
        }
      }
    }
  }

  /** Outside `sat` every task has a dependency outside `sat`. */
  ghost predicate Stuck(g: Graph, sat: set<int>) {
    forall n :: n in g && n.id !in sat ==> exists d :: d in n.deps && d !in sat
  }

  /** From an unsatisfied ID one can walk on, or reach a missing ID. */
  lemma {:induction false} WalkOn(g: Graph, sat: set<int>, a: int, length: nat) returns (p: seq<int>)
    requires Stuck(g, sat) && a !in sat
    ensures Path(g, p) && p[0] == a && forall i :: 0 <= i < |p| ==> p[i] !in sat
    ensures |p| == length + 1 || !HasId(g, Last(p))
    ensures forall i :: 0 <= i < |p| - 1 ==> HasId(g, p[i])
    decreases length
  {
    p := [a];
    if length > 0 && HasId(g, a) {
      var n :| n in g && n.id == a;
      var d :| d in n.deps && d !in sat;
      var q := WalkOn(g, sat, d, length - 1);
      p := [a] + q;
      assert Edge(g, a, d);
      forall i | 0 <= i < |p| - 1 ensures Edge(g, p[i], p[i + 1]) && HasId(g, p[i]) {
        if i > 0 {
          assert Edge(g, q[i - 1], q[i - 1 + 1]);
          assert p[i] == q[i - 1];
        }
      }
    }
  }

  lemma {:induction false} Pigeonhole(xs: seq<int>, domain: set<int>)
    requires forall i :: 0 <= i < |xs| ==> xs[i] in domain
    requires |xs| > |domain|
    ensures exists i, j :: 0 <= i < j < |xs| && xs[i] == xs[j]
    decreases |xs|
  {
    var x, rest := xs[0], xs[1..];
    if x in rest {
      var j :| 0 <= j < |rest| && rest[j] == x;
      assert xs[0] == xs[j + 1];
    } else {
      forall i | 0 <= i < |rest| ensures rest[i] in domain - {x} {
        assert rest[i] == xs[i + 1];
      }
      Pigeonhole(rest, domain - {x});
      var i, j :| 0 <= i < j < |rest| && rest[i] == rest[j];
      assert xs[i + 1] == xs[j + 1];
    }
  }

  ghost function Ids(g: Graph): set<int> {
    set n | n in g :: n.id
  }

  lemma {:induction false} IdsAtMost(g: Graph)
    ensures |Ids(g)| <= |g|
  {
    if g == [] {
      assert Ids(g) == {};
    } else {
      assert Ids(g) == {g[0].id} + Ids(g[1..]);
      IdsAtMost(g[1..]);
    }
  }

  lemma SubPath(g: Graph, p: seq<int>, i: nat, j: nat)
    requires Path(g, p) && i <= j < |p|
    ensures Path(g, p[i..j + 1])
  {
    var q := p[i..j + 1];
    forall k | 0 <= k < |q| - 1 ensures Edge(g, q[k], q[k + 1]) {
      assert Edge(g, p[i + k], p[i + k + 1]);
    }
  }

  /** Unsatisfied tasks of a stuck graph lead to a missing ID or to a cycle. */
  lemma UnsatisfiedDoomed(g: Graph, sat: set<int>, a: int)
    requires Stuck(g, sat) && a !in sat
    ensures Doomed(g, a)
  {
    var p := WalkOn(g, sat, a, |g| + 1);
    if HasId(g, Last(p)) {
      forall i | 0 <= i < |p| ensures p[i] in Ids(g) {
        assert HasId(g, p[i]);
      }
      IdsAtMost(g);
      Pigeonhole(p, Ids(g));
      var i, j :| 0 <= i < j < |p| && p[i] == p[j];
      SubPath(g, p, i, j);
      SubPath(g, p, 0, i);
      var loop, stem := p[i..j + 1], p[0..i + 1];
      assert Cycle(g, loop) && loop[0] == p[i];
      assert Path(g, stem) && stem[0] == a && Last(stem) == p[i] && OnCycle(g, p[i]);
    }
  }
}
