/**
 The doubling bound is sharp: with prefix-free names, n rounds that visit a chain from its top can
 leave a chain of 2^n references unexpanded, one reference more than they always manage.
 */
module ExpansionSharpness {
  import opened Common
  import opened Expansion
  import opened ExpansionMeaning
  import opened ExpansionBounds
  import ExpansionLimits
  import ExpansionCycles

  // ---------- a chain of variables none of whose names starts another ----------

  /** Variable i of the chain is called a...ab, with i times a. */
  function Name(i: nat): (t: string)
    ensures |t| == i + 1 && t[i] == 'b' && (forall j :: 0 <= j < i ==> t[j] == 'a') && Word(t)
  {
    seq(i, _ => 'a') + "b"
  }

  lemma NamesDiffer(i: nat, j: nat)
    ensures Name(i) <= Name(j) ==> i == j
  {
    if Name(i) <= Name(j) {
      assert Name(j)[i] == Name(i)[i] == 'b';
    }
  }

  ghost function Names(d: nat): set<string> {
    set i: nat | i <= d :: Name(i)
  }

  lemma NumberOf(d: nat, k: string) returns (i: nat)
    requires k in Names(d)
    ensures i <= d && k == Name(i)
  {
    i :| i <= d && Name(i) == k;
  }

  function Reference(i: nat): Value { [Braced(Name(i), None)] }

  function Done(): Value { [Ch('x')] }

  /** Every variable refers to the one g further down the chain of d references, if there is one. */
  function LinkValue(d: nat, g: nat, i: nat): Value {
    if i + g <= d then Reference(i + g) else Done()
  }

  ghost predicate Link(d: nat, g: nat, m: Env, i: nat) {
    Name(i) in m && m[Name(i)] == LinkValue(d, g, i)
  }

  /** The first `done` variables of the chain have been visited in a round that doubles g. */
  ghost predicate Halfway(d: nat, g: nat, done: nat, m: Env) {
    && m.Keys == Names(d)
    && (forall i: nat :: i < done && i <= d ==> Link(d, 2 * g, m, i))
    && (forall i: nat :: done <= i <= d ==> Link(d, g, m, i))
  }

  ghost function Chain(d: nat): (m: Env)
    ensures Halfway(d, 1, 0, m)
  {
    map k | k in Names(d) :: LinkValue(d, 1, |k| - 1)
  }

  ghost function ChainRank(d: nat): (rank: map<string, nat>)
    ensures rank.Keys == Names(d) && forall i: nat :: i <= d ==> Name(i) in rank && rank[Name(i)] == d - i
  {
    map k | k in Names(d) :: RankOf(d, k)
  }

  function RankOf(d: nat, k: string): nat {
    if 1 <= |k| <= d + 1 then d + 1 - |k| else 0
  }

  ghost function TopFirst(d: nat): (order: seq<string>)
    ensures |order| == d + 1 && forall i :: 0 <= i <= d ==> order[i] == Name(i)
  {
    seq(d + 1, i requires 0 <= i <= d => Name(i))
  }

  lemma TopFirstEnumerates(d: nat)
    ensures Enumerates(TopFirst(d), Names(d))
  {
    var order := TopFirst(d);
    forall k | k in Names(d) ensures k in order {
      var i := NumberOf(d, k);
      assert order[i] == k;
    }
    forall k | k in order ensures k in Names(d) {
      var i :| 0 <= i <= d && order[i] == k;
    }
    forall i, j | 0 <= i < j < |order| ensures order[i] != order[j] {
      assert |order[i]| != |order[j]|;
    }
  }

  lemma LinkIsBelow(d: nat, i: nat)
    requires i <= d
    ensures Name(i) in ChainRank(d) && Below(map[], ChainRank(d), LinkValue(d, 1, i), ChainRank(d)[Name(i)])
  {
    if i + 1 <= d {
      assert SymBelow(map[], ChainRank(d), Braced(Name(i + 1), None), d - i);
    }
  }

  lemma ChainIsRanked(d: nat)
    ensures Ranked(map[], ChainRank(d), Chain(d))
  {
    var m := Chain(d);
    forall k | k in m ensures Below(map[], ChainRank(d), m[k], ChainRank(d)[k]) {
      var i := NumberOf(d, k);
      assert Link(d, 1, m, i);
      LinkIsBelow(d, i);
    }
  }

  lemma ChainIsPlain(d: nat)
    ensures PlainMap(Names(d), Chain(d))
  {
    var m := Chain(d);
    forall k | k in m ensures Plain(Names(d), m[k]) {
      var i := NumberOf(d, k);
      assert Link(d, 1, m, i);
      assert i + 1 <= d ==> Name(i + 1) in Names(d);
    }
  }

  lemma BracedAlone(i: nat)
    ensures Safe(true, map[], {}, Reference(i)) && Sealed(true, map[], {}, Reference(i))
    ensures Safe(true, map[], {}, Done()) && Sealed(true, map[], {}, Done())
  {
    assert Reference(i)[1..] == [] && Done()[1..] == [];
  }

  lemma ChainIsSafe(d: nat)
    ensures SafeMap(true, map[], {}, Chain(d))
  {
    var m := Chain(d);
    forall k | k in m ensures Safe(true, map[], {}, m[k]) && Sealed(true, map[], {}, m[k]) {
      var i := NumberOf(d, k);
      assert Link(d, 1, m, i);
      BracedAlone(i + 1);
    }
  }

  lemma ChainIsPrefixFree(d: nat)
    ensures PrefixFree(map[], Names(d), Names(d))
  {
    forall k, n | k in Names(d) && n in Names(d) && k <= n ensures k == n {
      var i := NumberOf(d, k);
      var j := NumberOf(d, n);
      NamesDiffer(i, j);
    }
    forall k | k in Names(d) ensures k != "" && Word(k) {
      var i := NumberOf(d, k);
    }
  }

  // ---------- one round, from the top ----------

  lemma ExpandLink(m: Env, d: nat, g: nat, i: nat)
    requires i <= d && Link(d, g, m, i) && (i + g <= d ==> Link(d, g, m, i + g))
    ensures Expand(map[], m, m[Name(i)]) == LinkValue(d, 2 * g, i)
  {
    var v := m[Name(i)];
    assert v[1..] == [];
    assert Substitute(map[], m, v) == Resolve(map[], m, v[0]) == LinkValue(d, 2 * g, i);
    NoBareIsClear(LinkValue(d, 2 * g, i));
    GlueExactly(LinkValue(d, 2 * g, i));
  }

  lemma NotSkipped(d: nat, g: nat, i: nat)
    requires g > 0
    ensures !SelfRecursive(LinkValue(d, g, i), Name(i))
  {
    var v := LinkValue(d, g, i);
    assert v[1..] == [];
    NamesDiffer(i, i + g);
    NotSelfRecursive({Name(i + g)}, v, Name(i));
  }

  /** Seen from the top, every variable still finds its successor as it was before the round. */
  lemma VisitDoubles(d: nat, g: nat, i: nat, m: Env)
    requires g > 0 && i <= d && Halfway(d, g, i, m) && Name(i) in m
    ensures Halfway(d, g, i + 1, Visit(map[], m, Name(i)))
  {
    assert Link(d, g, m, i) && (i + g <= d ==> Link(d, g, m, i + g));
    ExpandLink(m, d, g, i);
    NotSkipped(d, 2 * g, i);
    var m' := Visit(map[], m, Name(i));
    assert m' == m[Name(i) := LinkValue(d, 2 * g, i)];
    forall j: nat | j < i + 1 && j <= d ensures Link(d, 2 * g, m', j) {
      NamesDiffer(i, j);
      assert j < i ==> Link(d, 2 * g, m, j);
    }
    forall j: nat | i + 1 <= j <= d ensures Link(d, g, m', j) {
      NamesDiffer(i, j);
      assert Link(d, g, m, j);
    }
  }

  lemma {:induction false} PassDoublesExactly(d: nat, g: nat, i: nat, m: Env, order: seq<string>)
    requires g > 0 && i <= d + 1 && Halfway(d, g, i, m) && order == TopFirst(d)[i..] && Elements(order) <= m.Keys
    ensures Halfway(d, g, d + 1, Round(map[], m, order))
    decreases d + 1 - i
  {
    if i <= d {
      assert order[0] == Name(i) && order[1..] == TopFirst(d)[i + 1..];
      ExpansionCycles.RoundHead(map[], m, order);
      VisitDoubles(d, g, i, m);
      PassDoublesExactly(d, g, i + 1, Visit(map[], m, Name(i)), order[1..]);
    }
  }

  lemma RoundDoublesExactly(d: nat, g: nat, m: Env)
    requires g > 0 && Halfway(d, g, 0, m) && Elements(TopFirst(d)) <= m.Keys
    ensures Halfway(d, 2 * g, 0, Round(map[], m, TopFirst(d)))
  {
    assert TopFirst(d)[0..] == TopFirst(d);
    PassDoublesExactly(d, g, 0, m, TopFirst(d));
  }

  /** The state after r rounds. */
  ghost predicate After(d: nat, r: nat, m: Env) {
    Halfway(d, Pow2(r), 0, m)
  }

  lemma OneMoreRound(d: nat, r: nat, m: Env)
    requires After(d, r, m) && Elements(TopFirst(d)) <= m.Keys
    ensures After(d, r + 1, Round(map[], m, TopFirst(d)))
  {
    RoundDoublesExactly(d, Pow2(r), m);
    assert Pow2(r + 1) == 2 * Pow2(r);
  }

  lemma {:induction false} RoundsDoubleExactly(d: nat, m: Env, orders: seq<seq<string>>)
    requires After(d, 0, m) && Schedule(m.Keys, orders)
    requires forall i :: 0 <= i < |orders| ==> orders[i] == TopFirst(d)
    ensures After(d, |orders|, Rounds(map[], m, orders))
  {
    forall r: nat, m: Env | r < |orders| && After(d, r, m) && Elements(TopFirst(d)) <= m.Keys
      ensures After(d, r + 1, Round(map[], m, TopFirst(d)))
    {
      OneMoreRound(d, r, m);
    }
    ExpansionLimits.RoundsInduction(
      (r: nat, m: Env) => After(d, r, m), 0, m, TopFirst(d), orders, |orders|);
  }

  /** What is left of the chain in its first variable is not what that variable means. */
  lemma TopUnsolved(d: nat, m: Env)
    requires d > 0 && Halfway(d, d, 0, m)
    ensures !LiteralMap(m) && !Solves(map[], Chain(d), m)
  {
    SolvesExactly(map[], Chain(d), m);
    assert Link(d, d, m, 0) && Link(d, d, m, 1) && Link(d, 1, Chain(d), 0);
    assert m[Name(0)] == Reference(d) && Name(0) in m && Reference(d)[0].Braced?;
    assert Reference(1)[1..] == [];
    assert Substitute(map[], m, Reference(1)) == m[Name(1)];
    assert m[Name(1)] == Done();
  }

  /** The bound of the doubling result is sharp: 2^n references are one too many for n rounds. */
  lemma {:induction false} DoublingIsSharp(n: nat)
    returns (env: Env, names: set<string>, rank: map<string, nat>, orders: seq<seq<string>>)
    ensures Ranked(map[], rank, env) && SafeMap(true, map[], {}, env)
    ensures PlainMap(names, env) && PrefixFree(map[], names, env.Keys)
    ensures forall k :: k in rank ==> rank[k] <= Pow2(n)
    ensures |orders| == n && Schedule(env.Keys, orders)
    ensures !LiteralMap(Rounds(map[], env, orders)) && !Solves(map[], env, Rounds(map[], env, orders))
  {
    var d := Pow2(n);
    var order := TopFirst(d);
    env, names, rank, orders := Chain(d), Names(d), ChainRank(d), seq(n, _ => order);
    ChainIsRanked(d);
    ChainIsSafe(d);
    ChainIsPlain(d);
    ChainIsPrefixFree(d);
    TopFirstEnumerates(d);
    RanksBounded(d);
    TopStaysUnsolved(n, env, orders);
  }

  lemma {:induction false} TopStaysUnsolved(n: nat, env: Env, orders: seq<seq<string>>)
    requires env == Chain(Pow2(n)) && |orders| == n && Schedule(env.Keys, orders)
    requires forall i :: 0 <= i < n ==> orders[i] == TopFirst(Pow2(n))
    ensures !LiteralMap(Rounds(map[], env, orders)) && !Solves(map[], env, Rounds(map[], env, orders))
  {
    assert Pow2(0) == 1;
    RoundsDoubleExactly(Pow2(n), env, orders);
    TopUnsolved(Pow2(n), Rounds(map[], env, orders));
  }

  lemma RanksBounded(d: nat)
    ensures forall k :: k in ChainRank(d) ==> ChainRank(d)[k] <= d
  {
    forall k | k in ChainRank(d) ensures ChainRank(d)[k] <= d {
      var i := NumberOf(d, k);
    }
  }
}
