/** Inputs on which expansion falls short, showing that the hypotheses of the main results are needed. */
module ExpansionLimits {
  import opened Common
  import opened Expansion
  import opened ExpansionMeaning
  import opened ExpansionBounds

  // ---------- n rounds do not suffice for a chain of n + 1 ----------

  /** Variable names that are all prefixes of one another. */
  function Name(length: nat): (t: string)
    ensures |t| == length
  {
    seq(length, _ => 'a')
  }

  ghost function Names(d: nat): set<string> {
    set l | 1 <= l <= d + 1 :: Name(l)
  }

  function Expanded(): Value { [Ch('x')] }

  function Reference(length: nat): Value { [Braced(Name(length), None)] }

  ghost predicate Link(d: nat, r: nat, m: Env, l: nat) {
    Name(l) in m && m[Name(l)] == if d + 1 - l <= r then Expanded() else Reference(l + 1)
  }

  /** The chain Name(1) -> Name(2) -> ... -> Name(d + 1) with its last r + 1 variables expanded. */
  ghost predicate IsChain(d: nat, r: nat, m: Env) {
    m.Keys == Names(d) && forall l: nat :: 1 <= l <= d + 1 ==> Link(d, r, m, l)
  }

  lemma NameInNames(d: nat, k: string)
    requires k in Names(d)
    ensures 1 <= |k| <= d + 1 && k == Name(|k|)
  {
  }

  ghost function Chain(d: nat): (m: Env)
    ensures IsChain(d, 0, m)
  {
    map k | k in Names(d) :: if |k| == d + 1 then Expanded() else Reference(|k| + 1)
  }

  ghost function ChainRank(d: nat): (rank: map<string, nat>)
    ensures rank.Keys == Names(d)
    ensures forall k :: k in rank ==> 1 <= |k| <= d + 1 && rank[k] == d + 1 - |k|
  {
    map k | k in Names(d) :: NameInNames(d, k); d + 1 - |k|
  }

  ghost function TopFirst(d: nat): (order: seq<string>)
    ensures |order| == d + 1 && forall i :: 0 <= i <= d ==> order[i] == Name(i + 1)
  {
    seq(d + 1, i requires 0 <= i <= d => Name(i + 1))
  }

  lemma ChainIsRanked(d: nat)
    ensures Ranked(map[], ChainRank(d), Chain(d)) && SafeMap(false, map[], {}, Chain(d))
  {
    var m, rank := Chain(d), ChainRank(d);
    forall k | k in m ensures Below(map[], rank, m[k], rank[k]) && NoBare(m[k]) {
      NameInNames(d, k);
      assert Link(d, 0, m, |k|);
      if |k| <= d {
        assert Link(d, 0, m, |k| + 1);
        assert SymBelow(map[], rank, Reference(|k| + 1)[0], rank[k]);
      } else {
        assert m[k] == Expanded();
      }
    }
    BracedIsSafe(map[], m);
  }

  lemma TopFirstEnumerates(d: nat)
    ensures Enumerates(TopFirst(d), Names(d))
  {
    var order := TopFirst(d);
    forall k | k in Names(d) ensures k in order {
      NameInNames(d, k);
      assert order[|k| - 1] == k;
    }
    forall k | k in order ensures k in Names(d) {
      var i :| 0 <= i <= d && order[i] == k;
      assert k == Name(i + 1);
    }
    forall i, j | 0 <= i < j < |order| ensures order[i] != order[j] {
      assert |order[i]| == i + 1 && |order[j]| == j + 1;
    }
  }

  lemma LongerNameIsSelfRecursive(l: nat)
    ensures SelfRecursive(Reference(l + 2), Name(l))
  {
    var v := Reference(l + 2);
    assert v[1..] == [];
    assert Render(v) == "${" + Name(l + 2) + "}";
    assert Name(l) <= Name(l + 2);
    assert "${" + Name(l) <= Render(v)[0..];
  }

  lemma ExpandReference(m: Env, n: nat)
    requires Name(n) in m && NoBare(m[Name(n)])
    ensures Expand(map[], m, Reference(n)) == m[Name(n)]
  {
    assert Reference(n)[1..] == [];
    assert Substitute(map[], m, Reference(n)) == m[Name(n)];
    NoBareIsClear(m[Name(n)]);
    GlueExactly(m[Name(n)]);
  }

  lemma LiteralVisit(m: Env, k: string)
    requires k in m && Literal(m[k])
    ensures Visit(map[], m, k) == m
  {
    SubstituteCharacters(map[], m, m[k]);
    NoBareIsClear(m[k]);
    GlueExactly(m[k]);
    assert m[k := m[k]] == m;
  }

  /** One visit expands only the variable directly above the expanded part. */
  lemma ChainVisit(d: nat, r: nat, m: Env, l: nat)
    requires IsChain(d, r, m) && 1 <= l <= d + 1 && Name(l) in m
    ensures IsChain(d, if l + r == d then r + 1 else r, Visit(map[], m, Name(l)))
  {
    assert Link(d, r, m, l);
    if d + 1 - l <= r {
      LiteralVisit(m, Name(l));
    } else {
      assert Link(d, r, m, l + 1);
      ExpandReference(m, l + 1);
      if l + r == d {
        LiteralNeverSelfRecursive(Expanded(), Name(l));
        var m1, r1 := m[Name(l) := Expanded()], r + 1;
        forall j: nat | 1 <= j <= d + 1 ensures Link(d, r1, m1, j) {
          assert Link(d, r, m, j);
        }
      } else {
        LongerNameIsSelfRecursive(l);
      }
    }
  }

  lemma {:induction false} ChainPass(d: nat, r: nat, m: Env, i: nat)
    requires r < d && i <= d + 1 && IsChain(d, if i + r < d then r else r + 1, m)
    requires Elements(TopFirst(d)[i..]) <= m.Keys
    ensures IsChain(d, r + 1, Round(map[], m, TopFirst(d)[i..]))
    decreases d + 1 - i
  {
    var order := TopFirst(d)[i..];
    if i <= d {
      assert order[0] == Name(i + 1) && order[1..] == TopFirst(d)[i + 1..];
      assert order[0] in Elements(order);
      assert forall j :: j in order[1..] ==> j in Elements(order);
      ChainVisit(d, if i + r < d then r else r + 1, m, i + 1);
      ChainPass(d, r, Visit(map[], m, order[0]), i + 1);
    }
  }

  /** Induction over rounds for any property indexed by the number of rounds. */
  lemma {:induction false} RoundsInduction(
    property: (nat, Env) -> bool, r: nat, m: Env, order: seq<string>, orders: seq<seq<string>>, limit: nat)
    requires r + |orders| == limit && property(r, m) && Schedule(m.Keys, orders)
    requires forall i :: 0 <= i < |orders| ==> orders[i] == order
    requires forall r: nat, m: Env :: r < limit && property(r, m) && Elements(order) <= m.Keys ==>
      property(r + 1, Round(map[], m, order))
    ensures property(limit, Rounds(map[], m, orders))
    decreases |orders|
  {
    if orders != [] {
      assert orders[0] == order;
      RoundsInduction(property, r + 1, Round(map[], m, order), order, orders[1..], limit);
    }
  }

  lemma ChainRounds(d: nat, m: Env, orders: seq<seq<string>>)
    requires |orders| <= d && IsChain(d, 0, m) && Schedule(m.Keys, orders)
    requires forall i :: 0 <= i < |orders| ==> orders[i] == TopFirst(d)
    ensures IsChain(d, |orders|, Rounds(map[], m, orders))
  {
    var order := TopFirst(d);
    assert order[0..] == order;
    forall r: nat, m: Env | r < d && IsChain(d, r, m) && Elements(order) <= m.Keys
      ensures IsChain(d, r + 1, Round(map[], m, order))
    {
      ChainPass(d, r, m, 0);
    }
    RoundsInduction((r: nat, m: Env) => IsChain(d, r, m), 0, m, order, orders, |orders|);
  }

  lemma ChainIsNotSolved(d: nat, env: Env, n: nat, m: Env)
    requires 0 < n + 1 == d && IsChain(d, 0, env) && IsChain(d, n, m)
    ensures !Solves(map[], env, m)
  {
    SolvesExactly(map[], env, m);
    assert Link(d, 0, env, 1) && Link(d, n, m, 1) && Link(d, n, m, 2);
    assert Reference(2)[1..] == [];
    assert Substitute(map[], m, Reference(2)) == Expanded();
    assert Name(1) in env;
  }

  /** The bound of the main result is tight: n rounds can fail on a chain of n + 1 references. */
  lemma {:induction false} RoundBoundIsTight(n: nat)
    returns (env: Env, rank: map<string, nat>, orders: seq<seq<string>>)
    ensures Ranked(map[], rank, env) && SafeMap(false, map[], {}, env)
    ensures forall k :: k in rank ==> rank[k] <= n + 1
    ensures |orders| == n && Schedule(env.Keys, orders)
    ensures !Solves(map[], env, Rounds(map[], env, orders))
  {
    var d := n + 1;
    var order := TopFirst(d);
    env, rank, orders := Chain(d), ChainRank(d), seq(n, _ => order);
    ChainIsRanked(d);
    TopFirstEnumerates(d);
    ChainRounds(d, env, orders);
    ChainIsNotSolved(d, env, n, Rounds(map[], env, orders));
  }

  // ---------- when an expansion is a substitution ----------

  /** One expansion is a plain substitution exactly when the substituted text has no name that runs on. */
  lemma ExpandExactly(os: Env, m: Env, v: Value)
    ensures Expand(os, m, v) == Substitute(os, m, v) <==> Clear(false, Substitute(os, m, v))
  {
    GlueExactly(Substitute(os, m, v));
  }

  /** Any distinct keys can be visited first. */
  lemma {:induction false} CompleteOrder(prefix: seq<string>, keys: set<string>) returns (order: seq<string>)
    requires NoDuplicates(prefix) && Elements(prefix) <= keys
    ensures Enumerates(order, keys) && prefix <= order
    decreases keys - Elements(prefix)
  {
    if keys <= Elements(prefix) {
      order := prefix;
    } else {
      var k :| k in keys && k !in Elements(prefix);
      assert Elements(prefix + [k]) == Elements(prefix) + {k};
      order := CompleteOrder(prefix + [k], keys);
    }
  }

  /**
   Conversely, a name that runs on after some distinct keys were visited, or right at the start,
   makes a visit of the first round that is not a substitution, in an order that can occur.
   */
  lemma GluedVisit(os: Env, env: Env, prefix: seq<string>, k: string) returns (order: seq<string>)
    requires NoDuplicates(prefix) && Elements(prefix) <= env.Keys && k in env && k !in prefix
    requires !Clear(false, Substitute(os, Round(os, env, prefix), env[k]))
    ensures Enumerates(order, env.Keys) && prefix + [k] <= order
    ensures
      var m := Round(os, env, prefix);
      m[k] == env[k] && Expand(os, m, m[k]) != Substitute(os, m, m[k])
  {
    assert Elements(prefix + [k]) == Elements(prefix) + {k};
    order := CompleteOrder(prefix + [k], env.Keys);
    ExpandExactly(os, Round(os, env, prefix), env[k]);
  }

  /** So no certificate exists for such an environment. */
  lemma GluedHasNoCertificate(
    os: Env, env: Env, rank: map<string, nat>, open: set<string>, prefix: seq<string>, k: string)
    requires LiteralMap(os) && Ranked(os, rank, env)
    requires NoDuplicates(prefix) && Elements(prefix) <= env.Keys && k in env && k !in prefix
    requires !Clear(false, Substitute(os, Round(os, env, prefix), env[k]))
    ensures !KeptApart(false, os, env, rank, open)
  {
    if KeptApart(false, os, env, rank, open) {
      EveryVisitIsPlain(os, env, rank, open, [], prefix, k);
      ExpandExactly(os, Round(os, env, prefix), env[k]);
    }
  }

  // ---------- what the values mean can decide ----------

  /**
   What the values mean can separate references that look unsafe: in x = $a$b, a = $c, b = /d and
   c = z the value of a may still end in $c when it is copied in front of b, but b means text that
   starts with a slash.
   */
  lemma MeaningDecides(m: Env, rank: map<string, nat>)
    requires m == map[
      "x" := [Bare("a"), Bare("b")], "a" := [Bare("c")], "b" := [Ch('/'), Ch('d')], "c" := [Ch('z')]]
    requires rank == map["x" := 2, "a" := 1, "b" := 0, "c" := 0]
    ensures Ranked(map[], rank, m) && KeptApart(false, map[], m, rank, {"a", "x"})
    ensures forall open :: !SafeMap(false, map[], open, m)
  {
    assert Ranked(map[], rank, m);
    MeaningSolves(map[], m, rank);
    SlashKeepsApart(m, MeaningMap(map[], m, rank));
    forall open ensures !SafeMap(false, map[], open, m) {
      LooksUnsafe(m, open);
    }
  }

  lemma SlashKeepsApart(m: Env, sol: Env)
    requires m == map[
      "x" := [Bare("a"), Bare("b")], "a" := [Bare("c")], "b" := [Ch('/'), Ch('d')], "c" := [Ch('z')]]
    requires Solves(map[], m, sol)
    ensures Separated(false, map[], sol, {"a", "x"}, m)
  {
    TextSolvesItself(map[], m, sol, "b");
    SlashSeparates(sol, {"a", "x"});
    CharactersApart(false, map[], sol, {"a", "x"}, m["b"]);
    CharactersApart(false, map[], sol, {"a", "x"}, m["c"]);
  }

  lemma SlashSeparates(sol: Env, open: set<string>)
    requires "b" in sol && sol["b"] == [Ch('/'), Ch('d')] && "b" !in open
    ensures Apart(false, map[], sol, open, [Bare("a"), Bare("b")]) && Apart(false, map[], sol, open, [Bare("c")])
  {
    var x: Value, c: Value := [Bare("a"), Bare("b")], [Bare("c")];
    assert x[1..] == [Bare("b")] && x[1..][1..] == [] && c[1..] == [];
    assert Substitute(map[], sol, x[1..]) == sol["b"];
    assert Apart(false, map[], sol, open, x[1..]);
  }

  lemma LooksUnsafe(m: Env, open: set<string>)
    requires "x" in m && m["x"] == [Bare("a"), Bare("b")] && "a" in m && m["a"] == [Bare("c")]
    ensures !SafeMap(false, map[], open, m)
  {
    if "a" in open {
      assert !Safe(false, map[], open, m["x"]);
    } else {
      assert !Sealed(false, map[], open, m["a"]);
    }
  }

  // ---------- a certificate is not necessary ----------

  function Twice(s: Sym): Value { [s, s] }

  /** The states that k = $a$a, a = $c and c = z can get into. */
  ghost predicate Twin(m: Env, k: string, a: string, c: string) {
    && m.Keys == {k, a, c} && m[c] == [Ch('z')]
    && (m[a] == [Bare(c)] || m[a] == [Ch('z')])
    && (m[k] == Twice(Bare(a)) || m[k] == Twice(Bare(c)) || m[k] == Twice(Ch('z')))
  }

  lemma SubstituteOne(m: Env, s: Sym)
    ensures Substitute(map[], m, [s]) == Resolve(map[], m, s)
    ensures Substitute(map[], m, Twice(s)) == Resolve(map[], m, s) + Resolve(map[], m, s)
  {
    assert [s][1..] == [] && Twice(s)[1..] == [s];
  }

  lemma TwinIsClear(s: Sym)
    ensures Clear(false, [s])
    ensures s.Bare? || s == Ch('z') ==> Clear(false, Twice(s))
  {
    assert [s][1..] == [] && Twice(s)[1..] == [s];
  }

  /** Whatever is visited is substituted plainly, and the state stays one of these. */
  lemma TwinVisit(m: Env, k: string, a: string, c: string, j: string)
    requires k != a && k != c && a != c && Twin(m, k, a, c) && j in m
    ensures Expand(map[], m, m[j]) == Substitute(map[], m, m[j])
    ensures Twin(Visit(map[], m, j), k, a, c)
  {
    var s := m[j][0];
    SubstituteOne(m, s);
    var e := Resolve(map[], m, s);
    assert e == [Ch('z')] || e == [Bare(c)] by {
      assert j == k || j == a || j == c;
    }
    assert Substitute(map[], m, m[j]) == if j == k then Twice(e[0]) else e;
    TwinIsClear(e[0]);
    ExpandExactly(map[], m, m[j]);
  }

  lemma {:induction false} TwinRound(m: Env, k: string, a: string, c: string, order: seq<string>)
    requires k != a && k != c && a != c && Twin(m, k, a, c) && Elements(order) <= m.Keys
    ensures Twin(Round(map[], m, order), k, a, c)
  {
    if order != [] {
      assert order[0] in Elements(order);
      assert forall j :: j in order[1..] ==> j in Elements(order);
      TwinVisit(m, k, a, c, order[0]);
      TwinRound(Visit(map[], m, order[0]), k, a, c, order[1..]);
    }
  }

  lemma {:induction false} TwinRounds(m: Env, k: string, a: string, c: string, orders: seq<seq<string>>)
    requires k != a && k != c && a != c && Twin(m, k, a, c) && Schedule(m.Keys, orders)
    ensures Twin(Rounds(map[], m, orders), k, a, c)
  {
    if orders != [] {
      TwinRound(m, k, a, c, orders[0]);
      TwinRounds(Round(map[], m, orders[0]), k, a, c, orders[1..]);
    }
  }

  /**
   In k = $a$a, a = $c, c = z both copies of a are always replaced together, so no visit of any run
   glues a name, and yet there is no certificate.
   */
  lemma {:induction false} TwinNeverGlues(
    env: Env, k: string, a: string, c: string, orders: seq<seq<string>>, prefix: seq<string>, j: string)
    requires k != a && k != c && a != c
    requires env == map[k := Twice(Bare(a)), a := [Bare(c)], c := [Ch('z')]]
    requires Schedule(env.Keys, orders) && Elements(prefix) <= env.Keys && j in env
    ensures
      var m := Round(map[], Rounds(map[], env, orders), prefix);
      Expand(map[], m, m[j]) == Substitute(map[], m, m[j])
  {
    TwinRounds(env, k, a, c, orders);
    TwinRound(Rounds(map[], env, orders), k, a, c, prefix);
    TwinVisit(Round(map[], Rounds(map[], env, orders), prefix), k, a, c, j);
  }

  lemma TwinHasNoCertificate(env: Env, k: string, a: string, c: string, rank: map<string, nat>, open: set<string>)
    requires k != a && k != c && a != c
    requires env == map[k := Twice(Bare(a)), a := [Bare(c)], c := [Ch('z')]]
    requires rank == map[k := 2, a := 1, c := 0]
    ensures Ranked(map[], rank, env) && !KeptApart(false, map[], env, rank, open)
  {
    assert Ranked(map[], rank, env);
    var sol := MeaningMap(map[], env, rank);
    MeaningSolves(map[], env, rank);
    TextSolvesItself(map[], env, sol, c);
    SubstituteExactly(map[], sol, env[a], sol[a]);
    SubstituteOne(sol, Bare(c));
    SubstituteOne(sol, Bare(a));
    assert sol[a] == [Ch('z')];
    assert Twice(Bare(a))[1..] == [Bare(a)] && [Bare(c)][1..] == [];
    assert a in env && k in env;
    assert !Shut(false, map[], sol, open, env[a]);
    assert a in open ==> !Apart(false, map[], sol, open, env[k]);
  }

  // ---------- names that run on make the result depend on the order ----------

  /** The names in x = $a$b, a = $c, b = d, where c is not a variable. */
  datatype Vars = Vars(x: string, a: string, b: string, c: string) {
    ghost predicate Valid() {
      && x != a && x != b && a != b
      && c !in {x, a, b} && c + "d" !in {x, a, b}
      && c != "" && Word(c) && x != "" && Word(x) && !(x <= c + "d")
    }

    ghost function Env(vx: Value, va: Value): (m: Env)
      requires Valid()
      ensures m.Keys == {x, a, b} && m[x] == vx && m[a] == va && m[b] == [Ch('d')]
    {
      map[x := vx, a := va, b := [Ch('d')]]
    }

    lemma EnvIs(m: Env, vx: Value, va: Value)
      requires Valid() && m.Keys == {x, a, b} && m[x] == vx && m[a] == va && m[b] == [Ch('d')]
      ensures m == Env(vx, va)
    {
    }
  }

  lemma LiteralsAreStable(m: Env)
    requires LiteralMap(m)
    ensures Stable(map[], m)
  {
    forall k | k in m ensures Visit(map[], m, k) == m {
      LiteralVisit(m, k);
    }
  }

  /** A reference to an undefined variable expands to nothing. */
  lemma UndefinedVisit(m: Env, k: string, name: string)
    requires k in m && m[k] == [Bare(name)] && name !in m
    ensures Visit(map[], m, k) == m[k := []]
  {
    assert m[k][1..] == [];
    assert Substitute(map[], m, m[k]) == [];
    LiteralNeverSelfRecursive([], k);
  }

  lemma PairVisit(m: Env, k: string, a: string, b: string)
    requires k in m && a in m && b in m && m[k] == [Bare(a), Bare(b)]
    ensures Substitute(map[], m, m[k]) == m[a] + m[b]
  {
    var v := m[k];
    assert v[1..] == [Bare(b)] && v[1..][1..] == [];
    assert Substitute(map[], m, v[1..]) == m[b] + Substitute(map[], m, []);
  }

  /** Read again, $c followed by d is the reference $cd. */
  lemma GluedName(e: Value, c: string)
    requires e == [Bare(c), Ch('d')]
    ensures Glue(e) == [Bare(c + "d")]
  {
    var d: Value := [Ch('d')];
    assert e[1..] == d && d[1..] == [];
    assert Glue(d) == d;
    assert WordPrefix(d) == 1;
    assert Text(d[..1]) == "d";
  }

  /** Visited first, x becomes $cd: the name c has swallowed the value of b. */
  lemma VisitXFirst(v: Vars)
    requires v.Valid()
    ensures Visit(map[], v.Env([Bare(v.a), Bare(v.b)], [Bare(v.c)]), v.x) == v.Env([Bare(v.c + "d")], [Bare(v.c)])
  {
    var m, e: Value := v.Env([Bare(v.a), Bare(v.b)], [Bare(v.c)]), [Bare(v.c + "d")];
    PairVisit(m, v.x, v.a, v.b);
    GluedName(m[v.a] + m[v.b], v.c);
    NotSelfRecursive({v.c + "d"}, e, v.x);
    v.EnvIs(m[v.x := e], e, [Bare(v.c)]);
  }

  lemma VisitXLast(v: Vars)
    requires v.Valid()
    ensures Visit(map[], v.Env([Bare(v.a), Bare(v.b)], []), v.x) == v.Env([Ch('d')], [])
  {
    var m, e: Value := v.Env([Bare(v.a), Bare(v.b)], []), [Ch('d')];
    PairVisit(m, v.x, v.a, v.b);
    assert m[v.a] + m[v.b] == e;
    NoBareIsClear(e);
    GlueExactly(e);
    LiteralNeverSelfRecursive(e, v.x);
    v.EnvIs(m[v.x := e], e, []);
  }

  lemma SettleA(v: Vars, x: Value)
    requires v.Valid()
    ensures Visit(map[], v.Env(x, [Bare(v.c)]), v.a) == v.Env(x, [])
  {
    var m := v.Env(x, [Bare(v.c)]);
    UndefinedVisit(m, v.a, v.c);
    v.EnvIs(m[v.a := []], x, []);
  }

  lemma SettleX(v: Vars)
    requires v.Valid()
    ensures Visit(map[], v.Env([Bare(v.c + "d")], []), v.x) == v.Env([], [])
  {
    var m := v.Env([Bare(v.c + "d")], []);
    UndefinedVisit(m, v.x, v.c + "d");
    v.EnvIs(m[v.x := []], [], []);
  }

  lemma ThreeVisits(m: Env, a: string, b: string, c: string, m1: Env, m2: Env, m3: Env)
    requires {a, b, c} <= m.Keys
    requires m1 == Visit(map[], m, a) && m2 == Visit(map[], m1, b) && m3 == Visit(map[], m2, c)
    ensures Elements([a, b, c]) <= m.Keys && Round(map[], m, [a, b, c]) == m3
  {
    assert [a, b, c][1..] == [b, c] && [b, c][1..] == [c];
    assert Round(map[], m2, [c]) == m3;
    assert Round(map[], m1, [b, c]) == m3;
  }

  /** Two rounds that end in literals determine all further ones. */
  lemma SettledAfterTwo(m: Env, order: seq<string>, m1: Env, m2: Env, orders: seq<seq<string>>)
    requires Enumerates(order, m.Keys) && |orders| >= 2
    requires forall i :: 0 <= i < |orders| ==> orders[i] == order
    requires m1 == Round(map[], m, order) && m2 == Round(map[], m1, order) && LiteralMap(m2)
    ensures Schedule(m.Keys, orders) && Rounds(map[], m, orders) == m2
  {
    assert orders[1..][0] == order;
    LiteralsAreStable(m2);
    StableIsFixpoint(map[], m2, orders[1..][1..]);
  }

  lemma SettledAfterOne(m: Env, order: seq<string>, m1: Env, orders: seq<seq<string>>)
    requires Enumerates(order, m.Keys) && |orders| >= 2
    requires forall i :: 0 <= i < |orders| ==> orders[i] == order
    requires m1 == Round(map[], m, order) && LiteralMap(m1)
    ensures Schedule(m.Keys, orders) && Rounds(map[], m, orders) == m1
  {
    LiteralsAreStable(m1);
    StableUnderRound(map[], m1, order);
    SettledAfterTwo(m, order, m1, m1, orders);
  }

  lemma LiteralEnv(v: Vars, x: Value)
    requires v.Valid() && Literal(x)
    ensures LiteralMap(v.Env(x, []))
  {
  }

  lemma XFirst(v: Vars)
    requires v.Valid()
    ensures Elements([v.x, v.a, v.b]) <= {v.x, v.a, v.b}
    ensures Round(map[], v.Env([Bare(v.a), Bare(v.b)], [Bare(v.c)]), [v.x, v.a, v.b]) == v.Env([Bare(v.c + "d")], [])
  {
    var m0, m1 := v.Env([Bare(v.c + "d")], [Bare(v.c)]), v.Env([Bare(v.c + "d")], []);
    VisitXFirst(v);
    SettleA(v, [Bare(v.c + "d")]);
    LiteralVisit(m1, v.b);
    ThreeVisits(v.Env([Bare(v.a), Bare(v.b)], [Bare(v.c)]), v.x, v.a, v.b, m0, m1, m1);
  }

  lemma XFirstAgain(v: Vars)
    requires v.Valid()
    ensures Elements([v.x, v.a, v.b]) <= {v.x, v.a, v.b}
    ensures Round(map[], v.Env([Bare(v.c + "d")], []), [v.x, v.a, v.b]) == v.Env([], [])
  {
    var m := v.Env([], []);
    SettleX(v);
    LiteralVisit(m, v.a);
    LiteralVisit(m, v.b);
    ThreeVisits(v.Env([Bare(v.c + "d")], []), v.x, v.a, v.b, m, m, m);
  }

  lemma XLast(v: Vars)
    requires v.Valid()
    ensures Elements([v.a, v.b, v.x]) <= {v.x, v.a, v.b}
    ensures Round(map[], v.Env([Bare(v.a), Bare(v.b)], [Bare(v.c)]), [v.a, v.b, v.x]) == v.Env([Ch('d')], [])
  {
    var m1, m3 := v.Env([Bare(v.a), Bare(v.b)], []), v.Env([Ch('d')], []);
    SettleA(v, [Bare(v.a), Bare(v.b)]);
    LiteralVisit(m1, v.b);
    VisitXLast(v);
    ThreeVisits(v.Env([Bare(v.a), Bare(v.b)], [Bare(v.c)]), v.a, v.b, v.x, m1, m1, m3);
  }

  lemma Orders(v: Vars)
    requires v.Valid()
    ensures Enumerates([v.x, v.a, v.b], {v.x, v.a, v.b}) && Enumerates([v.a, v.b, v.x], {v.x, v.a, v.b})
  {
    assert Elements([v.x, v.a, v.b]) == {v.x, v.a, v.b} == Elements([v.a, v.b, v.x]);
  }

  lemma FirstOrder(v: Vars, m: Env) returns (order: seq<string>, m1: Env, m2: Env)
    requires v.Valid() && m == v.Env([Bare(v.a), Bare(v.b)], [Bare(v.c)])
    ensures Enumerates(order, m.Keys) && m1 == Round(map[], m, order) && m2 == Round(map[], m1, order)
    ensures LiteralMap(m2) && m2.Keys == m.Keys && m2[v.x] == []
  {
    order, m1, m2 := [v.x, v.a, v.b], v.Env([Bare(v.c + "d")], []), v.Env([], []);
    Orders(v);
    XFirst(v);
    XFirstAgain(v);
    LiteralEnv(v, []);
  }

  lemma LastOrder(v: Vars, m: Env) returns (order: seq<string>, m1: Env)
    requires v.Valid() && m == v.Env([Bare(v.a), Bare(v.b)], [Bare(v.c)])
    ensures Enumerates(order, m.Keys) && m1 == Round(map[], m, order)
    ensures LiteralMap(m1) && m1.Keys == m.Keys && m1[v.x] == [Ch('d')]
  {
    order, m1 := [v.a, v.b, v.x], v.Env([Ch('d')], []);
    Orders(v);
    XLast(v);
    LiteralEnv(v, [Ch('d')]);
  }

  lemma {:induction false} XFirstInAll(v: Vars, env: Env, n: nat) returns (orders: seq<seq<string>>)
    requires v.Valid() && env == v.Env([Bare(v.a), Bare(v.b)], [Bare(v.c)]) && n >= 2
    ensures |orders| == n && Schedule(env.Keys, orders) && Rounds(map[], env, orders)[v.x] == []
  {
    var order, m1, m2 := FirstOrder(v, env);
    orders := seq(n, _ => order);
    SettledAfterTwo(env, order, m1, m2, orders);
  }

  lemma {:induction false} XLastInAll(v: Vars, env: Env, n: nat) returns (orders: seq<seq<string>>)
    requires v.Valid() && env == v.Env([Bare(v.a), Bare(v.b)], [Bare(v.c)]) && n >= 2
    ensures |orders| == n && Schedule(env.Keys, orders) && Rounds(map[], env, orders)[v.x] == [Ch('d')]
  {
    var order, m1 := LastOrder(v, env);
    orders := seq(n, _ => order);
    SettledAfterOne(env, order, m1, orders);
  }

  /**
   Without delimiters the final value of x depends on the map order: with x = $a$b, a = $c and
   b = d, for any names and any number of rounds from two on, it is empty when x is visited first
   and "d" when x is visited last.
   */
  lemma {:induction false} UndelimitedDependsOnOrder(v: Vars, env: Env, n: nat)
    returns (first: seq<seq<string>>, last: seq<seq<string>>)
    requires v.Valid() && env == v.Env([Bare(v.a), Bare(v.b)], [Bare(v.c)]) && n >= 2
    ensures |first| == |last| == n && Schedule(env.Keys, first) && Schedule(env.Keys, last)
    ensures Rounds(map[], env, first)[v.x] == [] && Rounds(map[], env, last)[v.x] == [Ch('d')]
  {
    first := XFirstInAll(v, env, n);
    last := XLastInAll(v, env, n);
  }

  /** The example meets every other hypothesis of the main result, and has no certificate. */
  lemma UndelimitedIsRanked(v: Vars, env: Env, rank: map<string, nat>, open: set<string>)
    requires v.Valid() && env == v.Env([Bare(v.a), Bare(v.b)], [Bare(v.c)])
    requires rank == map[v.x := 2, v.a := 1, v.b := 0]
    ensures Ranked(map[], rank, env) && !KeptApart(false, map[], env, rank, open)
    ensures Vars("X", "A", "B", "C").Valid()
  {
    PairVisit(env, v.x, v.a, v.b);
    assert !Clear(false, env[v.a] + env[v.b]);
    assert Elements([]) <= env.Keys;
    GluedHasNoCertificate(map[], env, rank, open, [], v.x);
    assert "X"[0] != ("C" + "d")[0];
    assert |"C" + "d"| == 2;
  }
}
