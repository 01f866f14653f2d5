/**
 Environments of which only a part is acyclic. Variables that refer to themselves, directly or not,
 are what the self-recursion test is for; they do not disturb the variables that do not depend on them.
 */
module ExpansionCycles {
  import opened Common
  import opened Expansion
  import opened ExpansionMeaning

  /** The variables of `d` only. */
  function Restrict(m: Env, d: set<string>): (r: Env)
    requires d <= m.Keys
    ensures r.Keys == d && forall k :: k in d ==> r[k] == m[k]
  {
    map k | k in d :: m[k]
  }

  /** The symbol stands for text, an OS variable, a variable of `d` or none at all. */
  predicate Inside(os: Env, keys: set<string>, d: set<string>, s: Sym) {
    s.Ch? || s.name in os || s.name in d || s.name !in keys
  }

  predicate AllInside(os: Env, keys: set<string>, d: set<string>, v: Value) {
    forall i :: 0 <= i < |v| ==> Inside(os, keys, d, v[i])
  }

  /** The variables of `d` refer to no variable outside of it. */
  ghost predicate SelfContained(os: Env, d: set<string>, m: Env) {
    d <= m.Keys && forall k :: k in d ==> AllInside(os, m.Keys, d, m[k])
  }

  /** What the restricted map says suffices to substitute. */
  lemma {:induction false} SubstituteRestricted(os: Env, d: set<string>, m: Env, v: Value)
    requires LiteralMap(os) && SelfContained(os, d, m) && AllInside(os, m.Keys, d, v)
    ensures Substitute(os, m, v) == Substitute(os, Restrict(m, d), v)
    ensures AllInside(os, m.Keys, d, Substitute(os, m, v))
  {
    if v != [] {
      assert Inside(os, m.Keys, d, v[0]);
      SubstituteRestricted(os, d, m, v[1..]);
    }
  }

  /** What a run keeps of a part: `r` is the restriction of `m` to `d`, and both are as they should be. */
  ghost predicate Tracks(
    os: Env, d: set<string>, rank: map<string, nat>, sol: Env, open: set<string>, m: Env, r: Env)
  {
    SelfContained(os, d, m) && r == Restrict(m, d) && Invariant(os, rank, sol, open, r)
  }

  lemma ExpandInside(
    os: Env, d: set<string>, rank: map<string, nat>, sol: Env, open: set<string>, m: Env, r: Env, k: string)
    requires LiteralMap(os) && Tracks(os, d, rank, sol, open, m, r) && k in d
    ensures Expand(os, m, m[k]) == Expand(os, r, r[k]) && AllInside(os, m.Keys, d, Expand(os, m, m[k]))
  {
    SubstituteRestricted(os, d, m, m[k]);
    ExpandApart(false, os, sol, open, r, k);
  }

  lemma UpdateInside(os: Env, d: set<string>, m: Env, r: Env, k: string, e: Value)
    requires SelfContained(os, d, m) && r == Restrict(m, d) && k in m && (k in d ==> AllInside(os, m.Keys, d, e))
    ensures
      var m' := m[k := e];
      SelfContained(os, d, m') && Restrict(m', d) == if k in d then r[k := e] else r
  {
    var m' := m[k := e];
    assert m'.Keys == m.Keys;
    assert Restrict(m', d) == if k in d then r[k := e] else r;
  }

  /** A visit of a variable of `d` is a visit of the restricted map; any other leaves that map alone. */
  lemma VisitTracks(
    os: Env, d: set<string>, rank: map<string, nat>, sol: Env, open: set<string>, m: Env, r: Env, k: string)
    requires LiteralMap(os) && Tracks(os, d, rank, sol, open, m, r) && k in m
    ensures k in d ==> Tracks(os, d, rank, sol, open, Visit(os, m, k), Visit(os, r, k))
    ensures k !in d ==> Tracks(os, d, rank, sol, open, Visit(os, m, k), r)
  {
    if k in d {
      ExpandInside(os, d, rank, sol, open, m, r, k);
      VisitKeepsInvariant(os, rank, sol, open, r, k);
    }
    UpdateInside(os, d, m, r, k, Expand(os, m, m[k]));
  }

  /** The keys of `order` that are in `d`. */
  function Only(order: seq<string>, d: set<string>): (part: seq<string>)
    ensures forall k :: k in part <==> k in order && k in d
  {
    if order == [] then []
    else (if order[0] in d then [order[0]] else []) + Only(order[1..], d)
  }

  lemma {:induction false} OnlyDistinct(order: seq<string>, d: set<string>)
    requires NoDuplicates(order)
    ensures NoDuplicates(Only(order, d))
  {
    if order != [] {
      OnlyDistinct(order[1..], d);
      assert order[0] !in order[1..];
    }
  }

  lemma OnlyEnumerates(order: seq<string>, keys: set<string>, d: set<string>)
    requires Enumerates(order, keys) && d <= keys
    ensures Enumerates(Only(order, d), d)
  {
    OnlyDistinct(order, d);
    forall k | k in d ensures k in Only(order, d) {
      assert k in Elements(order);
    }
  }

  lemma RoundHead(os: Env, m: Env, order: seq<string>)
    requires order != [] && Elements(order) <= m.Keys
    ensures order[0] in m && Elements(order[1..]) <= m.Keys
    ensures Round(os, m, order) == Round(os, Visit(os, m, order[0]), order[1..])
  {
    assert order[0] in Elements(order);
    assert forall j :: j in order[1..] ==> j in Elements(order);
  }

  /** The restricted map goes through the round in the order of its own keys. */
  lemma {:induction false} RoundTracks(
    os: Env, d: set<string>, rank: map<string, nat>, sol: Env, open: set<string>, m: Env, r: Env, order: seq<string>)
    requires LiteralMap(os) && Tracks(os, d, rank, sol, open, m, r)
    requires Elements(order) <= m.Keys && Elements(Only(order, d)) <= r.Keys
    ensures Tracks(os, d, rank, sol, open, Round(os, m, order), Round(os, r, Only(order, d)))
  {
    if order != [] {
      RoundHead(os, m, order);
      VisitTracks(os, d, rank, sol, open, m, r, order[0]);
      OnlyHead(order, d);
      var m1 := Visit(os, m, order[0]);
      if order[0] in d {
        RoundHead(os, r, Only(order, d));
        RoundTracks(os, d, rank, sol, open, m1, Visit(os, r, order[0]), order[1..]);
      } else {
        RoundTracks(os, d, rank, sol, open, m1, r, order[1..]);
      }
    }
  }

  lemma OnlyHead(order: seq<string>, d: set<string>)
    requires order != []
    ensures order[0] in d ==>
      Only(order, d) != [] && Only(order, d)[0] == order[0] && Only(order, d)[1..] == Only(order[1..], d)
    ensures order[0] !in d ==> Only(order, d) == Only(order[1..], d)
  {
  }

  function OnlyAll(orders: seq<seq<string>>, d: set<string>): (parts: seq<seq<string>>)
    ensures |parts| == |orders| && forall i :: 0 <= i < |parts| ==> parts[i] == Only(orders[i], d)
  {
    seq(|orders|, i requires 0 <= i < |orders| => Only(orders[i], d))
  }

  lemma OnlyAllSchedules(orders: seq<seq<string>>, keys: set<string>, d: set<string>)
    requires Schedule(keys, orders) && d <= keys
    ensures Schedule(d, OnlyAll(orders, d))
  {
    forall i | 0 <= i < |orders| ensures Enumerates(OnlyAll(orders, d)[i], d) {
      OnlyEnumerates(orders[i], keys, d);
    }
  }

  lemma {:induction false} RoundsTrack(
    os: Env, d: set<string>, rank: map<string, nat>, sol: Env, open: set<string>, m: Env, r: Env,
    orders: seq<seq<string>>)
    requires LiteralMap(os) && Tracks(os, d, rank, sol, open, m, r)
    requires Schedule(m.Keys, orders) && Schedule(r.Keys, OnlyAll(orders, d))
    ensures Tracks(os, d, rank, sol, open, Rounds(os, m, orders), Rounds(os, r, OnlyAll(orders, d)))
  {
    if orders != [] {
      assert OnlyAll(orders, d)[1..] == OnlyAll(orders[1..], d) && OnlyAll(orders, d)[0] == Only(orders[0], d);
      RoundTracks(os, d, rank, sol, open, m, r, orders[0]);
      RoundsTrack(os, d, rank, sol, open, Round(os, m, orders[0]), Round(os, r, Only(orders[0], d)), orders[1..]);
    }
  }

  /**
   For any set of variables that refer to no others, and that are acyclic with chains of at most
   `|orders|` references and kept apart, every schedule gives them their meaning, whatever the other
   variables of the environment are and do, cycles and glued names included.
   */
  lemma {:induction false} PartIsFullySubstituted(
    os: Env, env: Env, d: set<string>, rank: map<string, nat>, open: set<string>, orders: seq<seq<string>>)
    requires LiteralMap(os) && SelfContained(os, d, env)
    requires Ranked(os, rank, Restrict(env, d)) && KeptApart(false, os, Restrict(env, d), rank, open)
    requires forall k :: k in rank ==> rank[k] <= |orders|
    requires Schedule(env.Keys, orders)
    ensures LiteralMap(Restrict(Rounds(os, env, orders), d))
    ensures Solves(os, Restrict(env, d), Restrict(Rounds(os, env, orders), d))
    ensures forall sol :: Solves(os, Restrict(env, d), sol) ==> sol == Restrict(Rounds(os, env, orders), d)
  {
    var part, sol := Restrict(env, d), MeaningMap(os, Restrict(env, d), rank);
    MeaningSolves(os, part, rank);
    InitiallyInvariant(os, rank, sol, open, part);
    OnlyAllSchedules(orders, env.Keys, d);
    RoundsTrack(os, d, rank, sol, open, env, part, orders);
    ExpansionIsFullSubstitution(os, part, rank, open, OnlyAll(orders, d));
  }
}
