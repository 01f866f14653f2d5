/** The agent's environment (internal/agent/environment/environment.go) and its expansion loop. */
module Environment {
  import opened Common
  import opened Expansion
  import opened ExpansionMeaning
  import opened ExpansionCycles
  import opened ExpansionGuard

  /**
   The variables of `d` refer to no others, their references are acyclic with chains of at most ten,
   and `open` certifies that no name runs into other text.
   */
  ghost predicate Certified(os: Env, env: Env, d: set<string>, rank: map<string, nat>, open: set<string>) {
    && SelfContained(os, d, env) && Ranked(os, rank, Restrict(env, d)) && (forall k :: k in rank ==> rank[k] <= 10)
    && KeptApart(false, os, Restrict(env, d), rank, open)
  }

  ghost predicate Expandable(os: Env, env: Env, d: set<string>) {
    && LiteralMap(os) && d <= env.Keys
    && exists rank: map<string, nat>, open: set<string> :: Certified(os, env, d, rank, open)
  }

  /** `m` has the one and only solution of `env` for the variables of `d`, whatever the others are. */
  ghost predicate SolvedOn(os: Env, env: Env, d: set<string>, m: Env) {
    m.Keys == env.Keys && d <= env.Keys && IsTheSolution(os, Restrict(env, d), Restrict(m, d))
  }

  /** Every part that can be expanded is, and so is the whole if it can be. */
  ghost predicate AllSolved(os: Env, env: Env, m: Env) {
    && (forall d :: Expandable(os, env, d) ==> SolvedOn(os, env, d, m))
    && (Expandable(os, env, env.Keys) ==> IsTheSolution(os, env, m))
  }

  lemma {:induction false} RoundSnoc(os: Env, m: Env, order: seq<string>, k: string)
    requires Elements(order) <= m.Keys && k in m && Elements(order + [k]) <= m.Keys
    ensures Round(os, m, order + [k]) == Visit(os, Round(os, m, order), k)
  {
    if order == [] {
      assert order + [k] == [k] && [k][1..] == [];
    } else {
      assert (order + [k])[1..] == order[1..] + [k];
      assert order[0] in Elements(order);
      assert forall j :: j in order[1..] ==> j in Elements(order);
      assert forall j :: j in order[1..] + [k] ==> j in Elements(order + [k]);
      RoundSnoc(os, Visit(os, m, order[0]), order[1..], k);
    }
  }

  /** Rounds after a quiet one change nothing, so stopping early is the same as going on. */
  lemma StoppingEarly(os: Env, env: Env, orders: seq<seq<string>>, order: seq<string>, n: nat)
    returns (padded: seq<seq<string>>)
    requires Schedule(env.Keys, orders) && Enumerates(order, env.Keys) && |orders| <= n
    requires Round(os, Rounds(os, env, orders), order) == Rounds(os, env, orders)
    ensures |padded| == n && Schedule(env.Keys, padded)
    ensures Rounds(os, env, padded) == Rounds(os, env, orders)
  {
    var m, more := Rounds(os, env, orders), seq(n - |orders|, _ => order);
    padded := orders + more;
    QuietRoundIsStable(os, m, order);
    StableIsFixpoint(os, m, more);
    RoundsAppend(os, env, orders, more);
  }

  /** `order` lists the keys met so far, `todo` the others. */
  ghost predicate Partway(order: seq<string>, todo: set<string>, keys: set<string>) {
    NoDuplicates(order) && Elements(order) + todo == keys && Elements(order) !! todo
  }

  lemma ExtendOrder(order: seq<string>, todo: set<string>, keys: set<string>, key: string)
    requires Partway(order, todo, keys) && key in todo
    ensures key !in order && Partway(order + [key], todo - {key}, keys)
  {
    assert key !in Elements(order);
    assert Elements(order + [key]) == Elements(order) + {key};
  }

  ghost predicate PassState(os: Env, env: Env, order: seq<string>, todo: set<string>, result: Env, changed: bool) {
    && Partway(order, todo, env.Keys)
    && result == Round(os, env, order)
    && (changed <==> result != env)
  }

  lemma PassStep(os: Env, env: Env, order: seq<string>, todo: set<string>, result: Env, changed: bool, key: string)
    requires PassState(os, env, order, todo, result, changed) && key in todo
    ensures key in result
    ensures var next := Visit(os, result, key);
      PassState(os, env, order + [key], todo - {key}, next, changed || next[key] != result[key])
  {
    var next := Visit(os, result, key);
    ExtendOrder(order, todo, env.Keys, key);
    RoundSnoc(os, env, order, key);
    assert result[key] == env[key];
    if changed {
      assert exists k :: k in env && k != key && result[k] != env[k];
    } else if next[key] == result[key] {
      assert next == result;
    }
  }

  /** The last round changed something; rounds after a quiet one are quiet, so all the others did, too. */
  ghost predicate Busy(os: Env, env: Env, orders: seq<seq<string>>)
    requires Schedule(env.Keys, orders)
  {
    orders == [] || Rounds(os, env, orders[..|orders| - 1]) != Rounds(os, env, orders)
  }

  /** `m` is fully expanded, solves the substitution equations of `env`, and nothing else does. */
  ghost predicate IsTheSolution(os: Env, env: Env, m: Env) {
    LiteralMap(m) && Solves(os, env, m) && forall sol :: Solves(os, env, sol) ==> sol == m
  }

  /** One in-place pass over the map in whatever order the runtime picks. */
  method ExpandOnce(os: Env, environment: Env) returns (result: Env, changed: bool, ghost order: seq<string>)
    ensures Enumerates(order, environment.Keys)
    ensures result == Round(os, environment, order)
    ensures changed <==> result != environment
  {
    result, changed, order := environment, false, [];
    var todo := result.Keys;
    while todo != {}
      invariant PassState(os, environment, order, todo, result, changed)
    {
      var key :| key in todo;
      PassStep(os, environment, order, todo, result, changed, key);
      var originalValue := result[key];
      var expandedValue := Expand(os, result, originalValue);
      if !SelfRecursive(expandedValue, key) {
        result := result[key := expandedValue];
        if originalValue != expandedValue {
          changed := true;
        }
      }
      order, todo := order + [key], todo - {key};
    }
  }

  /**
   At most ten in-place rounds, each over the keys in some order, stopping after a round without
   a change. The result is that of ten full rounds for the orders the loop happened to choose, and
   a fixpoint unless each of the ten rounds changed something. Every part of the environment that
   is acyclic by itself comes out fully substituted, next to whatever cycles there are, and variables
   that refer to themselves keep their values.
   */
  method ExpandEnvironmentRecursively(os: Env, environment: Env) returns (result: Env, ghost orders: seq<seq<string>>)
    ensures |orders| == 10 && Schedule(environment.Keys, orders)
    ensures result == Rounds(os, environment, orders)
    ensures Stable(os, result) || Busy(os, environment, orders)
    ensures Stable(os, environment) ==> result == environment
    ensures AllSolved(os, environment, result)
    ensures SelfReferencesKept(os, environment, result)
  {
    result, orders := environment, [];
    var step := 0;
    while step < 10
      invariant |orders| == step <= 10 && Schedule(environment.Keys, orders)
      invariant result == Rounds(os, environment, orders) && Busy(os, environment, orders)
    {
      var next, changed;
      ghost var order;
      next, changed, order := ExpandOnce(os, result);
      if !changed {
        QuietRoundIsStable(os, result, order);
        orders := StoppingEarly(os, environment, orders, order, 10);
        break;
      }
      OneMoreRound(os, environment, orders, order);
      assert (orders + [order])[..|orders|] == orders;
      result, orders, step := next, orders + [order], step + 1;
    }
    RoundsSolveAll(os, environment, orders);
    RoundsKeepSelfReferences(os, environment, orders);
    if Stable(os, environment) {
      StableIsFixpoint(os, environment, orders);
    }
  }

  lemma OneMoreRound(os: Env, env: Env, orders: seq<seq<string>>, order: seq<string>)
    requires Schedule(env.Keys, orders) && Enumerates(order, env.Keys)
    ensures Schedule(env.Keys, orders + [order])
    ensures Rounds(os, env, orders + [order]) == Round(os, Rounds(os, env, orders), order)
  {
    var one: seq<seq<string>> := [order];
    RoundsAppend(os, env, orders, one);
    assert one[1..] == [];
  }

  lemma {:induction false} ExpandableIsSolved(os: Env, env: Env, d: set<string>, orders: seq<seq<string>>)
    requires |orders| == 10 && Schedule(env.Keys, orders)
    ensures Expandable(os, env, d) ==> SolvedOn(os, env, d, Rounds(os, env, orders))
  {
    if Expandable(os, env, d) {
      var rank: map<string, nat>, open: set<string> :| Certified(os, env, d, rank, open);
      PartIsFullySubstituted(os, env, d, rank, open, orders);
    }
  }

  lemma WholeIsSolved(os: Env, env: Env, m: Env)
    requires m.Keys == env.Keys && SolvedOn(os, env, env.Keys, m)
    ensures IsTheSolution(os, env, m)
  {
    assert Restrict(env, env.Keys) == env && Restrict(m, env.Keys) == m;
  }

  lemma RoundsSolveAll(os: Env, env: Env, orders: seq<seq<string>>)
    requires |orders| == 10 && Schedule(env.Keys, orders)
    ensures AllSolved(os, env, Rounds(os, env, orders))
  {
    forall d ensures Expandable(os, env, d) ==> SolvedOn(os, env, d, Rounds(os, env, orders)) {
      ExpandableIsSolved(os, env, d, orders);
    }
    if Expandable(os, env, env.Keys) {
      WholeIsSolved(os, env, Rounds(os, env, orders));
    }
  }

  /** Variables that refer to themselves have their old values. */
  ghost predicate SelfReferencesKept(os: Env, env: Env, m: Env) {
    forall k :: k in env && k !in os && RefersTo(env[k], k) ==> k in m && m[k] == env[k]
  }

  lemma RoundsKeepSelfReferences(os: Env, env: Env, orders: seq<seq<string>>)
    requires Schedule(env.Keys, orders)
    ensures SelfReferencesKept(os, env, Rounds(os, env, orders))
  {
    forall k | k in env && k !in os && RefersTo(env[k], k) ensures Rounds(os, env, orders)[k] == env[k] {
      SelfReferenceStays(os, env, orders, k);
    }
  }

  const SENSITIVE_ENDINGS: set<string> := {"_PASSWORD", "_SECRET", "_TOKEN", "_ACCESS_KEY", "_SECRET_KEY"}

  ghost predicate Ends(key: string, ending: string) {
    exists front: string :: front + ending == key
  }

  /** Names of values that are always masked. */
  ghost predicate SensitiveName(key: string) {
    exists ending :: ending in SENSITIVE_ENDINGS && Ends(key, ending)
  }

  lemma HasSuffixExactly(key: string, ending: string)
    ensures HasSuffix(key, ending) <==> Ends(key, ending)
  {
    if HasSuffix(key, ending) {
      assert key[..|key| - |ending|] + ending == key;
    }
    if Ends(key, ending) {
      var front: string :| front + ending == key;
      assert key[|front|..] == ending;
    }
  }

  lemma WellKnownExactly(key: string)
    ensures IsWellKnownSensitive(key) <==> SensitiveName(key)
  {
    forall ending | ending in SENSITIVE_ENDINGS ensures HasSuffix(key, ending) <==> Ends(key, ending) {
      HasSuffixExactly(key, ending);
    }
    assert "_PASSWORD" in SENSITIVE_ENDINGS && "_SECRET" in SENSITIVE_ENDINGS && "_TOKEN" in SENSITIVE_ENDINGS;
    assert "_ACCESS_KEY" in SENSITIVE_ENDINGS && "_SECRET_KEY" in SENSITIVE_ENDINGS;
  }

  predicate HasSuffix(s: string, suffix: string) {
    |suffix| <= |s| && s[|s| - |suffix|..] == suffix
  }

  predicate IsWellKnownSensitive(key: string) {
    HasSuffix(key, "_PASSWORD") || HasSuffix(key, "_SECRET") || HasSuffix(key, "_TOKEN") ||
    HasSuffix(key, "_ACCESS_KEY") || HasSuffix(key, "_SECRET_KEY")
  }

  /** What one merged variable adds to the values to mask. */
  function Masked(other: Env, key: string, all: bool): seq<Value>
    requires key in other
  {
    if (all || IsWellKnownSensitive(key)) && other[key] != [] then [other[key]] else []
  }

  /** The values that merging `other` adds to the values to mask, for one iteration order. */
  function Sensitive(other: Env, order: seq<string>, all: bool): seq<Value>
    requires forall k :: k in order ==> k in other
  {
    if order == [] then []
    else Sensitive(other, order[..|order| - 1], all) + Masked(other, order[|order| - 1], all)
  }

  /** `v` is a value to mask among the given variables. */
  ghost predicate ToMask(other: Env, order: seq<string>, all: bool, v: Value) {
    v != [] && exists k :: k in order && k in other && other[k] == v && (all || SensitiveName(k))
  }

  /** Exactly the non-empty values of sensitive names are masked, or all non-empty values if all are sensitive. */
  lemma {:induction false} SensitiveExactly(other: Env, order: seq<string>, all: bool, v: Value)
    requires forall k :: k in order ==> k in other
    ensures v in Sensitive(other, order, all) <==> ToMask(other, order, all, v)
  {
    if order != [] {
      var init, last := order[..|order| - 1], order[|order| - 1];
      assert order == init + [last];
      SensitiveExactly(other, init, all, v);
      WellKnownExactly(last);
      if ToMask(other, init, all, v) {
        var k :| k in init && k in other && other[k] == v && (all || SensitiveName(k));
        assert k in order;
      }
      if ToMask(other, order, all, v) && !ToMask(other, init, all, v) {
        var k :| k in order && k in other && other[k] == v && (all || SensitiveName(k));
        assert k == last;
      }
    }
  }

  ghost predicate MaskState(
    other: Env, order: seq<string>, todo: set<string>, all: bool, before: seq<Value>, now: seq<Value>)
  {
    && Partway(order, todo, other.Keys)
    && (forall k :: k in order ==> k in other)
    && now == before + Sensitive(other, order, all)
  }

  lemma MaskStep(
    other: Env, order: seq<string>, todo: set<string>, all: bool, before: seq<Value>, now: seq<Value>, key: string)
    requires MaskState(other, order, todo, all, before, now) && key in todo
    ensures key in other
    ensures MaskState(other, order + [key], todo - {key}, all, before, now + Masked(other, key, all))
  {
    ExtendOrder(order, todo, other.Keys, key);
    assert (order + [key])[..|order|] == order;
    assert key in other.Keys;
  }

  /** Merging nothing changes nothing; else the overlaid map goes through ten rounds. */
  ghost predicate Merged(os: Env, before: Env, other: Env, after: Env, orders: seq<seq<string>>) {
    if other == map[] then after == before
    else |orders| == 10 && Schedule((before + other).Keys, orders) && after == Rounds(os, before + other, orders)
  }

  class Environment {
    var env: Env
    var sensitiveValues: seq<Value>

    constructor ()
      ensures env == map[] && sensitiveValues == []
    {
      env, sensitiveValues := map[], [];
    }

    method AddSensitiveValue(value: Value)
      modifies this`sensitiveValues
      ensures sensitiveValues == old(sensitiveValues) + if value == [] then [] else [value]
    {
      if value != [] {
        sensitiveValues := sensitiveValues + [value];
      }
    }

    method Set(key: string, value: Value)
      modifies this
      ensures env == old(env)[key := value]
      ensures sensitiveValues == old(sensitiveValues) + if SensitiveName(key) && value != [] then [value] else []
    {
      WellKnownExactly(key);
      env := env[key := value];
      if IsWellKnownSensitive(key) {
        AddSensitiveValue(value);
      }
    }

    method OverlayAndExpand(os: Env, other: Env) returns (ghost orders: seq<seq<string>>)
      requires other != map[]
      modifies this`env
      ensures Merged(os, old(env), other, env, orders) && AllSolved(os, old(env) + other, env)
      ensures Stable(os, old(env) + other) ==> env == old(env) + other
    {
      Overlay(other);
      env, orders := ExpandEnvironmentRecursively(os, env);
    }

    /**
     Overlays `other` and expands the whole map again. Merging nothing, or only entries that are
     already there, into a map that an expansion leaves alone changes no variable.
     */
    method Merge(os: Env, other: Env, isSensitive: bool)
      returns (ghost orders: seq<seq<string>>, ghost order: seq<string>)
      modifies this
      ensures Merged(os, old(env), other, env, orders)
      ensures other != map[] ==> AllSolved(os, old(env) + other, env)
      ensures Stable(os, old(env)) && old(env) + other == old(env) ==> env == old(env)
      ensures Enumerates(order, other.Keys) && forall k :: k in order ==> k in other
      ensures sensitiveValues == old(sensitiveValues) + Sensitive(other, order, isSensitive)
      ensures forall v :: v in sensitiveValues <==>
        v in old(sensitiveValues) || ToMask(other, order, isSensitive, v)
    {
      order, orders := [], [];
      if other == map[] {
        return;
      }
      orders := OverlayAndExpand(os, other);
      order := MaskValues(other, isSensitive);
      forall v ensures v in Sensitive(other, order, isSensitive) <==> ToMask(other, order, isSensitive, v) {
        SensitiveExactly(other, order, isSensitive, v);
      }
    }

    method Overlay(other: Env)
      modifies this`env
      ensures env == old(env) + other
    {
      var todo := other.Keys;
      while todo != {}
        invariant todo <= other.Keys
        invariant env == old(env) + (map k | k in other && k !in todo :: other[k])
      {
        var key :| key in todo;
        env := env[key := other[key]];
        todo := todo - {key};
      }
    }

    method MaskValues(other: Env, isSensitive: bool) returns (ghost order: seq<string>)
      modifies this`sensitiveValues
      ensures Enumerates(order, other.Keys) && forall k :: k in order ==> k in other
      ensures sensitiveValues == old(sensitiveValues) + Sensitive(other, order, isSensitive)
    {
      order := [];
      var todo := other.Keys;
      while todo != {}
        invariant MaskState(other, order, todo, isSensitive, old(sensitiveValues), sensitiveValues)
      {
        var key :| key in todo;
        MaskStep(other, order, todo, isSensitive, old(sensitiveValues), sensitiveValues, key);
        if isSensitive || IsWellKnownSensitive(key) {
          AddSensitiveValue(other[key]);
        }
        order, todo := order + [key], todo - {key};
      }
    }
  }
}
