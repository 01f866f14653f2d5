/**
 How many rounds expansion needs. The in-place rounds double the distance every reference
 spans, so n rounds resolve chains of up to 2^n - 1 references unless the textual
 self-recursion test misfires on names that are prefixes of one another; when it does, n rounds
 can be needed for a chain of n.
 */
module ExpansionBounds {
  import opened Common
  import opened Expansion
  import opened ExpansionMeaning

  // ---------- when the self-recursion test cannot misfire ----------

  ghost predicate Word(t: string) {
    forall i :: 0 <= i < |t| ==> WordChar(t[i])
  }

  /** Symbols whose names come from `names`. */
  ghost predicate PlainSym(names: set<string>, s: Sym) {
    if s.Ch? then !Marker(s.c)
    else
      && s.name in names && s.name != "" && Word(s.name)
      && (s.Braced? && s.default.Some? ==> MarkerFree(s.default.value))
  }

  ghost predicate Plain(names: set<string>, v: Value) {
    forall i :: 0 <= i < |v| ==> PlainSym(names, v[i])
  }

  ghost predicate PlainMap(names: set<string>, m: Env) {
    forall k :: k in m ==> Plain(names, m[k])
  }

  /** No variable is a proper prefix of a referenced name. */
  ghost predicate PrefixFree(os: Env, names: set<string>, keys: set<string>) {
    && (forall k :: k in keys ==> k != "" && Word(k))
    && (forall k, n :: k in keys && n in names && k <= n ==> k == n && k !in os)
  }

  /** Only the first character of a rendered plain symbol other than %name% can be a marker. */
  lemma SymMarkers(names: set<string>, s: Sym)
    requires PlainSym(names, s) && !s.Percent?
    ensures RenderSym(s) != []
    ensures forall i :: 0 < i < |RenderSym(s)| ==> !Marker(RenderSym(s)[i])
  {
    var t := RenderSym(s);
    if s.Bare? {
      forall i | 0 < i < |t| ensures !Marker(t[i]) {
        assert t[i] == s.name[i - 1];
        assert WordChar(s.name[i - 1]);
      }
    } else if s.Braced? {
      var end := BracedEnd(s.default);
      assert forall j :: 0 <= j < |end| ==> !Marker(end[j]);
      forall i | 0 < i < |t| ensures !Marker(t[i]) {
        if 2 <= i < 2 + |s.name| {
          assert t[i] == s.name[i - 2];
          assert WordChar(s.name[i - 2]);
        } else if i >= 2 + |s.name| {
          assert t[i] == end[i - 2 - |s.name|];
        }
      }
    }
  }

  /** A word that does not start `name` does not start `name + tail` if `tail` cannot extend a word. */
  lemma NameMismatch(key: string, name: string, tail: string)
    requires Word(key) && !(key <= name) && (tail == "" || !WordChar(tail[0]))
    ensures !(key <= name + tail)
  {
    if |key| <= |name| {
      assert (name + tail)[..|key|] == name[..|key|];
    } else if tail != "" {
      assert (name + tail)[|name|] == tail[0];
      assert WordChar(key[|name|]);
    }
  }

  lemma SplitPrefix(mark: string, key: string, text: string)
    ensures mark + key <= mark + text ==> key <= text
  {
    assert (mark + text)[|mark|..] == text;
    assert (mark + key)[|mark|..] == key;
  }

  lemma NoMatchAtBare(name: string, rest: string, key: string)
    requires name != "" && Word(name) && key != "" && Word(key) && !(key <= name)
    requires rest == "" || !WordChar(rest[0])
    ensures !("$" + key <= "$" + name + rest)
    ensures !("${" + key <= "$" + name + rest)
    ensures !("%" + key <= "$" + name + rest)
  {
    NameMismatch(key, name, rest);
    SplitPrefix("$", key, name + rest);
    assert "$" + (name + rest) == "$" + name + rest;
    assert WordChar(("$" + name + rest)[1]);
  }

  lemma NoMatchAtBraced(name: string, tail: string, key: string)
    requires key != "" && Word(key) && !(key <= name)
    requires tail != "" && !WordChar(tail[0])
    ensures !("$" + key <= "${" + name + tail)
    ensures !("${" + key <= "${" + name + tail)
    ensures !("%" + key <= "${" + name + tail)
  {
    NameMismatch(key, name, tail);
    SplitPrefix("${", key, name + tail);
    assert "${" + (name + tail) == "${" + name + tail;
    assert WordChar(key[0]) && ("$" + key)[1] == key[0];
  }

  /** Behind a loose reference of a clear value no word character follows. */
  lemma TextAfterLoose(v: Value)
    requires v != [] && Clear(true, v) && Loose(true, v[0])
    ensures Render(v[1..]) == "" || !WordChar(Render(v[1..])[0])
  {
  }

  ghost predicate Pattern(pattern: string, key: string) {
    pattern == "$" + key || pattern == "${" + key || pattern == "%" + key
  }

  lemma Reassociate(a: string, b: string, c: string)
    ensures a + b + c == a + (b + c)
  {
  }

  lemma {:induction false} NoMatchAtReference(v: Value, key: string, pattern: string)
    requires v != [] && Clear(true, v) && key != "" && Word(key) && Pattern(pattern, key)
    requires v[0].Bare? || v[0].Braced?
    requires v[0].name != "" && Word(v[0].name) && !(key <= v[0].name)
    ensures !(pattern <= RenderSym(v[0]) + Render(v[1..]))
  {
    var s, rest := v[0], Render(v[1..]);
    if s.Bare? {
      TextAfterLoose(v);
      NoMatchAtBare(s.name, rest, key);
    } else {
      NoMatchAtBraced(s.name, BracedEnd(s.default) + rest, key);
      Reassociate("${" + s.name, BracedEnd(s.default), rest);
    }
  }

  /** A pattern that starts with a marker occurs in `first + rest` only at its start or in `rest`. */
  lemma NoMatchInside(first: string, rest: string, pattern: string)
    requires first != "" && forall i :: 0 < i < |first| ==> !Marker(first[i])
    requires pattern != "" && Marker(pattern[0])
    requires !(pattern <= first + rest) && !Contains(rest, pattern)
    ensures !Contains(first + rest, pattern)
  {
    var text := first + rest;
    forall i | 0 <= i <= |text| ensures !(pattern <= text[i..]) {
      if i == 0 {
        assert text[0..] == text;
      } else if i < |first| {
        assert text[i..][0] == first[i];
      } else {
        assert text[i..] == rest[i - |first|..];
      }
    }
  }

  lemma NoMatchAtClosing(rest: string, key: string, pattern: string)
    requires key != "" && Word(key) && Pattern(pattern, key) && (rest == "" || !WordChar(rest[0]))
    ensures !(pattern <= "%" + rest)
  {
    assert WordChar(key[0]);
    if pattern <= "%" + rest {
      assert pattern[0] == '%' && pattern == "%" + key;
      SplitPrefix("%", key, rest);
    }
  }

  /** The closing % of %name% opens no match either, because no word character follows it. */
  lemma NoMatchInPercent(name: string, rest: string, key: string, pattern: string)
    requires Word(name) && key != "" && Word(key) && Pattern(pattern, key) && !(key <= name)
    requires (rest == "" || !WordChar(rest[0])) && !Contains(rest, pattern)
    ensures !Contains("%" + name + "%" + rest, pattern)
  {
    var tail := "%" + rest;
    NoMatchAtClosing(rest, key, pattern);
    NoMatchInside("%", rest, pattern);
    NameMismatch(key, name, tail);
    SplitPrefix("%", key, name + tail);
    assert "%" + (name + tail) == "%" + name + tail;
    assert forall i :: 0 < i < |"%" + name| ==> WordChar(("%" + name)[i]);
    NoMatchInside("%" + name, tail, pattern);
    assert "%" + name + tail == "%" + name + "%" + rest;
  }

  lemma {:induction false} NotContained(names: set<string>, v: Value, key: string, pattern: string)
    requires Plain(names, v) && Clear(true, v) && key != "" && Word(key) && Pattern(pattern, key)
    requires forall i :: 0 <= i < |v| && !v[i].Ch? ==> !(key <= v[i].name)
    ensures !Contains(Render(v), pattern)
  {
    if v != [] {
      assert PlainSym(names, v[0]);
      NotContained(names, v[1..], key, pattern);
      if v[0].Percent? {
        TextAfterLoose(v);
        NoMatchInPercent(v[0].name, Render(v[1..]), key, pattern);
      } else {
        SymMarkers(names, v[0]);
        if !v[0].Ch? {
          NoMatchAtReference(v, key, pattern);
        }
        NoMatchInside(RenderSym(v[0]), Render(v[1..]), pattern);
      }
    }
  }

  /** A value passes the self-recursion test if no name in it starts with the key and its names are clear of words. */
  lemma NotSelfRecursive(names: set<string>, v: Value, key: string)
    requires Plain(names, v) && Clear(true, v) && key != "" && Word(key)
    requires forall i :: 0 <= i < |v| && !v[i].Ch? ==> !(key <= v[i].name)
    ensures !SelfRecursive(v, key)
  {
    NotContained(names, v, key, "$" + key);
    NotContained(names, v, key, "${" + key);
    NotContained(names, v, key, "%" + key);
  }

  // ---------- doubling ----------

  /** The level below which the references of a variable of rank r lie when each spans at least g ranks. */
  function Cap(r: nat, g: nat): nat {
    if r + 1 >= g then r + 1 - g else 0
  }

  ghost predicate Spans(os: Env, rank: map<string, nat>, m: Env, k: string, g: nat)
    requires k in m && k in rank
  {
    Below(os, rank, m[k], Cap(rank[k], g))
  }

  ghost predicate AllSpan(os: Env, rank: map<string, nat>, m: Env, g: nat)
    requires rank.Keys == m.Keys
  {
    forall k :: k in m ==> Spans(os, rank, m, k, g)
  }

  /** What stays fixed during a run: the OS variables, the names, the ranks, the solution and the certificate. */
  datatype Setting = Setting(
    os: Env, names: set<string>, rank: map<string, nat>, sol: Env, open: set<string>)

  ghost predicate Steady(c: Setting, m: Env) {
    && LiteralMap(c.os) && Ranked(c.os, c.rank, m) && Means(c.os, c.sol, m)
    && Separated(true, c.os, c.sol, c.open, m)
    && PlainMap(c.names, m) && PrefixFree(c.os, c.names, m.Keys)
  }

  lemma {:induction false} SubstitutePlain(os: Env, names: set<string>, m: Env, v: Value)
    requires LiteralMap(os) && PlainMap(names, m) && Plain(names, v)
    ensures Plain(names, Substitute(os, m, v))
  {
    if v != [] {
      assert PlainSym(names, v[0]);
      SubstitutePlain(os, names, m, v[1..]);
    }
  }

  /** The value of a visited variable keeps its meaning, and stays separated, plain and ranked. */
  lemma SubstitutedValue(c: Setting, m: Env, k: string)
    requires Steady(c, m) && k in m
    ensures
      var e := Substitute(c.os, m, m[k]);
      && Expand(c.os, m, m[k]) == e && Substitute(c.os, c.sol, e) == c.sol[k]
      && Apart(true, c.os, c.sol, c.open, e) && (k in c.open || Shut(true, c.os, c.sol, c.open, e))
      && Plain(c.names, e) && Below(c.os, c.rank, e, c.rank[k])
  {
    ExpandApart(true, c.os, c.sol, c.open, m, k);
    SubstituteKeepsMeaning(c.os, c.sol, m, m[k]);
    SubstitutePlain(c.os, c.names, m, m[k]);
    SubstituteRank(c.os, c.rank, m, k, 1, 1);
    BelowMonotone(c.os, c.rank, Substitute(c.os, m, m[k]), Cap(c.rank[k], 2), c.rank[k]);
  }

  /** With prefix-free names the self-recursion test never skips a visit. */
  lemma {:induction false} NothingSkipped(c: Setting, m: Env, k: string)
    requires Steady(c, m) && k in m
    ensures Visit(c.os, m, k) == m[k := Substitute(c.os, m, m[k])]
  {
    var e := Substitute(c.os, m, m[k]);
    SubstitutedValue(c, m, k);
    OtherNames(c.os, c.names, c.rank, m, k, e);
    ApartIsClear(true, c.os, c.sol, c.open, e);
    NotSelfRecursive(c.names, e, k);
  }

  /** A value below the rank of k mentions neither k nor a name that starts with it. */
  lemma OtherNames(os: Env, names: set<string>, rank: map<string, nat>, m: Env, k: string, e: Value)
    requires PrefixFree(os, names, m.Keys) && k in m && k in rank && Plain(names, e) && Below(os, rank, e, rank[k])
    ensures k != "" && Word(k) && forall i :: 0 <= i < |e| && !e[i].Ch? ==> !(k <= e[i].name)
  {
    forall i | 0 <= i < |e| && !e[i].Ch? ensures !(k <= e[i].name) {
      assert SymBelow(os, rank, e[i], rank[k]);
      assert PlainSym(names, e[i]);
    }
  }

  lemma VisitIsSubstitution(c: Setting, m: Env, k: string)
    requires Steady(c, m) && k in m
    ensures Visit(c.os, m, k) == m[k := Substitute(c.os, m, m[k])]
    ensures Steady(c, Visit(c.os, m, k))
  {
    NothingSkipped(c, m, k);
    SubstitutedValue(c, m, k);
  }

  /** Substituting references that span g by values whose references span h. */
  lemma SubstituteRank(os: Env, rank: map<string, nat>, m: Env, k: string, g: nat, h: nat)
    requires LiteralMap(os) && rank.Keys == m.Keys && AllSpan(os, rank, m, h)
    requires k in m && Spans(os, rank, m, k, g) && 0 < g && 0 < h
    ensures Below(os, rank, Substitute(os, m, m[k]), Cap(rank[k], g + h))
  {
    var v := m[k];
    forall i | 0 <= i < |v| && !v[i].Ch? && v[i].name !in os && v[i].name in m
      ensures Below(os, rank, m[v[i].name], Cap(rank[k], g + h))
    {
      var n := v[i].name;
      assert SymBelow(os, rank, v[i], Cap(rank[k], g));
      assert Spans(os, rank, m, n, h);
      BelowMonotone(os, rank, m[n], Cap(rank[n], h), Cap(rank[k], g + h));
    }
    SubstituteBelow(os, rank, m, v, Cap(rank[k], g), Cap(rank[k], g + h));
  }

  lemma {:induction false} PassDoubles(c: Setting, m: Env, order: seq<string>, g: nat)
    requires Steady(c, m) && 0 < g && AllSpan(c.os, c.rank, m, g)
    requires NoDuplicates(order) && Elements(order) <= m.Keys
    ensures Steady(c, Round(c.os, m, order))
    ensures forall k :: k in order ==> Spans(c.os, c.rank, Round(c.os, m, order), k, 2 * g)
  {
    if order != [] {
      var k := order[0];
      assert k in Elements(order);
      assert forall j :: j in order[1..] ==> j in Elements(order);
      assert k !in order[1..];
      var m1 := Visit(c.os, m, k);
      VisitIsSubstitution(c, m, k);
      SubstituteRank(c.os, c.rank, m, k, g, g);
      assert Spans(c.os, c.rank, m1, k, 2 * g);
      forall j | j in m1 ensures Spans(c.os, c.rank, m1, j, g) {
        assert Spans(c.os, c.rank, m, j, g);
        if j == k {
          BelowMonotone(c.os, c.rank, m1[k], Cap(c.rank[k], 2 * g), Cap(c.rank[k], g));
        }
      }
      PassDoubles(c, m1, order[1..], g);
    }
  }

  function Pow2(n: nat): (p: nat)
    ensures p > 0
  {
    if n == 0 then 1 else 2 * Pow2(n - 1)
  }

  lemma {:induction false} RoundsDouble(c: Setting, m: Env, orders: seq<seq<string>>, n: nat)
    requires Steady(c, m) && AllSpan(c.os, c.rank, m, Pow2(n))
    requires Schedule(m.Keys, orders)
    ensures c.rank.Keys == m.Keys && AllSpan(c.os, c.rank, Rounds(c.os, m, orders), Pow2(n + |orders|))
  {
    if orders != [] {
      var m1 := Round(c.os, m, orders[0]);
      PassDoubles(c, m, orders[0], Pow2(n));
      forall k | k in m1 ensures Spans(c.os, c.rank, m1, k, Pow2(n + 1)) {
        assert k in Elements(orders[0]);
      }
      RoundsDouble(c, m1, orders[1..], n + 1);
    }
  }

  /** References that span more ranks than there are do not exist. */
  lemma WideSpansAreLiteral(os: Env, rank: map<string, nat>, m: Env, g: nat)
    requires rank.Keys == m.Keys && AllSpan(os, rank, m, g)
    requires forall k :: k in rank ==> rank[k] < g
    ensures LiteralMap(m)
  {
    forall k | k in m ensures Literal(m[k]) {
      assert Spans(os, rank, m, k, g);
      BelowZeroIsLiteral(os, rank, m[k]);
    }
  }

  lemma {:induction false} WideRounds(c: Setting, m: Env, orders: seq<seq<string>>, n: nat, g: nat)
    requires Steady(c, m) && AllSpan(c.os, c.rank, m, Pow2(n))
    requires Schedule(m.Keys, orders) && g == Pow2(n + |orders|)
    requires forall k :: k in c.rank ==> c.rank[k] < g
    ensures LiteralMap(Rounds(c.os, m, orders))
  {
    RoundsDouble(c, m, orders, n);
    WideSpansAreLiteral(c.os, c.rank, Rounds(c.os, m, orders), g);
  }

  lemma {:induction false} AllRoundsWide(c: Setting, m: Env, orders: seq<seq<string>>)
    requires Steady(c, m) && AllSpan(c.os, c.rank, m, 1) && Schedule(m.Keys, orders)
    requires forall k :: k in c.rank ==> c.rank[k] < Pow2(|orders|)
    ensures LiteralMap(Rounds(c.os, m, orders))
  {
    assert Pow2(0) == 1;
    WideRounds(c, m, orders, 0, Pow2(|orders|));
  }

  lemma InitiallySteady(os: Env, env: Env, names: set<string>, rank: map<string, nat>, open: set<string>)
    requires LiteralMap(os) && Ranked(os, rank, env) && KeptApart(true, os, env, rank, open)
    requires PlainMap(names, env) && PrefixFree(os, names, env.Keys)
    ensures Steady(Setting(os, names, rank, MeaningMap(os, env, rank), open), env)
    ensures AllSpan(os, rank, env, 1)
  {
    MeaningSolves(os, env, rank);
    SolvesExactly(os, env, MeaningMap(os, env, rank));
    forall k | k in env ensures Spans(os, rank, env, k, 1) {}
  }

  lemma {:induction false} StrictlyApart(os: Env, sol: Env, open: set<string>, v: Value)
    ensures Apart(true, os, sol, open, v) ==> Apart(false, os, sol, open, v)
    ensures Shut(true, os, sol, open, v) ==> Shut(false, os, sol, open, v)
  {
    if v != [] {
      StrictlyApart(os, sol, open, v[1..]);
    }
  }

  lemma StrictlySeparated(os: Env, sol: Env, open: set<string>, m: Env)
    requires Separated(true, os, sol, open, m)
    ensures Separated(false, os, sol, open, m)
  {
    forall k | k in m
      ensures Apart(false, os, sol, open, m[k]) && (k in open || Shut(false, os, sol, open, m[k]))
    {
      StrictlyApart(os, sol, open, m[k]);
    }
  }

  /**
   With prefix-free names, n rounds fully expand every chain of fewer than 2^n references:
   ten rounds expand chains of up to 1023, in whatever order the map is visited.
   */
  lemma {:induction false} PrefixFreeExpansion(
    os: Env, env: Env, names: set<string>, rank: map<string, nat>, open: set<string>, orders: seq<seq<string>>)
    requires LiteralMap(os) && Ranked(os, rank, env) && KeptApart(true, os, env, rank, open)
    requires PlainMap(names, env) && PrefixFree(os, names, env.Keys)
    requires forall k :: k in rank ==> rank[k] < Pow2(|orders|)
    requires Schedule(env.Keys, orders)
    ensures LiteralMap(Rounds(os, env, orders))
    ensures Solves(os, env, Rounds(os, env, orders))
    ensures forall sol :: Solves(os, env, sol) ==> sol == Rounds(os, env, orders)
  {
    InitiallySteady(os, env, names, rank, open);
    AllRoundsWide(Setting(os, names, rank, MeaningMap(os, env, rank), open), env, orders);
    StrictlySeparated(os, MeaningMap(os, env, rank), open, env);
    LiteralRoundsSolve(os, env, rank, open, orders);
  }
}
