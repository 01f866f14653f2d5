/**
 Environment expansion (internal/agent/environment/expand.go).

 A value is the sequence of symbols its text consists of: literal characters and variable
 references. Substituted texts are concatenated and read again on the next visit, so an
 unbraced reference swallows the word characters that end up behind it; Glue models that.
 */
module Expansion {
  import opened Common

  datatype Sym =
    | Ch(c: char)                                        // a literal character
    | Bare(name: string)                                 // $name
    | Braced(name: string, default: Option<string>)      // ${name} or ${name:default}
    | Percent(name: string)                              // %name%

  type Value = seq<Sym>
  type Env = map<string, Value>

  predicate Marker(c: char) { c == '$' || c == '%' }

  predicate WordChar(c: char) {
    c == '_' || '0' <= c <= '9' || 'a' <= c <= 'z' || 'A' <= c <= 'Z'
  }

  predicate Literal(v: Value) {
    forall i :: 0 <= i < |v| ==> v[i].Ch? && !Marker(v[i].c)
  }

  function Chars(t: string): (v: Value)
    ensures |v| == |t| && forall i :: 0 <= i < |t| ==> v[i] == Ch(t[i])
  {
    seq(|t|, i requires 0 <= i < |t| => Ch(t[i]))
  }

  // ---------- text ----------

  function BracedEnd(default: Option<string>): string {
    match default
    case None => "}"
    case Some(d) => ":" + d + "}"
  }

  function RenderSym(s: Sym): string {
    match s
    case Ch(c) => [c]
    case Bare(name) => "$" + name
    case Braced(name, default) => "${" + name + BracedEnd(default)
    case Percent(name) => "%" + name + "%"
  }

  function Render(v: Value): string {
    if v == [] then [] else RenderSym(v[0]) + Render(v[1..])
  }

  predicate Contains(text: string, pattern: string) {
    exists i :: 0 <= i <= |text| && pattern <= text[i..]
  }

  /** The textual self-recursion test of ExpandEnvironmentRecursively. */
  predicate SelfRecursive(v: Value, key: string) {
    Contains(Render(v), "$" + key) || Contains(Render(v), "${" + key) || Contains(Render(v), "%" + key)
  }

  // ---------- one expansion ----------

  function WordPrefix(v: Value): (n: nat)
    ensures n <= |v| && forall i :: 0 <= i < n ==> v[i].Ch? && WordChar(v[i].c)
    ensures n < |v| ==> !(v[n].Ch? && WordChar(v[n].c))
  {
    if v != [] && v[0].Ch? && WordChar(v[0].c) then 1 + WordPrefix(v[1..]) else 0
  }

  function Text(v: Value): string
    requires forall i :: 0 <= i < |v| ==> v[i].Ch?
  {
    seq(|v|, i requires 0 <= i < |v| => v[i].c)
  }

  /** Reading concatenated text again: an unbraced name extends over the word characters behind it. */
  function Glue(v: Value): Value {
    if v == [] then []
    else
      var rest := Glue(v[1..]);
      if v[0].Bare? then
        var n := WordPrefix(rest);
        [Bare(v[0].name + Text(rest[..n]))] + rest[n..]
      else [v[0]] + rest
  }

  /** What a symbol stands for: OS variables first, then `m`, then the default. */
  function Resolve(os: Env, m: Env, s: Sym): Value {
    if s.Ch? then [s]
    else if s.name in os then os[s.name]
    else if s.name in m then m[s.name]
    else if s.Braced? && s.default.Some? then Chars(s.default.value)
    else []
  }

  function Substitute(os: Env, m: Env, v: Value): Value {
    if v == [] then [] else Resolve(os, m, v[0]) + Substitute(os, m, v[1..])
  }

  function Expand(os: Env, m: Env, v: Value): Value {
    Glue(Substitute(os, m, v))
  }

  // ---------- rounds ----------

  /** The body of the inner loop for one key. */
  function Visit(os: Env, m: Env, k: string): (m': Env)
    requires k in m
    ensures m'.Keys == m.Keys
    ensures forall j :: j in m && j != k ==> m'[j] == m[j]
  {
    var e := Expand(os, m, m[k]);
    if SelfRecursive(e, k) then m else m[k := e]
  }

  /** One pass over the map in the given visiting order, updating in place. */
  function Round(os: Env, m: Env, order: seq<string>): (m': Env)
    requires Elements(order) <= m.Keys
    ensures m'.Keys == m.Keys
    ensures forall j :: j in m && j !in order ==> m'[j] == m[j]
  {
    if order == [] then m
    else
      assert forall k :: k in order[1..] ==> k in Elements(order);
      assert order[0] in Elements(order);
      Round(os, Visit(os, m, order[0]), order[1..])
  }

  ghost predicate Schedule(keys: set<string>, orders: seq<seq<string>>) {
    forall i :: 0 <= i < |orders| ==> Enumerates(orders[i], keys)
  }

  ghost function Rounds(os: Env, m: Env, orders: seq<seq<string>>): (m': Env)
    requires Schedule(m.Keys, orders)
    ensures m'.Keys == m.Keys
  {
    if orders == [] then m else Rounds(os, Round(os, m, orders[0]), orders[1..])
  }

  // ---------- a quiet round means a fixpoint ----------

  /** No visit changes anything. */
  ghost predicate Stable(os: Env, m: Env) {
    forall k :: k in m ==> Visit(os, m, k) == m
  }

  lemma {:induction false} QuietPassIsQuietEverywhere(os: Env, m: Env, order: seq<string>, k: string)
    requires NoDuplicates(order) && Elements(order) <= m.Keys
    requires Round(os, m, order) == m
    requires k in order
    ensures Visit(os, m, k) == m
  {
    var m1 := Visit(os, m, order[0]);
    assert order[0] in Elements(order);
    assert order[0] !in order[1..];
    assert forall j :: j in order[1..] ==> j in Elements(order);
    assert Round(os, m1, order[1..]) == m;
    assert m1[order[0]] == m[order[0]];
    assert m1 == m;
    if k != order[0] {
      assert k in order[1..];
      QuietPassIsQuietEverywhere(os, m, order[1..], k);
    }
  }

  /** A round without a change leaves a map that no visit changes. */
  lemma QuietRoundIsStable(os: Env, m: Env, order: seq<string>)
    requires Enumerates(order, m.Keys)
    requires Round(os, m, order) == m
    ensures Stable(os, m)
  {
    forall k | k in m ensures Visit(os, m, k) == m {
      assert k in Elements(order);
      QuietPassIsQuietEverywhere(os, m, order, k);
    }
  }

  lemma {:induction false} StableUnderRound(os: Env, m: Env, order: seq<string>)
    requires Stable(os, m) && Elements(order) <= m.Keys
    ensures Round(os, m, order) == m
  {
    if order != [] {
      assert order[0] in Elements(order);
      assert forall j :: j in order[1..] ==> j in Elements(order);
      StableUnderRound(os, m, order[1..]);
    }
  }

  /** Expanding a stable map again, in any order and for any number of rounds, returns it. */
  lemma {:induction false} StableIsFixpoint(os: Env, m: Env, orders: seq<seq<string>>)
    requires Stable(os, m) && Schedule(m.Keys, orders)
    ensures Rounds(os, m, orders) == m
  {
    if orders != [] {
      StableUnderRound(os, m, orders[0]);
      StableIsFixpoint(os, m, orders[1..]);
    }
  }

  lemma {:induction false} RoundsAppend(os: Env, m: Env, a: seq<seq<string>>, b: seq<seq<string>>)
    requires Schedule(m.Keys, a) && Schedule(m.Keys, b)
    ensures Schedule(m.Keys, a + b)
    ensures Rounds(os, m, a + b) == Rounds(os, Rounds(os, m, a), b)
  {
    if a == [] {
      assert a + b == b;
    } else {
      assert (a + b)[1..] == a[1..] + b;
      RoundsAppend(os, Round(os, m, a[0]), a[1..], b);
    }
  }
}
