/**
 What ten rounds of expansion compute: when the references are well-founded with chains of at
 most ten and no name can run into the text behind it, the one and only solution of the
 substitution equations, whatever the map order.
 */
module ExpansionMeaning {
  import opened Common
  import opened Expansion

  // ---------- hypotheses on the input ----------

  ghost predicate MarkerFree(t: string) {
    forall i :: 0 <= i < |t| ==> !Marker(t[i])
  }

  /** A symbol of a value at level `r`: marker-free, and referring only to variables below `r`. */
  ghost predicate SymBelow(os: Env, rank: map<string, nat>, s: Sym, r: nat) {
    if s.Ch? then !Marker(s.c)
    else
      && 0 < r
      && (s.Braced? && s.default.Some? ==> MarkerFree(s.default.value))
      && (s.name !in os && s.name in rank ==> rank[s.name] < r)
  }

  ghost predicate Below(os: Env, rank: map<string, nat>, v: Value, r: nat) {
    forall i :: 0 <= i < |v| ==> SymBelow(os, rank, v[i], r)
  }

  /** `rank` certifies that references are acyclic: rank[k] bounds the longest chain starting at k. */
  ghost predicate Ranked(os: Env, rank: map<string, nat>, m: Env) {
    && rank.Keys == m.Keys
    && forall k :: k in m ==> Below(os, rank, m[k], rank[k])
  }

  ghost predicate LiteralMap(m: Env) {
    forall k :: k in m ==> Literal(m[k])
  }

  // ---------- the reference meaning ----------

  /**
   What one symbol of a value becomes: a character stays, an OS variable has its value, any other
   variable of the environment has its final value, and a name that is neither has its default, if
   it comes with one, or else nothing.
   */
  ghost predicate BecomesPiece(os: Env, sol: Env, s: Sym, piece: Value) {
    match s
    case Ch(_) => piece == [s]
    case Bare(name) => BecomesName(os, sol, name, None, piece)
    case Braced(name, default) => BecomesName(os, sol, name, default, piece)
    case Percent(name) => BecomesName(os, sol, name, None, piece)
  }

  ghost predicate BecomesName(os: Env, sol: Env, name: string, default: Option<string>, piece: Value) {
    && (name in os ==> piece == os[name])
    && (name !in os && name in sol ==> piece == sol[name])
    && (name !in os && name !in sol ==>
          match default
          case None => piece == []
          case Some(d) => |piece| == |d| && forall i :: 0 <= i < |d| ==> piece[i] == Ch(d[i]))
  }

  ghost predicate PieceByPiece(os: Env, sol: Env, v: Value, pieces: seq<Value>) {
    |pieces| == |v| && forall i :: 0 <= i < |v| ==> BecomesPiece(os, sol, v[i], pieces[i])
  }

  /** `w` is what `v` becomes, symbol by symbol. */
  ghost predicate Becomes(os: Env, sol: Env, v: Value, w: Value) {
    exists pieces :: PieceByPiece(os, sol, v, pieces) && Concat(pieces) == w
  }

  /** `sol` solves the equations of the environment: each value becomes its final value, symbol by symbol. */
  ghost predicate Solves(os: Env, env: Env, sol: Env) {
    && sol.Keys == env.Keys
    && forall k :: k in env ==> Becomes(os, sol, env[k], sol[k])
  }

  /** The same by substitution. */
  ghost predicate Satisfies(os: Env, env: Env, sol: Env) {
    && sol.Keys == env.Keys
    && forall k :: k in env ==> sol[k] == Substitute(os, sol, env[k])
  }

  lemma ResolveIsPiece(os: Env, sol: Env, s: Sym, piece: Value)
    ensures BecomesPiece(os, sol, s, piece) <==> piece == Resolve(os, sol, s)
  {
    if BecomesPiece(os, sol, s, piece) {
      assert piece == Resolve(os, sol, s);
    }
  }

  lemma {:induction false} PiecesConcat(os: Env, sol: Env, v: Value, pieces: seq<Value>)
    requires PieceByPiece(os, sol, v, pieces)
    ensures Concat(pieces) == Substitute(os, sol, v)
  {
    if v != [] {
      assert BecomesPiece(os, sol, v[0], pieces[0]);
      ResolveIsPiece(os, sol, v[0], pieces[0]);
      forall i | 0 <= i < |v[1..]| ensures BecomesPiece(os, sol, v[1..][i], pieces[1..][i]) {
        assert BecomesPiece(os, sol, v[i + 1], pieces[i + 1]);
      }
      PiecesConcat(os, sol, v[1..], pieces[1..]);
    }
  }

  /** Substitution is what becomes of a value, and nothing else is. */
  lemma SubstituteExactly(os: Env, sol: Env, v: Value, w: Value)
    ensures Becomes(os, sol, v, w) <==> w == Substitute(os, sol, v)
  {
    var pieces := seq(|v|, i requires 0 <= i < |v| => Resolve(os, sol, v[i]));
    forall i | 0 <= i < |v| ensures BecomesPiece(os, sol, v[i], pieces[i]) {
      ResolveIsPiece(os, sol, v[i], pieces[i]);
    }
    PiecesConcat(os, sol, v, pieces);
    if Becomes(os, sol, v, w) {
      var others :| PieceByPiece(os, sol, v, others) && Concat(others) == w;
      PiecesConcat(os, sol, v, others);
    }
  }

  lemma SolvesExactly(os: Env, env: Env, sol: Env)
    ensures Solves(os, env, sol) <==> Satisfies(os, env, sol)
  {
    if sol.Keys == env.Keys {
      forall k | k in env ensures Becomes(os, sol, env[k], sol[k]) <==> sol[k] == Substitute(os, sol, env[k]) {
        SubstituteExactly(os, sol, env[k], sol[k]);
      }
    }
  }

  /** Text without references solves itself. */
  lemma TextSolvesItself(os: Env, env: Env, sol: Env, k: string)
    requires Solves(os, env, sol) && k in env && forall i :: 0 <= i < |env[k]| ==> env[k][i].Ch?
    ensures sol[k] == env[k]
  {
    SubstituteExactly(os, sol, env[k], sol[k]);
    SubstituteCharacters(os, sol, env[k]);
  }

  /** Meaning of a value whose variables lie below `r`, by recursion on the rank. */
  ghost function Meaning(os: Env, env: Env, rank: map<string, nat>, v: Value, r: nat): Value
    requires Ranked(os, rank, env) && Below(os, rank, v, r)
    decreases r, |v|
  {
    if v == [] then []
    else
      (if v[0].Ch? || v[0].name in os || v[0].name !in env then Resolve(os, map[], v[0])
       else Meaning(os, env, rank, env[v[0].name], rank[v[0].name]))
      + Meaning(os, env, rank, v[1..], r)
  }

  ghost function MeaningMap(os: Env, env: Env, rank: map<string, nat>): (sol: Env)
    requires Ranked(os, rank, env)
    ensures sol.Keys == env.Keys
  {
    map k | k in env :: Meaning(os, env, rank, env[k], rank[k])
  }

  lemma {:induction false} MeaningIsSubstitution(os: Env, env: Env, rank: map<string, nat>, v: Value, r: nat)
    requires Ranked(os, rank, env) && Below(os, rank, v, r)
    ensures Meaning(os, env, rank, v, r) == Substitute(os, MeaningMap(os, env, rank), v)
  {
    if v != [] {
      MeaningIsSubstitution(os, env, rank, v[1..], r);
    }
  }

  /** A solution exists. */
  lemma {:induction false} MeaningSolves(os: Env, env: Env, rank: map<string, nat>)
    requires Ranked(os, rank, env)
    ensures Solves(os, env, MeaningMap(os, env, rank))
  {
    forall k | k in env
      ensures MeaningMap(os, env, rank)[k] == Substitute(os, MeaningMap(os, env, rank), env[k])
    {
      MeaningIsSubstitution(os, env, rank, env[k], rank[k]);
    }
    SolvesExactly(os, env, MeaningMap(os, env, rank));
  }

  /** Any solution gives a ranked value its meaning. */
  lemma {:induction false} SolutionIsMeaning(
    os: Env, env: Env, rank: map<string, nat>, sol: Env, v: Value, r: nat)
    requires Ranked(os, rank, env) && Satisfies(os, env, sol) && Below(os, rank, v, r)
    ensures Substitute(os, sol, v) == Meaning(os, env, rank, v, r)
    decreases r, |v|
  {
    if v != [] {
      assert SymBelow(os, rank, v[0], r);
      SolutionIsMeaning(os, env, rank, sol, v[1..], r);
      if !v[0].Ch? && v[0].name !in os && v[0].name in env {
        var x := v[0].name;
        SolutionIsMeaning(os, env, rank, sol, env[x], rank[x]);
      }
    }
  }

  /** There is only one solution. */
  lemma SolutionUnique(os: Env, env: Env, rank: map<string, nat>, sol: Env)
    requires Ranked(os, rank, env) && Solves(os, env, sol)
    ensures sol == MeaningMap(os, env, rank)
  {
    SolvesExactly(os, env, sol);
    forall k | k in env ensures sol[k] == MeaningMap(os, env, rank)[k] {
      SolutionIsMeaning(os, env, rank, sol, env[k], rank[k]);
    }
  }

  // ---------- algebra of substitution ----------

  lemma {:induction false} SubstituteConcat(os: Env, m: Env, a: Value, b: Value)
    ensures Substitute(os, m, a + b) == Substitute(os, m, a) + Substitute(os, m, b)
  {
    if a == [] {
      assert a + b == b;
    } else {
      assert (a + b)[1..] == a[1..] + b;
      SubstituteConcat(os, m, a[1..], b);
    }
  }

  lemma {:induction false} SubstituteCharacters(os: Env, m: Env, v: Value)
    requires forall i :: 0 <= i < |v| ==> v[i].Ch?
    ensures Substitute(os, m, v) == v
  {
    if v != [] {
      SubstituteCharacters(os, m, v[1..]);
    }
  }

  /** `m` is a partly expanded form of the map whose solution is `sol`. */
  ghost predicate Means(os: Env, sol: Env, m: Env) {
    && m.Keys == sol.Keys
    && forall k :: k in m ==> Substitute(os, sol, m[k]) == sol[k]
  }

  lemma ResolveKeepsMeaning(os: Env, sol: Env, m: Env, s: Sym)
    requires LiteralMap(os) && Means(os, sol, m)
    ensures Substitute(os, sol, Resolve(os, m, s)) == Resolve(os, sol, s)
  {
    if s.Ch? {
    } else if s.name in os {
      SubstituteCharacters(os, sol, os[s.name]);
    } else if s.name !in m {
      SubstituteCharacters(os, sol, Resolve(os, m, s));
    }
  }

  /** Expanding through a partly expanded map does not change what a value means. */
  lemma {:induction false} SubstituteKeepsMeaning(os: Env, sol: Env, m: Env, v: Value)
    requires LiteralMap(os) && Means(os, sol, m)
    ensures Substitute(os, sol, Substitute(os, m, v)) == Substitute(os, sol, v)
  {
    if v != [] {
      ResolveKeepsMeaning(os, sol, m, v[0]);
      SubstituteKeepsMeaning(os, sol, m, v[1..]);
      SubstituteConcat(os, sol, Resolve(os, m, v[0]), Substitute(os, m, v[1..]));
    }
  }

  // ---------- no name runs into what follows it ----------

  predicate StartsWord(v: Value) {
    v != [] && v[0].Ch? && WordChar(v[0].c)
  }

  /** The characters of names: the underscore, the ten digits and the letters in both cases. */
  lemma WordCharExactly(c: char)
    ensures WordChar(c) <==>
      c in "_0123456789" || c in "abcdefghijklmnopqrstuvwxyz" || c in "ABCDEFGHIJKLMNOPQRSTUVWXYZ"
  {
  }

  /** References that must not stand directly before a word character: unbraced ones and, if strict, %name%. */
  predicate Loose(strict: bool, s: Sym) {
    s.Bare? || (strict && s.Percent?)
  }

  /** No loose reference stands directly before a word character. */
  predicate Clear(strict: bool, v: Value) {
    v != [] ==> (Loose(strict, v[0]) ==> !StartsWord(v[1..])) && Clear(strict, v[1..])
  }

  lemma {:induction false} GlueShrinks(v: Value)
    ensures |Glue(v)| <= |v|
  {
    if v != [] {
      GlueShrinks(v[1..]);
    }
  }

  /** Reading a text again gives the same symbols exactly when no unbraced name runs into what follows it. */
  lemma {:induction false} GlueExactly(v: Value)
    ensures Glue(v) == v <==> Clear(false, v)
  {
    if v != [] {
      var rest := Glue(v[1..]);
      GlueExactly(v[1..]);
      GlueShrinks(v[1..]);
      assert v == [v[0]] + v[1..];
      if v[0].Bare? {
        var n := WordPrefix(rest);
        if n == 0 {
          assert Text(rest[..n]) == "" && v[0].name + "" == v[0].name && rest[n..] == rest;
        } else {
          assert |Glue(v)| < |v|;
        }
      }
    }
  }

  /** References to the variables of `open`: those whose value may end in a loose reference on the way. */
  predicate Open(os: Env, open: set<string>, s: Sym) {
    !s.Ch? && s.name !in os && s.name in open
  }

  /** Loose references do not stand before a word character, and open ones not before text that means one. */
  ghost predicate Apart(strict: bool, os: Env, sol: Env, open: set<string>, v: Value) {
    v != [] ==>
      && (Loose(strict, v[0]) ==> !StartsWord(v[1..]))
      && (Open(os, open, v[0]) ==> !StartsWord(Substitute(os, sol, v[1..])))
      && Apart(strict, os, sol, open, v[1..])
  }

  /** The value does not end in a loose reference, and behind an open one stands text that means something. */
  ghost predicate Shut(strict: bool, os: Env, sol: Env, open: set<string>, v: Value) {
    v != [] ==>
      && (Loose(strict, v[0]) ==> v[1..] != [])
      && (Open(os, open, v[0]) ==> Substitute(os, sol, v[1..]) != [])
      && Shut(strict, os, sol, open, v[1..])
  }

  /** `open` certifies for the map with solution `sol` that no name ever runs into what follows it. */
  ghost predicate Separated(strict: bool, os: Env, sol: Env, open: set<string>, m: Env) {
    forall k :: k in m ==>
      Apart(strict, os, sol, open, m[k]) && (k in open || Shut(strict, os, sol, open, m[k]))
  }

  lemma {:induction false} CharactersApart(strict: bool, os: Env, sol: Env, open: set<string>, v: Value)
    requires forall i :: 0 <= i < |v| ==> v[i].Ch?
    ensures Apart(strict, os, sol, open, v) && Shut(strict, os, sol, open, v)
  {
    if v != [] {
      CharactersApart(strict, os, sol, open, v[1..]);
    }
  }

  lemma {:induction false} ApartConcat(strict: bool, os: Env, sol: Env, open: set<string>, a: Value, b: Value)
    requires Apart(strict, os, sol, open, a) && Apart(strict, os, sol, open, b)
    requires Shut(strict, os, sol, open, a) || !StartsWord(Substitute(os, sol, b))
    ensures Apart(strict, os, sol, open, a + b)
  {
    if a == [] {
      assert a + b == b;
    } else {
      assert (a + b)[1..] == a[1..] + b;
      SubstituteConcat(os, sol, a[1..], b);
      ApartConcat(strict, os, sol, open, a[1..], b);
      assert StartsWord(b) ==> StartsWord(Substitute(os, sol, b));
    }
  }

  lemma {:induction false} ShutConcat(strict: bool, os: Env, sol: Env, open: set<string>, a: Value, b: Value)
    requires Shut(strict, os, sol, open, b)
    requires Shut(strict, os, sol, open, a) || Substitute(os, sol, b) != []
    ensures Shut(strict, os, sol, open, a + b)
  {
    if a == [] {
      assert a + b == b;
    } else {
      assert (a + b)[1..] == a[1..] + b;
      SubstituteConcat(os, sol, a[1..], b);
      ShutConcat(strict, os, sol, open, a[1..], b);
    }
  }

  /** What one symbol is replaced by. */
  lemma ResolveApart(strict: bool, os: Env, sol: Env, open: set<string>, m: Env, s: Sym)
    requires LiteralMap(os) && Separated(strict, os, sol, open, m)
    ensures Apart(strict, os, sol, open, Resolve(os, m, s))
    ensures Open(os, open, s) || Shut(strict, os, sol, open, Resolve(os, m, s))
  {
    if s.Ch? || s.name in os || s.name !in m {
      CharactersApart(strict, os, sol, open, Resolve(os, m, s));
    }
  }

  /** Substituting keeps references apart from what follows them, and ends shut. */
  lemma {:induction false} SubstituteApart(strict: bool, os: Env, sol: Env, open: set<string>, m: Env, v: Value)
    requires LiteralMap(os) && Means(os, sol, m) && Separated(strict, os, sol, open, m)
    requires Apart(strict, os, sol, open, v)
    ensures Apart(strict, os, sol, open, Substitute(os, m, v))
    ensures Shut(strict, os, sol, open, v) ==> Shut(strict, os, sol, open, Substitute(os, m, v))
  {
    if v != [] {
      var first, rest := Resolve(os, m, v[0]), Substitute(os, m, v[1..]);
      SubstituteApart(strict, os, sol, open, m, v[1..]);
      SubstituteKeepsMeaning(os, sol, m, v[1..]);
      ResolveApart(strict, os, sol, open, m, v[0]);
      ApartConcat(strict, os, sol, open, first, rest);
      if Shut(strict, os, sol, open, v) {
        ShutConcat(strict, os, sol, open, first, rest);
      }
    }
  }

  lemma {:induction false} ApartIsClear(strict: bool, os: Env, sol: Env, open: set<string>, v: Value)
    requires Apart(strict, os, sol, open, v)
    ensures Clear(strict, v) && Clear(false, v)
  {
    if v != [] {
      ApartIsClear(strict, os, sol, open, v[1..]);
    }
  }

  /** On separated maps an expansion is a plain substitution, and a visit keeps the map separated. */
  lemma ExpandApart(strict: bool, os: Env, sol: Env, open: set<string>, m: Env, k: string)
    requires LiteralMap(os) && Means(os, sol, m) && Separated(strict, os, sol, open, m) && k in m
    ensures Expand(os, m, m[k]) == Substitute(os, m, m[k])
    ensures Apart(strict, os, sol, open, Expand(os, m, m[k]))
    ensures k in open || Shut(strict, os, sol, open, Expand(os, m, m[k]))
  {
    SubstituteApart(strict, os, sol, open, m, m[k]);
    ApartIsClear(strict, os, sol, open, Substitute(os, m, m[k]));
    GlueExactly(Substitute(os, m, m[k]));
  }

  // ---------- the same by looking at the values only ----------

  /** Open references that do not end the value stand before a character that cannot extend a name. */
  predicate Safe(strict: bool, os: Env, open: set<string>, v: Value) {
    v != [] ==>
      && (Loose(strict, v[0]) ==> !StartsWord(v[1..]))
      && (Open(os, open, v[0]) && |v| > 1 ==> v[1].Ch? && !WordChar(v[1].c))
      && Safe(strict, os, open, v[1..])
  }

  predicate AllReferences(v: Value) {
    forall i :: 0 <= i < |v| ==> !v[i].Ch?
  }

  /** No reference among the references that end the value is loose or open. */
  predicate Sealed(strict: bool, os: Env, open: set<string>, v: Value) {
    v != [] ==>
      && (AllReferences(v) ==> !Loose(strict, v[0]) && !Open(os, open, v[0]))
      && Sealed(strict, os, open, v[1..])
  }

  predicate SafeMap(strict: bool, os: Env, open: set<string>, m: Env) {
    forall k :: k in m ==> Safe(strict, os, open, m[k]) && (k in open || Sealed(strict, os, open, m[k]))
  }

  lemma {:induction false} EmptyMeaning(os: Env, sol: Env, v: Value)
    requires Substitute(os, sol, v) == []
    ensures AllReferences(v)
  {
    if v != [] {
      EmptyMeaning(os, sol, v[1..]);
      assert v == [v[0]] + v[1..];
    }
  }

  lemma {:induction false} SafeIsApart(strict: bool, os: Env, sol: Env, open: set<string>, v: Value)
    ensures Safe(strict, os, open, v) ==> Apart(strict, os, sol, open, v)
    ensures Sealed(strict, os, open, v) ==> Shut(strict, os, sol, open, v)
  {
    if v != [] {
      SafeIsApart(strict, os, sol, open, v[1..]);
      assert v == [v[0]] + v[1..];
      if Substitute(os, sol, v[1..]) == [] {
        EmptyMeaning(os, sol, v[1..]);
      }
    }
  }

  /** The certificate that looks at the values only is sound, whatever the values mean. */
  lemma SafeIsSeparated(strict: bool, os: Env, sol: Env, open: set<string>, m: Env)
    requires SafeMap(strict, os, open, m)
    ensures Separated(strict, os, sol, open, m)
  {
    forall k | k in m
      ensures Apart(strict, os, sol, open, m[k]) && (k in open || Shut(strict, os, sol, open, m[k]))
    {
      SafeIsApart(strict, os, sol, open, m[k]);
    }
  }

  predicate NoBare(v: Value) {
    forall i :: 0 <= i < |v| ==> !v[i].Bare?
  }

  lemma {:induction false} NoBareIsClear(v: Value)
    requires NoBare(v)
    ensures Clear(false, v)
  {
    if v != [] {
      NoBareIsClear(v[1..]);
    }
  }

  lemma {:induction false} NoBareIsSafe(os: Env, v: Value)
    requires NoBare(v)
    ensures Safe(false, os, {}, v) && Sealed(false, os, {}, v)
  {
    if v != [] {
      NoBareIsSafe(os, v[1..]);
    }
  }

  /** Environments without unbraced references are safe. */
  lemma BracedIsSafe(os: Env, m: Env)
    requires forall k :: k in m ==> NoBare(m[k])
    ensures SafeMap(false, os, {}, m)
  {
    forall k | k in m ensures Safe(false, os, {}, m[k]) && Sealed(false, os, {}, m[k]) {
      NoBareIsSafe(os, m[k]);
    }
  }

  /** Every reference ends its value or stands before a character that cannot extend a name. */
  predicate Spaced(v: Value) {
    v != [] ==> (!v[0].Ch? && |v| > 1 ==> v[1].Ch? && !WordChar(v[1].c)) && Spaced(v[1..])
  }

  lemma {:induction false} SpacedValueIsSafe(strict: bool, os: Env, open: set<string>, v: Value)
    requires Spaced(v)
    ensures Safe(strict, os, open, v)
  {
    if v != [] {
      SpacedValueIsSafe(strict, os, open, v[1..]);
    }
  }

  /** Environments whose references are all set off from what follows are safe. */
  lemma SpacedIsSafe(strict: bool, os: Env, m: Env)
    requires forall k :: k in m ==> Spaced(m[k])
    ensures SafeMap(strict, os, m.Keys, m)
  {
    forall k | k in m ensures Safe(strict, os, m.Keys, m[k]) {
      SpacedValueIsSafe(strict, os, m.Keys, m[k]);
    }
  }

  // ---------- ranks ----------

  lemma {:induction false} SubstituteBelow(os: Env, rank: map<string, nat>, m: Env, v: Value, r: nat, q: nat)
    requires LiteralMap(os) && Below(os, rank, v, r)
    requires forall i :: 0 <= i < |v| && !v[i].Ch? && v[i].name !in os && v[i].name in m ==>
      Below(os, rank, m[v[i].name], q)
    ensures Below(os, rank, Substitute(os, m, v), q)
  {
    if v != [] {
      forall i | 0 <= i < |v[1..]| && !v[1..][i].Ch? && v[1..][i].name !in os && v[1..][i].name in m
        ensures Below(os, rank, m[v[1..][i].name], q)
      {
        assert v[1..][i] == v[i + 1];
      }
      assert SymBelow(os, rank, v[0], r);
      SubstituteBelow(os, rank, m, v[1..], r, q);
      assert Below(os, rank, Resolve(os, m, v[0]), q) by {
        if !v[0].Ch? && v[0].name !in os && v[0].name in m {
          assert v[0] == v[0];
        }
      }
    }
  }

  lemma BelowZeroIsLiteral(os: Env, rank: map<string, nat>, v: Value)
    ensures Below(os, rank, v, 0) <==> Literal(v)
  {
    if Literal(v) {
      forall i | 0 <= i < |v| ensures SymBelow(os, rank, v[i], 0) {}
    } else if Below(os, rank, v, 0) {
      forall i | 0 <= i < |v| ensures v[i].Ch? && !Marker(v[i].c) {
        assert SymBelow(os, rank, v[i], 0);
      }
    }
  }

  lemma BelowMonotone(os: Env, rank: map<string, nat>, v: Value, q: nat, r: nat)
    requires Below(os, rank, v, q) && q <= r
    ensures Below(os, rank, v, r)
  {
    forall i | 0 <= i < |v| ensures SymBelow(os, rank, v[i], r) {
      assert SymBelow(os, rank, v[i], q);
    }
  }

  // ---------- the guard ----------

  lemma {:induction false} LiteralText(v: Value)
    requires Literal(v)
    ensures MarkerFree(Render(v))
  {
    if v != [] {
      LiteralText(v[1..]);
    }
  }

  lemma MarkerFreeContainsNoReference(text: string, pattern: string)
    requires MarkerFree(text) && pattern != [] && Marker(pattern[0])
    ensures !Contains(text, pattern)
  {
    forall i | 0 <= i <= |text| ensures !(pattern <= text[i..]) {
      if i < |text| {
        assert text[i..][0] == text[i];
      }
    }
  }

  lemma LiteralNeverSelfRecursive(v: Value, key: string)
    requires Literal(v)
    ensures !SelfRecursive(v, key)
  {
    LiteralText(v);
    MarkerFreeContainsNoReference(Render(v), "$" + key);
    MarkerFreeContainsNoReference(Render(v), "${" + key);
    MarkerFreeContainsNoReference(Render(v), "%" + key);
  }

  // ---------- progress ----------

  /** What every visit keeps. */
  ghost predicate Invariant(os: Env, rank: map<string, nat>, sol: Env, open: set<string>, m: Env) {
    Ranked(os, rank, m) && Means(os, sol, m) && Separated(false, os, sol, open, m)
  }

  /** All variables of rank at most `r` are fully expanded. */
  ghost predicate SettledTo(rank: map<string, nat>, m: Env, r: nat) {
    forall k :: k in m && k in rank && rank[k] <= r ==> Literal(m[k])
  }

  lemma VisitKeepsInvariant(os: Env, rank: map<string, nat>, sol: Env, open: set<string>, m: Env, k: string)
    requires LiteralMap(os) && Invariant(os, rank, sol, open, m) && k in m
    ensures Invariant(os, rank, sol, open, Visit(os, m, k))
  {
    ExpandApart(false, os, sol, open, m, k);
    SubstituteKeepsMeaning(os, sol, m, m[k]);
    var e := Substitute(os, m, m[k]);
    assert Below(os, rank, m[k], rank[k]);
    forall i | 0 <= i < |m[k]| && !m[k][i].Ch? && m[k][i].name !in os && m[k][i].name in m
      ensures Below(os, rank, m[m[k][i].name], rank[k])
    {
      assert SymBelow(os, rank, m[k][i], rank[k]);
      BelowMonotone(os, rank, m[m[k][i].name], rank[m[k][i].name], rank[k]);
    }
    SubstituteBelow(os, rank, m, m[k], rank[k], rank[k]);
  }

  lemma VisitKeepsLiterals(os: Env, rank: map<string, nat>, sol: Env, open: set<string>, m: Env, k: string, j: string)
    requires LiteralMap(os) && Invariant(os, rank, sol, open, m) && k in m && j in m && Literal(m[j])
    ensures Visit(os, m, k)[j] == m[j]
  {
    if j == k {
      ExpandApart(false, os, sol, open, m, k);
      SubstituteCharacters(os, m, m[k]);
    }
  }

  lemma VisitSettles(os: Env, rank: map<string, nat>, sol: Env, open: set<string>, m: Env, k: string, r: nat)
    requires LiteralMap(os) && Invariant(os, rank, sol, open, m) && k in m
    requires SettledTo(rank, m, r) && rank[k] <= r + 1
    ensures Literal(Visit(os, m, k)[k])
  {
    ExpandApart(false, os, sol, open, m, k);
    forall i | 0 <= i < |m[k]| && !m[k][i].Ch? && m[k][i].name !in os && m[k][i].name in m
      ensures Below(os, rank, m[m[k][i].name], 0)
    {
      assert SymBelow(os, rank, m[k][i], rank[k]);
      BelowZeroIsLiteral(os, rank, m[m[k][i].name]);
    }
    SubstituteBelow(os, rank, m, m[k], rank[k], 0);
    BelowZeroIsLiteral(os, rank, Substitute(os, m, m[k]));
    LiteralNeverSelfRecursive(Expand(os, m, m[k]), k);
  }

  lemma {:induction false} PassSettles(
    os: Env, rank: map<string, nat>, sol: Env, open: set<string>, m: Env, order: seq<string>, r: nat)
    requires LiteralMap(os) && Invariant(os, rank, sol, open, m)
    requires Elements(order) <= m.Keys && SettledTo(rank, m, r)
    ensures Invariant(os, rank, sol, open, Round(os, m, order))
    ensures forall j :: j in m && Literal(m[j]) ==> Round(os, m, order)[j] == m[j]
    ensures forall k :: k in order && rank[k] <= r + 1 ==> Literal(Round(os, m, order)[k])
  {
    if order != [] {
      var k := order[0];
      assert k in Elements(order);
      assert forall j :: j in order[1..] ==> j in Elements(order);
      var m1 := Visit(os, m, k);
      VisitKeepsInvariant(os, rank, sol, open, m, k);
      forall j | j in m && Literal(m[j]) ensures m1[j] == m[j] {
        VisitKeepsLiterals(os, rank, sol, open, m, k, j);
      }
      if rank[k] <= r + 1 {
        VisitSettles(os, rank, sol, open, m, k, r);
      }
      PassSettles(os, rank, sol, open, m1, order[1..], r);
    }
  }

  /** Each round settles at least one more rank, in whatever order the map is visited. */
  lemma {:induction false} RoundSettles(
    os: Env, rank: map<string, nat>, sol: Env, open: set<string>, m: Env, order: seq<string>, r: nat)
    requires LiteralMap(os) && Invariant(os, rank, sol, open, m)
    requires Enumerates(order, m.Keys) && SettledTo(rank, m, r)
    ensures Invariant(os, rank, sol, open, Round(os, m, order))
    ensures SettledTo(rank, Round(os, m, order), r + 1)
  {
    PassSettles(os, rank, sol, open, m, order, r);
    forall k | k in m && rank[k] <= r + 1 ensures Literal(Round(os, m, order)[k]) {
      assert k in Elements(order);
    }
  }

  lemma {:induction false} RoundsSettle(
    os: Env, rank: map<string, nat>, sol: Env, open: set<string>, m: Env, orders: seq<seq<string>>, r: nat)
    requires LiteralMap(os) && Invariant(os, rank, sol, open, m)
    requires Schedule(m.Keys, orders) && SettledTo(rank, m, r)
    ensures Invariant(os, rank, sol, open, Rounds(os, m, orders))
    ensures SettledTo(rank, Rounds(os, m, orders), r + |orders|)
  {
    if orders != [] {
      RoundSettles(os, rank, sol, open, m, orders[0], r);
      RoundsSettle(os, rank, sol, open, Round(os, m, orders[0]), orders[1..], r + 1);
    }
  }

  lemma InitiallyInvariant(os: Env, rank: map<string, nat>, sol: Env, open: set<string>, env: Env)
    requires LiteralMap(os) && Ranked(os, rank, env) && Solves(os, env, sol)
    requires Separated(false, os, sol, open, env)
    ensures Invariant(os, rank, sol, open, env) && SettledTo(rank, env, 0)
  {
    SolvesExactly(os, env, sol);
    forall k | k in env && rank[k] == 0 ensures Literal(env[k]) {
      BelowZeroIsLiteral(os, rank, env[k]);
    }
  }

  /** Once everything is literal, the map is the solution it means. */
  lemma SettledIsSolution(os: Env, sol: Env, m: Env)
    requires LiteralMap(m) && Means(os, sol, m)
    ensures m == sol
  {
    forall k | k in m ensures m[k] == sol[k] {
      SubstituteCharacters(os, sol, m[k]);
    }
  }

  /** What the values mean separates all references: for some `open`, no name runs into what follows it. */
  ghost predicate KeptApart(strict: bool, os: Env, env: Env, rank: map<string, nat>, open: set<string>)
    requires Ranked(os, rank, env)
  {
    Separated(strict, os, MeaningMap(os, env, rank), open, env)
  }

  /** If the rounds end in literals, they end in the only solution. */
  lemma {:induction false} LiteralRoundsSolve(
    os: Env, env: Env, rank: map<string, nat>, open: set<string>, orders: seq<seq<string>>)
    requires LiteralMap(os) && Ranked(os, rank, env) && KeptApart(false, os, env, rank, open)
    requires Schedule(env.Keys, orders) && LiteralMap(Rounds(os, env, orders))
    ensures Solves(os, env, Rounds(os, env, orders))
    ensures forall sol :: Solves(os, env, sol) ==> sol == Rounds(os, env, orders)
  {
    var sol := MeaningMap(os, env, rank);
    MeaningSolves(os, env, rank);
    InitiallyInvariant(os, rank, sol, open, env);
    RoundsSettle(os, rank, sol, open, env, orders, 0);
    SettledIsSolution(os, sol, Rounds(os, env, orders));
    forall sol' | Solves(os, env, sol') ensures sol' == sol {
      SolutionUnique(os, env, rank, sol');
    }
  }

  /**
   Main result. With chains of at most `|orders|` references, any schedule of rounds ends in the
   solution of the substitution equations, and that solution is unique: the result depends
   neither on the visiting orders nor on the in-place updates nor on skipped visits.
   */
  lemma {:induction false} ExpansionIsFullSubstitution(
    os: Env, env: Env, rank: map<string, nat>, open: set<string>, orders: seq<seq<string>>)
    requires LiteralMap(os) && Ranked(os, rank, env) && KeptApart(false, os, env, rank, open)
    requires forall k :: k in rank ==> rank[k] <= |orders|
    requires Schedule(env.Keys, orders)
    ensures LiteralMap(Rounds(os, env, orders))
    ensures Solves(os, env, Rounds(os, env, orders))
    ensures forall sol :: Solves(os, env, sol) ==> sol == Rounds(os, env, orders)
  {
    var sol := MeaningMap(os, env, rank);
    MeaningSolves(os, env, rank);
    InitiallyInvariant(os, rank, sol, open, env);
    RoundsSettle(os, rank, sol, open, env, orders, 0);
    LiteralRoundsSolve(os, env, rank, open, orders);
  }

  /** Under the same hypothesis no visit, in whatever round and after whatever part of it, glues a name. */
  lemma {:induction false} EveryVisitIsPlain(
    os: Env, env: Env, rank: map<string, nat>, open: set<string>,
    orders: seq<seq<string>>, prefix: seq<string>, k: string)
    requires LiteralMap(os) && Ranked(os, rank, env) && KeptApart(false, os, env, rank, open)
    requires Schedule(env.Keys, orders) && Elements(prefix) <= env.Keys && k in env
    ensures
      var m := Round(os, Rounds(os, env, orders), prefix);
      Expand(os, m, m[k]) == Substitute(os, m, m[k])
  {
    var sol := MeaningMap(os, env, rank);
    MeaningSolves(os, env, rank);
    InitiallyInvariant(os, rank, sol, open, env);
    RoundsSettle(os, rank, sol, open, env, orders, 0);
    PassSettles(os, rank, sol, open, Rounds(os, env, orders), prefix, 0);
    ExpandApart(false, os, sol, open, Round(os, Rounds(os, env, orders), prefix), k);
  }

  /** The main result for environments that can be seen to be safe without evaluating anything. */
  lemma {:induction false} SafeExpansion(
    os: Env, env: Env, rank: map<string, nat>, open: set<string>, orders: seq<seq<string>>)
    requires LiteralMap(os) && Ranked(os, rank, env) && SafeMap(false, os, open, env)
    requires forall k :: k in rank ==> rank[k] <= |orders|
    requires Schedule(env.Keys, orders)
    ensures LiteralMap(Rounds(os, env, orders))
    ensures Solves(os, env, Rounds(os, env, orders))
    ensures forall sol :: Solves(os, env, sol) ==> sol == Rounds(os, env, orders)
  {
    SafeIsSeparated(false, os, MeaningMap(os, env, rank), open, env);
    ExpansionIsFullSubstitution(os, env, rank, open, orders);
  }
}
