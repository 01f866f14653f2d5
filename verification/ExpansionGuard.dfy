/**
 The self-recursion test and the rereading of text, stated on the text itself: what the test finds,
 what becomes of a variable that refers to itself, and what rereading leaves alone.
 */
module ExpansionGuard {
  import opened Common
  import opened Expansion
  import opened ExpansionMeaning
  import opened ExpansionBounds

  // ---------- rereading keeps the text ----------

  lemma {:induction false} RenderConcat(a: Value, b: Value)
    ensures Render(a + b) == Render(a) + Render(b)
  {
    if a == [] {
      assert a + b == b;
    } else {
      assert (a + b)[1..] == a[1..] + b;
      RenderConcat(a[1..], b);
    }
  }

  lemma {:induction false} RenderCharacters(v: Value)
    requires forall i :: 0 <= i < |v| ==> v[i].Ch?
    ensures Render(v) == Text(v)
  {
    if v != [] {
      RenderCharacters(v[1..]);
    }
  }

  lemma RenderCons(s: Sym, v: Value)
    ensures Render([s] + v) == RenderSym(s) + Render(v)
  {
    assert ([s] + v)[1..] == v;
  }

  lemma Regroup(mark: string, name: string, word: string, behind: string)
    ensures mark + (name + word) + behind == mark + name + (word + behind)
  {
  }

  lemma {:induction false} SwallowKeepsText(name: string, rest: Value, n: nat)
    requires n == WordPrefix(rest)
    ensures Render([Bare(name + Text(rest[..n]))] + rest[n..]) == "$" + name + Render(rest)
  {
    var swallowed, left := rest[..n], rest[n..];
    assert rest == swallowed + left;
    RenderConcat(swallowed, left);
    RenderCharacters(swallowed);
    RenderCons(Bare(name + Text(swallowed)), left);
    Regroup("$", name, Text(swallowed), Render(left));
  }

  lemma StopsAfterWord(rest: Value, n: nat)
    requires n == WordPrefix(rest)
    ensures !StartsWord(rest[n..])
  {
  }

  lemma {:induction false} ClearSuffix(v: Value, n: nat)
    requires Clear(false, v) && n <= |v|
    ensures Clear(false, v[n..])
    decreases n
  {
    if n > 0 {
      assert v[n..] == v[1..][n - 1..];
      ClearSuffix(v[1..], n - 1);
    } else {
      assert v[0..] == v;
    }
  }

  /** Rereading changes how a text is divided into symbols, never the text, and leaves nothing to reread. */
  lemma {:induction false} GlueRereads(v: Value)
    ensures Render(Glue(v)) == Render(v) && Clear(false, Glue(v))
  {
    if v != [] {
      var rest := Glue(v[1..]);
      GlueRereads(v[1..]);
      if v[0].Bare? {
        var n := WordPrefix(rest);
        SwallowKeepsText(v[0].name, rest, n);
        StopsAfterWord(rest, n);
        ClearSuffix(rest, n);
        var glued: Value := [Bare(v[0].name + Text(rest[..n]))];
        assert (glued + rest[n..])[1..] == rest[n..];
      } else {
        assert ([v[0]] + rest)[1..] == rest;
      }
    }
  }

  // ---------- what the test finds ----------

  ghost predicate Mentions(v: Value, key: string) {
    exists i :: 0 <= i < |v| && !v[i].Ch? && key <= v[i].name
  }

  lemma StartsPattern(s: Sym, key: string)
    requires !s.Ch? && key <= s.name
    ensures s.Bare? ==> "$" + key <= RenderSym(s)
    ensures s.Braced? ==> "${" + key <= RenderSym(s)
    ensures s.Percent? ==> "%" + key <= RenderSym(s)
  {
  }

  lemma ContainsAt(front: string, text: string, behind: string, pattern: string)
    requires pattern <= text
    ensures Contains(front + text + behind, pattern)
  {
    var all := front + text + behind;
    assert all[|front|..] == text + behind;
    assert pattern <= all[|front|..];
  }

  /** A reference whose name starts with the key is found, in each of the three forms. */
  lemma MentionIsFound(v: Value, key: string)
    requires Mentions(v, key)
    ensures SelfRecursive(v, key)
  {
    var i :| 0 <= i < |v| && !v[i].Ch? && key <= v[i].name;
    var front, behind := v[..i], v[i + 1..];
    assert v == front + ([v[i]] + behind) && ([v[i]] + behind)[1..] == behind;
    RenderConcat(front, [v[i]] + behind);
    assert Render(v) == Render(front) + RenderSym(v[i]) + Render(behind);
    StartsPattern(v[i], key);
    if v[i].Bare? {
      ContainsAt(Render(front), RenderSym(v[i]), Render(behind), "$" + key);
    } else if v[i].Braced? {
      ContainsAt(Render(front), RenderSym(v[i]), Render(behind), "${" + key);
    } else {
      ContainsAt(Render(front), RenderSym(v[i]), Render(behind), "%" + key);
    }
  }

  /**
   The test on the text finds exactly the references whose name starts with the key, in any of the
   three forms, if unbraced and percent references do not stand before word characters.
   */
  lemma TestExactly(names: set<string>, v: Value, key: string)
    requires Plain(names, v) && Clear(true, v) && key != "" && Word(key)
    ensures SelfRecursive(v, key) <==> Mentions(v, key)
  {
    if Mentions(v, key) {
      MentionIsFound(v, key);
    } else {
      NotSelfRecursive(names, v, key);
    }
  }

  // ---------- variables that refer to themselves ----------

  lemma {:induction false} GlueKeepsMention(v: Value, key: string)
    requires Mentions(v, key)
    ensures Mentions(Glue(v), key)
  {
    var i :| 0 <= i < |v| && !v[i].Ch? && key <= v[i].name;
    var rest := Glue(v[1..]);
    if i > 0 {
      assert v[1..][i - 1] == v[i];
      GlueKeepsMention(v[1..], key);
      var j :| 0 <= j < |rest| && !rest[j].Ch? && key <= rest[j].name;
      if v[0].Bare? {
        var n := WordPrefix(rest);
        assert Glue(v)[1 + j - n] == rest[j];
      } else {
        assert Glue(v)[1 + j] == rest[j];
      }
    } else {
      assert key <= Glue(v)[0].name;
    }
  }

  lemma {:induction false} SubstituteCopies(os: Env, m: Env, v: Value, i: nat) returns (front: Value, behind: Value)
    requires i < |v|
    ensures Substitute(os, m, v) == front + Resolve(os, m, v[i]) + behind
  {
    var tail := v[i..];
    front, behind := Substitute(os, m, v[..i]), Substitute(os, m, v[i + 1..]);
    assert v == v[..i] + tail && tail[0] == v[i] && tail[1..] == v[i + 1..];
    SubstituteConcat(os, m, v[..i], tail);
    assert front + (Resolve(os, m, v[i]) + behind) == front + Resolve(os, m, v[i]) + behind;
  }

  lemma MentionInside(front: Value, v: Value, behind: Value, key: string)
    requires Mentions(v, key)
    ensures Mentions(front + v + behind, key)
  {
    var i :| 0 <= i < |v| && !v[i].Ch? && key <= v[i].name;
    assert (front + v + behind)[|front| + i] == v[i];
  }

  ghost predicate RefersTo(v: Value, name: string) {
    exists i :: 0 <= i < |v| && !v[i].Ch? && v[i].name == name
  }

  /** A visit leaves a variable that refers to itself alone, in whatever form it does so. */
  lemma SelfReferenceIsSkipped(os: Env, m: Env, k: string)
    requires k in m && k !in os && RefersTo(m[k], k)
    ensures Visit(os, m, k) == m
  {
    var i :| 0 <= i < |m[k]| && !m[k][i].Ch? && m[k][i].name == k;
    var front, behind := SubstituteCopies(os, m, m[k], i);
    assert Mentions(m[k], k);
    MentionInside(front, m[k], behind, k);
    GlueKeepsMention(Substitute(os, m, m[k]), k);
    MentionIsFound(Expand(os, m, m[k]), k);
  }

  lemma {:induction false} SelfReferenceSurvivesRound(os: Env, m: Env, order: seq<string>, k: string)
    requires Elements(order) <= m.Keys && k in m && k !in os && RefersTo(m[k], k)
    ensures Round(os, m, order)[k] == m[k]
  {
    if order != [] {
      assert order[0] in Elements(order);
      assert forall j :: j in order[1..] ==> j in Elements(order);
      if order[0] == k {
        SelfReferenceIsSkipped(os, m, k);
      }
      SelfReferenceSurvivesRound(os, Visit(os, m, order[0]), order[1..], k);
    }
  }

  /** So in every run it keeps the value it has. */
  lemma {:induction false} SelfReferenceStays(os: Env, m: Env, orders: seq<seq<string>>, k: string)
    requires Schedule(m.Keys, orders) && k in m && k !in os && RefersTo(m[k], k)
    ensures Rounds(os, m, orders)[k] == m[k]
  {
    if orders != [] {
      SelfReferenceSurvivesRound(os, m, orders[0], k);
      SelfReferenceStays(os, Round(os, m, orders[0]), orders[1..], k);
    }
  }
}
