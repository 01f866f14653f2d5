/** The walk over ADD/COPY sources of a Dockerfile (pkg/parser/dockerfile.go). */
module FileTree {
  import opened Common

  /** A file system below a path; an unreadable entry makes ReadDir or Get fail. */
  datatype Node =
    | File(contents: string)
    | Dir(entries: seq<Named>)
    | Unreadable

  datatype Named = Named(name: string, node: Node)

  /** A node with its path. */
  datatype Entry = Entry(path: string, node: Node)

  /** What the callback is called with. */
  datatype Visit = Visit(path: string, contents: string)

  function Join(path: string, name: string): string {
    path + "/" + name
  }

  /** The entries of a directory, with their paths; none for anything else. */
  function Children(e: Entry): (c: seq<Entry>)
    ensures e.node.Dir? ==> |c| == |e.node.entries|
  {
    if e.node.Dir? then
      var entries := e.node.entries;
      seq(|entries|, i requires 0 <= i < |entries| => Entry(Join(e.path, entries[i].name), entries[i].node))
    else []
  }

  // ---------- measures ----------

  function Size(n: Node): nat
    decreases n
  {
    match n
    case Dir(entries) => 1 + SizeNamed(entries)
    case _ => 1
  }

  function SizeNamed(entries: seq<Named>): nat
    decreases entries
  {
    if entries == [] then 0 else Size(entries[0].node) + SizeNamed(entries[1..])
  }

  function SizeAll(entries: seq<Entry>): nat {
    if entries == [] then 0 else Size(entries[0].node) + SizeAll(entries[1..])
  }

  lemma {:induction false} SameSize(entries: seq<Entry>, named: seq<Named>)
    requires |entries| == |named| && forall i :: 0 <= i < |named| ==> entries[i].node == named[i].node
    ensures SizeAll(entries) == SizeNamed(named)
  {
    if entries != [] {
      SameSize(entries[1..], named[1..]);
    }
  }

  lemma ChildrenSmaller(e: Entry)
    ensures SizeAll(Children(e)) + 1 == Size(e.node)
  {
    if e.node.Dir? {
      SameSize(Children(e), e.node.entries);
    }
  }

  lemma {:induction false} SizeConcat(a: seq<Entry>, b: seq<Entry>)
    ensures SizeAll(a + b) == SizeAll(a) + SizeAll(b)
  {
    if a == [] {
      assert a + b == b;
    } else {
      assert (a + b)[1..] == a[1..] + b;
      SizeConcat(a[1..], b);
    }
  }

  // ---------- level order ----------

  function Own(e: Entry): seq<Visit> {
    if e.node.File? then [Visit(e.path, e.node.contents)] else []
  }

  /** The files of one level, in order. */
  function FilesAt(level: seq<Entry>): seq<Visit> {
    if level == [] then [] else Own(level[0]) + FilesAt(level[1..])
  }

  /** The level below, in order. */
  function Below(level: seq<Entry>): seq<Entry> {
    if level == [] then []
    else Children(level[0]) + Below(level[1..])
  }

  lemma {:induction false} BelowSmaller(level: seq<Entry>)
    ensures SizeAll(Below(level)) + |level| == SizeAll(level)
  {
    if level != [] {
      BelowSmaller(level[1..]);
      ChildrenSmaller(level[0]);
      SizeConcat(Children(level[0]), Below(level[1..]));
    }
  }

  /** All files below a level: first its own, then those of the level below, and so on down. */
  function LevelOrder(level: seq<Entry>): seq<Visit>
    decreases SizeAll(level)
  {
    if level == [] then [] else BelowSmaller(level); FilesAt(level) + LevelOrder(Below(level))
  }

  /** Nothing at or below the node is unreadable. */
  ghost predicate Readable(n: Node)
    decreases n
  {
    match n
    case File(_) => true
    case Dir(entries) => forall i :: 0 <= i < |entries| ==> Readable(entries[i].node)
    case Unreadable => false
  }

  ghost predicate AllReadable(todo: seq<Entry>) {
    forall i :: 0 <= i < |todo| ==> Readable(todo[i].node)
  }

  // ---------- the queue ----------

  lemma QueueShrinks(todo: seq<Entry>)
    requires todo != []
    ensures SizeAll(todo[1..] + Children(todo[0])) < SizeAll(todo)
  {
    ChildrenSmaller(todo[0]);
    SizeConcat(todo[1..], Children(todo[0]));
  }

  /** What is reported from a queue on: entries leave at the front, their children enter at the back. */
  function Walk(todo: seq<Entry>): seq<Visit>
    decreases SizeAll(todo)
  {
    if todo == [] then [] else QueueShrinks(todo); Own(todo[0]) + Walk(todo[1..] + Children(todo[0]))
  }

  lemma WalkCons(todo: seq<Entry>, e: Entry, rest: seq<Entry>)
    requires todo == [e] + rest
    ensures Walk(todo) == Own(e) + Walk(rest + Children(e))
  {
    assert todo[0] == e && todo[1..] == rest;
    QueueShrinks(todo);
  }

  lemma Regroup(a: seq<Entry>, b: seq<Entry>, c: seq<Entry>)
    ensures a + b + c == a + (b + c)
  {
  }

  /** With the rest of one level in front, the queue reports that level before anything else. */
  lemma {:induction false} WalkLevel(rest: seq<Entry>, next: seq<Entry>)
    ensures Walk(rest + next) == FilesAt(rest) + Walk(next + Below(rest))
    decreases |rest|
  {
    if rest == [] {
      assert rest + next == next && next + Below(rest) == next;
    } else {
      var e, tail, found := rest[0], rest[1..], Children(rest[0]);
      WalkCons(rest + next, e, tail + next);
      Regroup(tail, next, found);
      WalkLevel(tail, next + found);
      Regroup(next, found, Below(tail));
      var visits := Walk(next + Below(rest));
      assert Own(e) + (FilesAt(tail) + visits) == Own(e) + FilesAt(tail) + visits;
    }
  }

  /** The queue visits level by level. */
  lemma {:induction false} WalkIsLevelOrder(level: seq<Entry>)
    ensures Walk(level) == LevelOrder(level)
    decreases SizeAll(level)
  {
    if level != [] {
      BelowSmaller(level);
      WalkLevel(level, []);
      assert level + [] == level && [] + Below(level) == Below(level);
      WalkIsLevelOrder(Below(level));
    }
  }

  /** All files at or below the entries, collected depth first. */
  ghost function FilesBelow(entries: seq<Entry>): multiset<Visit>
    decreases SizeAll(entries)
  {
    if entries == [] then multiset{}
    else
      ChildrenSmaller(entries[0]);
      multiset(Own(entries[0])) + FilesBelow(Children(entries[0])) + FilesBelow(entries[1..])
  }

  lemma {:induction false} FilesBelowConcat(a: seq<Entry>, b: seq<Entry>)
    ensures FilesBelow(a + b) == FilesBelow(a) + FilesBelow(b)
    decreases |a|
  {
    if a == [] {
      assert a + b == b;
    } else {
      assert (a + b)[0] == a[0] && (a + b)[1..] == a[1..] + b;
      FilesBelowConcat(a[1..], b);
    }
  }

  /** The walk reports each file at or below the entries exactly once. */
  lemma {:induction false} WalkCollects(todo: seq<Entry>)
    ensures multiset(Walk(todo)) == FilesBelow(todo)
    decreases SizeAll(todo)
  {
    if todo != [] {
      QueueShrinks(todo);
      WalkCollects(todo[1..] + Children(todo[0]));
      FilesBelowConcat(todo[1..], Children(todo[0]));
    }
  }

  // ---------- which files are reported, and under which paths ----------

  /** The node reached from `n` by descending to the entries with the given positions. */
  function NodeAt(n: Node, positions: seq<nat>): Option<Node> {
    if positions == [] then Some(n)
    else if n.Dir? && positions[0] < |n.entries| then NodeAt(n.entries[positions[0]].node, positions[1..])
    else None
  }

  /** Its path: the names of the entries on the way, each after a slash. */
  function PathAt(path: string, n: Node, positions: seq<nat>): string
    decreases |positions|
  {
    if positions == [] || !n.Dir? || positions[0] >= |n.entries| then path
    else PathAt(path + "/" + n.entries[positions[0]].name, n.entries[positions[0]].node, positions[1..])
  }

  ghost predicate FoundAt(e: Entry, v: Visit, positions: seq<nat>) {
    NodeAt(e.node, positions) == Some(File(v.contents)) && PathAt(e.path, e.node, positions) == v.path
  }

  /** A file with these contents lies below the entry under this path. */
  ghost predicate LiesBelow(e: Entry, v: Visit) {
    exists positions :: FoundAt(e, v, positions)
  }

  lemma LiesBelowChild(e: Entry, v: Visit, i: nat)
    requires i < |Children(e)| && LiesBelow(Children(e)[i], v)
    ensures LiesBelow(e, v)
  {
    var positions :| FoundAt(Children(e)[i], v, positions);
    var all := [i] + positions;
    assert all[0] == i && all[1..] == positions;
    assert FoundAt(e, v, all);
  }

  ghost predicate LiesBelowSome(entries: seq<Entry>, v: Visit) {
    exists i :: 0 <= i < |entries| && LiesBelow(entries[i], v)
  }

  lemma LiesHereOrBelow(e: Entry, v: Visit)
    ensures LiesBelow(e, v) <==>
      (e.node.File? && v == Visit(e.path, e.node.contents)) || LiesBelowSome(Children(e), v)
  {
    if LiesBelow(e, v) {
      var positions :| FoundAt(e, v, positions);
      if positions != [] {
        assert FoundAt(Children(e)[positions[0]], v, positions[1..]);
        assert LiesBelow(Children(e)[positions[0]], v);
      }
    }
    if e.node.File? && v == Visit(e.path, e.node.contents) {
      assert FoundAt(e, v, []);
    }
    if LiesBelowSome(Children(e), v) {
      var i :| 0 <= i < |Children(e)| && LiesBelow(Children(e)[i], v);
      LiesBelowChild(e, v, i);
    }
  }

  lemma LiesBelowFirstOrRest(entries: seq<Entry>, v: Visit)
    requires entries != []
    ensures LiesBelowSome(entries, v) <==> LiesBelow(entries[0], v) || LiesBelowSome(entries[1..], v)
  {
    if LiesBelowSome(entries, v) && !LiesBelow(entries[0], v) {
      var i :| 0 <= i < |entries| && LiesBelow(entries[i], v);
      assert entries[1..][i - 1] == entries[i];
    }
    if LiesBelowSome(entries[1..], v) {
      var i :| 0 <= i < |entries[1..]| && LiesBelow(entries[1..][i], v);
      assert entries[i + 1] == entries[1..][i];
    }
  }

  /** Exactly the files that lie below the entries are collected, under their own paths. */
  lemma {:induction false} FilesBelowExactly(entries: seq<Entry>, v: Visit)
    ensures v in FilesBelow(entries) <==> LiesBelowSome(entries, v)
    decreases SizeAll(entries)
  {
    if entries != [] {
      ChildrenSmaller(entries[0]);
      FilesBelowExactly(Children(entries[0]), v);
      FilesBelowExactly(entries[1..], v);
      LiesHereOrBelow(entries[0], v);
      LiesBelowFirstOrRest(entries, v);
    }
  }

  function FileCount(n: Node): nat
    decreases n
  {
    match n
    case File(_) => 1
    case Dir(entries) => FileCountNamed(entries)
    case Unreadable => 0
  }

  function FileCountNamed(entries: seq<Named>): nat
    decreases entries
  {
    if entries == [] then 0 else FileCount(entries[0].node) + FileCountNamed(entries[1..])
  }

  function FileCountAll(entries: seq<Entry>): nat {
    if entries == [] then 0 else FileCount(entries[0].node) + FileCountAll(entries[1..])
  }

  lemma {:induction false} SameFileCount(entries: seq<Entry>, named: seq<Named>)
    requires |entries| == |named| && forall i :: 0 <= i < |named| ==> entries[i].node == named[i].node
    ensures FileCountAll(entries) == FileCountNamed(named)
  {
    if entries != [] {
      SameFileCount(entries[1..], named[1..]);
    }
  }

  lemma {:induction false} FilesBelowCount(entries: seq<Entry>)
    ensures |FilesBelow(entries)| == FileCountAll(entries)
    decreases SizeAll(entries)
  {
    if entries != [] {
      var e := entries[0];
      ChildrenSmaller(e);
      FilesBelowCount(Children(e));
      FilesBelowCount(entries[1..]);
      if e.node.Dir? {
        SameFileCount(Children(e), e.node.entries);
      }
    }
  }

  lemma VisitsAreFiles(root: Entry, visits: seq<Visit>)
    requires multiset(visits) == FilesBelow([root])
    ensures |visits| == FileCount(root.node) && forall v :: v in visits <==> LiesBelow(root, v)
  {
    FilesBelowCount([root]);
    assert [root][1..] == [];
    assert |visits| == |multiset(visits)|;
    forall v ensures v in visits <==> LiesBelow(root, v) {
      FilesBelowExactly([root], v);
      assert LiesBelowSome([root], v) <==> LiesBelow([root][0], v);
      assert v in visits <==> v in multiset(visits);
    }
  }

  // ---------- the walk ----------

  lemma ReadableFront(todo: seq<Entry>)
    requires todo != [] && !todo[0].node.Unreadable?
    ensures AllReadable(todo) <==> AllReadable(todo[1..] + Children(todo[0]))
  {
    var e, c, rest := todo[0], Children(todo[0]), todo[1..];
    assert Readable(e.node) <==> AllReadable(c) by {
      if e.node.Dir? {
        assert forall i :: 0 <= i < |c| ==> c[i].node == e.node.entries[i].node;
      }
    }
    assert AllReadable(todo) <==> Readable(e.node) && AllReadable(rest) by {
      assert todo == [e] + rest;
    }
    AllReadableConcat(rest, c);
  }

  lemma AllReadableConcat(a: seq<Entry>, b: seq<Entry>)
    ensures AllReadable(a + b) <==> AllReadable(a) && AllReadable(b)
  {
    if AllReadable(a + b) {
      assert forall i :: 0 <= i < |a| ==> (a + b)[i] == a[i];
      assert forall i :: 0 <= i < |b| ==> (a + b)[|a| + i] == b[i];
    }
  }

  lemma WalkedAll(root: Entry, visits: seq<Visit>)
    requires visits == Walk([root])
    ensures visits == LevelOrder([root]) && multiset(visits) == FilesBelow([root])
    ensures |visits| == FileCount(root.node) && forall v :: v in visits <==> LiesBelow(root, v)
  {
    WalkIsLevelOrder([root]);
    WalkCollects([root]);
    VisitsAreFiles(root, visits);
  }

  lemma WalkStep(visits: seq<Visit>, todo: seq<Entry>)
    requires todo != []
    ensures visits + Walk(todo) == visits + Own(todo[0]) + Walk(todo[1..] + Children(todo[0]))
  {
    WalkCons(todo, todo[0], todo[1..]);
  }

  lemma WalkedSome(root: Entry, visits: seq<Visit>, todo: seq<Entry>)
    requires visits + Walk(todo) == Walk([root])
    ensures visits <= LevelOrder([root])
  {
    WalkIsLevelOrder([root]);
  }

  /**
   The queue-based walk. It terminates; if every entry is readable it reports every file once, in
   level order, and otherwise it fails, having reported a prefix of that order.
   */
  method Find(root: Entry) returns (ok: bool, visits: seq<Visit>)
    ensures ok <==> Readable(root.node)
    ensures ok ==> visits == LevelOrder([root]) && multiset(visits) == FilesBelow([root])
    ensures ok ==> |visits| == FileCount(root.node) && forall v :: v in visits <==> LiesBelow(root, v)
    ensures visits <= LevelOrder([root])
  {
    var todo := [root];
    visits := [];
    while todo != []
      invariant visits + Walk(todo) == Walk([root])
      invariant AllReadable([root]) == AllReadable(todo)
      decreases SizeAll(todo)
    {
      QueueShrinks(todo);
      var front := todo[0];
      if front.node.Unreadable? {
        WalkedSome(root, visits, todo);
        assert !Readable(todo[0].node) && [root][0] == root;
        return false, visits;
      }
      ReadableFront(todo);
      WalkStep(visits, todo);
      visits := visits + Own(front);
      todo := todo[1..] + Children(front);
    }
    WalkedAll(root, visits);
    assert [root][0] == root;
    ok := true;
  }
}
