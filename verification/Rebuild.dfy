/** Rebuilding a schema from the database's catalog: root tables first, then the loop that
    erases one ready table and scans again. When that loop ends, what it builds, and the
    order it builds it in. */
module Rebuild {

  datatype TableInfo = TableInfo(name: string, parents: seq<string>)

  /** Tables still to add, tables added, and the order in which they were added. */
  datatype Build = Build(remaining: seq<TableInfo>, added: set<string>, order: seq<string>)

  // ---- the loop ----

  predicate Ready(added: set<string>, t: TableInfo) {
    forall p :: p in t.parents ==> p in added
  }

  method AreAllParentsAdded(tablesAdded: set<string>, t: TableInfo) returns (all: bool)
    ensures all == Ready(tablesAdded, t)
  {
    for i := 0 to |t.parents|
      invariant forall j :: 0 <= j < i ==> t.parents[j] in tablesAdded
    {
      if t.parents[i] !in tablesAdded { return false; }
    }
    return true;
  }

  /** Position of the first ready table, or the length of the list. */
  function FirstReady(remaining: seq<TableInfo>, added: set<string>): (i: nat)
    ensures i <= |remaining|
    ensures i < |remaining| ==> Ready(added, remaining[i])
    ensures forall j :: 0 <= j < i ==> !Ready(added, remaining[j])
  {
    if remaining == [] || Ready(added, remaining[0]) then 0 else 1 + FirstReady(remaining[1..], added)
  }

  /** One pass of the outer loop. */
  function Pass(b: Build): Build {
    var i := FirstReady(b.remaining, b.added);
    if i == |b.remaining| then b
    else Build(b.remaining[..i] + b.remaining[i + 1..],
               b.added + {b.remaining[i].name}, b.order + [b.remaining[i].name])
  }

  /** The inner loop: scan for a table whose parents are all there. */
  method FindReady(remaining: seq<TableInfo>, added: set<string>) returns (iter: nat)
    ensures iter == FirstReady(remaining, added)
  {
    iter := 0;
    while iter < |remaining|
      invariant iter <= |remaining|
      invariant forall j :: 0 <= j < iter ==> !Ready(added, remaining[j])
    {
      var ready := AreAllParentsAdded(added, remaining[iter]);
      if ready { return; }
      iter := iter + 1;
    }
  }

  function Passes(b: Build, n: nat): Build {
    if n == 0 then b else Pass(Passes(b, n - 1))
  }

  function Start(roots: seq<string>, children: seq<TableInfo>): Build {
    Build(children, (set r | r in roots), roots)
  }

  ghost predicate Finishes(roots: seq<string>, children: seq<TableInfo>) {
    exists n: nat :: Passes(Start(roots, children), n).remaining == []
  }

  // ---- the graph ----

  /** The catalog lists each table once, as a root or as a child. */
  ghost predicate DistinctTables(roots: seq<string>, children: seq<TableInfo>) {
    && (forall i, j :: 0 <= i < j < |roots| ==> roots[i] != roots[j])
    && DistinctInfos(children)
    && (forall t :: t in children ==> t.name !in roots)
  }

  ghost predicate DistinctInfos(ts: seq<TableInfo>) {
    forall i, j :: 0 <= i < j < |ts| ==> ts[i].name != ts[j].name
  }

  ghost predicate Named(children: seq<TableInfo>, name: string) {
    exists t :: t in children && t.name == name
  }

  /** Every parent of an allowed child table is an allowed table. */
  ghost predicate Closed(roots: seq<string>, children: seq<TableInfo>) {
    forall t, p :: t in children && p in t.parents ==> p in roots || Named(children, p)
  }

  /** A walk from child to parent through child tables. */
  ghost predicate IsWalk(children: seq<TableInfo>, walk: seq<TableInfo>) {
    && (forall t :: t in walk ==> t in children)
    && (forall k :: 0 <= k < |walk| - 1 ==> walk[k + 1].name in walk[k].parents)
  }

  ghost predicate IsCycle(children: seq<TableInfo>, walk: seq<TableInfo>) {
    |walk| >= 2 && IsWalk(children, walk) && walk[0] == walk[|walk| - 1]
  }

  ghost predicate Acyclic(children: seq<TableInfo>) {
    forall walk :: !IsCycle(children, walk)
  }

  // ---- what every pass keeps ----

  ghost predicate NoRepeats(order: seq<string>) {
    forall i, j :: 0 <= i < j < |order| ==> order[i] != order[j]
  }

  /** Each added child table stands after all of its parents. */
  ghost predicate ParentsBefore(children: seq<TableInfo>, order: seq<string>) {
    forall t, i :: t in children && 0 <= i < |order| && order[i] == t.name ==>
      forall p :: p in t.parents ==> p in order[..i]
  }

  /** What is left is what has not been added. */
  ghost predicate RestInv(b: Build, children: seq<TableInfo>) {
    && (forall t :: t in b.remaining ==> t in children)
    && DistinctInfos(b.remaining)
    && (forall t :: t in children ==> (t in b.remaining <==> t.name !in b.added))
  }

  ghost predicate BuildInv(b: Build, roots: seq<string>, children: seq<TableInfo>) {
    && RestInv(b, children)
    && (forall x :: x in b.added <==> x in b.order)
    && (forall x :: x in b.added ==> x in roots || Named(children, x))
    && (forall r :: r in roots ==> r in b.added)
    && NoRepeats(b.order)
    && ParentsBefore(children, b.order)
  }

  lemma StartInv(roots: seq<string>, children: seq<TableInfo>)
    requires DistinctTables(roots, children)
    ensures BuildInv(Start(roots, children), roots, children)
  {
  }

  lemma PassOrder(b: Build, roots: seq<string>, children: seq<TableInfo>)
    requires DistinctTables(roots, children) && BuildInv(b, roots, children)
    ensures NoRepeats(Pass(b).order) && ParentsBefore(children, Pass(b).order)
  {
    var i := FirstReady(b.remaining, b.added);
    if i < |b.remaining| {
      hide FirstReady;
      var t := b.remaining[i];
      var order := b.order + [t.name];
      forall u, k | u in children && 0 <= k < |order| && order[k] == u.name
        ensures forall p :: p in u.parents ==> p in order[..k]
      {
        if k < |b.order| {
          assert order[..k] == b.order[..k];
          assert b.order[k] == u.name;
        } else {
          assert order[..k] == b.order;
        }
      }
    }
  }

  lemma PassKeeps(b: Build, roots: seq<string>, children: seq<TableInfo>)
    requires DistinctTables(roots, children) && BuildInv(b, roots, children)
    ensures BuildInv(Pass(b), roots, children)
  {
    PassOrder(b, roots, children);
    var i := FirstReady(b.remaining, b.added);
    if i < |b.remaining| {
      var t := b.remaining[i];
      assert t in b.remaining;
      assert Named(children, t.name);
      hide FirstReady, ParentsBefore, NoRepeats, Ready, RestInv;
      assert forall x :: x in Pass(b).order <==> x in b.order || x == t.name;
    }
  }

  lemma StillDistinct(remaining: seq<TableInfo>, rest: seq<TableInfo>, i: nat)
    requires i < |remaining| && rest == remaining[..i] + remaining[i + 1..]
    requires DistinctInfos(remaining)
    ensures DistinctInfos(rest)
  {
    forall j, k | 0 <= j < k < |rest| ensures rest[j].name != rest[k].name {
      assert rest[j] == remaining[if j < i then j else j + 1];
      assert rest[k] == remaining[if k < i then k else k + 1];
    }
  }

  lemma {:induction false} PassesKeep(roots: seq<string>, children: seq<TableInfo>, n: nat)
    requires DistinctTables(roots, children)
    ensures BuildInv(Passes(Start(roots, children), n), roots, children)
  {
    hide Pass, BuildInv;
    if n == 0 {
      StartInv(roots, children);
    } else {
      PassesKeep(roots, children, n - 1);
      PassKeeps(Passes(Start(roots, children), n - 1), roots, children);
    }
  }

  // ---- a stuck pass ----

  /** A pass that finds no ready table changes nothing, and so does every later one: the
      loop spins for ever. */
  lemma {:induction false} StuckForever(b: Build, n: nat)
    requires FirstReady(b.remaining, b.added) == |b.remaining|
    ensures Passes(b, n) == b
  {
    if n > 0 { StuckForever(b, n - 1); }
  }

  lemma WaitingParent(b: Build, roots: seq<string>, children: seq<TableInfo>, t: TableInfo)
    returns (parent: TableInfo)
    requires BuildInv(b, roots, children) && Closed(roots, children)
    requires t in b.remaining && FirstReady(b.remaining, b.added) == |b.remaining|
    ensures parent in b.remaining && parent in children && parent.name in t.parents
  {
    var i :| 0 <= i < |b.remaining| && b.remaining[i] == t;
    assert !Ready(b.added, t);
    var p :| p in t.parents && p !in b.added;
    hide FirstReady, ParentsBefore, NoRepeats, DistinctInfos;
    assert Named(children, p);
    parent :| parent in children && parent.name == p;
  }

  /** From a stuck state one can walk to parents without end. */
  lemma {:induction false} LongWalk(b: Build, roots: seq<string>, children: seq<TableInfo>, n: nat)
    returns (walk: seq<TableInfo>)
    requires BuildInv(b, roots, children) && Closed(roots, children)
    requires b.remaining != [] && FirstReady(b.remaining, b.added) == |b.remaining|
    ensures |walk| == n + 1 && IsWalk(children, walk) && forall t :: t in walk ==> t in b.remaining
  {
    if n == 0 {
      walk := [b.remaining[0]];
    } else {
      var shorter := LongWalk(b, roots, children, n - 1);
      var t := shorter[n - 1];
      hide FirstReady, BuildInv, Closed;
      assert t in shorter;
      var parent := WaitingParent(b, roots, children, t);
      walk := shorter + [parent];
      forall k | 0 <= k < |walk| - 1 ensures walk[k + 1].name in walk[k].parents {
        if k < n - 1 { assert shorter[k + 1].name in shorter[k].parents; }
      }
    }
  }

  lemma {:induction false} Pigeonhole(walk: seq<TableInfo>, holes: set<TableInfo>) returns (i: nat, j: nat)
    requires |walk| > |holes| && forall t :: t in walk ==> t in holes
    ensures i < j < |walk| && walk[i] == walk[j]
    decreases |walk|
  {
    var last := walk[|walk| - 1];
    var rest := walk[..|walk| - 1];
    if k :| 0 <= k < |rest| && rest[k] == last {
      i, j := k, |walk| - 1;
    } else {
      assert forall t :: t in rest ==> t in walk;
      i, j := Pigeonhole(rest, holes - {last});
    }
  }

  lemma {:induction false} FewDistinct(s: seq<TableInfo>)
    ensures |(set t | t in s)| <= |s|
  {
    if s != [] {
      FewDistinct(s[1..]);
      assert (set t | t in s) == (set t | t in s[1..]) + {s[0]};
    }
  }

  lemma StuckMeansCycle(b: Build, roots: seq<string>, children: seq<TableInfo>)
    requires BuildInv(b, roots, children) && Closed(roots, children)
    requires b.remaining != [] && FirstReady(b.remaining, b.added) == |b.remaining|
    ensures !Acyclic(children)
  {
    hide FirstReady, BuildInv, Closed;
    var holes := set t | t in b.remaining;
    FewDistinct(b.remaining);
    var walk := LongWalk(b, roots, children, |b.remaining|);
    var i, j := Pigeonhole(walk, holes);
    var cycle := walk[i..j + 1];
    assert forall t :: t in cycle ==> t in walk;
    forall k | 0 <= k < |cycle| - 1 ensures cycle[k + 1].name in cycle[k].parents {
      assert walk[i + k + 1].name in walk[i + k].parents;
    }
    assert IsCycle(children, cycle);
  }

  // ---- when the loop ends ----

  lemma {:induction false} Progress(roots: seq<string>, children: seq<TableInfo>, n: nat)
    requires DistinctTables(roots, children) && Closed(roots, children) && Acyclic(children)
    requires n <= |children|
    ensures |Passes(Start(roots, children), n).remaining| == |children| - n
  {
    hide BuildInv, DistinctTables, Closed, Acyclic;
    if n > 0 {
      Progress(roots, children, n - 1);
      var b := Passes(Start(roots, children), n - 1);
      PassesKeep(roots, children, n - 1);
      if FirstReady(b.remaining, b.added) == |b.remaining| {
        StuckMeansCycle(b, roots, children);
      }
    }
  }

  lemma {:induction false} WalkClimbs(b: Build, roots: seq<string>, children: seq<TableInfo>,
                                      walk: seq<TableInfo>) returns (first: nat, last: nat)
    requires BuildInv(b, roots, children) && b.remaining == []
    requires walk != [] && IsWalk(children, walk)
    ensures first < |b.order| && b.order[first] == walk[0].name
    ensures last < |b.order| && b.order[last] == walk[|walk| - 1].name
    ensures last <= first && (|walk| > 1 ==> last < first)
    decreases |walk|
  {
    hide NoRepeats;
    assert walk[0] in walk;
    assert walk[0] in children && walk[0].name in b.order;
    first :| 0 <= first < |b.order| && b.order[first] == walk[0].name;
    last := first;
    if |walk| > 1 {
      var shorter := walk[..|walk| - 1];
      assert forall t :: t in shorter ==> t in walk;
      var f, l := WalkClimbs(b, roots, children, shorter);
      var t := shorter[|shorter| - 1];
      assert t in shorter;
      var p := walk[|walk| - 1].name;
      assert walk[|walk| - 2 + 1].name in walk[|walk| - 2].parents;
      assert p in b.order[..l];
      first := f;
      last :| 0 <= last < l && b.order[last] == p;
    }
  }

  lemma FinishedMeansSound(b: Build, roots: seq<string>, children: seq<TableInfo>)
    requires DistinctTables(roots, children) && BuildInv(b, roots, children) && b.remaining == []
    ensures Closed(roots, children) && Acyclic(children)
  {
    forall t, p | t in children && p in t.parents ensures p in roots || Named(children, p) {
      assert t.name in b.order;
      var i :| 0 <= i < |b.order| && b.order[i] == t.name;
      assert p in b.order[..i];
    }
    forall walk ensures !IsCycle(children, walk) {
      if IsCycle(children, walk) {
        hide BuildInv, IsWalk;
        var first, last := WalkClimbs(b, roots, children, walk);
      }
    }
  }

  /** The rebuild loop ends exactly when the foreign-key graph of the allowed tables is
      acyclic and every parent of an allowed table is allowed. */
  lemma FinishesExactly(roots: seq<string>, children: seq<TableInfo>)
    requires DistinctTables(roots, children)
    ensures Finishes(roots, children) <==> Closed(roots, children) && Acyclic(children)
  {
    if Closed(roots, children) && Acyclic(children) {
      Progress(roots, children, |children|);
    }
    if Finishes(roots, children) {
      var n: nat :| Passes(Start(roots, children), n).remaining == [];
      PassesKeep(roots, children, n);
      FinishedMeansSound(Passes(Start(roots, children), n), roots, children);
    }
  }
}
