/** Dependency graphs as the workspace checks see them, what a cycle is, and what it means for an
    order of crates to list dependencies first. Both detectors are judged against these definitions. */
module Graph {
  datatype Crate = Crate(name: string)

  /** Crate name to the workspace crates it depends on. */
  type DepGraph = map<Crate, set<Crate>>

  /** A crate without an entry has no dependencies: `graph.get(node)` is `None`. */
  function Deps(g: DepGraph, c: Crate): set<Crate> {
    if c in g then g[c] else {}
  }

  /** Every crate the graph mentions, as a key or as a dependency. */
  ghost function Nodes(g: DepGraph): set<Crate> {
    g.Keys + set k, d | k in g.Keys && d in g[k] :: d
  }

  ghost predicate IsWalk(g: DepGraph, w: seq<Crate>) {
    forall i :: 0 <= i < |w| - 1 ==> w[i + 1] in Deps(g, w[i])
  }

  /** A closed walk; a self-loop is the one-crate case. */
  ghost predicate IsCycle(g: DepGraph, c: seq<Crate>) {
    c != [] && IsWalk(g, c) && c[0] in Deps(g, c[|c| - 1])
  }

  ghost predicate HasCycle(g: DepGraph) {
    exists c :: IsCycle(g, c)
  }

  ghost predicate CycleWithin(g: DepGraph, within: set<Crate>) {
    exists c :: IsCycle(g, c) && forall x :: x in c ==> x in within
  }

  /** `order` lists all dependencies of a crate before the crate. */
  ghost predicate DepsFirst(g: DepGraph, order: seq<Crate>) {
    forall i, d :: 0 <= i < |order| && d in Deps(g, order[i]) ==> d in order[..i]
  }

  ghost predicate Covers(order: seq<Crate>, crates: set<Crate>) {
    forall c :: c in crates ==> c in order
  }

  /** Appending a crate whose dependencies are all listed keeps the order valid. */
  lemma DepsFirstSnoc(g: DepGraph, order: seq<Crate>, c: Crate)
    requires DepsFirst(g, order)
    requires forall d :: d in Deps(g, c) ==> d in order
    ensures DepsFirst(g, order + [c])
  {
    var longer := order + [c];
    forall i, d | 0 <= i < |longer| && d in Deps(g, longer[i])
      ensures d in longer[..i]
    {
      assert longer[..i] == order[..i];
      if i == |order| {
        assert order[..i] == order;
      }
    }
  }

  /** No cycle passes through a crate of a dependencies-first order: following the cycle one step
      moves to a strictly earlier position, for ever. */
  lemma {:induction false} NoCycleThrough(g: DepGraph, order: seq<Crate>, c: seq<Crate>, k: nat, i: nat)
    requires DepsFirst(g, order) && IsCycle(g, c)
    requires k < |c| && i < |order| && c[k] == order[i]
    ensures false
    decreases i
  {
    var next := if k == |c| - 1 then 0 else k + 1;
    assert c[next] in order[..i];
    var j :| 0 <= j < i && order[..i][j] == c[next];
    NoCycleThrough(g, order, c, next, j);
  }

  lemma OrderedCratesLieOnNoCycle(g: DepGraph, order: seq<Crate>, c: seq<Crate>)
    requires DepsFirst(g, order) && IsCycle(g, c)
    ensures forall x :: x in c ==> x !in order
  {
    forall x | x in c && x in order
      ensures false
    {
      var k :| 0 <= k < |c| && c[k] == x;
      var i :| 0 <= i < |order| && order[i] == x;
      NoCycleThrough(g, order, c, k, i);
    }
  }

  /** Every crate on a cycle is a key: only keys have dependencies. */
  lemma CycleCratesAreKeys(g: DepGraph, c: seq<Crate>)
    requires IsCycle(g, c)
    ensures forall x :: x in c ==> x in g
  {
    forall x | x in c
      ensures x in g
    {
      var k :| 0 <= k < |c| && c[k] == x;
      if k < |c| - 1 {
        assert c[k + 1] in Deps(g, c[k]);
      }
    }
  }

  lemma FullOrderMeansAcyclic(g: DepGraph, order: seq<Crate>)
    requires DepsFirst(g, order) && Covers(order, g.Keys)
    ensures !HasCycle(g)
  {
    if HasCycle(g) {
      var c :| IsCycle(g, c);
      CycleCratesAreKeys(g, c);
      assert c[0] in order;
      OrderedCratesLieOnNoCycle(g, order, c);
    }
  }

  /** If every crate of a nonempty finite set depends on some crate of the set, the set holds a cycle. */
  lemma StuckSetHoldsCycle(g: DepGraph, stuck: set<Crate>)
    requires stuck != {}
    requires forall n :: n in stuck ==> Deps(g, n) * stuck != {}
    ensures CycleWithin(g, stuck)
  {
    var start :| start in stuck;
    FollowStuckWalk(g, stuck, [start]);
  }

  lemma {:induction false} FollowStuckWalk(g: DepGraph, stuck: set<Crate>, walk: seq<Crate>)
    requires forall n :: n in stuck ==> Deps(g, n) * stuck != {}
    requires walk != [] && IsWalk(g, walk) && (forall x :: x in walk ==> x in stuck)
    requires forall i, j :: 0 <= i < j < |walk| ==> walk[i] != walk[j]
    ensures CycleWithin(g, stuck)
    decreases stuck - set x | x in walk
  {
    hide Deps;
    var last := walk[|walk| - 1];
    assert last in walk;
    var next :| next in Deps(g, last) * stuck;
    if next in walk {
      var i :| 0 <= i < |walk| && walk[i] == next;
      assert IsCycle(g, walk[i..]);
    } else {
      LongerWalk(g, walk, next);
      assert next in stuck - set x | x in walk;
      FollowStuckWalk(g, stuck, walk + [next]);
    }
  }

  lemma LongerWalk(g: DepGraph, walk: seq<Crate>, next: Crate)
    requires walk != [] && IsWalk(g, walk) && next in Deps(g, walk[|walk| - 1])
    ensures IsWalk(g, walk + [next]) && forall x :: x in walk + [next] <==> x in walk || x == next
  {
  }

  /** The reference definition both detectors meet: a graph is free of cycles exactly when its
      crates can be put in an order that lists dependencies first. */
  lemma AcyclicIffOrderable(g: DepGraph)
    ensures !HasCycle(g) <==> exists order :: DepsFirst(g, order) && Covers(order, g.Keys)
  {
    if order :| DepsFirst(g, order) && Covers(order, g.Keys) {
      FullOrderMeansAcyclic(g, order);
    }
    if !HasCycle(g) {
      var order := ExtendOrder(g, []);
    }
  }

  lemma {:induction false} ExtendOrder(g: DepGraph, order: seq<Crate>) returns (full: seq<Crate>)
    requires !HasCycle(g) && DepsFirst(g, order)
    requires forall c :: c in order ==> c in Nodes(g)
    ensures DepsFirst(g, full) && Covers(full, g.Keys)
    ensures forall c :: c in full ==> c in Nodes(g)
    decreases Nodes(g) - set c | c in order
  {
    var rest := Nodes(g) - set c | c in order;
    assert forall c :: c in Nodes(g) ==> c in order || c in rest;
    if rest == {} {
      return order;
    }
    if n :| n in rest && Deps(g, n) * rest == {} {
      forall d | d in Deps(g, n)
        ensures d in order
      {
        assert d in Nodes(g) && d !in Deps(g, n) * rest;
      }
      DepsFirstSnoc(g, order, n);
      var longer := order + [n];
      assert forall c :: c in longer <==> c in order || c == n;
      full := ExtendOrder(g, longer);
    } else {
      StuckSetHoldsCycle(g, rest);
      assert false;
    }
  }

  /** The part of the graph on the crates in `keep`: other crates and edges to them are dropped. */
  function Restrict(g: DepGraph, keep: set<Crate>): DepGraph {
    map c | c in g && c in keep :: g[c] * keep
  }

  /** Dropping dependencies that have no entry of their own neither makes nor breaks a cycle. */
  lemma RestrictToKeysKeepsCycles(g: DepGraph)
    ensures HasCycle(Restrict(g, g.Keys)) <==> HasCycle(g)
  {
    var r := Restrict(g, g.Keys);
    if c :| IsCycle(r, c) {
      CycleCratesAreKeys(r, c);
      assert IsCycle(g, c);
    }
    if c :| IsCycle(g, c) {
      CycleCratesAreKeys(g, c);
      assert IsCycle(r, c);
    }
  }
}
