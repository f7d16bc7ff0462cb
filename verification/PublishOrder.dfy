/** Kahn's topological sort over the publishable crates (`publish_order_is_valid`). The source's
    `BTreeMap` iterations are in name order; the order is left open here, so the results hold for
    every pop order the queue could see. */
module PublishOrder {
  import opened Graph

  ghost predicate NoRepeats(s: seq<Crate>) {
    forall i, j :: 0 <= i < j < |s| ==> s[i] != s[j]
  }

  /** `s` lists the crates of `elems`, each once. */
  ghost predicate Holds(s: seq<Crate>, elems: set<Crate>) {
    NoRepeats(s) && forall c :: c in s <==> c in elems
  }

  lemma HoldsSnoc(s: seq<Crate>, elems: set<Crate>, c: Crate)
    requires Holds(s, elems) && c !in elems
    ensures Holds(s + [c], elems + {c})
  {
  }

  lemma HoldsTail(s: seq<Crate>, elems: set<Crate>)
    requires Holds(s, elems) && s != []
    ensures s[0] in elems && Holds(s[1..], elems - {s[0]})
  {
    assert s == [s[0]] + s[1..];
  }

  lemma {:induction false} HoldsSize(s: seq<Crate>, elems: set<Crate>)
    requires Holds(s, elems)
    ensures |s| == |elems|
  {
    if s != [] {
      HoldsTail(s, elems);
      HoldsSize(s[1..], elems - {s[0]});
    } else {
      assert elems == {};
    }
  }

  /** The graph as the source builds it: entries for the publishable crates only, with dependencies on
      publishable crates only. */
  ghost predicate ClosedOver(depsOf: DepGraph, publishable: set<Crate>) {
    && depsOf.Keys == publishable
    && forall c :: c in publishable ==> depsOf[c] <= publishable
  }

  function Listed(reverse: map<Crate, seq<Crate>>, dep: Crate): seq<Crate> {
    if dep in reverse then reverse[dep] else []
  }

  /** `reverse` lists exactly the edges of `edges`, each once. */
  ghost predicate Reverses(reverse: map<Crate, seq<Crate>>, edges: DepGraph) {
    forall d :: NoRepeats(Listed(reverse, d)) && forall n :: n in Listed(reverse, d) <==> d in Deps(edges, n)
  }

  ghost predicate CountsDeps(inDegree: map<Crate, nat>, edges: DepGraph) {
    forall n :: n in inDegree ==> inDegree[n] == |Deps(edges, n)|
  }

  /** One step of the counting loop: a fresh edge raises one degree and extends one list. */
  lemma AddEdge(inDegree: map<Crate, nat>, reverse: map<Crate, seq<Crate>>, edges: DepGraph, name: Crate, dep: Crate)
    requires name in inDegree && CountsDeps(inDegree, edges) && Reverses(reverse, edges)
    requires dep !in Deps(edges, name)
    ensures var more := edges[name := Deps(edges, name) + {dep}];
            && CountsDeps(inDegree[name := inDegree[name] + 1], more)
            && Reverses(reverse[dep := Listed(reverse, dep) + [name]], more)
  {
    var more := edges[name := Deps(edges, name) + {dep}];
    var longer := reverse[dep := Listed(reverse, dep) + [name]];
    forall d
      ensures NoRepeats(Listed(longer, d)) && forall n :: n in Listed(longer, d) <==> d in Deps(more, n)
    {
      assert NoRepeats(Listed(reverse, d)) && forall n :: n in Listed(reverse, d) <==> d in Deps(edges, n);
    }
  }

  /** The inner counting loop: all dependencies of one crate. */
  method CountCrate(name: Crate, deps0: set<Crate>, inDegree0: map<Crate, nat>, reverse0: map<Crate, seq<Crate>>,
                    ghost edges: DepGraph)
    returns (inDegree: map<Crate, nat>, reverse: map<Crate, seq<Crate>>)
    requires name in inDegree0 && name !in edges
    requires CountsDeps(inDegree0, edges) && Reverses(reverse0, edges)
    ensures inDegree.Keys == inDegree0.Keys
    ensures CountsDeps(inDegree, edges[name := deps0]) && Reverses(reverse, edges[name := deps0])
  {
    hide CountsDeps, Reverses;
    inDegree, reverse := inDegree0, reverse0;
    var deps := deps0;
    ghost var counted: set<Crate> := {};
    NoEdgesYet(inDegree, reverse, edges, name);
    while deps != {}
      invariant inDegree.Keys == inDegree0.Keys && counted + deps == deps0 && counted !! deps
      invariant CountsDeps(inDegree, edges[name := counted]) && Reverses(reverse, edges[name := counted])
      decreases deps
    {
      var dep :| dep in deps;
      AddEdge(inDegree, reverse, edges[name := counted], name, dep);
      assert edges[name := counted][name := counted + {dep}] == edges[name := counted + {dep}];
      deps, counted := deps - {dep}, counted + {dep};
      inDegree := inDegree[name := inDegree[name] + 1];
      reverse := reverse[dep := Listed(reverse, dep) + [name]];
    }
    assert counted == deps0;
  }

  lemma NoEdgesYet(inDegree: map<Crate, nat>, reverse: map<Crate, seq<Crate>>, edges: DepGraph, name: Crate)
    requires name !in edges && CountsDeps(inDegree, edges) && Reverses(reverse, edges)
    ensures CountsDeps(inDegree, edges[name := {}]) && Reverses(reverse, edges[name := {}])
  {
    assert forall n :: Deps(edges[name := {}], n) == Deps(edges, n);
  }

  lemma NothingCounted(inDegree: map<Crate, nat>, reverse: map<Crate, seq<Crate>>, edges: DepGraph)
    requires (forall n :: n in inDegree ==> inDegree[n] == 0) && reverse == map[] && edges == map[]
    ensures CountsDeps(inDegree, edges) && Reverses(reverse, edges)
  {
  }

  /** The in-degrees and the reversed edges. */
  method CountDependencies(publishable: set<Crate>, depsOf: DepGraph)
    returns (inDegree: map<Crate, nat>, reverse: map<Crate, seq<Crate>>)
    requires ClosedOver(depsOf, publishable)
    ensures inDegree.Keys == publishable && CountsDeps(inDegree, depsOf) && Reverses(reverse, depsOf)
  {
    hide CountsDeps, Reverses;
    inDegree := map n | n in publishable :: 0;
    reverse := map[];
    ghost var edges: DepGraph := map[];
    NothingCounted(inDegree, reverse, edges);
    var names := depsOf.Keys;
    while names != {}
      invariant names <= publishable && inDegree.Keys == publishable
      invariant CountsDeps(inDegree, edges) && Reverses(reverse, edges)
      invariant edges.Keys == depsOf.Keys - names && forall n :: n in edges ==> edges[n] == depsOf[n]
      decreases names
    {
      var name :| name in names;
      inDegree, reverse := CountCrate(name, depsOf[name], inDegree, reverse, edges);
      names, edges := names - {name}, edges[name := depsOf[name]];
    }
    assert edges == depsOf;
  }

  /** The crates that start in the queue. */
  method ZeroInDegree(inDegree: map<Crate, nat>) returns (queue: seq<Crate>, ghost queued: set<Crate>)
    ensures NoRepeats(queue) && forall n :: n in queue <==> n in inDegree && inDegree[n] == 0
    ensures Holds(queue, queued)
  {
    queue, queued := [], {};
    var names := inDegree.Keys;
    while names != {}
      invariant names <= inDegree.Keys && Holds(queue, queued)
      invariant forall n :: n in queued <==> n in inDegree && n !in names && inDegree[n] == 0
      decreases names
    {
      var name :| name in names;
      names := names - {name};
      if inDegree[name] == 0 {
        queue, queued := queue + [name], queued + {name};
      }
    }
  }

  /** A degree counts the dependencies not yet popped, plus one while a decrement is owed to the crate. */
  ghost predicate DegreesCount(depsOf: DepGraph, inDegree: map<Crate, nat>, popped: set<Crate>, owed: set<Crate>) {
    && inDegree.Keys == depsOf.Keys
    && forall n :: n in inDegree ==> inDegree[n] == |Deps(depsOf, n) - popped| + if n in owed then 1 else 0
  }

  /** The crates with degree zero are those popped or queued. */
  ghost predicate ZeroIsReached(inDegree: map<Crate, nat>, reached: set<Crate>) {
    && reached <= inDegree.Keys
    && forall n :: n in inDegree ==> (inDegree[n] == 0 <==> n in reached)
  }

  /** Popping a crate owes one decrement to each of its dependents. */
  lemma PopOwesDependents(depsOf: DepGraph, inDegree: map<Crate, nat>, popped: set<Crate>, node: Crate,
                          owed: set<Crate>)
    requires DegreesCount(depsOf, inDegree, popped, {}) && node !in popped
    requires forall n :: n in owed <==> node in Deps(depsOf, n)
    ensures DegreesCount(depsOf, inDegree, popped + {node}, owed)
  {
    forall n | n in inDegree
      ensures inDegree[n] == |Deps(depsOf, n) - (popped + {node})| + if n in owed then 1 else 0
    {
      var waiting := Deps(depsOf, n) - popped;
      assert Deps(depsOf, n) - (popped + {node}) == waiting - {node};
      assert node in waiting <==> n in owed;
    }
  }

  /** A crate of degree zero has all its dependencies popped. */
  lemma ZeroMeansReady(depsOf: DepGraph, inDegree: map<Crate, nat>, popped: set<Crate>, node: Crate)
    requires DegreesCount(depsOf, inDegree, popped, {}) && node in inDegree && inDegree[node] == 0
    ensures Deps(depsOf, node) <= popped
  {
    assert forall d :: d in Deps(depsOf, node) && d !in popped ==> d in Deps(depsOf, node) - popped;
  }

  /** Popping a queued crate extends the dependencies-first order. */
  lemma PopKeepsOrder(publishable: set<Crate>, depsOf: DepGraph, inDegree: map<Crate, nat>, order: seq<Crate>,
                      popped: set<Crate>, reached: set<Crate>, node: Crate)
    requires ClosedOver(depsOf, publishable)
    requires DegreesCount(depsOf, inDegree, popped, {}) && ZeroIsReached(inDegree, reached) && node in reached
    requires DepsFirst(depsOf, order) && Holds(order, popped)
    ensures DepsFirst(depsOf, order + [node])
    ensures node in publishable
  {
    ZeroMeansReady(depsOf, inDegree, popped, node);
    DepsFirstSnoc(depsOf, order, node);
  }

  /** The crates that depend on `node`: what its reversed edge list holds. */
  ghost function Dependents(reverse: map<Crate, seq<Crate>>, depsOf: DepGraph, node: Crate): (owed: set<Crate>)
    requires Reverses(reverse, depsOf)
    ensures forall n :: n in owed <==> node in Deps(depsOf, n)
    ensures if node in reverse then Holds(reverse[node], owed) else owed == {}
    ensures owed <= depsOf.Keys
  {
    assert NoRepeats(Listed(reverse, node)) && forall n :: n in Listed(reverse, node) <==> node in Deps(depsOf, n);
    set n | n in Listed(reverse, node)
  }

  lemma MoveAcross(popped: set<Crate>, queued: set<Crate>, node: Crate)
    requires node in queued && popped !! queued
    ensures (popped + {node}) + (queued - {node}) == popped + queued
    ensures popped + {node} !! queued - {node}
  {
  }

  /** Before the first pop nothing is owed ... */
  lemma StartDegrees(depsOf: DepGraph, inDegree: map<Crate, nat>)
    requires inDegree.Keys == depsOf.Keys && CountsDeps(inDegree, depsOf)
    ensures DegreesCount(depsOf, inDegree, {}, {})
  {
    forall n | n in inDegree
      ensures inDegree[n] == |Deps(depsOf, n) - {}|
    {
      assert Deps(depsOf, n) - {} == Deps(depsOf, n);
    }
  }

  /** ... and the queue holds exactly the crates of degree zero. */
  lemma StartState(publishable: set<Crate>, depsOf: DepGraph, inDegree: map<Crate, nat>, queue: seq<Crate>,
                   queued: set<Crate>)
    requires ClosedOver(depsOf, publishable) && inDegree.Keys == publishable && CountsDeps(inDegree, depsOf)
    requires Holds(queue, queued) && forall n :: n in queue <==> n in inDegree && inDegree[n] == 0
    ensures DegreesCount(depsOf, inDegree, {}, {}) && ZeroIsReached(inDegree, queued)
    ensures DepsFirst(depsOf, []) && Holds([], {})
  {
    hide DegreesCount, CountsDeps, NoRepeats, DepsFirst;
    StartDegrees(depsOf, inDegree);
    NothingPopped(depsOf);
  }

  lemma NothingPopped(depsOf: DepGraph)
    ensures DepsFirst(depsOf, []) && NoRepeats([])
  {
  }

  /** A crate that is owed a decrement has a positive degree, so the subtraction stays above zero, and
      paying keeps the degrees right. */
  lemma PayDegree(depsOf: DepGraph, inDegree: map<Crate, nat>, popped: set<Crate>, owed: set<Crate>, dependent: Crate)
    requires DegreesCount(depsOf, inDegree, popped, owed) && dependent in owed && dependent in inDegree
    ensures inDegree[dependent] >= 1
    ensures DegreesCount(depsOf, inDegree[dependent := inDegree[dependent] - 1], popped, owed - {dependent})
  {
  }

  /** A crate whose degree falls to zero is newly reached; any other payment reaches nothing. */
  lemma PayReaches(inDegree: map<Crate, nat>, reached: set<Crate>, dependent: Crate)
    requires ZeroIsReached(inDegree, reached) && dependent in inDegree && inDegree[dependent] >= 1
    ensures dependent !in reached
    ensures ZeroIsReached(inDegree[dependent := inDegree[dependent] - 1],
                          if inDegree[dependent] == 1 then reached + {dependent} else reached)
  {
  }

  /** The inner loop: lower the degree of each dependent, queueing it when it reaches zero. */
  method PayDependents(ghost depsOf: DepGraph, dependents: seq<Crate>, inDegree0: map<Crate, nat>, queue0: seq<Crate>,
                       ghost popped: set<Crate>, ghost queued0: set<Crate>, ghost owed0: set<Crate>)
    returns (inDegree: map<Crate, nat>, queue: seq<Crate>, ghost queued: set<Crate>)
    requires DegreesCount(depsOf, inDegree0, popped, owed0)
    requires Holds(dependents, owed0) && owed0 <= inDegree0.Keys
    requires ZeroIsReached(inDegree0, popped + queued0) && Holds(queue0, queued0) && popped !! queued0
    ensures DegreesCount(depsOf, inDegree, popped, {})
    ensures ZeroIsReached(inDegree, popped + queued) && Holds(queue, queued) && popped !! queued
  {
    hide DegreesCount;
    inDegree, queue, queued := inDegree0, queue0, queued0;
    ghost var owed := owed0;
    var i := 0;
    while i < |dependents|
      invariant 0 <= i <= |dependents| && inDegree.Keys == inDegree0.Keys
      invariant Holds(dependents[i..], owed) && owed <= inDegree0.Keys
      invariant DegreesCount(depsOf, inDegree, popped, owed)
      invariant ZeroIsReached(inDegree, popped + queued) && Holds(queue, queued) && popped !! queued
    {
      var dependent := dependents[i];
      HoldsTail(dependents[i..], owed);
      if dependent in inDegree {
        PayDegree(depsOf, inDegree, popped, owed, dependent);
        PayReaches(inDegree, popped + queued, dependent);
        inDegree := inDegree[dependent := inDegree[dependent] - 1];
        if inDegree[dependent] == 0 {
          HoldsSnoc(queue, queued, dependent);
          assert popped + (queued + {dependent}) == popped + queued + {dependent};
          queue, queued := queue + [dependent], queued + {dependent};
        }
      }
      i, owed := i + 1, owed - {dependent};
    }
    HoldsSize(dependents[i..], owed);
  }

  /** Kahn's sort with the count the source compares with the number of publishable crates. The crates
      popped, in order, are the ghost result. */
  method SortPublishable(publishable: set<Crate>, depsOf: DepGraph)
    returns (sorted: nat, ghost order: seq<Crate>, ghost popped: set<Crate>)
    requires ClosedOver(depsOf, publishable)
    ensures sorted <= |publishable| && (sorted == |publishable| <==> !HasCycle(depsOf))
    ensures sorted == |order|
    ensures Holds(order, popped) && popped <= publishable && DepsFirst(depsOf, order)
    ensures popped == publishable <==> !HasCycle(depsOf)
    ensures popped != publishable ==> CycleWithin(depsOf, publishable - popped)
  {
    hide *;
    var inDegree, reverse := CountDependencies(publishable, depsOf);
    var queue, queued := ZeroInDegree(inDegree);
    sorted, order, popped := 0, [], {};
    StartState(publishable, depsOf, inDegree, queue, queued);
    assert popped + queued == queued;
    while queue != []
      invariant sorted == |order| && Holds(order, popped) && popped <= publishable && DepsFirst(depsOf, order)
      invariant DegreesCount(depsOf, inDegree, popped, {}) && ZeroIsReached(inDegree, popped + queued)
      invariant Holds(queue, queued) && popped !! queued
      decreases publishable - popped
    {
      var node := queue[0];
      HoldsTail(queue, queued);
      PopKeepsOrder(publishable, depsOf, inDegree, order, popped, popped + queued, node);
      HoldsSnoc(order, popped, node);
      MoveAcross(popped, queued, node);
      ghost var owed := Dependents(reverse, depsOf, node);
      PopOwesDependents(depsOf, inDegree, popped, node, owed);
      queue := queue[1..];
      sorted, order, popped, queued := sorted + 1, order + [node], popped + {node}, queued - {node};
      if node in reverse {
        inDegree, queue, queued :=
          PayDependents(depsOf, reverse[node], inDegree, queue, popped, queued, owed);
      }
    }
    HoldsSize(queue, queued);
    assert queued == {} && popped + queued == popped;
    HoldsSize(order, popped);
    KahnCount(publishable, depsOf, inDegree, order, popped);
  }

  /** When the queue runs dry, the crates left over, if any, hold a cycle. */
  lemma LeftoversHoldCycle(publishable: set<Crate>, depsOf: DepGraph, inDegree: map<Crate, nat>, popped: set<Crate>)
    requires ClosedOver(depsOf, publishable) && publishable - popped != {}
    requires DegreesCount(depsOf, inDegree, popped, {}) && ZeroIsReached(inDegree, popped)
    ensures CycleWithin(depsOf, publishable - popped)
  {
    hide ClosedOver, DegreesCount, ZeroIsReached, Deps;
    var left := publishable - popped;
    forall n | n in left
      ensures Deps(depsOf, n) * left != {}
    {
      LeftoverWaits(publishable, depsOf, inDegree, popped, n);
    }
    StuckSetHoldsCycle(depsOf, left);
  }

  lemma LeftoverWaits(publishable: set<Crate>, depsOf: DepGraph, inDegree: map<Crate, nat>, popped: set<Crate>,
                      n: Crate)
    requires ClosedOver(depsOf, publishable) && n in publishable - popped
    requires DegreesCount(depsOf, inDegree, popped, {}) && ZeroIsReached(inDegree, popped)
    ensures Deps(depsOf, n) * (publishable - popped) != {}
  {
    assert Deps(depsOf, n) - popped != {};
    var d :| d in Deps(depsOf, n) - popped;
    assert d in Deps(depsOf, n) * (publishable - popped);
  }

  /** The final count: every publishable crate was popped exactly if there is no cycle. */
  lemma KahnCount(publishable: set<Crate>, depsOf: DepGraph, inDegree: map<Crate, nat>, order: seq<Crate>,
                  popped: set<Crate>)
    requires ClosedOver(depsOf, publishable) && DepsFirst(depsOf, order)
    requires popped <= publishable && Holds(order, popped)
    requires DegreesCount(depsOf, inDegree, popped, {}) && ZeroIsReached(inDegree, popped)
    ensures |popped| <= |publishable| && (|popped| == |publishable| <==> popped == publishable)
    ensures popped == publishable <==> !HasCycle(depsOf)
    ensures popped != publishable ==> CycleWithin(depsOf, publishable - popped)
  {
    hide DegreesCount, ZeroIsReached;
    var left := publishable - popped;
    assert publishable == popped + left && |publishable| == |popped| + |left|;
    if left != {} {
      LeftoversHoldCycle(publishable, depsOf, inDegree, popped);
    } else {
      FullOrderMeansAcyclic(depsOf, order);
    }
  }
}
