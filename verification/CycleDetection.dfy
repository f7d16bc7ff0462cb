/** The depth-first cycle detector of the workspace checks (`dfs_finds_cycle` and its driver loop).
    The two sets it shares across calls are the fields of `CycleDetector`; two ghost fields record
    the chain of crates on the stack and the order in which crates were finished.
    Where the source walks a `BTreeSet` in name order, the order is left open here. */
module CycleDetection {
  import opened Graph

  /** A crate visited and finished: whatever it reaches, itself included, is visited and lies on no cycle. */
  ghost predicate Settled(g: DepGraph, c: Crate, visited: set<Crate>) {
    forall w :: IsWalk(g, w) && w != [] && w[0] == c ==>
      w[|w| - 1] in visited && forall cycle :: IsCycle(g, cycle) ==> w[|w| - 1] !in cycle
  }

  /** The stack is a walk, finished crates are off the stack and list dependencies first, and every
      visited crate is one or the other. */
  ghost predicate SearchState(g: DepGraph, visited: set<Crate>, inStack: set<Crate>, path: seq<Crate>,
                              finished: seq<Crate>)
  {
    && IsWalk(g, path)
    && (forall c :: c in path <==> c in inStack)
    && (forall c :: c in finished ==> c !in inStack)
    && (forall c :: c in visited <==> c in inStack || c in finished)
    && DepsFirst(g, finished)
  }

  lemma EnterCrate(g: DepGraph, visited: set<Crate>, inStack: set<Crate>, path: seq<Crate>, finished: seq<Crate>,
                   node: Crate)
    requires SearchState(g, visited, inStack, path, finished) && node !in visited
    requires path != [] ==> node in Deps(g, path[|path| - 1])
    ensures SearchState(g, visited + {node}, inStack + {node}, path + [node], finished) && node !in inStack
  {
  }

  /** Every crate of `crates` is settled. */
  ghost predicate AllSettled(g: DepGraph, crates: set<Crate>, visited: set<Crate>) {
    forall c :: c in crates ==> Settled(g, c, visited)
  }

  /** Every dependency of `node` outside `rest` is visited and finished. */
  ghost predicate Scanned(g: DepGraph, node: Crate, rest: set<Crate>, visited: set<Crate>, inStack: set<Crate>) {
    forall d :: d in Deps(g, node) && d !in rest ==> d in visited && d !in inStack
  }

  lemma StartScan(g: DepGraph, node: Crate, visited: set<Crate>, inStack: set<Crate>)
    ensures Scanned(g, node, Deps(g, node), visited, inStack)
    ensures Deps(g, node) == if node in g then g[node] else {}
  {
  }

  lemma ScanOn(g: DepGraph, node: Crate, rest: set<Crate>, dep: Crate, before: set<Crate>, visited: set<Crate>,
               inStack: set<Crate>)
    requires Scanned(g, node, rest, before, inStack) && before <= visited && dep in visited && dep !in inStack
    ensures Scanned(g, node, rest - {dep}, visited, inStack)
  {
  }

  lemma PopCrate(inStack: set<Crate>, path: seq<Crate>, node: Crate)
    requires node !in inStack
    ensures inStack + {node} - {node} == inStack
    ensures (path + [node])[..|path + [node]| - 1] == path
  {
  }

  /** The crates a search from `node` may still visit. */
  ghost function Unvisited(g: DepGraph, node: Crate, visited: set<Crate>): set<Crate> {
    Nodes(g) + {node} - visited
  }

  class CycleDetector {
    var visited: set<Crate>
    var inStack: set<Crate>
    ghost var path: seq<Crate>
    ghost var finished: seq<Crate>

    ghost predicate Valid(g: DepGraph)
      reads this
    {
      SearchState(g, visited, inStack, path, finished)
    }

    constructor ()
      ensures visited == {} && inStack == {} && path == [] && finished == []
    {
      visited, inStack, path, finished := {}, {}, [], [];
    }

    method DfsFindsCycle(g: DepGraph, node: Crate) returns (found: bool)
      requires Valid(g) && node !in visited
      requires path != [] ==> node in Deps(g, path[|path| - 1])
      modifies this
      decreases Unvisited(g, node, visited)
      ensures found ==> HasCycle(g) && CycleWithin(g, inStack)
      ensures found ==> old(visited) + {node} <= visited && old(inStack) + {node} <= inStack <= visited
      ensures !found ==> Valid(g) && inStack == old(inStack) && path == old(path)
      ensures !found ==> old(visited) + {node} <= visited
      ensures !found ==> AllSettled(g, visited - old(visited), visited)
    {
      hide Settled, DepsFirst, IsWalk, HasCycle, CycleWithin, AllSettled, SearchState, Unvisited, Deps, Scanned;
      EnterCrate(g, visited, inStack, path, finished, node);
      visited := visited + {node};
      inStack := inStack + {node};
      path := path + [node];

      StartScan(g, node, visited, inStack);
      if node in g {
        var rest := g[node];
        while rest != {}
          invariant Valid(g) && path == old(path) + [node] && inStack == old(inStack) + {node}
          invariant old(visited) + {node} <= visited
          invariant rest <= Deps(g, node) && Scanned(g, node, rest, visited, inStack)
          decreases rest
        {
          var dep :| dep in rest;
          if dep in inStack {
            StackEdgeClosesCycle(g, visited, inStack, path, finished, dep);
            return true;
          }
          ghost var before := visited;
          if dep !in visited {
            FewerUnvisited(g, old(visited), node, visited, dep);
            var deeper := DfsFindsCycle(g, dep);
            if deeper {
              return true;
            }
          }
          ScanOn(g, node, rest, dep, before, visited, inStack);
          rest := rest - {dep};
        }
      }

      LeaveCrate(g, old(visited), old(finished), visited, old(inStack), old(path), finished, node);
      PopCrate(old(inStack), old(path), node);
      inStack := inStack - {node};
      path := path[..|path| - 1];
      finished := finished + [node];
      return false;
    }
  }

  /** An edge from the top of the stack back into the stack closes a cycle. */
  lemma StackEdgeClosesCycle(g: DepGraph, visited: set<Crate>, inStack: set<Crate>, path: seq<Crate>,
                             finished: seq<Crate>, dep: Crate)
    requires SearchState(g, visited, inStack, path, finished)
    requires path != [] && dep in inStack && dep in Deps(g, path[|path| - 1])
    ensures HasCycle(g) && CycleWithin(g, inStack) && inStack <= visited
  {
    var i :| 0 <= i < |path| && path[i] == dep;
    assert IsCycle(g, path[i..]);
  }

  /** A crate whose dependencies are all finished is finished in turn, and everything visited since it was entered is
      settled. */
  lemma LeaveCrate(g: DepGraph, before: set<Crate>, finishedBefore: seq<Crate>, visited: set<Crate>,
                   inStack: set<Crate>, path: seq<Crate>, finished: seq<Crate>, node: Crate)
    requires SearchState(g, before, inStack, path, finishedBefore) && node !in before
    requires SearchState(g, visited, inStack + {node}, path + [node], finished)
    requires Scanned(g, node, {}, visited, inStack + {node})
    ensures SearchState(g, visited, inStack, path, finished + [node])
    ensures AllSettled(g, visited - before, visited)
  {
    hide Settled, DepsFirst, Deps;
    DepsFirstSnoc(g, finished, node);
    FinishedIsSettled(g, finished + [node], visited);
    forall i | 0 <= i < |path| - 1
      ensures path[i + 1] in Deps(g, path[i])
    {
      assert (path + [node])[i + 1] in Deps(g, (path + [node])[i]);
    }
    assert forall c :: c in finished + [node] <==> c in finished || c == node;
  }

  /** From a crate of a dependencies-first order every walk stays in the order. */
  lemma {:induction false} WalkStaysInOrder(g: DepGraph, order: seq<Crate>, w: seq<Crate>)
    requires DepsFirst(g, order) && IsWalk(g, w) && w != [] && w[0] in order
    ensures w[|w| - 1] in order
    decreases |w|
  {
    if |w| > 1 {
      var n := |w| - 1;
      WalkStaysInOrder(g, order, w[..n]);
      var i :| 0 <= i < |order| && order[i] == w[n - 1];
      assert w[n - 1 + 1] in Deps(g, w[n - 1]);
      assert w[n] in order[..i];
    }
  }

  lemma FinishedIsSettled(g: DepGraph, finished: seq<Crate>, visited: set<Crate>)
    requires DepsFirst(g, finished)
    requires forall c :: c in finished ==> c in visited
    ensures forall c :: c in finished ==> Settled(g, c, visited)
  {
    forall c | c in finished
      ensures Settled(g, c, visited)
    {
      forall w | IsWalk(g, w) && w != [] && w[0] == c
        ensures w[|w| - 1] in visited && forall cycle :: IsCycle(g, cycle) ==> w[|w| - 1] !in cycle
      {
        WalkStaysInOrder(g, finished, w);
        forall cycle | IsCycle(g, cycle)
          ensures w[|w| - 1] !in cycle
        {
          OrderedCratesLieOnNoCycle(g, finished, cycle);
        }
      }
    }
  }

  /** Why the search ends: searching from a dependency leaves fewer crates unvisited. */
  lemma FewerUnvisited(g: DepGraph, before: set<Crate>, node: Crate, visited: set<Crate>, dep: Crate)
    requires node !in before && before + {node} <= visited && dep in Deps(g, node)
    ensures Unvisited(g, dep, visited) < Unvisited(g, node, before)
  {
    assert dep in Nodes(g);
    assert node in Nodes(g) + {node} - before && node !in Nodes(g) + {dep} - visited;
  }

  /** The driver loop: start a search from every crate not yet visited and stop at the first cycle.
      It reports a cycle exactly when the graph has one. Without a cycle, the order in which crates
      were finished lists every dependency first. */
  method AnyDependencyCycle(g: DepGraph) returns (found: bool, ghost finished: seq<Crate>)
    ensures found <==> HasCycle(g)
    ensures !found ==> DepsFirst(g, finished) && Covers(finished, g.Keys)
  {
    var detector := new CycleDetector();
    var rest := g.Keys;
    while rest != {}
      invariant fresh(detector)
      invariant detector.Valid(g) && detector.path == [] && rest <= g.Keys
      invariant forall c :: c in g.Keys && c !in rest ==> c in detector.visited
      decreases rest
    {
      var start :| start in rest;
      rest := rest - {start};
      if start !in detector.visited {
        var cyclic := detector.DfsFindsCycle(g, start);
        if cyclic {
          return true, [];
        }
      }
    }
    finished := detector.finished;
    FullOrderMeansAcyclic(g, finished);
    return false, finished;
  }
}
