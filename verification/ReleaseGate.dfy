/** The release gate (`release_workflow_tier_ordering_matches_deps`) and how the three graph checks of
    the workspace relate: depth-first detector, Kahn's count and release gate. */
module ReleaseGate {
  import opened Graph
  import CycleDetection
  import PublishOrder

  /** `crate` is published while `dependency` is not yet. */
  datatype Violation = Violation(crate: Crate, dependency: Crate)

  /** `v` names a crate among the first `n` published whose dependency was not published before it. */
  ghost predicate Early(g: DepGraph, order: seq<Crate>, n: nat, v: Violation) {
    exists i :: 0 <= i < n <= |order| && order[i] == v.crate && v.dependency in Deps(g, order[i])
      && v.dependency !in order[..i]
  }

  /** How many (step, missing dependency) pairs the first `n` steps have. */
  ghost function EarlyCount(g: DepGraph, order: seq<Crate>, n: nat): nat
    requires n <= |order|
  {
    if n == 0 then 0 else EarlyCount(g, order, n - 1) + |Missing(g, order, n - 1)|
  }

  ghost function Missing(g: DepGraph, order: seq<Crate>, i: nat): set<Crate>
    requires i < |order|
  {
    set d | d in Deps(g, order[i]) && d !in order[..i]
  }

  lemma EarlyStep(g: DepGraph, order: seq<Crate>, n: nat, v: Violation)
    requires n < |order|
    ensures Early(g, order, n + 1, v) <==>
            Early(g, order, n, v) || (v.crate == order[n] && v.dependency in Missing(g, order, n))
  {
    if Early(g, order, n, v) {
      var i :| 0 <= i < n <= |order| && order[i] == v.crate && v.dependency in Deps(g, order[i])
        && v.dependency !in order[..i];
      assert 0 <= i < n + 1 <= |order|;
    }
  }

  /** No violation at all means dependencies first. */
  lemma NoneEarlyIffDepsFirst(g: DepGraph, order: seq<Crate>)
    ensures (forall v :: !Early(g, order, |order|, v)) <==> DepsFirst(g, order)
  {
    if forall v :: !Early(g, order, |order|, v) {
      forall i, d | 0 <= i < |order| && d in Deps(g, order[i])
        ensures d in order[..i]
      {
        assert !Early(g, order, |order|, Violation(order[i], d));
      }
    }
  }

  /** The gate's loop: every dependency not yet published when its dependent is, is reported. */
  method CheckReleaseOrder(order: seq<Crate>, g: DepGraph) returns (violations: seq<Violation>)
    ensures violations == [] <==> DepsFirst(g, order)
    ensures forall v :: v in violations <==> Early(g, order, |order|, v)
    ensures |violations| == EarlyCount(g, order, |order|)
  {
    hide Early, DepsFirst;
    violations := [];
    var published: set<Crate> := {};
    NothingEarly(g, order);
    for n := 0 to |order|
      invariant forall c :: c in published <==> c in order[..n]
      invariant forall v :: v in violations <==> Early(g, order, n, v)
      invariant |violations| == EarlyCount(g, order, n)
    {
      var missing := ReportMissing(order, n, g, published);
      forall v
        ensures v in violations + missing <==> Early(g, order, n + 1, v)
      {
        EarlyStep(g, order, n, v);
      }
      violations := violations + missing;
      published := published + {order[n]};
      assert order[..n + 1] == order[..n] + [order[n]];
    }
    NoneEarlyIffDepsFirst(g, order);
    assert violations != [] ==> violations[0] in violations;
  }

  lemma NothingEarly(g: DepGraph, order: seq<Crate>)
    ensures forall v :: !Early(g, order, 0, v)
  {
  }

  /** The inner loop over the dependencies of `order[n]`. */
  method ReportMissing(order: seq<Crate>, n: nat, g: DepGraph, published: set<Crate>) returns (found: seq<Violation>)
    requires n < |order| && forall c :: c in published <==> c in order[..n]
    ensures forall v :: v in found <==> v.crate == order[n] && v.dependency in Missing(g, order, n)
    ensures |found| == |Missing(g, order, n)|
  {
    found := [];
    ghost var missing: set<Crate> := {};
    if order[n] in g {
      var rest := g[order[n]];
      while rest != {}
        invariant rest <= Deps(g, order[n])
        invariant forall d :: d in missing <==> d in Deps(g, order[n]) && d !in rest && d !in published
        invariant |found| == |missing|
        invariant forall v :: v in found <==> v.crate == order[n] && v.dependency in missing
        decreases rest
      {
        var dep :| dep in rest;
        rest := rest - {dep};
        if dep !in published {
          found := found + [Violation(order[n], dep)];
          missing := missing + {dep};
        }
      }
    }
    assert missing == Missing(g, order, n);
  }

  /** The depth-first detector and Kahn's count, run on one dependency graph, always agree: a cycle is
      found exactly when some crate is never popped. */
  method DetectorsAgree(g: DepGraph) returns (found: bool, sorted: nat)
    ensures found <==> HasCycle(g)
    ensures found <==> sorted != |g.Keys|
  {
    ghost var finished;
    found, finished := CycleDetection.AnyDependencyCycle(g);
    var closed := Restrict(g, g.Keys);
    ghost var order, popped;
    assert closed.Keys == g.Keys;
    sorted, order, popped := PublishOrder.SortPublishable(g.Keys, closed);
    RestrictToKeysKeepsCycles(g);
  }

  ghost predicate DependsWithin(g: DepGraph, publishable: set<Crate>) {
    forall c :: c in publishable ==> Deps(g, c) <= publishable
  }

  /** Kahn's sort sees only publishable crates; the gate sees every workspace dependency. A complete Kahn
      order passes the gate exactly when no publishable crate depends on an unpublishable one. */
  lemma KahnOrderPassesGate(g: DepGraph, publishable: set<Crate>, order: seq<Crate>)
    requires publishable <= g.Keys && PublishOrder.Holds(order, publishable)
    requires DepsFirst(Restrict(g, publishable), order)
    ensures DepsFirst(g, order) <==> DependsWithin(g, publishable)
  {
    var r := Restrict(g, publishable);
    forall c | c in publishable
      ensures Deps(r, c) == Deps(g, c) * publishable
    {
    }
    if DepsFirst(g, order) {
      forall c, d | c in publishable && d in Deps(g, c)
        ensures d in publishable
      {
        assert c in order;
        var i :| 0 <= i < |order| && order[i] == c;
        assert d in order[..i];
        assert d in order;
      }
    }
    if DependsWithin(g, publishable) {
      forall i, d | 0 <= i < |order| && d in Deps(g, order[i])
        ensures d in order[..i]
      {
        assert order[i] in order;
        assert d in Deps(r, order[i]);
      }
    }
  }

  /** A publishable crate that depends on an unpublishable one: Kahn's sort places it, the gate reports it. */
  lemma UnpublishableDependencyFailsGate(a: Crate, b: Crate)
    requires a != b
    ensures var g, publishable, order := map[a := {b}, b := {}], {a}, [a];
            && publishable <= g.Keys && PublishOrder.Holds(order, publishable)
            && DepsFirst(Restrict(g, publishable), order) && !DepsFirst(g, order)
  {
    var g, publishable, order := map[a := {b}, b := {}], {a}, [a];
    assert order[0] == a && Deps(Restrict(g, publishable), a) == {};
    assert b in Deps(g, order[0]) && b !in order[..0];
  }

  /** Any order that lists every publishable crate and passes the gate shows that the publishable
      crates are free of cycles, whatever else it lists and however often. */
  lemma PassingOrderMeansAcyclic(g: DepGraph, publishable: set<Crate>, order: seq<Crate>)
    requires DepsFirst(g, order) && Covers(order, publishable)
    ensures !HasCycle(Restrict(g, publishable))
  {
    var r := Restrict(g, publishable);
    forall i, d | 0 <= i < |order| && d in Deps(r, order[i])
      ensures d in order[..i]
    {
      assert d in Deps(g, order[i]);
    }
    FullOrderMeansAcyclic(r, order);
  }

  /** The release can be ordered at all, publishing publishable crates only, exactly when they are free of
      cycles and depend on nothing else of the workspace. */
  lemma ReleasableIff(g: DepGraph, publishable: set<Crate>)
    requires publishable <= g.Keys
    ensures (exists order :: DepsFirst(g, order) && Covers(order, publishable)
                               && forall c :: c in order ==> c in publishable)
        <==> !HasCycle(Restrict(g, publishable)) && DependsWithin(g, publishable)
  {
    var r := Restrict(g, publishable);
    if order :| DepsFirst(g, order) && Covers(order, publishable) && forall c :: c in order ==> c in publishable {
      PassingOrderMeansAcyclic(g, publishable, order);
      forall c, d | c in publishable && d in Deps(g, c)
        ensures d in publishable
      {
        var i :| 0 <= i < |order| && order[i] == c;
        assert d in order[..i];
        assert d in order;
      }
    }
    if !HasCycle(r) && DependsWithin(g, publishable) {
      var order := ExtendOrder(r, []);
      forall i, d | 0 <= i < |order| && d in Deps(g, order[i])
        ensures d in order[..i]
      {
        assert order[i] in order && order[i] in Nodes(r);
        assert d in Deps(r, order[i]);
      }
      assert DepsFirst(g, order);
    }
  }
}
