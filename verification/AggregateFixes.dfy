/** The fixes a run reports: those of the plans of all discovered sensors, plan after plan. */
module AggregateFixes {
  import opened Types
  import opened Buildfix
  import opened Ingest
  import opened IngestGuarantees
  import OverallVerdict

  /** The fixes of the sensor's plan, none if there is no plan that parses. */
  function PlannedFixes(ports: Ports, id: string): seq<Fix> {
    match ports.readPlan(id)
    case Ok(PlanBytes(bytes)) =>
      (match ports.parsePlan(bytes)
       case Some(plan) => plan.fixes
       case None => [])
    case _ => []
  }

  ghost function FixesFor(ports: Ports, ids: seq<string>, highlights: seq<Highlight>): seq<FixSummary> {
    if ids == [] then []
    else
      MatchedPlan(ids[0], BuildfixPlan(PlannedFixes(ports, ids[0])), highlights)
      + FixesFor(ports, ids[1..], highlights)
  }

  lemma {:induction false} FixesForAppend(ports: Ports, a: seq<string>, b: seq<string>, highlights: seq<Highlight>)
    ensures FixesFor(ports, a + b, highlights) == FixesFor(ports, a, highlights) + FixesFor(ports, b, highlights)
  {
    hide MatchedPlan, PlannedFixes;
    if a == [] {
      assert a + b == b;
    } else {
      assert (a + b)[0] == a[0] && (a + b)[1..] == a[1..] + b;
      FixesForAppend(ports, a[1..], b, highlights);
    }
  }

  lemma {:induction false} AllFixesAre(ports: Ports, ids: seq<string>, highlights: seq<Highlight>)
    requires AllFixes(ports, ids, highlights).Ok?
    ensures AllFixes(ports, ids, highlights).value == FixesFor(ports, ids, highlights)
  {
    hide MatchedPlan;
    if ids != [] {
      var n := |ids| - 1;
      AllFixesAre(ports, ids[..n], highlights);
      FixesForAppend(ports, ids[..n], [ids[n]], highlights);
      assert ids == ids[..n] + [ids[n]];
      EmptyPlan(ids[n], highlights);
      assert FixesFor(ports, [ids[n]], highlights) ==
             MatchedPlan(ids[n], BuildfixPlan(PlannedFixes(ports, ids[n])), highlights);
    }
  }

  lemma EmptyPlan(id: string, highlights: seq<Highlight>)
    ensures MatchedPlan(id, BuildfixPlan([]), highlights) == []
  {
  }

  lemma {:induction false} FixesForMembers(ports: Ports, ids: seq<string>, highlights: seq<Highlight>)
    ensures forall f :: f in FixesFor(ports, ids, highlights) <==>
      exists id, fix :: id in ids && fix in PlannedFixes(ports, id) && f == Summarized(id, fix, highlights)
  {
    hide MatchedPlan, PlannedFixes, Summarized;
    if ids != [] {
      var id := ids[0];
      FixesForMembers(ports, ids[1..], highlights);
      PlanResult(id, BuildfixPlan(PlannedFixes(ports, id)), highlights);
      assert ids == [id] + ids[1..];
      forall f
        ensures f in FixesFor(ports, ids, highlights) <==>
          exists id, fix :: id in ids && fix in PlannedFixes(ports, id) && f == Summarized(id, fix, highlights)
      {
        if f in MatchedPlan(id, BuildfixPlan(PlannedFixes(ports, id)), highlights) {
          var fix :| fix in PlannedFixes(ports, id) && f == Summarized(id, fix, highlights);
          assert id in ids;
        }
      }
    }
  }

  /** How many fixes the plans of these sensors hold, a sensor listed twice counting twice. */
  function FixTotal(ports: Ports, ids: seq<string>): nat {
    if ids == [] then 0 else |PlannedFixes(ports, ids[0])| + FixTotal(ports, ids[1..])
  }

  lemma {:induction false} FixesForSize(ports: Ports, ids: seq<string>, highlights: seq<Highlight>)
    ensures |FixesFor(ports, ids, highlights)| == FixTotal(ports, ids)
  {
    hide MatchedPlan, PlannedFixes;
    if ids != [] {
      FixesForSize(ports, ids[1..], highlights);
      PlanResult(ids[0], BuildfixPlan(PlannedFixes(ports, ids[0])), highlights);
    }
  }

  function FixesIn(buildfix: Option<BuildfixSummary>): seq<FixSummary> {
    if buildfix.Some? then buildfix.value.fixes else []
  }

  lemma RunFixes(ports: Ports, req: Request, res: IngestResult, d: DiscoveredSensors)
    requires Run(ports, req) == Ok(res) && ports.discover == Ok(d)
    ensures res.buildfix == res.report.buildfix
    ensures FixesIn(res.report.buildfix) == FixesFor(ports, d.sensors, res.report.highlights)
    ensures res.report.buildfix ==
            var fixes := FixesIn(res.report.buildfix);
            if fixes == [] then None else Some(SummaryFrom(fixes))
  {
    hide ProcessAll, Expected, RunRows, RunHighlights, OverallVerdict.Overall, AllFixes;
    var s, d', steps := RunSteps(ports, req, res);
    AllFixesAre(ports, d.sensors, res.report.highlights);
  }

  /** What a run reports about fixes: one entry per fix of a plan of a discovered sensor, matched against the highlights
      of the report, unmatched exactly when no reference of the fix agrees with one of them; and three consistent
      totals. Without any fix nothing is reported. */
  lemma RunBuildfix(ports: Ports, req: Request, res: IngestResult, d: DiscoveredSensors)
    requires Run(ports, req) == Ok(res) && ports.discover == Ok(d)
    ensures res.buildfix == res.report.buildfix
    ensures var buildfix, hs := res.report.buildfix, res.report.highlights;
            && (buildfix.None? <==> FixTotal(ports, d.sensors) == 0)
            && (buildfix.Some? ==>
                && buildfix.value.totalFixes == |buildfix.value.fixes| == FixTotal(ports, d.sensors)
                && buildfix.value.matchedCount + buildfix.value.unmatchedCount == buildfix.value.totalFixes
                && buildfix.value.unmatchedCount == UnmatchedCount(buildfix.value.fixes))
            && (forall f :: f in FixesIn(buildfix) <==>
                  exists id, fix :: id in d.sensors && fix in PlannedFixes(ports, id) && f == Summarized(id, fix, hs))
            && (forall id, fix :: Summarized(id, fix, hs).unmatched <==>
                  forall fref, h :: fref in fix.findingRefs && h in hs ==> !RefMatches(id, fref, h))
  {
    hide Run, FixTotal, PlannedFixes, RefMatches, FixMatchList;
    RunFixes(ports, req, res, d);
    FixesForSize(ports, d.sensors, res.report.highlights);
    FixesForMembers(ports, d.sensors, res.report.highlights);
    CountsSplit(FixesIn(res.report.buildfix));
  }

  // ---- The order of the aggregate ----

  /** No plan holds a fix that is safer than one of an earlier sensor's plan. */
  ghost predicate PlansBySafety(ports: Ports, ids: seq<string>) {
    forall i, j, fix, later ::
      0 <= i < j < |ids| && fix in PlannedFixes(ports, ids[i]) && later in PlannedFixes(ports, ids[j]) ==>
      SafetyLevelRank(fix.safety) <= SafetyLevelRank(later.safety)
  }

  lemma SafetyAppend(a: seq<FixSummary>, b: seq<FixSummary>)
    ensures SafetySorted(a + b) <==>
            && SafetySorted(a) && SafetySorted(b)
            && forall f, g :: f in a && g in b ==> SafetyLevelRank(f.safety) <= SafetyLevelRank(g.safety)
  {
    hide SafetyLevelRank;
    var c := a + b;
    if SafetySorted(c) {
      forall f, g | f in a && g in b
        ensures SafetyLevelRank(f.safety) <= SafetyLevelRank(g.safety)
      {
        var i :| 0 <= i < |a| && a[i] == f;
        var j :| 0 <= j < |b| && b[j] == g;
        assert c[i] == f && c[|a| + j] == g;
      }
      forall i, j | 0 <= i < j < |a|
        ensures SafetyLevelRank(a[i].safety) <= SafetyLevelRank(a[j].safety)
      {
        assert c[i] == a[i] && c[j] == a[j];
      }
      forall i, j | 0 <= i < j < |b|
        ensures SafetyLevelRank(b[i].safety) <= SafetyLevelRank(b[j].safety)
      {
        assert c[|a| + i] == b[i] && c[|a| + j] == b[j];
      }
    }
  }

  lemma PlanIsSafetySorted(id: string, plan: BuildfixPlan, highlights: seq<Highlight>)
    ensures SafetySorted(MatchedPlan(id, plan, highlights))
  {
    hide MatchedPlan;
    forall max
      ensures SelectAutoApplyFixes(MatchedPlan(id, plan, highlights), max, false) <= MatchedPlan(id, plan, highlights)
    {
      PlanSelection(id, plan, highlights, max, max);
    }
    SelectIsPrefixIff(MatchedPlan(id, plan, highlights));
  }

  lemma PlansBySafetyCons(ports: Ports, ids: seq<string>)
    requires ids != []
    ensures PlansBySafety(ports, ids) <==>
            && PlansBySafety(ports, ids[1..])
            && forall id, fix, later ::
                 id in ids[1..] && fix in PlannedFixes(ports, ids[0]) && later in PlannedFixes(ports, id) ==>
                 SafetyLevelRank(fix.safety) <= SafetyLevelRank(later.safety)
  {
    hide PlannedFixes, SafetyLevelRank;
    var t := ids[1..];
    assert forall j :: 1 <= j < |ids| ==> ids[j] == t[j - 1] && ids[j] in t;
    assert forall j :: 0 <= j < |t| ==> t[j] == ids[j + 1];
  }

  lemma {:induction false} SafetySortedIff(ports: Ports, ids: seq<string>, highlights: seq<Highlight>)
    ensures SafetySorted(FixesFor(ports, ids, highlights)) <==> PlansBySafety(ports, ids)
  {
    hide SafetySorted, MatchedPlan, PlannedFixes, SafetyLevelRank, PlansBySafety, Summarized;
    if ids == [] {
      NothingToOrder(ports);
    } else {
      var plan := BuildfixPlan(PlannedFixes(ports, ids[0]));
      var a, b := MatchedPlan(ids[0], plan, highlights), FixesFor(ports, ids[1..], highlights);
      SafetySortedIff(ports, ids[1..], highlights);
      SafetyAppend(a, b);
      PlanIsSafetySorted(ids[0], plan, highlights);
      PlanResult(ids[0], plan, highlights);
      FixesForMembers(ports, ids[1..], highlights);
      PlansBySafetyCons(ports, ids);
      SameSafety(highlights);
      if forall f, g :: f in a && g in b ==> SafetyLevelRank(f.safety) <= SafetyLevelRank(g.safety) {
        forall id, fix, later | id in ids[1..] && fix in plan.fixes && later in PlannedFixes(ports, id)
          ensures SafetyLevelRank(fix.safety) <= SafetyLevelRank(later.safety)
        {
          assert Summarized(ids[0], fix, highlights) in a && Summarized(id, later, highlights) in b;
        }
      }
    }
  }

  lemma NothingToOrder(ports: Ports)
    ensures SafetySorted([]) && PlansBySafety(ports, [])
  {
  }

  lemma SameSafety(highlights: seq<Highlight>)
    ensures forall id, fix :: Summarized(id, fix, highlights).safety == fix.safety
  {
  }

  /** Selecting from the fixes a run reports takes an initial stretch at every safety level exactly when the plans
      themselves come in order of safety. */
  lemma RunFixesSortedIff(ports: Ports, req: Request, res: IngestResult, d: DiscoveredSensors)
    requires Run(ports, req) == Ok(res) && ports.discover == Ok(d)
    ensures SafetySorted(FixesIn(res.report.buildfix)) <==> PlansBySafety(ports, d.sensors)
    ensures SelectsInitialStretch(FixesIn(res.report.buildfix)) <==> PlansBySafety(ports, d.sensors)
  {
    hide Run, SafetySorted, PlansBySafety, SelectsInitialStretch;
    RunFixes(ports, req, res, d);
    SafetySortedIff(ports, d.sensors, res.report.highlights);
    SelectIsPrefixIff(FixesIn(res.report.buildfix));
  }

  /** Appending the fixes of one plan to those of another keeps them sorted by safety exactly when the last fix
      of the first is no less safe to put before the first fix of the second. */
  lemma AppendedFixesSortedIff(a: seq<FixSummary>, b: seq<FixSummary>)
    requires SafetySorted(a) && SafetySorted(b) && a != [] && b != []
    ensures SafetySorted(a + b) <==> SafetyLevelRank(a[|a| - 1].safety) <= SafetyLevelRank(b[0].safety)
  {
    if SafetySorted(a + b) {
      assert (a + b)[|a| - 1] == a[|a| - 1] && (a + b)[|a|] == b[0];
    }
    if SafetyLevelRank(a[|a| - 1].safety) <= SafetyLevelRank(b[0].safety) {
      forall i, j | 0 <= i < j < |a + b|
        ensures SafetyLevelRank((a + b)[i].safety) <= SafetyLevelRank((a + b)[j].safety)
      {
        if i < |a| <= j {
          assert i == |a| - 1 || SafetyLevelRank(a[i].safety) <= SafetyLevelRank(a[|a| - 1].safety);
          assert j == |a| || SafetyLevelRank(b[0].safety) <= SafetyLevelRank(b[j - |a|].safety);
        }
      }
    }
  }
}
