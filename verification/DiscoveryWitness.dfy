/** Runs with two discovered sensors, in which their order shows. An adapter that sorts what it discovers, as the ports
    document it, leaves the first of the two orders only; nothing in the pipeline enforces that. */
module DiscoveryWitness {
  import opened Types
  import opened Findings
  import opened Highlights
  import opened Summarize
  import opened Ingest
  import opened Evidence
  import opened Buildfix
  import opened AggregateFixes
  import opened DiscoveryOrder
  import FixOrder
  import Completion
  import SortKeys
  import StableSort

  /** What both sensors report. */
  const SHARED := Finding(Info, None, "c", "m", None, None, None, Some("fp"), None)

  /** A receipt with one information. */
  function ReceiptOf(f: Finding): SensorReport {
    SensorReport(Verdict(VerdictStatus.Pass, VerdictCounts(1, 0, 0, 0), []), [f])
  }

  type Plans = string -> seq<Fix>

  /** Sensors "a" and "b" have the same receipt; each has a plan. */
  function TwoSensorPorts(ids: seq<string>, plans: Plans): Ports {
    Ports(
      Ok(DiscoveredSensors(ids, false, 2, [])), Ok(None),
      id => id, id => Ok(ReportBytes([])), id => Ok(CommentMissing),
      id => Ok(PlanBytes(if id == "a" then [] else [0])), bytes => Ok(Valid), bytes => Ok(ReceiptOf(SHARED)),
      bytes => Some(BuildfixPlan(plans(if bytes == [] then "a" else "b"))), text => text,
      (report, cfg) => "", report => Ok(""), text => Ok(()), text => Ok(()))
  }

  /** "a" plans an unsafe fix and "b" a safe one. */
  const BOTH_PLAN: Plans := id => [Fix("f", if id == "a" then Unsafe else Safe, "", [])]

  /** Only "a" plans a fix, for the finding it reports. */
  const ONE_PLANS: Plans :=
    id => if id == "a" then [Fix("f", Safe, "", [FindingRef("a", Some("fp"), None)])] else []

  function TwoSensorSetting(ids: seq<string>, plans: Plans, req: Request): Setting {
    SettingFor(TwoSensorPorts(ids, plans), req, DEFAULT_CONFIG)
  }

  lemma BothRun(ids: seq<string>, plans: Plans, req: Request)
    ensures Run(TwoSensorPorts(ids, plans), req).Ok?
  {
    hide Run, Assembled;
    Completion.CompletesIff(TwoSensorPorts(ids, plans), req);
  }

  lemma OneFinding(id: string, f: Finding)
    requires f.severity == Info
    ensures CandidatesOf(id, ReceiptOf(f), DEFAULT_POLICY.maxPerSensorFindings) == [Highlight(id, f)]
  {
    var one := [f];
    StableSort.SortByFixpoint(ByFindingKey(id), one);
    assert SortFindings(id, one) == one && Take(one, 20) == one;
    OneInfo(f);
    assert one[..0] == [] && FromSensor(id, one) == [Highlight(id, f)];
  }

  lemma OneInfo(f: Finding)
    requires f.severity == Info
    ensures Counts([f]) == VerdictCounts(1, 0, 0, 0)
  {
    var one := [f];
    assert one[1..] == [] && CountOf(Info, []) == CountOf(Severity.Warn, []) == CountOf(Error, []) == 0;
    assert CountOf(Info, one) == 1 && CountOf(Severity.Warn, one) == 0 && CountOf(Error, one) == 0;
  }

  lemma Raises(ids: seq<string>, plans: Plans, req: Request, id: string)
    requires id in ["a", "b"]
    ensures var step := Process(TwoSensorSetting(ids, plans, req), id);
            step.Ok? && step.value.highlights == [Highlight(id, SHARED)]
  {
    hide CandidatesOf, SummaryOf;
    OneFinding(id, SHARED);
  }

  /** The sensor discovered first is the one whose finding is shown. */
  lemma FirstIsShown(plans: Plans, req: Request, x: string, y: string)
    requires x in ["a", "b"] && y in ["a", "b"]
    ensures var run := Run(TwoSensorPorts([x, y], plans), req);
            run.Ok? && run.value.report.highlights == [Highlight(x, SHARED)]
  {
    hide Run, Process, Select, AllRaised, TwoSensorPorts;
    var ids := [x, y];
    BothRun(ids, plans, req);
    var ports, s := TwoSensorPorts(ids, plans), TwoSensorSetting(ids, plans, req);
    var d := DiscoveredSensors(ids, false, 2, []);
    assert ports.discover == Ok(d) && ports.loadConfig == Ok(None) by { PortsAre(ids, plans); }
    var t := AllRaisedAre(ports, req, Run(ports, req).value, d);
    Raises(ids, plans, req, x);
    Raises(ids, plans, req, y);
    RaisedInTurn(s, d, x, y, Highlight(x, SHARED), Highlight(y, SHARED));
    ShowsFirst(ports.hash, BlockingMap(DEFAULT_CONFIG, ids), Highlight(x, SHARED), Highlight(y, SHARED));
  }

  lemma PortsAre(ids: seq<string>, plans: Plans)
    ensures var ports := TwoSensorPorts(ids, plans);
            ports.discover == Ok(DiscoveredSensors(ids, false, 2, [])) && ports.loadConfig == Ok(None)
  {
  }

  lemma TwoSteps(s: Setting, x: string, y: string)
    requires Process(s, x).Ok? && Process(s, y).Ok?
    ensures ProcessAll(s, [x, y]) == Ok([Process(s, x).value, Process(s, y).value])
  {
    hide Process, ProcessAll;
    var both, first, second := [x, y], Process(s, x).value, Process(s, y).value;
    NothingProcessed(s, both);
    WalkStep(s, both, 0, []);
    assert [] + [first] == [first];
    WalkStep(s, both, 1, [first]);
    assert both[..2] == both && [first] + [second] == [first, second];
  }

  lemma RaisedInTurn(s: Setting, d: DiscoveredSensors, x: string, y: string, h: Highlight, g: Highlight)
    requires Expected(s.cfg, d) == [x, y] && !d.truncated && d.invalidSensorIds == []
    requires Process(s, x).Ok? && Process(s, x).value.highlights == [h]
    requires Process(s, y).Ok? && Process(s, y).value.highlights == [g]
    ensures AllRaised(s, d) == [h, g]
  {
    hide Process, ProcessAll, Expected;
    TwoSteps(s, x, y);
    var steps := [Process(s, x).value, Process(s, y).value];
    assert steps[..1] == [Process(s, x).value] && steps[..1][..0] == [];
    assert Candidates([]) == [];
    assert Candidates(steps[..1]) == [] + [h];
    assert EarlyCandidates(s.ports, d) == [];
  }

  lemma ShowsFirst(hash: Fingerprint.Hash, blocking: Blocking, h: Highlight, g: Highlight)
    requires h.finding.fingerprint.Some? && h.finding.fingerprint == g.finding.fingerprint
    ensures Select(hash, blocking, DEFAULT_POLICY.maxHighlights, [h, g]) == [h]
  {
    hide Dedup, HighlightKey, SortKeys.KeyLeq;
    RepeatIsDropped(hash, h, g);
    StableSort.SortByFixpoint(ByHighlightKey(blocking), [h]);
  }

  /** Two runs that differ in the order of discovery only show different highlights. */
  lemma OrderShowsInHighlights(req: Request)
    ensures var p, q := TwoSensorPorts(["a", "b"], BOTH_PLAN), TwoSensorPorts(["b", "a"], BOTH_PLAN);
            && q == p.(discover := q.discover) && Reordered(p.discover.value, q.discover.value)
            && Run(p, req).Ok? && Run(q, req).Ok?
            && Run(p, req).value.report.highlights != Run(q, req).value.report.highlights
  {
    hide Run, BOTH_PLAN;
    FirstIsShown(BOTH_PLAN, req, "a", "b");
    FirstIsShown(BOTH_PLAN, req, "b", "a");
    SamePorts(["a", "b"], ["b", "a"], BOTH_PLAN);
    assert "a" != "b";
  }

  lemma SamePorts(ids: seq<string>, ids': seq<string>, plans: Plans)
    ensures TwoSensorPorts(ids', plans) == TwoSensorPorts(ids, plans).(discover := TwoSensorPorts(ids', plans).discover)
  {
  }

  // ---- Fixes ----

  lemma PlannedBy(ids: seq<string>, plans: Plans)
    ensures PlannedFixes(TwoSensorPorts(ids, plans), "a") == plans("a")
    ensures PlannedFixes(TwoSensorPorts(ids, plans), "b") == plans("b")
  {
  }

  lemma OrderOfPlans(ports: Ports)
    requires PlannedFixes(ports, "a") == [Fix("f", Unsafe, "", [])]
             && PlannedFixes(ports, "b") == [Fix("f", Safe, "", [])]
    ensures !PlansBySafety(ports, ["a", "b"]) && PlansBySafety(ports, ["b", "a"])
  {
    hide PlannedFixes;
    var ab, unsafe, safe := ["a", "b"], Fix("f", Unsafe, "", []), Fix("f", Safe, "", []);
    assert unsafe in PlannedFixes(ports, ab[0]) && safe in PlannedFixes(ports, ab[1]);
  }

  /** With two plans the two runs list their fixes in different orders: selecting from them takes an initial stretch at
      every safety level in the second, not in the first. */
  lemma OrderShowsInFixes(req: Request)
    ensures var p, q := TwoSensorPorts(["a", "b"], BOTH_PLAN), TwoSensorPorts(["b", "a"], BOTH_PLAN);
            && Run(p, req).Ok? && Run(q, req).Ok?
            && !SelectsInitialStretch(FixesIn(Run(p, req).value.report.buildfix))
            && SelectsInitialStretch(FixesIn(Run(q, req).value.report.buildfix))
  {
    hide Run, SelectsInitialStretch, FixesIn;
    assert ["a", "b"][0] != ["b", "a"][0];
    TwoPlans(["a", "b"], req);
    TwoPlans(["b", "a"], req);
  }

  lemma TwoPlans(ids: seq<string>, req: Request)
    requires ids in [["a", "b"], ["b", "a"]]
    ensures var run := Run(TwoSensorPorts(ids, BOTH_PLAN), req);
            run.Ok? && (SelectsInitialStretch(FixesIn(run.value.report.buildfix)) <==> ids == ["b", "a"])
  {
    hide Run, SelectsInitialStretch, FixesIn, PlansBySafety, PlannedFixes, SafetySorted;
    var ports := TwoSensorPorts(ids, BOTH_PLAN);
    BothRun(ids, BOTH_PLAN, req);
    RunFixesSortedIff(ports, req, Run(ports, req).value, DiscoveredSensors(ids, false, 2, []));
    PlannedBy(ids, BOTH_PLAN);
    OrderOfPlans(ports);
    assert ["a", "b"][0] != ["b", "a"][0];
  }

  /** With one plan only, the order shows in what its fix is matched to: the finding it refers to is shown in the first
      run and not in the second. */
  lemma OrderShowsInMatches(req: Request)
    ensures var p, q := TwoSensorPorts(["a", "b"], ONE_PLANS), TwoSensorPorts(["b", "a"], ONE_PLANS);
            && Run(p, req).Ok? && Run(q, req).Ok?
            && FixOrder.OnePlanner(p, ["a", "b"])
            && (forall f :: f in FixesIn(Run(p, req).value.report.buildfix) ==> !f.unmatched)
            && (forall f :: f in FixesIn(Run(q, req).value.report.buildfix) ==> f.unmatched)
            && Run(p, req).value.report.buildfix.Some? && Run(q, req).value.report.buildfix.Some?
  {
    hide Run, FixesIn;
    OnePlan("a", "b", req);
    OnePlan("b", "a", req);
    PlannedBy(["a", "b"], ONE_PLANS);
  }

  lemma OnePlan(x: string, y: string, req: Request)
    requires (x == "a" && y == "b") || (x == "b" && y == "a")
    ensures var run := Run(TwoSensorPorts([x, y], ONE_PLANS), req);
            && run.Ok? && run.value.report.buildfix.Some?
            && forall f :: f in FixesIn(run.value.report.buildfix) ==> (f.unmatched <==> x == "b")
  {
    hide Run, FixesIn, PlannedFixes, FixTotal, FixMatchList, TwoSensorPorts;
    var ids := [x, y];
    var ports := TwoSensorPorts(ids, ONE_PLANS);
    var d := DiscoveredSensors(ids, false, 2, []);
    FirstIsShown(ONE_PLANS, req, x, y);
    PortsAre(ids, ONE_PLANS);
    PlannedBy(ids, ONE_PLANS);
    RunBuildfix(ports, req, Run(ports, req).value, d);
    PlanTotal(ports, x, y);
    MatchedByFirst(x);
  }

  lemma PlanTotal(ports: Ports, x: string, y: string)
    requires PlannedFixes(ports, x) != [] || PlannedFixes(ports, y) != []
    ensures FixTotal(ports, [x, y]) > 0
  {
    hide PlannedFixes;
    assert [x, y][1..] == [y] && FixTotal(ports, [y]) >= |PlannedFixes(ports, y)|;
  }

  lemma MatchedByFirst(x: string)
    ensures forall fix :: fix in ONE_PLANS("a") ==>
      (Summarized("a", fix, [Highlight(x, SHARED)]).unmatched <==> x != "a")
  {
    hide FixMatchList;
    var hs := [Highlight(x, SHARED)];
    assert Highlight(x, SHARED) in hs;
    forall fix | fix in ONE_PLANS("a")
      ensures FixMatches("a", fix, hs) <==> x == "a"
    {
      assert fix.findingRefs[0] in fix.findingRefs;
    }
  }
}
