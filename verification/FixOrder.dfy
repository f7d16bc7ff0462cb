/** Exactly when the order of the discovered sensors shows in the fixes of a report: in the order they are listed in,
    and in what they are matched to. */
module FixOrder {
  import opened Types
  import opened SortKeys
  import opened StableSort
  import opened Buildfix
  import opened Ingest
  import opened AggregateFixes
  import opened DiscoveryOrder
  import opened SensorOrder
  import OverallVerdict

  function Repeat<T>(s: seq<T>, n: nat): seq<T> {
    if n == 0 then [] else s + Repeat(s, n - 1)
  }

  lemma {:induction false} OnePlanRepeats(ports: Ports, ids: seq<string>, id: string, hs: seq<Highlight>)
    requires forall j :: j in ids && PlannedFixes(ports, j) != [] ==> j == id
    ensures FixesFor(ports, ids, hs) ==
            Repeat(MatchedPlan(id, BuildfixPlan(PlannedFixes(ports, id)), hs), multiset(ids)[id])
  {
    hide MatchedPlan, PlannedFixes;
    if ids != [] {
      var rest := ids[1..];
      CountCons(ids, id);
      assert forall j :: j in rest ==> j in ids;
      OnePlanRepeats(ports, rest, id, hs);
      EmptyPlan(ids[0], hs);
    }
  }

  lemma CountCons(ids: seq<string>, id: string)
    requires ids != []
    ensures multiset(ids)[id] == multiset(ids[1..])[id] + if ids[0] == id then 1 else 0
  {
    assert ids == [ids[0]] + ids[1..];
  }

  ghost predicate FixOrderNeverShows(ports: Ports, ids: seq<string>, hs: seq<Highlight>) {
    forall ids' :: multiset(ids') == multiset(ids) ==> FixesFor(ports, ids', hs) == FixesFor(ports, ids, hs)
  }

  /** A sensor with a plan can come first, and then its fixes do. */
  lemma PlanFirst(ports: Ports, ids: seq<string>, hs: seq<Highlight>, id: string)
    requires FixOrderNeverShows(ports, ids, hs) && id in ids && PlannedFixes(ports, id) != []
    ensures FixesFor(ports, ids, hs) != [] && FixesFor(ports, ids, hs)[0].sensorId == id
  {
    hide MatchedPlan, PlannedFixes;
    var i, rest := TakeOut(ids, id);
    var first := [id] + rest;
    assert multiset(first) == multiset(ids);
    assert FixesFor(ports, first, hs) == FixesFor(ports, ids, hs);
    var plan := BuildfixPlan(PlannedFixes(ports, id));
    var matched := MatchedPlan(id, plan, hs);
    PlanResult(id, plan, hs);
    assert matched[0] in matched;
    assert first[0] == id && FixesFor(ports, first, hs)[0] == matched[0];
  }

  ghost predicate OnePlanner(ports: Ports, ids: seq<string>) {
    forall i, j :: i in ids && j in ids && PlannedFixes(ports, i) != [] && PlannedFixes(ports, j) != [] ==> i == j
  }

  /** Matched against the same highlights, fixes are listed alike for every order of the sensors exactly when at most
      one of them plans any. */
  lemma FixOrderIff(ports: Ports, ids: seq<string>, hs: seq<Highlight>)
    ensures FixOrderNeverShows(ports, ids, hs) <==> OnePlanner(ports, ids)
  {
    hide PlannedFixes, FixesFor;
    if OnePlanner(ports, ids) {
      var id := "";
      if i :| i in ids && PlannedFixes(ports, i) != [] {
        id := i;
      }
      forall ids' | multiset(ids') == multiset(ids)
        ensures FixesFor(ports, ids', hs) == FixesFor(ports, ids, hs)
      {
        SameMembers(ids', ids);
        OnePlanRepeats(ports, ids', id, hs);
        OnePlanRepeats(ports, ids, id, hs);
      }
    }
    if FixOrderNeverShows(ports, ids, hs) {
      forall i, j | i in ids && j in ids && PlannedFixes(ports, i) != [] && PlannedFixes(ports, j) != []
        ensures i == j
      {
        PlanFirst(ports, ids, hs, i);
        PlanFirst(ports, ids, hs, j);
      }
    }
  }

  // ---- Fixes without what they are matched to ----

  function Bare(f: FixSummary): FixSummary {
    f.(matchedFindings := [], unmatched := true)
  }

  /** The fixes as listed, without their matches. */
  function Listing(fixes: seq<FixSummary>): seq<FixSummary> {
    if fixes == [] then [] else [Bare(fixes[0])] + Listing(fixes[1..])
  }

  lemma {:induction false} ListingAppend(a: seq<FixSummary>, b: seq<FixSummary>)
    ensures Listing(a + b) == Listing(a) + Listing(b)
  {
    if a == [] {
      assert a + b == b;
    } else {
      assert (a + b)[1..] == a[1..] + b;
      ListingAppend(a[1..], b);
    }
  }

  /** Matches do not take part in sorting. */
  lemma {:induction false} ListingInsert(x: FixSummary, fixes: seq<FixSummary>)
    ensures Listing(Insert(BY_FIX_KEY, x, fixes)) == Insert(BY_FIX_KEY, Bare(x), Listing(fixes))
  {
    hide KeyLeq;
    if fixes != [] {
      assert BY_FIX_KEY(Bare(x)) == BY_FIX_KEY(x) && BY_FIX_KEY(Bare(fixes[0])) == BY_FIX_KEY(fixes[0]);
      if !KeyLeq(BY_FIX_KEY(x), BY_FIX_KEY(fixes[0])) {
        ListingInsert(x, fixes[1..]);
        assert Insert(BY_FIX_KEY, x, fixes)[1..] == Insert(BY_FIX_KEY, x, fixes[1..]);
      } else {
        assert Insert(BY_FIX_KEY, x, fixes)[1..] == fixes;
      }
    }
  }

  lemma {:induction false} ListingSort(fixes: seq<FixSummary>)
    ensures Listing(SortBy(BY_FIX_KEY, fixes)) == SortBy(BY_FIX_KEY, Listing(fixes))
  {
    if fixes != [] {
      ListingSort(fixes[1..]);
      ListingInsert(fixes[0], SortBy(BY_FIX_KEY, fixes[1..]));
    }
  }

  lemma BareIsUnmatched(id: string, fix: Fix, hs: seq<Highlight>)
    ensures Bare(Summarized(id, fix, hs)) == Summarized(id, fix, [])
  {
    MatchesIffListed(id, fix, []);
  }

  lemma {:induction false} ListingSummarized(id: string, fixes: seq<Fix>, hs: seq<Highlight>)
    ensures Listing(SummarizedAll(id, fixes, hs)) == SummarizedAll(id, fixes, [])
  {
    hide Summarized, Bare;
    if fixes != [] {
      var n := |fixes| - 1;
      ListingSummarized(id, fixes[..n], hs);
      BareIsUnmatched(id, fixes[n], hs);
      ListingAppend(SummarizedAll(id, fixes[..n], hs), [Summarized(id, fixes[n], hs)]);
    }
  }

  /** What is listed does not depend on the highlights. */
  lemma {:induction false} ListingOfFixes(ports: Ports, ids: seq<string>, hs: seq<Highlight>)
    ensures Listing(FixesFor(ports, ids, hs)) == FixesFor(ports, ids, [])
  {
    hide SummarizedAll, PlannedFixes;
    if ids != [] {
      var plan := BuildfixPlan(PlannedFixes(ports, ids[0]));
      ListingOfFixes(ports, ids[1..], hs);
      ListingSummarized(ids[0], plan.fixes, hs);
      ListingSort(SummarizedAll(ids[0], plan.fixes, hs));
      ListingAppend(MatchedPlan(ids[0], plan, hs), FixesFor(ports, ids[1..], hs));
    }
  }

  // ---- Reports ----

  lemma AssembledFixes(ports: Ports, req: Request, report: CockpitReport, d: DiscoveredSensors)
    requires Assembled(ports, req) == Ok(report) && ports.discover == Ok(d)
    ensures FixesIn(report.buildfix) == FixesFor(ports, d.sensors, report.highlights)
    ensures var fixes := FixesIn(report.buildfix);
            report.buildfix == if fixes == [] then None else Some(SummaryFrom(fixes))
  {
    hide ProcessAll, Expected, RunRows, RunHighlights, OverallVerdict.Overall, AllFixes;
    AllFixesAre(ports, d.sensors, report.highlights);
  }

  /** The report of a reordered discovery lists the fixes in the new order, matched to its own highlights. */
  lemma ReorderedFixes(ports: Ports, req: Request, d: DiscoveredSensors, ids: seq<string>)
    requires Assembled(ports, req).Ok? && ports.discover == Ok(d) && multiset(ids) == multiset(d.sensors)
    ensures var reordered := Assembled(ports.(discover := Ok(d.(sensors := ids))), req);
            && reordered.Ok?
            && FixesIn(reordered.value.buildfix) == FixesFor(ports, ids, reordered.value.highlights)
            && var fixes := FixesIn(reordered.value.buildfix);
               reordered.value.buildfix == if fixes == [] then None else Some(SummaryFrom(fixes))
  {
    hide Assembled, FixesFor, FixesIn, SummaryFrom;
    var q := ports.(discover := Ok(d.(sensors := ids)));
    ReorderedAssembles(ports, req, d, ids);
    AssembledFixes(q, req, Assembled(q, req).value, d.(sensors := ids));
    FixesForSamePlans(ports, q, ids, Assembled(q, req).value.highlights);
  }

  /** Whatever order the sensors are discovered in, the report lists the same fixes in the same order, apart from what
      they are matched to. */
  ghost predicate ListingNeverShows(ports: Ports, req: Request, d: DiscoveredSensors, report: CockpitReport) {
    forall ids :: multiset(ids) == multiset(d.sensors) ==>
      var reordered := Assembled(ports.(discover := Ok(d.(sensors := ids))), req);
      reordered.Ok? && Listing(FixesIn(reordered.value.buildfix)) == Listing(FixesIn(report.buildfix))
  }

  /** ... and the whole entries are the same, matches and totals included. */
  ghost predicate FixesNeverShow(ports: Ports, req: Request, d: DiscoveredSensors, report: CockpitReport) {
    forall ids :: multiset(ids) == multiset(d.sensors) ==>
      var reordered := Assembled(ports.(discover := Ok(d.(sensors := ids))), req);
      reordered.Ok? && reordered.value.buildfix == report.buildfix
  }

  /** The listing is the same for every order of the discovered sensors exactly when at most one of them plans fixes. */
  lemma ReportListingIff(ports: Ports, req: Request, report: CockpitReport, d: DiscoveredSensors)
    requires Assembled(ports, req) == Ok(report) && ports.discover == Ok(d)
    ensures ListingNeverShows(ports, req, d, report) <==> OnePlanner(ports, d.sensors)
  {
    hide Assembled, FixesFor, FixesIn, SummaryFrom, Listing, OnePlanner;
    AssembledFixes(ports, req, report, d);
    ListingOfFixes(ports, d.sensors, report.highlights);
    forall ids | multiset(ids) == multiset(d.sensors)
      ensures var reordered := Assembled(ports.(discover := Ok(d.(sensors := ids))), req);
              reordered.Ok? && Listing(FixesIn(reordered.value.buildfix)) == FixesFor(ports, ids, [])
    {
      ReorderedFixes(ports, req, d, ids);
      ListingOfFixes(ports, ids, Assembled(ports.(discover := Ok(d.(sensors := ids))), req).value.highlights);
    }
    FixOrderIff(ports, d.sensors, []);
  }

  /** Whole entries can be the same for every order only if at most one discovered sensor plans fixes; and if sensors
      agree, so that the highlights are the same, exactly then. */
  lemma ReportFixesIff(ports: Ports, req: Request, report: CockpitReport, d: DiscoveredSensors)
    requires Assembled(ports, req) == Ok(report) && ports.discover == Ok(d)
    ensures FixesNeverShow(ports, req, d, report) ==> OnePlanner(ports, d.sensors)
    ensures SensorOrderNeverShows(ports, req, d, report.highlights) ==>
              (FixesNeverShow(ports, req, d, report) <==> OnePlanner(ports, d.sensors))
    ensures SensorsAgree(SettingFor(ports, req, EffectiveConfig(ports.loadConfig.value)), d) ==>
              (FixesNeverShow(ports, req, d, report) <==> OnePlanner(ports, d.sensors))
  {
    hide Assembled, FixesFor, FixesIn, SummaryFrom, Listing, OnePlanner, SensorsAgree;
    ReportListingIff(ports, req, report, d);
    ReportSensorOrderIff(ports, req, report, d);
    if SensorOrderNeverShows(ports, req, d, report.highlights) && OnePlanner(ports, d.sensors) {
      AssembledFixes(ports, req, report, d);
      FixOrderIff(ports, d.sensors, report.highlights);
      forall ids | multiset(ids) == multiset(d.sensors)
        ensures var reordered := Assembled(ports.(discover := Ok(d.(sensors := ids))), req);
                reordered.Ok? && reordered.value.buildfix == report.buildfix
      {
        ReorderedFixes(ports, req, d, ids);
      }
    }
  }
}
