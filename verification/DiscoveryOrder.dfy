/** What the order in which sensors are discovered can change in a run, and what it cannot. */
module DiscoveryOrder {
  import opened Types
  import opened StableSort
  import opened Highlights
  import opened SelectionOrder
  import opened OverallVerdict
  import opened Synthesize
  import opened Ingest
  import opened IngestGuarantees
  import opened Evidence
  import opened AggregateFixes
  import Buildfix
  import Conform
  import OrderedSet

  /** The rows a list of sensors leads to, one by one. */
  ghost function RowsFor(s: Setting, ids: seq<string>): seq<SensorSummary> {
    if ids == [] || Process(s, ids[0]).Err? then [] else [Process(s, ids[0]).value.summary] + RowsFor(s, ids[1..])
  }

  ghost predicate AllProcess(s: Setting, ids: seq<string>) {
    forall id :: id in ids ==> Process(s, id).Ok?
  }

  lemma {:induction false} RowsForAppend(s: Setting, a: seq<string>, b: seq<string>)
    requires AllProcess(s, a)
    ensures RowsFor(s, a + b) == RowsFor(s, a) + RowsFor(s, b)
  {
    hide Process;
    if a == [] {
      assert a + b == b;
    } else {
      assert a[0] in a && (a + b)[1..] == a[1..] + b;
      RowsForAppend(s, a[1..], b);
    }
  }

  lemma {:induction false} SummariesAreRows(s: Setting, ids: seq<string>)
    requires ProcessAll(s, ids).Ok?
    ensures AllProcess(s, ids) && Summaries(ProcessAll(s, ids).value) == RowsFor(s, ids)
  {
    hide Process;
    if ids != [] {
      var n := |ids| - 1;
      var front, id := ids[..n], ids[n];
      SummariesAreRows(s, front);
      RowsForAppend(s, front, [id]);
      assert ids == front + [id] && RowsFor(s, [id]) == [Process(s, id).value.summary];
      var steps := ProcessAll(s, front).value;
      StepsSnoc([], steps, Process(s, id).value);
    }
  }

  lemma RowsTakeOut(s: Setting, ids: seq<string>, id: string) returns (rest: seq<string>)
    requires id in ids && AllProcess(s, ids)
    ensures |rest| == |ids| - 1 && multiset(ids) == multiset{id} + multiset(rest) && AllProcess(s, rest)
    ensures multiset(RowsFor(s, ids)) == multiset(RowsFor(s, [id])) + multiset(RowsFor(s, rest))
  {
    hide Process, RowsFor;
    var i;
    i, rest := TakeOut(ids, id);
    var a, b := ids[..i], ids[i + 1..];
    assert ids == a + ([id] + b);
    RowsForAppend(s, a, [id] + b);
    RowsForAppend(s, [id], b);
    RowsForAppend(s, a, b);
  }

  lemma {:induction false} RowsForPermutation(s: Setting, ids: seq<string>, others: seq<string>)
    requires multiset(ids) == multiset(others) && AllProcess(s, ids) && AllProcess(s, others)
    ensures multiset(RowsFor(s, ids)) == multiset(RowsFor(s, others))
    decreases |ids|
  {
    hide Process, RowsFor;
    assert |multiset(ids)| == |multiset(others)|;
    if ids != [] {
      var id := ids[0];
      assert id in multiset(others);
      var rest := RowsTakeOut(s, ids, id);
      var rest' := RowsTakeOut(s, others, id);
      assert multiset(rest) == multiset(ids) - multiset{id};
      RowsForPermutation(s, rest, rest');
    }
  }

  /** Only the list of discovered sensors differs between the two runs' ports, so every sensor is processed alike. */
  lemma SameProcess(s: Setting, t: Setting, id: string)
    requires t == s.(ports := s.ports.(discover := t.ports.discover))
    ensures Process(s, id) == Process(t, id)
  {
  }

  lemma {:induction false} SameProcessAll(s: Setting, t: Setting, ids: seq<string>)
    requires t == s.(ports := s.ports.(discover := t.ports.discover))
    ensures ProcessAll(s, ids) == ProcessAll(t, ids)
  {
    hide Process;
    if ids != [] {
      SameProcessAll(s, t, ids[..|ids| - 1]);
      SameProcess(s, t, ids[|ids| - 1]);
    }
  }

  lemma OneRowPerId(s: Setting, d: DiscoveredSensors, steps: seq<Step>)
    requires ProcessAll(s, Expected(s.cfg, d)) == Ok(steps)
    ensures IdsDistinct(Summaries(steps))
  {
    hide Process, ProcessAll, Expected, StatusOf, Receipt, Summaries, BySection, Conform.TokensValid;
    RowsAreSteps(s, d, steps);
    forall row, other | row in Summaries(steps) && other in Summaries(steps) && row.id == other.id
      ensures row == other
    {
      SortByMember(BySection(s.cfg), Summaries(steps), row);
      SortByMember(BySection(s.cfg), Summaries(steps), other);
      assert row in RunRows(s.cfg, steps) && other in RunRows(s.cfg, steps);
      var id :| id in Expected(s.cfg, d) && Process(s, id).Ok? && row == Process(s, id).value.summary;
      var id' :| id' in Expected(s.cfg, d) && Process(s, id').Ok? && other == Process(s, id').value.summary;
      StepFacts(s, id);
      StepFacts(s, id');
    }
  }

  /** The order in which sensors are discovered never shows in rows, verdict and exit code: they depend only on which
      sensors there are. */
  lemma DiscoveryOrderDoesNotShow(p: Ports, q: Ports, req: Request, res: IngestResult, res': IngestResult,
                                  d: DiscoveredSensors, d': DiscoveredSensors)
    requires Run(p, req) == Ok(res) && Run(q, req) == Ok(res')
    requires p.discover == Ok(d) && q == p.(discover := Ok(d')) && multiset(d.sensors) == multiset(d'.sensors)
    ensures res.report.sensors == res'.report.sensors
    ensures res.report.verdict == res'.report.verdict && res.exitCode == res'.exitCode
  {
    hide Process, ProcessAll, Expected, Assemble, Run, Summaries, RowsFor, Overall, BySection;
    var s, e, steps := RunSteps(p, req, res);
    var t, e', steps' := RunSteps(q, req, res');
    var ids, ids' := Expected(s.cfg, d), Expected(s.cfg, d');
    SameExpected(s.cfg, d, d');
    SameProcessAll(s, t, ids');
    SummariesAreRows(s, ids);
    SummariesAreRows(s, ids');
    RowsForPermutation(s, ids, ids');
    OneRowPerId(s, d, steps);
    RowOrderIsDetermined(s.cfg, Summaries(steps), Summaries(steps'));
  }

  lemma SameExpected(cfg: CockpitConfig, d: DiscoveredSensors, d': DiscoveredSensors)
    requires multiset(d.sensors) == multiset(d'.sensors)
    ensures multiset(Expected(cfg, d)) == multiset(Expected(cfg, d'))
  {
  }

  // ---- Highlights and fixes ----

  /** The same discovery in another order. */
  ghost predicate Reordered(d: DiscoveredSensors, d': DiscoveredSensors) {
    && multiset(d.sensors) == multiset(d'.sensors) && multiset(d.invalidSensorIds) == multiset(d'.invalidSensorIds)
    && d.truncated == d'.truncated && d.totalFound == d'.totalFound
  }

  lemma {:induction false} RejectedIdsAre(ports: Ports, ids: seq<string>, h: Highlight)
    ensures h in RejectedIds(ports, ids) <==>
            exists id :: id in ids && h == SynthesizePathTraversalHighlight(id, ports.reportPath(id), None)
  {
    hide SynthesizePathTraversalHighlight;
    if ids != [] {
      var n := |ids| - 1;
      RejectedIdsAre(ports, ids[..n], h);
      assert ids == ids[..n] + [ids[n]];
    }
  }

  lemma SameMembers<T>(a: seq<T>, b: seq<T>)
    requires multiset(a) == multiset(b)
    ensures |a| == |b| && forall x :: x in a <==> x in b
  {
    assert |multiset(a)| == |multiset(b)|;
    forall x
      ensures x in a <==> x in b
    {
      assert x in multiset(a) <==> x in multiset(b);
    }
  }

  lemma SameEarly(p: Ports, q: Ports, d: DiscoveredSensors, d': DiscoveredSensors, h: Highlight)
    requires q == p.(discover := q.discover) && Reordered(d, d')
    ensures h in EarlyCandidates(p, d) <==> h in EarlyCandidates(q, d')
  {
    hide SynthesizePathTraversalHighlight, SynthesizeSensorsTruncated, RejectedIds;
    SameMembers(d.sensors, d'.sensors);
    SameMembers(d.invalidSensorIds, d'.invalidSensorIds);
    RejectedIdsAre(p, d.invalidSensorIds, h);
    RejectedIdsAre(q, d'.invalidSensorIds, h);
  }

  /** The same findings are raised, though perhaps in another order. */
  lemma SameRaised(s: Setting, t: Setting, d: DiscoveredSensors, d': DiscoveredSensors, h: Highlight)
    requires t == s.(ports := s.ports.(discover := t.ports.discover)) && Reordered(d, d')
    ensures Raised(s, d, h) <==> Raised(t, d', h)
  {
    hide Process, Expected, EarlyCandidates;
    SameEarly(s.ports, t.ports, d, d', h);
    SameExpected(s.cfg, d, d');
    SameMembers(Expected(s.cfg, d), Expected(t.cfg, d'));
    forall id
      ensures Process(s, id) == Process(t, id)
    {
      SameProcess(s, t, id);
    }
  }

  lemma SameBlockingMap(cfg: CockpitConfig, ids: seq<string>, ids': seq<string>)
    requires multiset(ids) == multiset(ids')
    ensures BlockingMap(cfg, ids) == BlockingMap(cfg, ids')
  {
    SameMembers(ids, ids');
  }

  /** If nothing ambiguous is raised, the highlights do not depend on the order of discovery either. */
  lemma HighlightsIgnoreDiscoveryOrder(p: Ports, q: Ports, req: Request, res: IngestResult, res': IngestResult,
                                       d: DiscoveredSensors, d': DiscoveredSensors)
    requires Run(p, req) == Ok(res) && Run(q, req) == Ok(res')
    requires p.discover == Ok(d) && q == p.(discover := Ok(d')) && Reordered(d, d')
    requires var cfg := EffectiveConfig(p.loadConfig.value);
             Unambiguous(p.hash, BlockingMap(cfg, Expected(cfg, d)), cfg.policy.maxHighlights,
                         AllRaised(SettingFor(p, req, cfg), d))
    ensures res.report.highlights == res'.report.highlights
  {
    hide Process, ProcessAll, Expected, Assemble, Run, Overall, EarlyCandidates, Candidates, BlockingMap, Unambiguous,
         Select, Raised, Reordered;
    var s, e, steps := RunSteps(p, req, res);
    var t, e', steps' := RunSteps(q, req, res');
    forall h
      ensures h in AllRaised(s, d) <==> h in AllRaised(t, d')
    {
      RaisedAreCandidates(s, d, steps, h);
      RaisedAreCandidates(t, d', steps', h);
      SameRaised(s, t, d, d', h);
    }
    assert multiset(d.sensors) == multiset(d'.sensors) by { SameSensors(d, d'); }
    SameExpected(s.cfg, d, d');
    SameBlockingMap(s.cfg, Expected(s.cfg, d), Expected(s.cfg, d'));
    SameCandidatesSameSelection(p.hash, BlockingMap(s.cfg, Expected(s.cfg, d)), s.cfg.policy.maxHighlights,
                                AllRaised(s, d), AllRaised(t, d'));
  }

  lemma SameSensors(d: DiscoveredSensors, d': DiscoveredSensors)
    requires Reordered(d, d')
    ensures multiset(d.sensors) == multiset(d'.sensors)
  {
  }

  lemma {:induction false} FixesForPermutation(ports: Ports, ids: seq<string>, ids': seq<string>, hs: seq<Highlight>)
    requires multiset(ids) == multiset(ids')
    ensures multiset(FixesFor(ports, ids, hs)) == multiset(FixesFor(ports, ids', hs))
    decreases |ids|
  {
    hide FixesFor;
    SameMembers(ids, ids');
    if ids != [] {
      var id := ids[0];
      var i, rest := TakeOut(ids, id);
      var i', rest' := TakeOut(ids', id);
      assert multiset(rest) == multiset(ids) - multiset{id};
      FixesForPermutation(ports, rest, rest', hs);
      FixesTakeOut(ports, ids, i, hs);
      FixesTakeOut(ports, ids', i', hs);
    }
  }

  lemma FixesTakeOut(ports: Ports, ids: seq<string>, i: nat, hs: seq<Highlight>)
    requires i < |ids|
    ensures multiset(FixesFor(ports, ids, hs)) ==
            multiset(FixesFor(ports, [ids[i]], hs)) + multiset(FixesFor(ports, ids[..i] + ids[i + 1..], hs))
  {
    hide FixesFor;
    var a, b := ids[..i], ids[i + 1..];
    assert ids == a + ([ids[i]] + b);
    FixesForAppend(ports, a, [ids[i]] + b, hs);
    FixesForAppend(ports, [ids[i]], b, hs);
    FixesForAppend(ports, a, b, hs);
  }

  lemma {:induction false} FixesForSamePlans(p: Ports, q: Ports, ids: seq<string>, hs: seq<Highlight>)
    requires q == p.(discover := q.discover)
    ensures FixesFor(p, ids, hs) == FixesFor(q, ids, hs)
  {
    hide Buildfix.MatchedPlan;
    if ids != [] {
      FixesForSamePlans(p, q, ids[1..], hs);
    }
  }

  lemma {:induction false} UnmatchedCountPermutation(a: seq<FixSummary>, b: seq<FixSummary>)
    requires multiset(a) == multiset(b)
    ensures Buildfix.UnmatchedCount(a) == Buildfix.UnmatchedCount(b)
    decreases |a|
  {
    hide Buildfix.UnmatchedCount;
    SameMembers(a, b);
    if a == [] {
      assert b == [];
    } else {
      var i, rest := TakeOut(a, a[0]);
      var i', rest' := TakeOut(b, a[0]);
      assert multiset(rest) == multiset(a) - multiset{a[0]};
      UnmatchedCountPermutation(rest, rest');
      UnmatchedTakeOut(a, i);
      UnmatchedTakeOut(b, i');
    }
  }

  lemma UnmatchedTakeOut(fixes: seq<FixSummary>, i: nat)
    requires i < |fixes|
    ensures Buildfix.UnmatchedCount(fixes) ==
            Buildfix.UnmatchedCount([fixes[i]]) + Buildfix.UnmatchedCount(fixes[..i] + fixes[i + 1..])
  {
    hide Buildfix.UnmatchedCount;
    var a, b := fixes[..i], fixes[i + 1..];
    assert fixes == a + ([fixes[i]] + b);
    UnmatchedCountAppend(a, [fixes[i]] + b);
    UnmatchedCountAppend([fixes[i]], b);
    UnmatchedCountAppend(a, b);
  }

  lemma {:induction false} UnmatchedCountAppend(a: seq<FixSummary>, b: seq<FixSummary>)
    ensures Buildfix.UnmatchedCount(a + b) == Buildfix.UnmatchedCount(a) + Buildfix.UnmatchedCount(b)
  {
    if a == [] {
      assert a + b == b;
    } else {
      assert (a + b)[1..] == a[1..] + b;
      UnmatchedCountAppend(a[1..], b);
    }
  }

  /** The same fixes, perhaps listed in another order, with the same totals. */
  ghost predicate SameFixes(a: Option<BuildfixSummary>, b: Option<BuildfixSummary>) {
    && a.Some? == b.Some?
    && (a.Some? ==>
        && multiset(a.value.fixes) == multiset(b.value.fixes)
        && a.value == b.value.(fixes := a.value.fixes))
  }

  lemma SameSummaries(a: seq<FixSummary>, b: seq<FixSummary>)
    requires multiset(a) == multiset(b)
    ensures SameFixes(if a == [] then None else Some(Buildfix.SummaryFrom(a)),
                      if b == [] then None else Some(Buildfix.SummaryFrom(b)))
  {
    SameMembers(a, b);
    UnmatchedCountPermutation(a, b);
    Buildfix.CountsSplit(a);
    Buildfix.CountsSplit(b);
  }

  /** Reordering what is discovered changes nothing in the report but its highlights and the order in which fixes are
      listed. */
  lemma ReportUpToHighlights(p: Ports, q: Ports, req: Request, res: IngestResult, res': IngestResult,
                             d: DiscoveredSensors, d': DiscoveredSensors)
    requires Run(p, req) == Ok(res) && Run(q, req) == Ok(res')
    requires p.discover == Ok(d) && q == p.(discover := Ok(d')) && Reordered(d, d')
    requires res.report.highlights == res'.report.highlights
    ensures res.report.(buildfix := None) == res'.report.(buildfix := None) && res.exitCode == res'.exitCode
    ensures SameFixes(res.report.buildfix, res'.report.buildfix)
  {
    hide Run, Expected, FixesFor, SameFixes, Buildfix.SummaryFrom;
    SameSensors(d, d');
    DiscoveryOrderDoesNotShow(p, q, req, res, res', d, d');
    RunKeepsInfo(p, req, res);
    RunKeepsInfo(q, req, res');
    var hs := res.report.highlights;
    RunFixes(p, req, res, d);
    RunFixes(q, req, res', d');
    FixesForSamePlans(p, q, d'.sensors, hs);
    FixesForPermutation(p, d.sensors, d'.sensors, hs);
    SameSummaries(FixesFor(p, d.sensors, hs), FixesFor(q, d'.sensors, hs));
  }

  /** If nothing ambiguous is raised, reordering what is discovered changes nothing in the report but the order in which
      fixes are listed. */
  lemma ReportIgnoresDiscoveryOrder(p: Ports, q: Ports, req: Request, res: IngestResult, res': IngestResult,
                                    d: DiscoveredSensors, d': DiscoveredSensors)
    requires Run(p, req) == Ok(res) && Run(q, req) == Ok(res')
    requires p.discover == Ok(d) && q == p.(discover := Ok(d')) && Reordered(d, d')
    requires var cfg := EffectiveConfig(p.loadConfig.value);
             Unambiguous(p.hash, BlockingMap(cfg, Expected(cfg, d)), cfg.policy.maxHighlights,
                         AllRaised(SettingFor(p, req, cfg), d))
    ensures res.report.(buildfix := None) == res'.report.(buildfix := None) && res.exitCode == res'.exitCode
    ensures SameFixes(res.report.buildfix, res'.report.buildfix)
  {
    hide Run, Unambiguous, AllRaised, Expected, BlockingMap, SameFixes;
    HighlightsIgnoreDiscoveryOrder(p, q, req, res, res', d, d');
    ReportUpToHighlights(p, q, req, res, res', d, d');
  }

  lemma RunKeepsInfo(ports: Ports, req: Request, res: IngestResult)
    requires Run(ports, req) == Ok(res)
    ensures res.report.run == req.run
  {
    hide Run;
    var s, d, steps := RunSteps(ports, req, res);
  }

  // ---- Sorted discovery ----

  /** The ports document the discovered sensors as sorted. Then there is no other order: discoveries that find the same
      are the same, and so are the runs. */
  lemma SortedDiscoveryIsDetermined(p: Ports, q: Ports, req: Request, d: DiscoveredSensors, d': DiscoveredSensors)
    requires p.discover == Ok(d) && q == p.(discover := Ok(d'))
    requires OrderedSet.StrictlyAscending(d.sensors) && OrderedSet.StrictlyAscending(d'.sensors)
    requires OrderedSet.StrictlyAscending(d.invalidSensorIds) && OrderedSet.StrictlyAscending(d'.invalidSensorIds)
    requires (forall id :: id in d.sensors <==> id in d'.sensors)
    requires (forall id :: id in d.invalidSensorIds <==> id in d'.invalidSensorIds)
    requires d.truncated == d'.truncated && d.totalFound == d'.totalFound
    ensures d == d' && Run(p, req) == Run(q, req)
  {
    hide Run, OrderedSet.StrictlyAscending;
    OrderedSet.AscendingUnique(d.sensors, d'.sensors);
    OrderedSet.AscendingUnique(d.invalidSensorIds, d'.invalidSensorIds);
  }
}
