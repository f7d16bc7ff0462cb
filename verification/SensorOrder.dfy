/** Exactly when the order of the discovered sensors shows in the highlights of a report. */
module SensorOrder {
  import opened Types
  import opened StableSort
  import opened Fingerprint
  import opened Findings
  import opened Highlights
  import opened SelectionOrder
  import opened OverallVerdict
  import opened Synthesize
  import opened Ingest
  import opened Evidence
  import opened SensorBlocks
  import opened BlockCut
  import opened DiscoveryOrder
  import Completion

  ghost function Contribution(s: Setting, id: string): seq<Highlight> {
    if Process(s, id).Ok? then Process(s, id).value.highlights else []
  }

  ghost function Contributions(s: Setting): Blocks {
    id => Contribution(s, id)
  }

  lemma {:induction false} CandidatesAreConcat(s: Setting, ids: seq<string>)
    requires ProcessAll(s, ids).Ok?
    ensures Candidates(ProcessAll(s, ids).value) == Concat(Contributions(s), ids)
  {
    hide Process;
    if ids != [] {
      var n := |ids| - 1;
      CandidatesAreConcat(s, ids[..n]);
      StepsSnoc([], ProcessAll(s, ids[..n]).value, Process(s, ids[n]).value);
    }
  }

  /** Everything raised, deduplicated and sorted; the highlights are its beginning. */
  ghost function RankedRaised(s: Setting, d: DiscoveredSensors): seq<Highlight> {
    Ranked(s.ports.hash, BlockingMap(s.cfg, Expected(s.cfg, d)), AllRaised(s, d))
  }

  ghost predicate RankingIgnoresSensorOrder(s: Setting, d: DiscoveredSensors) {
    forall ids :: multiset(ids) == multiset(d.sensors) ==> RankedRaised(s, d.(sensors := ids)) == RankedRaised(s, d)
  }

  /** Sensors are configured, so that they are walked in the order of their ids; or what any two discovered sensors
      raise agrees on common fingerprints, and under each key one of them lists a beginning of what the other lists. */
  ghost predicate SensorsAgree(s: Setting, d: DiscoveredSensors) {
    || s.cfg.sensors != map[]
    || BlocksAgree(s.ports.hash, ByHighlightKey(BlockingMap(s.cfg, d.sensors)), EarlyCandidates(s.ports, d),
                   Contributions(s), d.sensors)
  }

  lemma SameSensorsEarly(s: Setting, d: DiscoveredSensors, ids: seq<string>)
    requires multiset(ids) == multiset(d.sensors)
    ensures EarlyCandidates(s.ports, d.(sensors := ids)) == EarlyCandidates(s.ports, d)
  {
    SameMembers(ids, d.sensors);
  }

  lemma SameProcessable(s: Setting, ids: seq<string>, ids': seq<string>)
    requires ProcessAll(s, ids).Ok? && multiset(ids) == multiset(ids')
    ensures ProcessAll(s, ids').Ok?
  {
    hide ProcessAll, Completion.PortFails;
    Completion.AllProcessedIff(s, ids);
    Completion.AllProcessedIff(s, ids');
    SameMembers(ids, ids');
  }

  lemma ReorderedRaised(s: Setting, d: DiscoveredSensors, ids: seq<string>)
    requires s.cfg.sensors == map[] && ProcessAll(s, d.sensors).Ok? && multiset(ids) == multiset(d.sensors)
    ensures AllRaised(s, d.(sensors := ids)) == EarlyCandidates(s.ports, d) + Concat(Contributions(s), ids)
    ensures BlockingMap(s.cfg, ids) == BlockingMap(s.cfg, d.sensors)
  {
    hide ProcessAll, EarlyCandidates, Candidates, Concat, Contributions, BlockingMap;
    SameSensorsEarly(s, d, ids);
    SameProcessable(s, d.sensors, ids);
    CandidatesAreConcat(s, ids);
    SameBlockingMap(s.cfg, ids, d.sensors);
  }

  /** The condition is exact: the order of discovery never changes the ranking from which every budget takes its
      highlights if and only if sensors agree. */
  lemma SensorOrderIff(s: Setting, d: DiscoveredSensors)
    requires ProcessAll(s, Expected(s.cfg, d)).Ok?
    ensures RankingIgnoresSensorOrder(s, d) <==> SensorsAgree(s, d)
  {
    hide ProcessAll, EarlyCandidates, Candidates, Concat, Contributions, BlockingMap, Ranked, BlocksAgree, AllRaised;
    if s.cfg.sensors == map[] {
      var early, blocking := EarlyCandidates(s.ports, d), BlockingMap(s.cfg, d.sensors);
      forall ids | multiset(ids) == multiset(d.sensors)
        ensures RankedRaised(s, d.(sensors := ids)) ==
                Ranked(s.ports.hash, blocking, early + Concat(Contributions(s), ids))
      {
        ReorderedRaised(s, d, ids);
      }
      assert d.(sensors := d.sensors) == d;
      IgnoresBlockOrderIff(s.ports.hash, blocking, early, Contributions(s), d.sensors);
    } else {
      forall ids | multiset(ids) == multiset(d.sensors)
        ensures RankedRaised(s, d.(sensors := ids)) == RankedRaised(s, d)
      {
        ConfiguredRaised(s, d, ids);
      }
    }
  }

  lemma ConfiguredRaised(s: Setting, d: DiscoveredSensors, ids: seq<string>)
    requires s.cfg.sensors != map[] && multiset(ids) == multiset(d.sensors)
    ensures AllRaised(s, d.(sensors := ids)) == AllRaised(s, d)
    ensures Expected(s.cfg, d.(sensors := ids)) == Expected(s.cfg, d)
  {
    hide ProcessAll, EarlyCandidates, Candidates;
    SameSensorsEarly(s, d, ids);
  }

  // ---- Reports ----

  lemma AssembledHighlights(ports: Ports, req: Request, report: CockpitReport, d: DiscoveredSensors)
    returns (s: Setting)
    requires Assembled(ports, req) == Ok(report) && ports.discover == Ok(d)
    ensures s == SettingFor(ports, req, EffectiveConfig(ports.loadConfig.value))
    ensures ProcessAll(s, Expected(s.cfg, d)).Ok?
    ensures report.highlights == Take(RankedRaised(s, d), s.cfg.policy.maxHighlights)
  {
    hide ProcessAll, Expected, AllFixes, RunRows, Overall, BlockingMap, EarlyCandidates, Candidates, Dedup, SortBy;
    s := SettingFor(ports, req, EffectiveConfig(ports.loadConfig.value));
  }

  /** The settings of two runs that differ in discovery only see the same raised. */
  lemma SameRankedRaised(s: Setting, t: Setting, d: DiscoveredSensors)
    requires t == s.(ports := s.ports.(discover := t.ports.discover))
    ensures RankedRaised(s, d) == RankedRaised(t, d)
  {
    hide ProcessAll, Candidates, Expected, Ranked, BlockingMap, RejectedIds;
    SameProcessAll(s, t, Expected(s.cfg, d));
    SameRejected(s.ports, t.ports, d.invalidSensorIds);
  }

  lemma {:induction false} SameRejected(p: Ports, q: Ports, ids: seq<string>)
    requires q == p.(discover := q.discover)
    ensures RejectedIds(p, ids) == RejectedIds(q, ids)
  {
    hide SynthesizePathTraversalHighlight;
    if ids != [] {
      SameRejected(p, q, ids[..|ids| - 1]);
    }
  }

  /** Whatever order the sensors are discovered in, a report is reached with these highlights. */
  ghost predicate SensorOrderNeverShows(ports: Ports, req: Request, d: DiscoveredSensors, highlights: seq<Highlight>) {
    forall ids :: multiset(ids) == multiset(d.sensors) ==>
      var reordered := Assembled(ports.(discover := Ok(d.(sensors := ids))), req);
      reordered.Ok? && reordered.value.highlights == highlights
  }

  lemma ReorderedAssembles(ports: Ports, req: Request, d: DiscoveredSensors, ids: seq<string>)
    requires Assembled(ports, req).Ok? && ports.discover == Ok(d) && multiset(ids) == multiset(d.sensors)
    ensures Assembled(ports.(discover := Ok(d.(sensors := ids))), req).Ok?
  {
    hide Assembled, Completion.PortFails, Expected;
    var q := ports.(discover := Ok(d.(sensors := ids)));
    Completion.AssembledIff(ports, req);
    Completion.AssembledIff(q, req);
    SameMembers(ids, d.sensors);
    var cfg := EffectiveConfig(ports.loadConfig.value);
    SameExpected(cfg, d, d.(sensors := ids));
    SameMembers(Expected(cfg, d), Expected(cfg, d.(sensors := ids)));
    SamePortFails(ports, q, req, cfg);
  }

  lemma SamePortFails(p: Ports, q: Ports, req: Request, cfg: CockpitConfig)
    requires q == p.(discover := q.discover)
    ensures forall id :: Completion.PortFails(SettingFor(p, req, cfg), id) <==>
            Completion.PortFails(SettingFor(q, req, cfg), id)
  {
  }

  /** The reports of reordered discoveries show the beginnings of the reordered rankings. */
  lemma ReorderedHighlights(ports: Ports, req: Request, d: DiscoveredSensors, ids: seq<string>)
    requires Assembled(ports, req).Ok? && ports.discover == Ok(d) && multiset(ids) == multiset(d.sensors)
    ensures var s := SettingFor(ports, req, EffectiveConfig(ports.loadConfig.value));
            var reordered := Assembled(ports.(discover := Ok(d.(sensors := ids))), req);
            && reordered.Ok?
            && reordered.value.highlights == Take(RankedRaised(s, d.(sensors := ids)), s.cfg.policy.maxHighlights)
  {
    hide Assembled, ProcessAll, Expected, RankedRaised;
    var d' := d.(sensors := ids);
    var q := ports.(discover := Ok(d'));
    var s := AssembledHighlights(ports, req, Assembled(ports, req).value, d);
    ReorderedAssembles(ports, req, d, ids);
    var t := AssembledHighlights(q, req, Assembled(q, req).value, d');
    SameRankedRaised(s, t, d');
  }

  /** If sensors agree, the highlights are the same for every order of the discovered sensors; and within the budget
      they are the same only then. */
  lemma ReportSensorOrderIff(ports: Ports, req: Request, report: CockpitReport, d: DiscoveredSensors)
    requires Assembled(ports, req) == Ok(report) && ports.discover == Ok(d)
    ensures var s := SettingFor(ports, req, EffectiveConfig(ports.loadConfig.value));
            && (SensorsAgree(s, d) ==> SensorOrderNeverShows(ports, req, d, report.highlights))
            && (BudgetSuffices(s, d) ==>
                (SensorsAgree(s, d) <==> SensorOrderNeverShows(ports, req, d, report.highlights)))
  {
    hide Assembled, ProcessAll, Expected, AllRaised, Ranked, SensorsAgree, BlockingMap, RankedRaised, BudgetSuffices;
    var s := AssembledHighlights(ports, req, report, d);
    SensorOrderIff(s, d);
    forall ids | multiset(ids) == multiset(d.sensors)
      ensures var reordered := Assembled(ports.(discover := Ok(d.(sensors := ids))), req);
              && reordered.Ok?
              && reordered.value.highlights == Take(RankedRaised(s, d.(sensors := ids)), s.cfg.policy.maxHighlights)
    {
      ReorderedHighlights(ports, req, d, ids);
    }
    if BudgetSuffices(s, d) && SensorOrderNeverShows(ports, req, d, report.highlights) {
      forall ids | multiset(ids) == multiset(d.sensors)
        ensures RankedRaised(s, d.(sensors := ids)) == RankedRaised(s, d)
      {
        RankingFits(s, d);
        ReorderedFits(s, d, ids);
      }
    }
  }

  /** What any two discovered sensors raise agrees on common fingerprints; disjoint fingerprints do. */
  ghost predicate SensorsShareAlike(s: Setting, d: DiscoveredSensors) {
    FingerprintsAgree(s.ports.hash, EarlyCandidates(s.ports, d), Contributions(s), d.sensors)
  }

  /** Sensors are configured; or under each key, as far as the budget has room, one of any two discovered sensors lists
      a beginning of what the other lists. */
  ghost predicate SensorsAgreeWithinRoom(s: Setting, d: DiscoveredSensors) {
    || s.cfg.sensors != map[]
    || CutAgrees(s.ports.hash, ByHighlightKey(BlockingMap(s.cfg, d.sensors)), s.cfg.policy.maxHighlights,
                 EarlyCandidates(s.ports, d), Contributions(s), d.sensors)
  }

  lemma RankedBeginning(s: Setting, d: DiscoveredSensors, max: nat)
    ensures Take(RankedRaised(s, d), max) ==
            Select(s.ports.hash, BlockingMap(s.cfg, Expected(s.cfg, d)), max, AllRaised(s, d))
  {
  }

  /** Exact at every budget, also where it cuts, for sensors that agree on common fingerprints. */
  lemma ReportCutOrderIff(ports: Ports, req: Request, report: CockpitReport, d: DiscoveredSensors)
    requires Assembled(ports, req) == Ok(report) && ports.discover == Ok(d)
    requires SensorsShareAlike(SettingFor(ports, req, EffectiveConfig(ports.loadConfig.value)), d)
    ensures var s := SettingFor(ports, req, EffectiveConfig(ports.loadConfig.value));
            SensorOrderNeverShows(ports, req, d, report.highlights) <==> SensorsAgreeWithinRoom(s, d)
  {
    hide Assembled, ProcessAll, AllRaised, Ranked, BlockingMap, EarlyCandidates, Contributions, Concat, Select,
         CutAgrees, Take, RankedRaised, FingerprintsAgree;
    var s := AssembledHighlights(ports, req, report, d);
    var max := s.cfg.policy.maxHighlights;
    var hash, blocking, early := s.ports.hash, BlockingMap(s.cfg, d.sensors), EarlyCandidates(s.ports, d);
    assert d.(sensors := d.sensors) == d;
    forall ids | multiset(ids) == multiset(d.sensors)
      ensures var reordered := Assembled(ports.(discover := Ok(d.(sensors := ids))), req);
              && reordered.Ok?
              && reordered.value.highlights ==
                 (if s.cfg.sensors == map[] then Select(hash, blocking, max, early + Concat(Contributions(s), ids))
                  else report.highlights)
    {
      ReorderedHighlights(ports, req, d, ids);
      RankedBeginning(s, d.(sensors := ids), max);
      RankedBeginning(s, d, max);
      if s.cfg.sensors == map[] {
        ReorderedRaised(s, d, ids);
      } else {
        ConfiguredRaised(s, d, ids);
      }
    }
    if s.cfg.sensors == map[] {
      assert report.highlights == Select(hash, blocking, max, early + Concat(Contributions(s), d.sensors)) by {
        ReorderedRaised(s, d, d.sensors);
        RankedBeginning(s, d, max);
      }
      CutIgnoresBlockOrderIff(hash, blocking, max, early, Contributions(s), d.sensors);
    }
  }

  /** The ranking has one entry for each fingerprint raised. */
  lemma RankingFits(s: Setting, d: DiscoveredSensors)
    ensures |RankedRaised(s, d)| == |Fingerprints(s.ports.hash, AllRaised(s, d))|
    ensures BudgetSuffices(s, d) ==> Take(RankedRaised(s, d), s.cfg.policy.maxHighlights) == RankedRaised(s, d)
  {
    hide AllRaised, Dedup, BlockingMap;
    SortByLength(ByHighlightKey(BlockingMap(s.cfg, Expected(s.cfg, d))), Dedup(s.ports.hash, AllRaised(s, d)));
    DedupSize(s.ports.hash, AllRaised(s, d));
  }

  lemma ReorderedFits(s: Setting, d: DiscoveredSensors, ids: seq<string>)
    requires ProcessAll(s, Expected(s.cfg, d)).Ok? && multiset(ids) == multiset(d.sensors) && BudgetSuffices(s, d)
    ensures Take(RankedRaised(s, d.(sensors := ids)), s.cfg.policy.maxHighlights) ==
            RankedRaised(s, d.(sensors := ids))
  {
    hide AllRaised, EarlyCandidates, Contributions, Concat, RankedRaised, ProcessAll;
    var d' := d.(sensors := ids);
    RankingFits(s, d');
    if s.cfg.sensors == map[] {
      var early, blocks := EarlyCandidates(s.ports, d), Contributions(s);
      ReorderedRaised(s, d, ids);
      ReorderedRaised(s, d, d.sensors);
      assert d.(sensors := d.sensors) == d;
      SameMembers(ids, d.sensors);
      forall h
        ensures h in AllRaised(s, d') <==> h in AllRaised(s, d)
      {
        ConcatMember(blocks, ids, h);
        ConcatMember(blocks, d.sensors, h);
      }
      SameFingerprints(s.ports.hash, AllRaised(s, d'), AllRaised(s, d));
    } else {
      ConfiguredRaised(s, d, ids);
    }
  }

  lemma SameFingerprints(hash: Hash, a: seq<Highlight>, b: seq<Highlight>)
    requires forall h :: h in a <==> h in b
    ensures Fingerprints(hash, a) == Fingerprints(hash, b)
  {
  }
}
