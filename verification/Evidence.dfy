/** How failures leave a trace: within the budget the fingerprint of whatever was raised is shown. What is shown under
    it is the finding raised first with that fingerprint, which need not be the one made up for a failing sensor. */
module Evidence {
  import opened Types
  import opened Synthesize
  import opened Findings
  import opened Fingerprint
  import opened Highlights
  import opened Summarize
  import opened Ingest
  import opened IngestGuarantees
  import SelectionOrder
  import SortKeys

  lemma {:induction false} CandidatesAre(steps: seq<Step>)
    ensures forall h :: h in Candidates(steps) <==> exists i :: 0 <= i < |steps| && h in steps[i].highlights
  {
    if steps != [] {
      var n := |steps| - 1;
      CandidatesAre(steps[..n]);
      forall h
        ensures h in Candidates(steps) <==> exists i :: 0 <= i < |steps| && h in steps[i].highlights
      {
        if i :| 0 <= i < |steps| && h in steps[i].highlights && i < n {
          assert h in steps[..n][i].highlights;
        }
      }
    }
  }

  /** A finding is either raised before the sensors are walked or contributed by an expected sensor. */
  ghost predicate Raised(s: Setting, d: DiscoveredSensors, h: Highlight) {
    || h in EarlyCandidates(s.ports, d)
    || exists id :: id in Expected(s.cfg, d) && Process(s, id).Ok? && h in Process(s, id).value.highlights
  }

  lemma RaisedAreCandidates(s: Setting, d: DiscoveredSensors, steps: seq<Step>, h: Highlight)
    requires ProcessAll(s, Expected(s.cfg, d)) == Ok(steps)
    ensures Raised(s, d, h) <==> h in EarlyCandidates(s.ports, d) + Candidates(steps)
  {
    hide Process, ProcessAll, Expected, EarlyCandidates, Candidates;
    var ids := Expected(s.cfg, d);
    StepCount(s, ids);
    CandidatesAre(steps);
    if id :| id in ids && Process(s, id).Ok? && h in Process(s, id).value.highlights {
      var n :| 0 <= n < |ids| && ids[n] == id;
      StepAt(s, ids, n);
      assert h in steps[n].highlights;
    }
    if h in Candidates(steps) {
      var n :| 0 <= n < |steps| && h in steps[n].highlights;
      StepAt(s, ids, n);
      assert ids[n] in ids;
    }
  }

  /** Everything raised, in the order it is raised. */
  ghost function AllRaised(s: Setting, d: DiscoveredSensors): seq<Highlight> {
    EarlyCandidates(s.ports, d)
    + match ProcessAll(s, Expected(s.cfg, d))
      case Ok(steps) => Candidates(steps)
      case Err(_) => []
  }

  lemma AllRaisedAre(ports: Ports, req: Request, res: IngestResult, d: DiscoveredSensors) returns (s: Setting)
    requires Run(ports, req) == Ok(res) && ports.discover == Ok(d)
    ensures s == SettingFor(ports, req, EffectiveConfig(ports.loadConfig.value))
    ensures res.report.highlights ==
            Select(ports.hash, BlockingMap(s.cfg, Expected(s.cfg, d)), s.cfg.policy.maxHighlights, AllRaised(s, d))
    ensures forall h :: h in AllRaised(s, d) <==> Raised(s, d, h)
  {
    hide Process, Expected, Assemble, Raised, EarlyCandidates, Candidates, Select, BlockingMap;
    var d', steps;
    s, d', steps := RunSteps(ports, req, res);
    forall h
      ensures h in AllRaised(s, d) <==> Raised(s, d, h)
    {
      RaisedAreCandidates(s, d, steps, h);
    }
  }

  /** The budget has room for every fingerprint raised, so nothing is cut. */
  ghost predicate BudgetSuffices(s: Setting, d: DiscoveredSensors) {
    |Fingerprints(s.ports.hash, AllRaised(s, d))| <= s.cfg.policy.maxHighlights
  }

  /** Nothing is invented, and within the budget nothing is lost: the fingerprints of the report's highlights are those
      of everything raised. */
  lemma NothingLostWithinBudget(ports: Ports, req: Request, res: IngestResult, d: DiscoveredSensors)
    requires Run(ports, req) == Ok(res) && ports.discover == Ok(d)
    ensures var s := SettingFor(ports, req, EffectiveConfig(ports.loadConfig.value));
            && (forall h :: h in res.report.highlights ==> exists c :: Raised(s, d, c) && h == Normalize(ports.hash, c))
            && (BudgetSuffices(s, d) ==> forall c :: Raised(s, d, c) ==>
                  Seen(ports.hash, res.report.highlights, EffectiveFingerprint(ports.hash, c)))
  {
    hide Run, AllRaised, Raised, Dedup, Select, Normalize, EffectiveFingerprint, SettingFor;
    var s := AllRaisedAre(ports, req, res, d);
    var raised, r := AllRaised(s, d), res.report.highlights;
    var blocking, max := BlockingMap(s.cfg, Expected(s.cfg, d)), s.cfg.policy.maxHighlights;
    SelectIsTopK(ports.hash, blocking, max, raised);
    DedupKeepsFirsts(ports.hash, raised);
    forall h | h in r
      ensures exists c :: Raised(s, d, c) && h == Normalize(ports.hash, c)
    {
      var i :| 0 <= i < |raised| && h == Normalize(ports.hash, raised[i]);
      assert raised[i] in raised;
    }
    SettingKeepsHash(ports, req);
    if |Fingerprints(ports.hash, raised)| <= max {
      forall c | Raised(s, d, c)
        ensures Seen(ports.hash, r, EffectiveFingerprint(ports.hash, c))
      {
        UncutSelectionSees(ports.hash, blocking, max, raised, c);
      }
    }
  }

  lemma SettingKeepsHash(ports: Ports, req: Request)
    ensures forall cfg :: SettingFor(ports, req, cfg).ports.hash == ports.hash && SettingFor(ports, req, cfg).cfg == cfg
  {
  }

  lemma UncutSelectionSees(hash: Hash, blocking: Blocking, max: nat, candidates: seq<Highlight>, c: Highlight)
    requires |Fingerprints(hash, candidates)| <= max && c in candidates
    ensures Seen(hash, Select(hash, blocking, max, candidates), EffectiveFingerprint(hash, c))
  {
    hide Dedup, Normalize, EffectiveFingerprint, StableSort.SortBy;
    var deduped := Dedup(hash, candidates);
    StableSort.SortByLength(ByHighlightKey(blocking), deduped);
    StableSort.SortByMembers(ByHighlightKey(blocking), deduped);
    DedupSize(hash, candidates);
    DedupFingerprints(hash, candidates);
    assert Seen(hash, candidates, EffectiveFingerprint(hash, c));
    assert Seen(hash, deduped, EffectiveFingerprint(hash, c));
  }

  function SeverityFor(status: VerdictStatus): Severity {
    if status == VerdictStatus.Fail then Error else Severity.Warn
  }

  /** A sensor that warns or fails without a receipt of its own raises a finding of that severity. */
  lemma MadeUpFinding(s: Setting, id: string)
    requires Process(s, id).Ok? && Receipt(s, id).None?
    requires StatusOf(s, id) in {VerdictStatus.Warn, VerdictStatus.Fail}
    ensures exists h :: h in Process(s, id).value.highlights && h.finding.severity == SeverityFor(StatusOf(s, id))
  {
    hide IsValidSensorId, SummaryOf, CandidatesOf, Counts, MissingMessage, TraversalMessage, OversizedMessage,
         SchemaViolationMessage, InvalidMessage, CommentHighlights;
    var hs := Process(s, id).value.highlights;
    assert hs != [] && hs[|hs| - 1].finding.severity == SeverityFor(StatusOf(s, id));
  }

  /** The finding first raised with the fingerprint of `h` has the same normal form. */
  ghost predicate RaisedFirst(hash: Hash, raised: seq<Highlight>, h: Highlight) {
    exists i :: 0 <= i < |raised| && IsFirst(hash, raised, i) && Normalize(hash, raised[i]) == Normalize(hash, h)
  }

  /** Fewer than `max` of the first findings of a fingerprint sort before the normal form of `h`. */
  ghost predicate HasRoom(hash: Hash, blocking: Blocking, max: nat, raised: seq<Highlight>, h: Highlight) {
    |StableSort.Predecessors(ByHighlightKey(blocking), Dedup(hash, raised), Normalize(hash, h))| < max
  }

  /** A highlight is selected exactly when it is the first with its fingerprint and the budget has room for it. */
  lemma SelectedIff(hash: Hash, blocking: Blocking, max: nat, raised: seq<Highlight>, h: Highlight)
    ensures Normalize(hash, h) in Select(hash, blocking, max, raised) <==>
            RaisedFirst(hash, raised, h) && HasRoom(hash, blocking, max, raised, h)
  {
    hide Dedup, Normalize, EffectiveFingerprint, StableSort.SortBy, StableSort.Predecessors, HighlightKey;
    var first, key, x := Dedup(hash, raised), ByHighlightKey(blocking), Normalize(hash, h);
    DedupFingerprints(hash, raised);
    FingerprintsTellApart(first);
    StableSort.AmongFirstIff(key, first, max, x);
    DedupKeepsFirsts(hash, raised);
    assert x in first <==> RaisedFirst(hash, raised, h);
    var r := StableSort.SortBy(key, first);
    assert r[..|r|] == r;
  }

  lemma FingerprintsTellApart(hs: seq<Highlight>)
    requires FingerprintsDistinct(hs)
    ensures StableSort.Distinct(hs)
  {
  }

  /** Within the budget there is room for everything. */
  lemma RoomForAll(hash: Hash, blocking: Blocking, max: nat, raised: seq<Highlight>, h: Highlight)
    requires |Fingerprints(hash, raised)| <= max && RaisedFirst(hash, raised, h)
    ensures HasRoom(hash, blocking, max, raised, h)
  {
    hide Dedup, Normalize, EffectiveFingerprint, StableSort.SortsBefore, HighlightKey;
    var first, x := Dedup(hash, raised), Normalize(hash, h);
    DedupKeepsFirsts(hash, raised);
    DedupFingerprints(hash, raised);
    DedupSize(hash, raised);
    FingerprintsTellApart(first);
    StableSort.DistinctSize(first);
    var before := StableSort.Predecessors(ByHighlightKey(blocking), first, x);
    NotItsOwnPredecessor(ByHighlightKey(blocking), first, x);
    assert before <= (set y | y in first) - {x};
    SelectionOrder.SubsetSize(before, (set y | y in first) - {x});
  }

  lemma NotItsOwnPredecessor(key: Highlight -> SortKeys.Key, s: seq<Highlight>, x: Highlight)
    requires StableSort.Distinct(s)
    ensures x !in StableSort.Predecessors(key, s, x)
  {
    if StableSort.SortsBefore(key, s, x, x) {
      StableSort.SortsBeforeOneWay(key, s, x, x);
    }
  }

  /** A finding is shown exactly when no other finding was raised before it with the same fingerprint, and fewer first
      findings than the budget sort before it; within the budget the first condition alone decides. */
  lemma ShownIffRaisedFirst(ports: Ports, req: Request, res: IngestResult, d: DiscoveredSensors, h: Highlight)
    requires Run(ports, req) == Ok(res) && ports.discover == Ok(d)
    ensures var cfg := EffectiveConfig(ports.loadConfig.value);
            var s := SettingFor(ports, req, cfg);
            var raised, shown := AllRaised(s, d), Normalize(ports.hash, h) in res.report.highlights;
            && (shown <==>
                  && RaisedFirst(ports.hash, raised, h)
                  && HasRoom(ports.hash, BlockingMap(cfg, Expected(cfg, d)), cfg.policy.maxHighlights, raised, h))
            && (BudgetSuffices(s, d) ==> (shown <==> RaisedFirst(ports.hash, raised, h)))
  {
    hide Run, AllRaised, Select, RaisedFirst, HasRoom, Normalize, SettingFor, BlockingMap, Expected;
    var s := AllRaisedAre(ports, req, res, d);
    SettingKeepsHash(ports, req);
    var blocking, max := BlockingMap(s.cfg, Expected(s.cfg, d)), s.cfg.policy.maxHighlights;
    SelectedIff(ports.hash, blocking, max, AllRaised(s, d), h);
    if BudgetSuffices(s, d) && RaisedFirst(ports.hash, AllRaised(s, d), h) {
      RoomForAll(ports.hash, blocking, max, AllRaised(s, d), h);
    }
  }

  /** A failure or warning without a receipt of its own raises a finding of that severity. Within the budget its
      fingerprint is in the report, and the finding itself exactly when it was raised first with it. */
  lemma FailuresAreEvident(ports: Ports, req: Request, res: IngestResult, d: DiscoveredSensors, id: string)
    requires Run(ports, req) == Ok(res) && ports.discover == Ok(d)
    requires var cfg := EffectiveConfig(ports.loadConfig.value);
             var s := SettingFor(ports, req, cfg);
             && id in Expected(cfg, d) && Receipt(s, id).None?
             && StatusOf(s, id) in {VerdictStatus.Warn, VerdictStatus.Fail}
    ensures var cfg := EffectiveConfig(ports.loadConfig.value);
            var s, hs := SettingFor(ports, req, cfg), res.report.highlights;
            exists h :: Process(s, id).Ok? && h in Process(s, id).value.highlights
              && h.finding.severity == SeverityFor(StatusOf(s, id))
              && (BudgetSuffices(s, d) ==>
                    && Seen(ports.hash, hs, EffectiveFingerprint(ports.hash, h))
                    && (Normalize(ports.hash, h) in hs <==> RaisedFirst(ports.hash, AllRaised(s, d), h)))
  {
    hide Process, ProcessAll, Expected, Assemble, StatusOf, Receipt, EffectiveFingerprint, Seen, Select, Normalize,
         RaisedFirst, AllRaised, BudgetSuffices, HasRoom;
    var s, d', steps := RunSteps(ports, req, res);
    RowsAreSteps(s, d, steps);
    MadeUpFinding(s, id);
    NothingLostWithinBudget(ports, req, res, d);
    var h :| h in Process(s, id).value.highlights && h.finding.severity == SeverityFor(StatusOf(s, id));
    assert Raised(s, d, h);
    ShownIffRaisedFirst(ports, req, res, d, h);
  }

  /** An information that came first with the fingerprint of an error stands in for it, at any budget. */
  lemma EarlierFindingStandsIn(hash: Hash, blocking: Blocking, max: nat, h: Highlight, fp: string)
    requires max >= 1
    ensures var info := h.(finding := h.finding.(severity := Info, fingerprint := Some(fp)));
            var error := h.(finding := h.finding.(severity := Error, fingerprint := Some(fp)));
            Select(hash, blocking, max, [info, error]) == [info] && !RaisedFirst(hash, [info, error], error)
  {
    hide SortKeys.KeyLeq, HighlightKey, Dedup;
    var info := h.(finding := h.finding.(severity := Info, fingerprint := Some(fp)));
    var error := h.(finding := h.finding.(severity := Error, fingerprint := Some(fp)));
    RepeatIsDropped(hash, info, error);
    DedupKeepsFirsts(hash, [info, error]);
    StableSort.SortByFixpoint(ByHighlightKey(blocking), [info]);
    NormalizePresent(hash, error);
    assert Normalize(hash, error) !in [info];
  }

  lemma RepeatIsDropped(hash: Hash, a: Highlight, b: Highlight)
    requires a.finding.fingerprint.Some? && a.finding.fingerprint == b.finding.fingerprint
    ensures Dedup(hash, [a, b]) == [a]
  {
    hide EffectiveFingerprint, Normalize, Seen;
    var both, one: seq<Highlight> := [a, b], [a];
    DedupFixpoint(hash, one);
    assert both[..|both| - 1] == one && both[|both| - 1] == b;
    SeenOnce(hash, a, b);
  }

  lemma SeenOnce(hash: Hash, a: Highlight, b: Highlight)
    requires a.finding.fingerprint.Some? && a.finding.fingerprint == b.finding.fingerprint
    ensures Seen(hash, [a], EffectiveFingerprint(hash, b))
  {
    assert a in [a];
  }
}
