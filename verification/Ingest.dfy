/** The ingest run: discover sensors, evaluate each expected one, aggregate, write report and comment, decide the exit
    code. Ports are total functions: from sensor ids to what reading returned, and from texts to whether writing
    succeeded. An error of any of them ends the run. */
module Ingest {
  import opened Types
  import opened StableSort
  import opened Fingerprint
  import opened Highlights
  import opened Summarize
  import opened Synthesize
  import opened OverallVerdict
  import opened OrderedSet
  import Buildfix

  type Bytes = seq<bv8>

  datatype DiscoveredSensors = DiscoveredSensors(
    sensors: seq<string>, truncated: bool, totalFound: usize, invalidSensorIds: seq<string>)

  datatype ReportRead =
    ReportMissing | ReportBytes(bytes: Bytes) | ReportOversized(size: u64, cap: usize) | ReportUnsafePath
  datatype CommentRead = CommentMissing | CommentPresent(path: string) | CommentUnsafePath
  datatype PlanRead = PlanMissing | PlanBytes(bytes: Bytes) | PlanOversized(size: u64, cap: usize)
  datatype SchemaValidationResult = Valid | Violations(errors: seq<string>)

  datatype Ports = Ports(
    discover: Result<DiscoveredSensors>,
    loadConfig: Result<Option<CockpitConfig>>,
    reportPath: string -> string,
    readReport: string -> Result<ReportRead>,
    readComment: string -> Result<CommentRead>,
    readPlan: string -> Result<PlanRead>,
    validate: Bytes -> Result<SchemaValidationResult>,
    parseReceipt: Bytes -> Result<SensorReport>,
    parsePlan: Bytes -> Option<BuildfixPlan>,
    hash: Hash,
    render: (CockpitReport, CockpitConfig) -> string,
    serialize: CockpitReport -> Result<string>,
    writeReport: string -> Result<()>,
    writeComment: string -> Result<()>)

  datatype Request = Request(labels: seq<string>, run: RunInfo, schemaValidation: Option<SchemaValidation>)

  datatype IngestResult = IngestResult(
    report: CockpitReport, commentMd: string, exitCode: int, buildfix: Option<BuildfixSummary>)

  /** What is fixed while the sensors are walked. */
  datatype Setting = Setting(ports: Ports, cfg: CockpitConfig, labels: seq<string>, strict: bool)

  function PolicyFor(cfg: CockpitConfig, id: string): SensorPolicy {
    if id in cfg.sensors then cfg.sensors[id] else DEFAULT_SENSOR_POLICY
  }

  /** The sensor asks for a label the pull request does not have. */
  predicate Gated(policy: SensorPolicy, labels: seq<string>) {
    policy.requireLabel.Some? && policy.requireLabel.value !in labels
  }

  /** The contribution of one sensor: its summary row and its highlight candidates. */
  datatype Step = Step(summary: SensorSummary, highlights: seq<Highlight>)

  function CommentPath(read: CommentRead): Option<string> {
    if read.CommentPresent? then Some(read.path) else None
  }

  function CommentHighlights(id: string, read: CommentRead): seq<Highlight> {
    if read.CommentUnsafePath?
    then [SynthesizePathTraversalHighlight(id, "artifacts/" + id + "/comment.md", Some("comment.md"))]
    else []
  }

  /** What a receipt's bytes lead to. */
  function JudgeBytes(s: Setting, id: string, path: string, comment: Option<string>, bytes: Bytes): Result<Step> {
    var policy := PolicyFor(s.cfg, id);
    var validation := if s.strict then s.ports.validate(bytes) else Ok(Valid);
    match validation
    case Err(e) => Err(e)
    case Ok(Violations(errors)) =>
      var (summary, h) := SynthesizeSchemaViolationSensor(id, policy, path, comment, errors);
      Ok(Step(summary, [h]))
    case Ok(Valid) =>
      match s.ports.parseReceipt(bytes)
      case Ok(report) =>
        var max := s.cfg.policy.maxPerSensorFindings;
        Ok(Step(SummaryOf(id, path, comment, policy, report, max), CandidatesOf(id, report, max)))
      case Err(e) =>
        var (summary, h) := SynthesizeInvalidSensor(id, policy, path, comment, e);
        Ok(Step(summary, [h]))
  }

  function JudgeRead(s: Setting, id: string, path: string, comment: Option<string>, read: ReportRead): Result<Step> {
    var policy := PolicyFor(s.cfg, id);
    match read
    case ReportMissing =>
      var (summary, h) := SynthesizeMissingSensor(id, policy, path, comment);
      Ok(Step(summary, if h.Some? then [h.value] else []))
    case ReportUnsafePath =>
      var (summary, h) := SynthesizePathTraversalSensor(id, policy, path, comment, Some("report.json"));
      Ok(Step(summary, [h]))
    case ReportOversized(size, cap) =>
      var (summary, h) := SynthesizeReceiptOversizedSensor(id, policy, path, comment, size, cap);
      Ok(Step(summary, [h]))
    case ReportBytes(bytes) => JudgeBytes(s, id, path, comment, bytes)
  }

  function AddHighlights(hs: seq<Highlight>, r: Result<Step>): Result<Step> {
    match r
    case Err(e) => Err(e)
    case Ok(step) => Ok(Step(step.summary, hs + step.highlights))
  }

  /** One sensor, on its own. */
  function Process(s: Setting, id: string): Result<Step> {
    var policy, path := PolicyFor(s.cfg, id), s.ports.reportPath(id);
    if !IsValidSensorId(id) then
      var (summary, h) := SynthesizePathTraversalSensor(id, policy, path, None, None);
      Ok(Step(summary, [h]))
    else
      match s.ports.readComment(id)
      case Err(e) => Err(e)
      case Ok(read) =>
        var comment, hs := CommentPath(read), CommentHighlights(id, read);
        if Gated(policy, s.labels) then
          Ok(Step(SynthesizeMissingSensor(id, policy.(missing := MissingPolicy.Skip), path, comment).0, hs))
        else
          match s.ports.readReport(id)
          case Err(e) => Err(e)
          case Ok(report) => AddHighlights(hs, JudgeRead(s, id, path, comment, report))
  }

  /** All expected sensors in turn; the first error ends the walk. */
  function ProcessAll(s: Setting, ids: seq<string>): Result<seq<Step>> {
    if ids == [] then Ok([])
    else
      match ProcessAll(s, ids[..|ids| - 1])
      case Err(e) => Err(e)
      case Ok(steps) =>
        match Process(s, ids[|ids| - 1])
        case Err(e) => Err(e)
        case Ok(step) => Ok(steps + [step])
  }

  function Summaries(steps: seq<Step>): seq<SensorSummary> {
    if steps == [] then [] else Summaries(steps[..|steps| - 1]) + [steps[|steps| - 1].summary]
  }

  function Candidates(steps: seq<Step>): seq<Highlight> {
    if steps == [] then [] else Candidates(steps[..|steps| - 1]) + steps[|steps| - 1].highlights
  }

  /** Candidates raised before any sensor is looked at. */
  function RejectedIds(ports: Ports, ids: seq<string>): seq<Highlight> {
    if ids == [] then []
    else
      var id := ids[|ids| - 1];
      RejectedIds(ports, ids[..|ids| - 1]) + [SynthesizePathTraversalHighlight(id, ports.reportPath(id), None)]
  }

  function EarlyCandidates(ports: Ports, d: DiscoveredSensors): seq<Highlight> {
    RejectedIds(ports, d.invalidSensorIds)
    + if d.truncated then [SynthesizeSensorsTruncated(|d.sensors|, d.totalFound)] else []
  }

  function BlockingMap(cfg: CockpitConfig, ids: seq<string>): Blocking {
    map id | id in ids :: PolicyFor(cfg, id).blocking
  }

  /** Sensors named in the configuration, or, without any, the discovered ones. */
  ghost function Expected(cfg: CockpitConfig, d: DiscoveredSensors): seq<string> {
    if cfg.sensors != map[] then Ascending(cfg.sensors.Keys) else d.sensors
  }

  /** The fixes of every readable plan, plan after plan. */
  ghost function AllFixes(ports: Ports, ids: seq<string>, highlights: seq<Highlight>): Result<seq<FixSummary>> {
    if ids == [] then Ok([])
    else
      match AllFixes(ports, ids[..|ids| - 1], highlights)
      case Err(e) => Err(e)
      case Ok(fixes) =>
        var id := ids[|ids| - 1];
        match ports.readPlan(id)
        case Err(e) => Err(e)
        case Ok(PlanBytes(bytes)) =>
          (match ports.parsePlan(bytes)
           case Some(plan) => Ok(fixes + Buildfix.MatchedPlan(id, plan, highlights))
           case None => Ok(fixes))
        case Ok(_) => Ok(fixes)
  }

  function EffectiveConfig(loaded: Option<CockpitConfig>): CockpitConfig {
    loaded.GetOr(DEFAULT_CONFIG)
  }

  function SettingFor(ports: Ports, req: Request, cfg: CockpitConfig): Setting {
    Setting(ports, cfg, req.labels, req.schemaValidation.GetOr(cfg.policy.schemaValidation) == Strict)
  }

  /** The highlights of a run. */
  ghost function RunHighlights(s: Setting, d: DiscoveredSensors, steps: seq<Step>): seq<Highlight> {
    Select(s.ports.hash, BlockingMap(s.cfg, Expected(s.cfg, d)), s.cfg.policy.maxHighlights,
           EarlyCandidates(s.ports, d) + Candidates(steps))
  }

  ghost function RunRows(cfg: CockpitConfig, steps: seq<Step>): seq<SensorSummary> {
    SortBy(BySection(cfg), Summaries(steps))
  }

  /** The report once all sensors are processed. */
  ghost function Assemble(s: Setting, req: Request, d: DiscoveredSensors, steps: seq<Step>): Result<CockpitReport> {
    var rows, highlights := RunRows(s.cfg, steps), RunHighlights(s, d, steps);
    match AllFixes(s.ports, d.sensors, highlights)
    case Err(e) => Err(e)
    case Ok(fixes) =>
      var buildfix := if fixes == [] then None else Some(Buildfix.SummaryFrom(fixes));
      Ok(CockpitReport(req.run, Overall(s.cfg, rows), rows, highlights, buildfix))
  }

  /** The report a run comes to, before anything is written. */
  ghost function Assembled(ports: Ports, req: Request): Result<CockpitReport> {
    match ports.discover
    case Err(e) => Err(e)
    case Ok(d) =>
      match ports.loadConfig
      case Err(e) => Err(e)
      case Ok(loaded) =>
        var s := SettingFor(ports, req, EffectiveConfig(loaded));
        match ProcessAll(s, Expected(s.cfg, d))
        case Err(e) => Err(e)
        case Ok(steps) => Assemble(s, req, d, steps)
  }

  /** Writing report and comment. */
  function Deliver(ports: Ports, cfg: CockpitConfig, report: CockpitReport): Result<IngestResult> {
    var commentMd := ports.render(report, cfg);
    match ports.serialize(report)
    case Err(e) => Err(e)
    case Ok(json) =>
      match ports.writeReport(json + "\n")
      case Err(e) => Err(e)
      case Ok(_) =>
        match ports.writeComment(commentMd)
        case Err(e) => Err(e)
        case Ok(_) => Ok(IngestResult(report, commentMd, ExitCode(report.verdict.status), report.buildfix))
  }

  /** A whole run. */
  ghost function Run(ports: Ports, req: Request): Result<IngestResult> {
    match Assembled(ports, req)
    case Err(e) => Err(e)
    case Ok(report) => Deliver(ports, EffectiveConfig(ports.loadConfig.value), report)
  }

  // ---- The program ----

  lemma {:induction false} ErrorEndsWalk(s: Setting, ids: seq<string>, n: nat)
    requires n <= |ids| && ProcessAll(s, ids[..n]).Err?
    ensures ProcessAll(s, ids) == ProcessAll(s, ids[..n])
    decreases |ids| - n
  {
    hide Process;
    if n < |ids| {
      assert ids[..n + 1][..n] == ids[..n];
      ErrorEndsWalk(s, ids, n + 1);
    } else {
      assert ids[..n] == ids;
    }
  }

  lemma WalkStep(s: Setting, ids: seq<string>, n: nat, steps: seq<Step>)
    requires n < |ids| && ProcessAll(s, ids[..n]) == Ok(steps)
    ensures Process(s, ids[n]).Ok? ==> ProcessAll(s, ids[..n + 1]) == Ok(steps + [Process(s, ids[n]).value])
    ensures Process(s, ids[n]).Err? ==> ProcessAll(s, ids) == Err(Process(s, ids[n]).error)
  {
    hide Process;
    assert ids[..n + 1][..n] == ids[..n];
    if Process(s, ids[n]).Err? {
      ErrorEndsWalk(s, ids, n + 1);
    }
  }

  lemma StepsSnoc(early: seq<Highlight>, steps: seq<Step>, step: Step)
    ensures Summaries(steps + [step]) == Summaries(steps) + [step.summary]
    ensures early + Candidates(steps + [step]) == early + Candidates(steps) + step.highlights
  {
    assert (steps + [step])[..|steps|] == steps;
    assert early + (Candidates(steps) + step.highlights) == early + Candidates(steps) + step.highlights;
  }

  /** The per-sensor loop: every exit pushes one summary row and the sensor's highlight candidates. */
  method ProcessSensors(s: Setting, expected: seq<string>, early: seq<Highlight>)
    returns (error: Option<string>, sensorSummaries: seq<SensorSummary>, candidates: seq<Highlight>, blocking: Blocking)
    ensures var walk := ProcessAll(s, expected);
            && error == (if walk.Err? then Some(walk.error) else None)
            && (walk.Ok? ==>
                && sensorSummaries == Summaries(walk.value)
                && candidates == early + Candidates(walk.value)
                && blocking == BlockingMap(s.cfg, expected))
  {
    hide SynthesizeMissingSensor, SynthesizePathTraversalSensor, SynthesizeReceiptOversizedSensor,
         SynthesizeSchemaViolationSensor, SynthesizeInvalidSensor, SynthesizePathTraversalHighlight, SummaryOf,
         CandidatesOf, IsValidSensorId, ProcessAll, Summaries, Candidates, PolicyFor, BlockingMap;
    ghost var steps: seq<Step> := [];
    sensorSummaries, candidates, blocking, error := [], early, map[], None;
    var cfg, ports := s.cfg, s.ports;
    NothingProcessed(s, expected);
    for n := 0 to |expected|
      invariant error == None && ProcessAll(s, expected[..n]) == Ok(steps)
      invariant sensorSummaries == Summaries(steps) && candidates == early + Candidates(steps)
      invariant blocking == BlockingMap(cfg, expected[..n])
    {
      var id := expected[n];
      WalkStep(s, expected, n, steps);
      BlockingSnoc(cfg, expected, n);
      var policy := PolicyFor(cfg, id);
      blocking := blocking[id := policy.blocking];
      if Process(s, id).Ok? {
        StepsSnoc(early, steps, Process(s, id).value);
      }
      ghost var before := candidates;

      if !IsValidSensorId(id) {
        var (summary, highlight) := SynthesizePathTraversalSensor(id, policy, ports.reportPath(id), None, None);
        sensorSummaries := sensorSummaries + [summary];
        candidates := candidates + [highlight];
        steps := steps + [Process(s, id).value];
        continue;
      }

      var commentPath: Option<string> := None;
      var read := ports.readComment(id);
      match read {
        case Err(e) => return Some(e), [], [], map[];
        case Ok(CommentPresent(p)) => commentPath := Some(p);
        case Ok(CommentMissing) =>
        case Ok(CommentUnsafePath) =>
          candidates := candidates
            + [SynthesizePathTraversalHighlight(id, "artifacts/" + id + "/comment.md", Some("comment.md"))];
      }
      assert commentPath == CommentPath(read.value) && candidates == before + CommentHighlights(id, read.value);

      if policy.requireLabel.Some? && policy.requireLabel.value !in s.labels {
        var p := policy.(missing := MissingPolicy.Skip);
        var (summary, _) := SynthesizeMissingSensor(id, p, ports.reportPath(id), commentPath);
        sensorSummaries := sensorSummaries + [summary];
        steps := steps + [Process(s, id).value];
        continue;
      }

      var path := ports.reportPath(id);
      var bytes: Bytes := [];
      match ports.readReport(id) {
        case Err(e) => return Some(e), [], [], map[];
        case Ok(ReportMissing) =>
          var (summary, h) := SynthesizeMissingSensor(id, policy, path, commentPath);
          sensorSummaries := sensorSummaries + [summary];
          if h.Some? {
            candidates := candidates + [h.value];
          }
          steps := steps + [Process(s, id).value];
          continue;
        case Ok(ReportUnsafePath) =>
          var (summary, h) := SynthesizePathTraversalSensor(id, policy, path, commentPath, Some("report.json"));
          sensorSummaries := sensorSummaries + [summary];
          candidates := candidates + [h];
          steps := steps + [Process(s, id).value];
          continue;
        case Ok(ReportOversized(size, cap)) =>
          var (summary, h) := SynthesizeReceiptOversizedSensor(id, policy, path, commentPath, size, cap);
          sensorSummaries := sensorSummaries + [summary];
          candidates := candidates + [h];
          steps := steps + [Process(s, id).value];
          continue;
        case Ok(ReportBytes(b)) => bytes := b;
      }

      if s.strict {
        match ports.validate(bytes) {
          case Err(e) => return Some(e), [], [], map[];
          case Ok(Valid) =>
          case Ok(Violations(errors)) =>
            var (summary, h) := SynthesizeSchemaViolationSensor(id, policy, path, commentPath, errors);
            sensorSummaries := sensorSummaries + [summary];
            candidates := candidates + [h];
            steps := steps + [Process(s, id).value];
            continue;
        }
      }

      match ports.parseReceipt(bytes) {
        case Ok(report) =>
          var summary, highlights :=
            SummarizeSensorReport(id, path, commentPath, policy, report, cfg.policy.maxPerSensorFindings);
          sensorSummaries := sensorSummaries + [summary];
          candidates := candidates + highlights;
        case Err(e) =>
          var (summary, h) := SynthesizeInvalidSensor(id, policy, path, commentPath, e);
          sensorSummaries := sensorSummaries + [summary];
          candidates := candidates + [h];
      }
      steps := steps + [Process(s, id).value];
    }
    assert expected[..|expected|] == expected;
  }

  lemma NothingProcessed(s: Setting, expected: seq<string>)
    ensures ProcessAll(s, expected[..0]) == Ok([]) && Summaries([]) == [] && Candidates([]) == []
    ensures BlockingMap(s.cfg, expected[..0]) == map[]
  {
  }

  lemma BlockingSnoc(cfg: CockpitConfig, ids: seq<string>, n: nat)
    requires n < |ids|
    ensures BlockingMap(cfg, ids[..n + 1]) == BlockingMap(cfg, ids[..n])[ids[n] := PolicyFor(cfg, ids[n]).blocking]
  {
    assert ids[..n + 1] == ids[..n] + [ids[n]];
  }

  /** Path-traversal notices for rejected ids, then the truncation notice. */
  method RaiseEarly(ports: Ports, d: DiscoveredSensors) returns (candidates: seq<Highlight>)
    ensures candidates == EarlyCandidates(ports, d)
  {
    hide SynthesizePathTraversalHighlight, SynthesizeSensorsTruncated;
    candidates := [];
    for i := 0 to |d.invalidSensorIds|
      invariant candidates == RejectedIds(ports, d.invalidSensorIds[..i])
    {
      var id := d.invalidSensorIds[i];
      assert d.invalidSensorIds[..i + 1][..i] == d.invalidSensorIds[..i];
      candidates := candidates + [SynthesizePathTraversalHighlight(id, ports.reportPath(id), None)];
    }
    assert d.invalidSensorIds[..|d.invalidSensorIds|] == d.invalidSensorIds;
    if d.truncated {
      candidates := candidates + [SynthesizeSensorsTruncated(|d.sensors|, d.totalFound)];
    }
  }

  lemma {:induction false} ErrorEndsFixes(ports: Ports, ids: seq<string>, highlights: seq<Highlight>, n: nat)
    requires n <= |ids| && AllFixes(ports, ids[..n], highlights).Err?
    ensures AllFixes(ports, ids, highlights) == AllFixes(ports, ids[..n], highlights)
    decreases |ids| - n
  {
    if n < |ids| {
      assert ids[..n + 1][..n] == ids[..n];
      ErrorEndsFixes(ports, ids, highlights, n + 1);
    } else {
      assert ids[..n] == ids;
    }
  }

  /** The buildfix loop over the discovered sensors. Fixes of different plans are appended, not sorted together. */
  method CollectFixes(ports: Ports, ids: seq<string>, highlights: seq<Highlight>) returns (r: Result<seq<FixSummary>>)
    ensures r == AllFixes(ports, ids, highlights)
  {
    hide Buildfix.MatchedPlan, Buildfix.SummaryFrom;
    var fixes: seq<FixSummary> := [];
    for n := 0 to |ids|
      invariant AllFixes(ports, ids[..n], highlights) == Ok(fixes)
    {
      var id := ids[n];
      assert ids[..n + 1][..n] == ids[..n];
      match ports.readPlan(id) {
        case Err(e) =>
          ErrorEndsFixes(ports, ids, highlights, n + 1);
          return Err(e);
        case Ok(PlanBytes(bytes)) =>
          match ports.parsePlan(bytes) {
            case None =>
            case Some(plan) =>
              var summary := Buildfix.MatchBuildfixPlan(id, plan, highlights);
              PlanFixes(id, plan, highlights);
              fixes := fixes + summary.fixes;
          }
        case Ok(_) =>
      }
    }
    assert ids[..|ids|] == ids;
    r := Ok(fixes);
  }

  lemma PlanFixes(id: string, plan: BuildfixPlan, highlights: seq<Highlight>)
    ensures Buildfix.SummaryFrom(Buildfix.MatchedPlan(id, plan, highlights)).fixes ==
            Buildfix.MatchedPlan(id, plan, highlights)
  {
  }

  method ExpectedSensors(cfg: CockpitConfig, d: DiscoveredSensors) returns (expected: seq<string>)
    ensures expected == Expected(cfg, d)
  {
    if cfg.sensors != map[] {
      expected := AscendingKeys(cfg.sensors.Keys);
    } else {
      expected := d.sensors;
    }
  }

  /** The whole use case. */
  method Execute(ports: Ports, req: Request) returns (r: Result<IngestResult>)
    ensures r == Run(ports, req)
  {
    hide ProcessAll, AllFixes, EarlyCandidates, Select, SortBy, Overall, Expected, BlockingMap;
    if ports.discover.Err? {
      return Err(ports.discover.error);
    }
    var discovery := ports.discover.value;
    if ports.loadConfig.Err? {
      return Err(ports.loadConfig.error);
    }
    var cfg := ports.loadConfig.value.GetOr(DEFAULT_CONFIG);
    var s := Setting(ports, cfg, req.labels, req.schemaValidation.GetOr(cfg.policy.schemaValidation) == Strict);
    var expected := ExpectedSensors(cfg, discovery);
    var early := RaiseEarly(ports, discovery);
    var error, sensorSummaries, candidates, blocking := ProcessSensors(s, expected, early);
    if error.Some? {
      return Err(error.value);
    }
    var rows := SortSensorSummaries(sensorSummaries, cfg);
    var highlights := SelectHighlights(ports.hash, candidates, cfg, blocking);
    var fixes := CollectFixes(ports, discovery.sensors, highlights);
    if fixes.Err? {
      return Err(fixes.error);
    }
    var all := fixes.value;
    var buildfix: Option<BuildfixSummary> := None;
    if all != [] {
      var totalFixes, unmatchedCount := |all|, Buildfix.UnmatchedCount(all);
      Buildfix.CountsSplit(all);
      var matchedCount := totalFixes - unmatchedCount;
      buildfix := Some(BuildfixSummary(all, totalFixes, matchedCount, unmatchedCount));
    }
    var verdict := ComputeOverallVerdict(rows, cfg);
    var report := CockpitReport(req.run, verdict, rows, highlights, buildfix);
    var commentMd := ports.render(report, cfg);
    var reportJson := ports.serialize(report);
    if reportJson.Err? {
      return Err(reportJson.error);
    }
    var written := ports.writeReport(reportJson.value + "\n");
    if written.Err? {
      return Err(written.error);
    }
    written := ports.writeComment(commentMd);
    if written.Err? {
      return Err(written.error);
    }
    var exitCode := if verdict.status == VerdictStatus.Fail then 2 else 0;
    r := Ok(IngestResult(report, commentMd, exitCode, buildfix));
  }
}
