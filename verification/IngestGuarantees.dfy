/** What every ingest run guarantees, stated on its inputs. */
module IngestGuarantees {
  import opened Types
  import opened StableSort
  import opened Findings
  import opened Highlights
  import opened Summarize
  import opened Synthesize
  import opened OverallVerdict
  import opened Ingest
  import Conform
  import TrendPatch
  import Render

  /** The run got as far as aggregating: its setting, discovery and steps. */
  ghost predicate Ran(ports: Ports, req: Request, s: Setting, d: DiscoveredSensors, steps: seq<Step>,
                      res: IngestResult)
  {
    && ports.discover == Ok(d) && ports.loadConfig.Ok?
    && s == SettingFor(ports, req, EffectiveConfig(ports.loadConfig.value))
    && ProcessAll(s, Expected(s.cfg, d)) == Ok(steps)
    && Assemble(s, req, d, steps) == Ok(res.report) && Deliver(ports, s.cfg, res.report) == Ok(res)
  }

  lemma RunSteps(ports: Ports, req: Request, res: IngestResult)
    returns (s: Setting, d: DiscoveredSensors, steps: seq<Step>)
    requires Run(ports, req) == Ok(res)
    ensures Ran(ports, req, s, d, steps, res)
    ensures res.report.sensors == RunRows(s.cfg, steps) && res.report.highlights == RunHighlights(s, d, steps)
    ensures res.report.verdict == Overall(s.cfg, res.report.sensors)
    ensures res.exitCode == ExitCode(res.report.verdict.status) && res.report.run == req.run
  {
    hide ProcessAll, AllFixes, RunRows, RunHighlights, Overall, Expected;
    d := ports.discover.value;
    s := SettingFor(ports, req, EffectiveConfig(ports.loadConfig.value));
    steps := ProcessAll(s, Expected(s.cfg, d)).value;
  }

  // ---- One sensor ----

  /** The status a sensor ends up with, read off the inputs. */
  function StatusOf(s: Setting, id: string): VerdictStatus {
    var policy := PolicyFor(s.cfg, id);
    if !IsValidSensorId(id) then VerdictStatus.Fail
    else if Gated(policy, s.labels) then VerdictStatus.Skip
    else
      match s.ports.readReport(id)
      case Err(_) => VerdictStatus.Skip
      case Ok(ReportMissing) => MissingStatus(policy.missing)
      case Ok(ReportUnsafePath) => VerdictStatus.Fail
      case Ok(ReportOversized(_, _)) => VerdictStatus.Fail
      case Ok(ReportBytes(bytes)) =>
        if s.strict && s.ports.validate(bytes).Ok? && s.ports.validate(bytes).value.Violations? then VerdictStatus.Fail
        else
          match s.ports.parseReceipt(bytes)
          case Ok(report) => report.verdict.status
          case Err(_) => VerdictStatus.Fail
  }

  /** The receipt that is summarized for a sensor, if its processing gets that far. */
  function Receipt(s: Setting, id: string): Option<SensorReport> {
    if !IsValidSensorId(id) || Gated(PolicyFor(s.cfg, id), s.labels) then None
    else
      match s.ports.readReport(id)
      case Ok(ReportBytes(bytes)) =>
        if s.strict && s.ports.validate(bytes) != Ok(Valid) then None
        else
          (match s.ports.parseReceipt(bytes)
           case Ok(report) => Some(report)
           case Err(_) => None)
      case _ => None
  }

  lemma TokensOk()
    ensures Conform.IsValidReasonToken("missing_receipt") && Conform.IsValidReasonToken("invalid_receipt")
    ensures Conform.IsValidReasonToken("schema_violation") && Conform.IsValidReasonToken("path_traversal")
    ensures Conform.IsValidReasonToken("receipt_oversized") && Conform.IsValidReasonToken("receipt_inconsistent")
    ensures Conform.IsValidReasonToken("warn_is_fail")
  {
  }

  /** A summary row for `id` with its policy's blocking flag, the given status, well-formed presence, and reason
      tokens that are all well formed exactly if `tokensOk`. */
  ghost predicate IsRow(row: SensorSummary, id: string, policy: SensorPolicy, status: VerdictStatus, tokensOk: bool) {
    && row.id == id && row.blocking == policy.blocking && row.verdict.status == status
    && !Conform.PresenceFault(row)
    && (Conform.TokensValid(row.verdict.reasons) <==> tokensOk)
  }

  lemma MissingRow(id: string, policy: SensorPolicy, path: string, comment: Option<string>)
    ensures IsRow(SynthesizeMissingSensor(id, policy, path, comment).0, id, policy, MissingStatus(policy.missing), true)
  {
    hide Counts, Conform.IsValidReasonToken;
    TokensOk();
  }

  lemma FailedRow(id: string, policy: SensorPolicy, presence: Presence, path: string, comment: Option<string>,
                  finding: Finding, reason: string, errors: seq<string>, outcome: PolicyOutcome)
    requires Conform.IsValidReasonToken(reason)
    ensures IsRow(FailedSummary(id, policy, presence, path, comment, finding, reason, errors, outcome), id, policy,
                  VerdictStatus.Fail, true)
  {
    hide Counts, Conform.IsValidReasonToken;
  }

  lemma UnsafeRow(id: string, policy: SensorPolicy, path: string, comment: Option<string>, context: Option<string>)
    ensures IsRow(SynthesizePathTraversalSensor(id, policy, path, comment, context).0, id, policy, VerdictStatus.Fail,
                  true)
  {
    hide IsRow, FailedSummary, Conform.IsValidReasonToken, TraversalMessage;
    TokensOk();
    FailedRow(id, policy, Missing, path, comment, SynthesizePathTraversalHighlight(id, path, context).finding,
              "path_traversal", ["unsafe path rejected: " + path], Blocked);
  }

  lemma OversizedRow(id: string, policy: SensorPolicy, path: string, comment: Option<string>, size: u64, cap: usize)
    ensures IsRow(SynthesizeReceiptOversizedSensor(id, policy, path, comment, size, cap).0, id, policy,
                  VerdictStatus.Fail, true)
  {
    hide Counts, Conform.IsValidReasonToken, OversizedMessage;
    TokensOk();
  }

  lemma ViolatingRow(id: string, policy: SensorPolicy, path: string, comment: Option<string>, errors: seq<string>)
    ensures IsRow(SynthesizeSchemaViolationSensor(id, policy, path, comment, errors).0, id, policy,
                  VerdictStatus.Fail, true)
  {
    hide Counts, Conform.IsValidReasonToken, SchemaViolationMessage;
    TokensOk();
  }

  lemma InvalidRow(id: string, policy: SensorPolicy, path: string, comment: Option<string>, error: string)
    ensures IsRow(SynthesizeInvalidSensor(id, policy, path, comment, error).0, id, policy, VerdictStatus.Fail, true)
  {
    hide Counts, Conform.IsValidReasonToken, InvalidMessage;
    TokensOk();
  }

  lemma ReceiptRow(id: string, path: string, comment: Option<string>, policy: SensorPolicy, report: SensorReport,
                   max: usize)
    ensures IsRow(SummaryOf(id, path, comment, policy, report, max), id, policy, report.verdict.status,
                  Conform.TokensValid(report.verdict.reasons))
  {
    hide Counts, Conform.IsValidReasonToken, Inconsistent;
    TokensOk();
  }

  /** The row of every sensor, whatever exit its processing takes. */
  lemma StepFacts(s: Setting, id: string)
    requires Process(s, id).Ok?
    ensures IsRow(Process(s, id).value.summary, id, PolicyFor(s.cfg, id), StatusOf(s, id),
                  Receipt(s, id).Some? ==> Conform.TokensValid(Receipt(s, id).value.verdict.reasons))
  {
    hide IsRow, IsValidSensorId, Conform.TokensValid, SummaryOf, CandidatesOf, SynthesizeMissingSensor,
         SynthesizePathTraversalSensor, SynthesizeReceiptOversizedSensor, SynthesizeSchemaViolationSensor,
         SynthesizeInvalidSensor, CommentHighlights;
    var policy, path := PolicyFor(s.cfg, id), s.ports.reportPath(id);
    if !IsValidSensorId(id) {
      UnsafeRow(id, policy, path, None, None);
    } else {
      var comment := CommentPath(s.ports.readComment(id).value);
      if Gated(policy, s.labels) {
        var skipped := policy.(missing := MissingPolicy.Skip);
        MissingRow(id, skipped, path, comment);
        SameBlocking(SynthesizeMissingSensor(id, skipped, path, comment).0, id, skipped, policy, VerdictStatus.Skip);
      } else {
        match s.ports.readReport(id).value
        case ReportMissing => MissingRow(id, policy, path, comment);
        case ReportUnsafePath => UnsafeRow(id, policy, path, comment, Some("report.json"));
        case ReportOversized(size, cap) => OversizedRow(id, policy, path, comment, size, cap);
        case ReportBytes(bytes) => JudgedRow(s, id, path, comment, bytes);
      }
    }
  }

  lemma SameBlocking(row: SensorSummary, id: string, p: SensorPolicy, q: SensorPolicy, status: VerdictStatus)
    requires IsRow(row, id, p, status, true) && p.blocking == q.blocking
    ensures IsRow(row, id, q, status, true)
  {
  }

  lemma JudgedRow(s: Setting, id: string, path: string, comment: Option<string>, bytes: Bytes)
    requires IsValidSensorId(id) && !Gated(PolicyFor(s.cfg, id), s.labels)
             && s.ports.readReport(id) == Ok(ReportBytes(bytes))
    requires JudgeBytes(s, id, path, comment, bytes).Ok?
    ensures IsRow(JudgeBytes(s, id, path, comment, bytes).value.summary, id, PolicyFor(s.cfg, id), StatusOf(s, id),
                  Receipt(s, id).Some? ==> Conform.TokensValid(Receipt(s, id).value.verdict.reasons))
  {
    hide IsRow, IsValidSensorId, Conform.TokensValid, SummaryOf, CandidatesOf, SynthesizeSchemaViolationSensor,
         SynthesizeInvalidSensor;
    var policy := PolicyFor(s.cfg, id);
    if s.strict && s.ports.validate(bytes).value.Violations? {
      ViolatingRow(id, policy, path, comment, s.ports.validate(bytes).value.errors);
    } else {
      match s.ports.parseReceipt(bytes)
      case Ok(report) => ReceiptRow(id, path, comment, policy, report, s.cfg.policy.maxPerSensorFindings);
      case Err(e) => InvalidRow(id, policy, path, comment, e);
    }
  }

  // ---- All sensors ----

  lemma {:induction false} StepAt(s: Setting, ids: seq<string>, n: nat)
    requires ProcessAll(s, ids).Ok? && n < |ids|
    ensures |ProcessAll(s, ids).value| == |ids|
    ensures Process(s, ids[n]) == Ok(ProcessAll(s, ids).value[n])
    decreases |ids|
  {
    hide Process;
    var front := ids[..|ids| - 1];
    if n < |front| {
      StepAt(s, front, n);
    } else if front != [] {
      StepAt(s, front, 0);
    }
  }

  lemma {:induction false} SummariesAt(steps: seq<Step>)
    ensures |Summaries(steps)| == |steps|
    ensures forall i :: 0 <= i < |steps| ==> Summaries(steps)[i] == steps[i].summary
  {
    if steps != [] {
      SummariesAt(steps[..|steps| - 1]);
    }
  }

  /** A row of the report is the summary of an expected sensor, and every expected sensor has its row. */
  lemma RowsAreSteps(s: Setting, d: DiscoveredSensors, steps: seq<Step>)
    requires ProcessAll(s, Expected(s.cfg, d)) == Ok(steps)
    ensures forall row :: row in RunRows(s.cfg, steps) <==>
      exists id :: id in Expected(s.cfg, d) && Process(s, id).Ok? && row == Process(s, id).value.summary
    ensures forall id :: id in Expected(s.cfg, d) ==> Process(s, id).Ok?
  {
    hide Process, ProcessAll, Expected, Summaries, BySection;
    var ids := Expected(s.cfg, d);
    SummariesAt(steps);
    forall n | 0 <= n < |ids|
      ensures |steps| == |ids| && Process(s, ids[n]) == Ok(steps[n])
    {
      StepAt(s, ids, n);
    }
    StepCount(s, ids);
    forall row
      ensures row in RunRows(s.cfg, steps) <==>
        exists id :: id in ids && Process(s, id).Ok? && row == Process(s, id).value.summary
    {
      SortByMember(BySection(s.cfg), Summaries(steps), row);
      if row in Summaries(steps) {
        var i :| 0 <= i < |Summaries(steps)| && Summaries(steps)[i] == row;
        assert ids[i] in ids;
      }
      if id :| id in ids && Process(s, id).Ok? && row == Process(s, id).value.summary {
        var n :| 0 <= n < |ids| && ids[n] == id;
        assert Summaries(steps)[n] == row;
      }
    }
  }

  lemma StepCount(s: Setting, ids: seq<string>)
    requires ProcessAll(s, ids).Ok?
    ensures |ProcessAll(s, ids).value| == |ids|
  {
    if ids != [] {
      StepAt(s, ids, 0);
    }
  }

  function RowIds(rows: seq<SensorSummary>): seq<string> {
    if rows == [] then [] else [rows[0].id] + RowIds(rows[1..])
  }

  lemma {:induction false} InsertKeepsIds(cfg: CockpitConfig, x: SensorSummary, rows: seq<SensorSummary>)
    ensures multiset(RowIds(Insert(BySection(cfg), x, rows))) == multiset{x.id} + multiset(RowIds(rows))
  {
    hide SortKeys.KeyLeq, BySection;
    var key := BySection(cfg);
    if rows != [] && !SortKeys.KeyLeq(key(x), key(rows[0])) {
      InsertKeepsIds(cfg, x, rows[1..]);
      assert Insert(key, x, rows)[1..] == Insert(key, x, rows[1..]);
    } else {
      assert Insert(key, x, rows)[1..] == rows;
    }
  }

  lemma {:induction false} SortKeepsIds(cfg: CockpitConfig, rows: seq<SensorSummary>)
    ensures multiset(RowIds(SortBy(BySection(cfg), rows))) == multiset(RowIds(rows))
  {
    hide BySection, SortKeys.KeyLeq;
    if rows != [] {
      SortKeepsIds(cfg, rows[1..]);
      InsertKeepsIds(cfg, rows[0], SortBy(BySection(cfg), rows[1..]));
    }
  }

  lemma {:induction false} RowIdsAre(rows: seq<SensorSummary>, ids: seq<string>)
    requires |rows| == |ids| && forall i :: 0 <= i < |ids| ==> rows[i].id == ids[i]
    ensures RowIds(rows) == ids
  {
    if rows != [] {
      RowIdsAre(rows[1..], ids[1..]);
    }
  }

  /** Conservation: a completed run has exactly one row per expected sensor, counted with multiplicity, and each row
      carries its policy's blocking flag. */
  lemma OneRowPerSensor(ports: Ports, req: Request, res: IngestResult, d: DiscoveredSensors)
    requires Run(ports, req) == Ok(res) && ports.discover == Ok(d)
    ensures var cfg := EffectiveConfig(ports.loadConfig.value);
            && multiset(RowIds(res.report.sensors)) == multiset(Expected(cfg, d))
            && forall row :: row in res.report.sensors ==> row.blocking == PolicyFor(cfg, row.id).blocking
  {
    hide Process, ProcessAll, Expected, Assemble, BySection;
    var s, d', steps := RunSteps(ports, req, res);
    var ids := Expected(s.cfg, d);
    SummariesAt(steps);
    StepCount(s, ids);
    forall n | 0 <= n < |ids|
      ensures Summaries(steps)[n].id == ids[n]
    {
      StepAt(s, ids, n);
      StepFacts(s, ids[n]);
    }
    RowIdsAre(Summaries(steps), ids);
    SortKeepsIds(s.cfg, Summaries(steps));
    RowsAreSteps(s, d, steps);
    forall row | row in res.report.sensors
      ensures row.blocking == PolicyFor(s.cfg, row.id).blocking
    {
      var id :| id in ids && Process(s, id).Ok? && row == Process(s, id).value.summary;
      StepFacts(s, id);
    }
  }

  // ---- The judge accepts every report ----

  /** Every report passes the presence check. */
  lemma ReportPassesPresence(ports: Ports, req: Request, res: IngestResult)
    requires Run(ports, req) == Ok(res)
    ensures forall row :: row in res.report.sensors ==> !Conform.PresenceFault(row)
  {
    hide Process, ProcessAll, Expected, Assemble;
    var s, d, steps := RunSteps(ports, req, res);
    RowsAreSteps(s, d, steps);
    forall row | row in res.report.sensors
      ensures !Conform.PresenceFault(row)
    {
      var id :| id in Expected(s.cfg, d) && Process(s, id).Ok? && row == Process(s, id).value.summary;
      StepFacts(s, id);
    }
  }

  /** A report passes the reason-token check exactly when the run's capability reasons and the reasons of every
      summarized receipt are well-formed tokens: the program itself only ever adds well-formed ones. */
  lemma ReportPassesTokensIff(ports: Ports, req: Request, res: IngestResult, d: DiscoveredSensors)
    requires Run(ports, req) == Ok(res) && ports.discover == Ok(d)
    ensures var cfg := EffectiveConfig(ports.loadConfig.value);
            var s := SettingFor(ports, req, cfg);
            Conform.ReportTokensValid(res.report) <==>
              && Conform.CapabilityTokensValid(req.run)
              && forall id :: id in Expected(cfg, d) && Receipt(s, id).Some? ==>
                   Conform.TokensValid(Receipt(s, id).value.verdict.reasons)
  {
    hide Process, ProcessAll, Expected, Assemble, Conform.TokensValid, Conform.CapabilityTokensValid, Receipt;
    var s, d', steps := RunSteps(ports, req, res);
    RowsAreSteps(s, d, steps);
    OverallReasonsValid(s.cfg, res.report.sensors);
    forall id | id in Expected(s.cfg, d)
      ensures Process(s, id).Ok? && Process(s, id).value.summary in res.report.sensors
      ensures Conform.TokensValid(Process(s, id).value.summary.verdict.reasons) <==>
              (Receipt(s, id).Some? ==> Conform.TokensValid(Receipt(s, id).value.verdict.reasons))
    {
      StepFacts(s, id);
    }
  }

  lemma OverallReasonsValid(cfg: CockpitConfig, rows: seq<SensorSummary>)
    ensures Conform.TokensValid(Overall(cfg, rows).reasons)
  {
    TokensOk();
  }

  // ---- Verdict and exit code from the inputs ----

  /** What an expected sensor contributes to a failing run: it blocks, and it failed, or warned under `warn_is_fail`. */
  predicate FailsRun(s: Setting, id: string) {
    && PolicyFor(s.cfg, id).blocking
    && (StatusOf(s, id) == VerdictStatus.Fail || (StatusOf(s, id) == VerdictStatus.Warn && s.cfg.policy.warnIsFail))
  }

  predicate WarnsRun(s: Setting, id: string) {
    PolicyFor(s.cfg, id).blocking && StatusOf(s, id) == VerdictStatus.Warn
  }

  /** Status, reasons and exit code of a run, from the blocking sensors' inputs alone. */
  lemma VerdictFromInputs(ports: Ports, req: Request, res: IngestResult, d: DiscoveredSensors)
    requires Run(ports, req) == Ok(res) && ports.discover == Ok(d)
    ensures var cfg := EffectiveConfig(ports.loadConfig.value);
            var s := SettingFor(ports, req, cfg);
            var fails := exists id :: id in Expected(cfg, d) && FailsRun(s, id);
            var warns := exists id :: id in Expected(cfg, d) && WarnsRun(s, id);
            && res.report.verdict.status ==
              (if fails then VerdictStatus.Fail else if warns then VerdictStatus.Warn else VerdictStatus.Pass)
            && res.report.verdict.reasons == (if warns && cfg.policy.warnIsFail then ["warn_is_fail"] else [])
            && res.exitCode == (if fails then 2 else 0)
  {
    hide Process, ProcessAll, Expected, Assemble, StatusOf, Overall, RunRows, FailsRun, WarnsRun;
    var s, d', steps := RunSteps(ports, req, res);
    VerdictOfSteps(s, d, steps);
  }

  lemma RowOfSensor(s: Setting, id: string)
    requires Process(s, id).Ok?
    ensures Process(s, id).value.summary.blocking == PolicyFor(s.cfg, id).blocking
    ensures Process(s, id).value.summary.verdict.status == StatusOf(s, id)
  {
    hide Process, StatusOf, PolicyFor, Receipt, Conform.TokensValid;
    StepFacts(s, id);
  }

  lemma VerdictOfSteps(s: Setting, d: DiscoveredSensors, steps: seq<Step>)
    requires ProcessAll(s, Expected(s.cfg, d)) == Ok(steps)
    ensures var verdict := Overall(s.cfg, RunRows(s.cfg, steps));
            var fails := exists id :: id in Expected(s.cfg, d) && FailsRun(s, id);
            var warns := exists id :: id in Expected(s.cfg, d) && WarnsRun(s, id);
            && verdict.status ==
               (if fails then VerdictStatus.Fail else if warns then VerdictStatus.Warn else VerdictStatus.Pass)
            && verdict.reasons == (if warns && s.cfg.policy.warnIsFail then ["warn_is_fail"] else [])
  {
    hide Process, ProcessAll, Expected, StatusOf, PolicyFor, RunRows, Sum;
    RowsAreSteps(s, d, steps);
    var ids, rows := Expected(s.cfg, d), RunRows(s.cfg, steps);
    forall id | id in ids
      ensures Process(s, id).Ok? && Process(s, id).value.summary in rows
      ensures Process(s, id).value.summary.blocking == PolicyFor(s.cfg, id).blocking
      ensures Process(s, id).value.summary.verdict.status == StatusOf(s, id)
    {
      RowOfSensor(s, id);
    }
    assert SomeBlocking(s.cfg, rows, VerdictStatus.Fail) <==> exists id :: id in ids && FailsRun(s, id);
    assert SomeBlockingWarn(rows) <==> exists id :: id in ids && WarnsRun(s, id);
    if SomeBlocking(s.cfg, rows, VerdictStatus.Warn) {
      assert SomeBlockingWarn(rows);
    }
    if SomeBlockingWarn(rows) && !s.cfg.policy.warnIsFail {
      assert SomeBlocking(s.cfg, rows, VerdictStatus.Warn);
    }
  }

  /** Two runs agree on what their blocking sensors depend on, as far as it is consulted: the label gate; behind it the
      receipt; and of that receipt what strict validation says, and what parsing says unless validation rejects it.
      Everything about other sensors, discovery, comments, paths and plans may differ. */
  ghost predicate AgreeOnBlocking(cfg: CockpitConfig, s: Setting, t: Setting) {
    forall id :: id in cfg.sensors && cfg.sensors[id].blocking && IsValidSensorId(id) ==>
      && Gated(cfg.sensors[id], s.labels) == Gated(cfg.sensors[id], t.labels)
      && (!Gated(cfg.sensors[id], s.labels) ==>
          s.ports.readReport(id) == t.ports.readReport(id) && AgreeOnReceipt(s, t, id))
  }

  ghost predicate AgreeOnReceipt(s: Setting, t: Setting, id: string) {
    s.ports.readReport(id).Ok? && s.ports.readReport(id).value.ReportBytes? ==>
      var bytes := s.ports.readReport(id).value.bytes;
      && s.strict == t.strict
      && (s.strict ==> s.ports.validate(bytes) == t.ports.validate(bytes))
      && (Rejects(s, bytes) || s.ports.parseReceipt(bytes) == t.ports.parseReceipt(bytes))
  }

  /** Strict validation finds violations. */
  predicate Rejects(s: Setting, bytes: Bytes) {
    s.strict && s.ports.validate(bytes).Ok? && s.ports.validate(bytes).value.Violations?
  }

  /** Non-interference: whatever non-blocking sensors do, two completed runs that agree on the configuration and on the
      inputs of blocking sensors reach the same status, reasons and exit code. */
  lemma NonInterference(p: Ports, req: Request, q: Ports, req': Request, res: IngestResult, res': IngestResult)
    requires Run(p, req) == Ok(res) && Run(q, req') == Ok(res')
    requires p.loadConfig == q.loadConfig
    requires var cfg := EffectiveConfig(p.loadConfig.value);
             AgreeOnBlocking(cfg, SettingFor(p, req, cfg), SettingFor(q, req', cfg))
    ensures res.report.verdict.status == res'.report.verdict.status
    ensures res.report.verdict.reasons == res'.report.verdict.reasons
    ensures res.exitCode == res'.exitCode
  {
    hide Expected, ProcessAll, Assemble;
    var cfg := EffectiveConfig(p.loadConfig.value);
    var s, t := SettingFor(p, req, cfg), SettingFor(q, req', cfg);
    VerdictFromInputs(p, req, res, p.discover.value);
    VerdictFromInputs(q, req', res', q.discover.value);
    var ids, ids' := Expected(cfg, p.discover.value), Expected(cfg, q.discover.value);
    forall id
      ensures id in ids && FailsRun(s, id) <==> id in ids' && FailsRun(t, id)
      ensures id in ids && WarnsRun(s, id) <==> id in ids' && WarnsRun(t, id)
    {
      BlockingIsConfigured(cfg, p.discover.value, id);
      BlockingIsConfigured(cfg, q.discover.value, id);
      if id in cfg.sensors && cfg.sensors[id].blocking {
        SameStatus(s, t, id);
      }
    }
  }

  /** A blocking sensor is named in the configuration, and then it is expected whatever was discovered. */
  lemma BlockingIsConfigured(cfg: CockpitConfig, d: DiscoveredSensors, id: string)
    ensures PolicyFor(cfg, id).blocking ==> id in cfg.sensors
    ensures id in cfg.sensors ==> id in Expected(cfg, d)
  {
  }

  lemma SameStatus(s: Setting, t: Setting, id: string)
    requires s.cfg == t.cfg && AgreeOnBlocking(s.cfg, s, t)
    requires id in s.cfg.sensors && s.cfg.sensors[id].blocking
    ensures StatusOf(s, id) == StatusOf(t, id)
  {
  }

  // ---- Highlights ----

  /** The highlights of every run are within budget, carry distinct fingerprints, and are in selection order; so trends
      between any two runs are patches. */
  lemma RunHighlightsAreSelected(ports: Ports, req: Request, res: IngestResult, d: DiscoveredSensors)
    requires Run(ports, req) == Ok(res) && ports.discover == Ok(d)
    ensures var cfg := EffectiveConfig(ports.loadConfig.value);
            && TrendPatch.Patchable(res.report)
            && |res.report.highlights| <= cfg.policy.maxHighlights
            && Sorted(ByHighlightKey(BlockingMap(cfg, Expected(cfg, d))), res.report.highlights)
  {
    hide Process, ProcessAll, Expected, Assemble, Dedup, SortBy, HighlightKey;
    var s, d', steps := RunSteps(ports, req, res);
    SelectIsTopK(s.ports.hash, BlockingMap(s.cfg, Expected(s.cfg, d)), s.cfg.policy.maxHighlights,
                 EarlyCandidates(s.ports, d) + Candidates(steps));
  }

  /** The blocking map the renderer rebuilds from the rows of a report: of two rows with one id the later counts. */
  function RowBlocking(rows: seq<SensorSummary>): Blocking {
    if rows == [] then map[]
    else
      var last := rows[|rows| - 1];
      RowBlocking(rows[..|rows| - 1])[last.id := last.blocking]
  }

  lemma {:induction false} RowBlockingIs(rows: seq<SensorSummary>)
    ensures forall id :: id in RowBlocking(rows) <==> exists row :: row in rows && row.id == id
    ensures forall id :: id in RowBlocking(rows) ==>
      exists row :: row in rows && row.id == id && RowBlocking(rows)[id] == row.blocking
  {
    if rows != [] {
      var n := |rows| - 1;
      RowBlockingIs(rows[..n]);
      assert rows == rows[..n] + [rows[n]];
      forall id | id in RowBlocking(rows)
        ensures exists row :: row in rows && row.id == id && RowBlocking(rows)[id] == row.blocking
      {
        if id == rows[n].id {
          assert rows[n] in rows;
        } else {
          assert id in RowBlocking(rows[..n]);
          var row :| row in rows[..n] && row.id == id && RowBlocking(rows[..n])[id] == row.blocking;
          assert row in rows;
        }
      }
    }
  }

  lemma RebuiltMap(rows: seq<SensorSummary>, cfg: CockpitConfig, ids: seq<string>)
    requires forall row :: row in rows ==> row.id in ids && row.blocking == PolicyFor(cfg, row.id).blocking
    requires forall id :: id in ids ==> exists row :: row in rows && row.id == id
    ensures RowBlocking(rows) == BlockingMap(cfg, ids)
  {
    hide PolicyFor, RowBlocking;
    RowBlockingIs(rows);
    var rebuilt, used := RowBlocking(rows), BlockingMap(cfg, ids);
    forall id
      ensures id in rebuilt <==> id in used
      ensures id in rebuilt ==> rebuilt[id] == used[id]
    {
      if id in ids {
        var row :| row in rows && row.id == id;
      }
    }
  }

  lemma RowsMatchExpected(s: Setting, d: DiscoveredSensors, steps: seq<Step>)
    requires ProcessAll(s, Expected(s.cfg, d)) == Ok(steps)
    ensures forall row :: row in RunRows(s.cfg, steps) ==>
      row.id in Expected(s.cfg, d) && row.blocking == PolicyFor(s.cfg, row.id).blocking
    ensures forall id :: id in Expected(s.cfg, d) ==> exists row :: row in RunRows(s.cfg, steps) && row.id == id
  {
    hide Process, ProcessAll, Expected, StatusOf, Receipt, PolicyFor, Conform.TokensValid, RunRows;
    RowsAreSteps(s, d, steps);
    var rows, ids := RunRows(s.cfg, steps), Expected(s.cfg, d);
    forall row | row in rows
      ensures row.id in ids && row.blocking == PolicyFor(s.cfg, row.id).blocking
    {
      var id :| id in ids && Process(s, id).Ok? && row == Process(s, id).value.summary;
      StepFacts(s, id);
    }
    forall id | id in ids
      ensures exists row :: row in rows && row.id == id
    {
      StepFacts(s, id);
      assert Process(s, id).value.summary in rows;
    }
  }

  /** It is the map the selection used. */
  lemma RendererKnowsBlocking(ports: Ports, req: Request, res: IngestResult, d: DiscoveredSensors)
    requires Run(ports, req) == Ok(res) && ports.discover == Ok(d)
    ensures var cfg := EffectiveConfig(ports.loadConfig.value);
            RowBlocking(res.report.sensors) == BlockingMap(cfg, Expected(cfg, d))
  {
    hide ProcessAll, Expected, Assemble, RunRows, RunHighlights, Overall, RowBlocking, BlockingMap, PolicyFor;
    var s, d', steps := RunSteps(ports, req, res);
    RowsMatchExpected(s, d, steps);
    RebuiltMap(res.report.sensors, s.cfg, Expected(s.cfg, d));
  }

  /** A run shows the beginning of its highlights as annotations, in selection order, exactly when none of the
      highlights within `max_annotations` clashes with a later one. */
  lemma RunRendersInOrderIff(ports: Ports, req: Request, res: IngestResult)
    requires Run(ports, req) == Ok(res)
    ensures var hs, max := res.report.highlights, EffectiveConfig(ports.loadConfig.value).policy.maxAnnotations;
            var shown := Take(SortBy(Render.ByAnnotationKey(RowBlocking(res.report.sensors)), hs), max);
            shown == Take(hs, max) <==> Render.NoClashBefore(hs, max)
  {
    hide Process, ProcessAll, Expected, Assemble, RowBlocking, BlockingMap, SortBy, Render.NoClashBefore, HighlightKey;
    var s, d, steps := RunSteps(ports, req, res);
    RendererKnowsBlocking(ports, req, res, d);
    RunHighlightsAreSelected(ports, req, res, d);
    Render.ShowsBeginningIff(BlockingMap(s.cfg, Expected(s.cfg, d)), res.report.highlights,
                             s.cfg.policy.maxAnnotations);
  }
}
