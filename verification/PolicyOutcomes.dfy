/** The outcome each row shows, against the exit code of the run. A row's outcome ignores `warn_is_fail`, and a row
    with an unsafe path shows `Blocked` even if its sensor does not block; so the two need not agree. */
module PolicyOutcomes {
  import opened Types
  import opened Synthesize
  import opened Summarize
  import opened Findings
  import opened Ingest
  import opened OverallVerdict
  import opened IngestGuarantees
  import Completion

  /** The sensor's row reports a rejected path: its own id, or where its receipt lies. */
  predicate RejectedPath(s: Setting, id: string) {
    || !IsValidSensorId(id)
    || (!Gated(PolicyFor(s.cfg, id), s.labels) && s.ports.readReport(id) == Ok(ReportUnsafePath))
  }

  lemma ReceiptOutcome(id: string, path: string, comment: Option<string>, policy: SensorPolicy, report: SensorReport,
                       max: usize)
    ensures SummaryOf(id, path, comment, policy, report, max).policyOutcome ==
            Some(ComputePolicyOutcome(policy.blocking, report.verdict.status))
  {
  }

  lemma MadeUpOutcomes(id: string, policy: SensorPolicy, path: string, comment: Option<string>)
    ensures SynthesizeMissingSensor(id, policy, path, comment).0.policyOutcome ==
            Some(ComputePolicyOutcome(policy.blocking, MissingStatus(policy.missing)))
    ensures forall context ::
              SynthesizePathTraversalSensor(id, policy, path, comment, context).0.policyOutcome == Some(Blocked)
    ensures var failed := Some(ComputePolicyOutcome(policy.blocking, VerdictStatus.Fail));
            && (forall size, cap ::
                  SynthesizeReceiptOversizedSensor(id, policy, path, comment, size, cap).0.policyOutcome == failed)
            && (forall errors ::
                  SynthesizeSchemaViolationSensor(id, policy, path, comment, errors).0.policyOutcome == failed)
            && (forall error :: SynthesizeInvalidSensor(id, policy, path, comment, error).0.policyOutcome == failed)
  {
    hide Counts, ComputePolicyOutcome, MissingMessage, TraversalMessage, OversizedMessage, SchemaViolationMessage,
         InvalidMessage;
  }

  /** The outcome of every row, from the inputs. */
  lemma RowOutcome(s: Setting, id: string)
    requires Process(s, id).Ok?
    ensures Process(s, id).value.summary.policyOutcome ==
            Some(if RejectedPath(s, id) then Blocked
                 else ComputePolicyOutcome(PolicyFor(s.cfg, id).blocking, StatusOf(s, id)))
  {
    hide ComputePolicyOutcome, IsValidSensorId, SummaryOf, CandidatesOf, SynthesizeMissingSensor,
         SynthesizePathTraversalSensor, SynthesizeReceiptOversizedSensor, SynthesizeSchemaViolationSensor,
         SynthesizeInvalidSensor, CommentHighlights;
    var policy, path := PolicyFor(s.cfg, id), s.ports.reportPath(id);
    if !IsValidSensorId(id) {
      MadeUpOutcomes(id, policy, path, None);
    } else {
      var comment := CommentPath(s.ports.readComment(id).value);
      MadeUpOutcomes(id, policy, path, comment);
      MadeUpOutcomes(id, policy.(missing := MissingPolicy.Skip), path, comment);
      if !Gated(policy, s.labels) && s.ports.readReport(id).value.ReportBytes? {
        var parsed := s.ports.parseReceipt(s.ports.readReport(id).value.bytes);
        if parsed.Ok? {
          ReceiptOutcome(id, path, comment, policy, parsed.value, s.cfg.policy.maxPerSensorFindings);
        }
      }
    }
  }

  ghost predicate ShowsBlocked(rows: seq<SensorSummary>) {
    exists row :: row in rows && row.policyOutcome == Some(Blocked)
  }

  /** A row shows `Blocked` exactly when a blocking sensor failed, or any sensor had its path rejected. */
  lemma ShowsBlockedIff(ports: Ports, req: Request, res: IngestResult, d: DiscoveredSensors)
    requires Run(ports, req) == Ok(res) && ports.discover == Ok(d)
    ensures var cfg := EffectiveConfig(ports.loadConfig.value);
            var s := SettingFor(ports, req, cfg);
            ShowsBlocked(res.report.sensors) <==>
              exists id :: id in Expected(cfg, d)
                && (RejectedPath(s, id) || (PolicyFor(cfg, id).blocking && StatusOf(s, id) == VerdictStatus.Fail))
  {
    hide Process, ProcessAll, Expected, Assemble, StatusOf, Overall, RunRows, PolicyFor, RejectedPath;
    var s, d', steps := RunSteps(ports, req, res);
    RowsAreSteps(s, d, steps);
    forall id | id in Expected(s.cfg, d)
      ensures Process(s, id).Ok? && Process(s, id).value.summary in res.report.sensors
      ensures Process(s, id).value.summary.policyOutcome == Some(Blocked) <==>
              RejectedPath(s, id) || (PolicyFor(s.cfg, id).blocking && StatusOf(s, id) == VerdictStatus.Fail)
    {
      RowOutcome(s, id);
    }
  }

  /** When the rows and the exit code tell different stories. A run exits with 2 without any row showing `Blocked`
      exactly when `warn_is_fail` promotes some blocking warning, no blocking sensor failed and no path was rejected;
      and it exits with 0 under a row showing `Blocked` exactly when nothing fails the run but a path was rejected. */
  lemma OutcomeAgainstExit(ports: Ports, req: Request, res: IngestResult, d: DiscoveredSensors)
    requires Run(ports, req) == Ok(res) && ports.discover == Ok(d)
    ensures var cfg := EffectiveConfig(ports.loadConfig.value);
            var s := SettingFor(ports, req, cfg);
            var ids := Expected(cfg, d);
            var rejected := exists id :: id in ids && RejectedPath(s, id);
            var failed := exists id ::
              id in ids && PolicyFor(cfg, id).blocking && StatusOf(s, id) == VerdictStatus.Fail;
            var warned := exists id :: id in ids && WarnsRun(s, id);
            && (res.exitCode == 2 && !ShowsBlocked(res.report.sensors) <==>
                cfg.policy.warnIsFail && warned && !failed && !rejected)
            && (res.exitCode == 0 && ShowsBlocked(res.report.sensors) <==>
                rejected && !failed && !(cfg.policy.warnIsFail && warned))
  {
    hide ProcessAll, Assemble, Expected, StatusOf, RejectedPath, PolicyFor, EffectiveConfig, SettingFor;
    var cfg := EffectiveConfig(ports.loadConfig.value);
    var s := SettingFor(ports, req, cfg);
    SettingKeepsConfig(ports, req, cfg);
    VerdictFromInputs(ports, req, res, d);
    ShowsBlockedIff(ports, req, res, d);
  }

  lemma SettingKeepsConfig(ports: Ports, req: Request, cfg: CockpitConfig)
    ensures SettingFor(ports, req, cfg).cfg == cfg
  {
  }

  // ---- Both disagreements happen ----

  /** One configured sensor, nothing discovered, no comment, no plan, and outputs that can be written. */
  function OneSensorPorts(policy: SensorPolicy, warnIsFail: bool, read: ReportRead): Ports {
    Ports(
      Ok(DiscoveredSensors([], false, 0, [])),
      Ok(Some(CockpitConfig(DEFAULT_POLICY.(warnIsFail := warnIsFail), map["a" := policy]))),
      id => id, id => Ok(read), id => Ok(CommentMissing), id => Ok(PlanMissing),
      bytes => Ok(Valid), bytes => Err("no receipt"), bytes => None, text => text,
      (report, cfg) => "", report => Ok(""), text => Ok(()), text => Ok(()))
  }

  lemma OneSensorRuns(policy: SensorPolicy, warnIsFail: bool, read: ReportRead, req: Request)
    requires policy.requireLabel.None? && !read.ReportBytes?
    ensures var ports := OneSensorPorts(policy, warnIsFail, read);
            var s := SettingFor(ports, req, ports.loadConfig.value.value);
            && Run(ports, req).Ok?
            && (forall id :: id in Expected(s.cfg, ports.discover.value) <==> id == "a")
            && PolicyFor(s.cfg, "a") == policy && IsValidSensorId("a") && !Gated(policy, s.labels)
  {
    hide Run, Assembled;
    var ports := OneSensorPorts(policy, warnIsFail, read);
    assert "a" in map["a" := policy];
    Completion.CompletesIff(ports, req);
  }

  /** A blocking warning promoted by `warn_is_fail`: exit code 2, and no row shows `Blocked`. */
  lemma PromotedWarningShowsNoBlock(req: Request)
    ensures var policy := DEFAULT_SENSOR_POLICY.(blocking := true, missing := MissingPolicy.Warn);
            var run := Run(OneSensorPorts(policy, true, ReportMissing), req);
            run.Ok? && run.value.exitCode == 2 && !ShowsBlocked(run.value.report.sensors)
  {
    hide Run, Expected, ShowsBlocked, IsValidSensorId;
    var policy := DEFAULT_SENSOR_POLICY.(blocking := true, missing := MissingPolicy.Warn);
    var ports := OneSensorPorts(policy, true, ReportMissing);
    OneSensorRuns(policy, true, ReportMissing, req);
    var s := SettingFor(ports, req, ports.loadConfig.value.value);
    assert StatusOf(s, "a") == VerdictStatus.Warn && !RejectedPath(s, "a") && WarnsRun(s, "a");
    OutcomeAgainstExit(ports, req, Run(ports, req).value, ports.discover.value);
  }

  /** A rejected path of a sensor that does not block: exit code 0 under a row that shows `Blocked`. */
  lemma RejectedPathShowsBlock(req: Request)
    ensures var run := Run(OneSensorPorts(DEFAULT_SENSOR_POLICY, false, ReportUnsafePath), req);
            run.Ok? && run.value.exitCode == 0 && ShowsBlocked(run.value.report.sensors)
  {
    hide Run, Expected, ShowsBlocked, IsValidSensorId;
    var ports := OneSensorPorts(DEFAULT_SENSOR_POLICY, false, ReportUnsafePath);
    OneSensorRuns(DEFAULT_SENSOR_POLICY, false, ReportUnsafePath, req);
    var s := SettingFor(ports, req, ports.loadConfig.value.value);
    assert RejectedPath(s, "a") && !PolicyFor(s.cfg, "a").blocking;
    OutcomeAgainstExit(ports, req, Run(ports, req).value, ports.discover.value);
  }
}
