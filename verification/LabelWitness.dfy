/** The label gate at work: the same failing receipt, with and without the label its blocking sensor asks for. */
module LabelWitness {
  import opened Types
  import opened Ingest
  import opened IngestGuarantees
  import opened SensorCases
  import Completion
  import RunCases

  const PERF := SensorPolicy(true, MissingPolicy.Fail, None, Some("run-perf"), None)

  const CONFIG := CockpitConfig(DEFAULT_POLICY, map["perf" := PERF])

  const NONE_FOUND := DiscoveredSensors([], false, 0, [])

  const FAILED := SensorReport(Verdict(VerdictStatus.Fail, VerdictCounts(0, 0, 0, 0), []), [])

  const PORTS := Ports(
    Ok(NONE_FOUND), Ok(Some(CONFIG)), id => id, id => Ok(ReportBytes([])), id => Ok(CommentMissing),
    id => Ok(PlanMissing), bytes => Ok(Valid), bytes => Ok(FAILED), bytes => None, text => text,
    (report, cfg) => "", report => Ok(""), text => Ok(()), text => Ok(()))

  function Asking(labels: seq<string>, run: RunInfo): Request {
    Request(labels, run, None)
  }

  lemma ItRuns(req: Request)
    ensures Run(PORTS, req).Ok? && forall id :: id in Expected(CONFIG, NONE_FOUND) <==> id == "perf"
  {
    hide Run, Assembled, Expected;
    Completion.CompletesIff(PORTS, req);
    OnlyPerf();
  }

  lemma OnlyPerf()
    ensures forall id :: id in Expected(CONFIG, NONE_FOUND) <==> id == "perf"
  {
    hide Expected;
    assert CONFIG.sensors.Keys == {"perf"};
    RunCases.ExpectedIs(CONFIG, NONE_FOUND);
  }

  /** Without the label the sensor is skipped and the run passes; with it the receipt counts and the run fails. */
  lemma LabelDecides(run: RunInfo)
    ensures var without, with := Run(PORTS, Asking([], run)), Run(PORTS, Asking(["run-perf"], run));
            && without.Ok? && without.value.exitCode == 0
            && without.value.report.verdict.status == VerdictStatus.Pass
            && (exists row :: row in without.value.report.sensors && row.id == "perf"
                  && row.verdict.status == VerdictStatus.Skip)
            && with.Ok? && with.value.exitCode == 2 && with.value.report.verdict.status == VerdictStatus.Fail
            && (exists row :: row in with.value.report.sensors && row.id == "perf"
                  && row.verdict.status == VerdictStatus.Fail)
  {
    hide Run, Expected, PORTS, CONFIG, StatusOf, ProperId;
    Proper();
    var without, with := Asking([], run), Asking(["run-perf"], run);
    ItRuns(without);
    ItRuns(with);
    PortsAre();
    assert "run-perf" in with.labels && "run-perf" !in without.labels;
    RunCases.UnlabelledIsSkipped(PORTS, without, Run(PORTS, without).value, NONE_FOUND, "perf", "run-perf");
    RunCases.LabelledIsJudged(PORTS, with, Run(PORTS, with).value, NONE_FOUND, "perf", [], FAILED);
    VerdictFromInputs(PORTS, without, Run(PORTS, without).value, NONE_FOUND);
    VerdictFromInputs(PORTS, with, Run(PORTS, with).value, NONE_FOUND);
    Statuses(without);
    Statuses(with);
  }

  lemma Proper()
    ensures ProperId("perf")
  {
  }

  lemma PortsAre()
    ensures PORTS.discover == Ok(NONE_FOUND) && PORTS.loadConfig == Ok(Some(CONFIG))
    ensures PORTS.readReport("perf") == Ok(ReportBytes([])) && PORTS.parseReceipt([]) == Ok(FAILED)
    ensures Configured(CONFIG, "perf") == PERF && PolicyFor(CONFIG, "perf") == PERF
    ensures forall bytes :: PORTS.validate(bytes) == Ok(Valid)
    ensures !CONFIG.policy.warnIsFail
  {
  }

  lemma Statuses(req: Request)
    requires "perf" in Expected(CONFIG, NONE_FOUND)
    ensures StatusOf(SettingFor(PORTS, req, CONFIG), "perf") ==
            if "run-perf" in req.labels then VerdictStatus.Fail else VerdictStatus.Skip
  {
    Proper();
    ProperIdIff("perf");
  }
}
