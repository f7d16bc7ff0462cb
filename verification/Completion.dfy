/** When a run completes. Only a port error ends it early, when reading or when writing: missing, oversized, unsafe,
    invalid or malformed receipts and plans that do not parse never do. */
module Completion {
  import opened Types
  import opened Ingest
  import Synthesize
  import Summarize
  import Buildfix
  import OverallVerdict
  import opened IngestGuarantees

  /** A port call that processing this sensor makes returns an error. */
  predicate PortFails(s: Setting, id: string) {
    && IsValidSensorId(id)
    && (|| s.ports.readComment(id).Err?
        || (!Gated(PolicyFor(s.cfg, id), s.labels) && ReceiptPortFails(s, id)))
  }

  predicate ReceiptPortFails(s: Setting, id: string) {
    var read := s.ports.readReport(id);
    || read.Err?
    || (s.strict && read.value.ReportBytes? && s.ports.validate(read.value.bytes).Err?)
  }

  lemma ProcessedIff(s: Setting, id: string)
    ensures Process(s, id).Ok? <==> !PortFails(s, id)
  {
    hide Synthesize.SynthesizeMissingSensor, Synthesize.SynthesizePathTraversalSensor,
         Synthesize.SynthesizeReceiptOversizedSensor, Synthesize.SynthesizeSchemaViolationSensor,
         Synthesize.SynthesizeInvalidSensor, Summarize.SummaryOf, Summarize.CandidatesOf, IsValidSensorId;
  }

  lemma {:induction false} AllProcessedIff(s: Setting, ids: seq<string>)
    ensures ProcessAll(s, ids).Ok? <==> forall id :: id in ids ==> !PortFails(s, id)
  {
    hide Process, PortFails;
    if ids != [] {
      var n := |ids| - 1;
      AllProcessedIff(s, ids[..n]);
      ProcessedIff(s, ids[n]);
      assert ids == ids[..n] + [ids[n]];
    }
  }

  lemma {:induction false} FixesReadIff(ports: Ports, ids: seq<string>, highlights: seq<Highlight>)
    ensures AllFixes(ports, ids, highlights).Ok? <==> forall id :: id in ids ==> ports.readPlan(id).Ok?
  {
    hide Buildfix.MatchedPlan;
    if ids != [] {
      var n := |ids| - 1;
      FixesReadIff(ports, ids[..n], highlights);
      assert ids == ids[..n] + [ids[n]];
    }
  }

  /** Discovery and configuration can be read, no port fails for an expected sensor, and the plan of every discovered
      sensor can be looked up. */
  ghost predicate Readable(ports: Ports, req: Request) {
    && ports.discover.Ok? && ports.loadConfig.Ok?
    && (var cfg := EffectiveConfig(ports.loadConfig.value);
        forall id :: id in Expected(cfg, ports.discover.value) ==> !PortFails(SettingFor(ports, req, cfg), id))
    && (forall id :: id in ports.discover.value.sensors ==> ports.readPlan(id).Ok?)
  }

  /** The report can be serialized, and report and comment can be written. */
  predicate Writable(ports: Ports, cfg: CockpitConfig, report: CockpitReport) {
    && ports.serialize(report).Ok?
    && ports.writeReport(ports.serialize(report).value + "\n").Ok?
    && ports.writeComment(ports.render(report, cfg)).Ok?
  }

  /** A run gets to a report exactly when everything it asks for can be read ... */
  lemma AssembledIff(ports: Ports, req: Request)
    ensures Assembled(ports, req).Ok? <==> Readable(ports, req)
  {
    hide ProcessAll, AllFixes, PortFails, Expected, RunRows, RunHighlights, OverallVerdict.Overall;
    if ports.discover.Ok? && ports.loadConfig.Ok? {
      var d, cfg := ports.discover.value, EffectiveConfig(ports.loadConfig.value);
      var s := SettingFor(ports, req, cfg);
      AllProcessedIff(s, Expected(cfg, d));
      if ProcessAll(s, Expected(cfg, d)).Ok? {
        FixesReadIff(ports, d.sensors, RunHighlights(s, d, ProcessAll(s, Expected(cfg, d)).value));
      }
    }
  }

  /** ... and completes exactly when, besides, that report can be serialized and both outputs can be written. */
  lemma CompletesIff(ports: Ports, req: Request)
    ensures Run(ports, req).Ok? <==>
      && Readable(ports, req)
      && forall report :: Assembled(ports, req) == Ok(report) ==>
           Writable(ports, EffectiveConfig(ports.loadConfig.value), report)
  {
    hide Readable, ProcessAll, Assemble, Expected;
    AssembledIff(ports, req);
  }

  /** When no plan, comment or receipt is found and nothing is configured, a report is reached whatever was discovered;
      the run completes exactly if it can be written, and then it passes. */
  lemma NothingFoundPasses(ports: Ports, req: Request, d: DiscoveredSensors)
    requires ports.discover == Ok(d) && ports.loadConfig == Ok(None)
    requires forall id :: ports.readComment(id) == Ok(CommentMissing) && ports.readReport(id) == Ok(ReportMissing)
    requires forall id :: ports.readPlan(id) == Ok(PlanMissing)
    ensures Assembled(ports, req).Ok?
    ensures Run(ports, req).Ok? <==> Writable(ports, DEFAULT_CONFIG, Assembled(ports, req).value)
    ensures Run(ports, req).Ok? ==>
      Run(ports, req).value.exitCode == 0 && Run(ports, req).value.report.verdict.status == VerdictStatus.Pass
  {
    hide Run, Assembled, Expected, PolicyFor, Writable;
    AssembledIff(ports, req);
    CompletesIff(ports, req);
    NoneBlocks();
    if Run(ports, req).Ok? {
      VerdictFromInputs(ports, req, Run(ports, req).value, d);
    }
  }

  lemma NoneBlocks()
    ensures forall id :: !PolicyFor(DEFAULT_CONFIG, id).blocking
  {
  }
}
