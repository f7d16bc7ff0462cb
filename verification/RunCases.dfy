/** What a run decides, spelled out on the request, the configuration and what the ports return. */
module RunCases {
  import opened Types
  import opened Findings
  import opened Highlights
  import opened Synthesize
  import opened Ingest
  import opened IngestGuarantees
  import opened Evidence
  import opened SummaryFields
  import opened SensorCases
  import FieldOrders
  import Fingerprint
  import OrderedSet
  import OutputFields
  import OverallVerdict
  import SortKeys
  import Text

  // ---- Settings ----

  /** The request's validation mode overrides the configured one; labels come from the request; without a configuration
      the default one holds. */
  lemma SettingIs(ports: Ports, req: Request)
    requires ports.loadConfig.Ok?
    ensures var s := SettingFor(ports, req, EffectiveConfig(ports.loadConfig.value));
            && s.labels == req.labels && s.ports == ports
            && (s.strict <==>
                match req.schemaValidation
                case Some(mode) => mode == Strict
                case None => s.cfg.policy.schemaValidation == Strict)
            && (match ports.loadConfig.value
                case Some(cfg) => s.cfg == cfg
                case None => s.cfg == DEFAULT_CONFIG)
  {
  }

  /** Without a configuration: no sensor is configured, nothing is validated strictly, warnings do not fail the run, and
      the budgets are 7 highlights, 20 findings of a sensor and 25 annotations. */
  lemma DefaultsAre()
    ensures var policy := DEFAULT_CONFIG.policy;
            && DEFAULT_CONFIG.sensors == map[] && policy.schemaValidation == Lax && !policy.warnIsFail
            && policy.maxHighlights == 7 && policy.maxPerSensorFindings == 20 && policy.maxAnnotations == 25
  {
  }

  /** Expected are the configured sensors, in the order of their ids; without any, the discovered ones as discovered. */
  lemma ExpectedIs(cfg: CockpitConfig, d: DiscoveredSensors)
    ensures cfg.sensors == map[] ==> Expected(cfg, d) == d.sensors
    ensures cfg.sensors != map[] ==>
              && OrderedSet.StrictlyAscending(Expected(cfg, d))
              && forall id :: id in Expected(cfg, d) <==> id in cfg.sensors
  {
  }

  // ---- Rows ----

  /** The row of an expected sensor is in the report, and it is that of its case. */
  lemma RowInReport(ports: Ports, req: Request, res: IngestResult, d: DiscoveredSensors, id: string)
    requires Run(ports, req) == Ok(res) && ports.discover == Ok(d)
    requires id in Expected(EffectiveConfig(ports.loadConfig.value), d)
    ensures var s := SettingFor(ports, req, EffectiveConfig(ports.loadConfig.value));
            Process(s, id).Ok? && Process(s, id).value.summary in res.report.sensors
    ensures ports.loadConfig.Ok?
  {
    hide Process, ProcessAll, Expected, Assemble, RunRows;
    var s, d', steps := RunSteps(ports, req, res);
    RowsAreSteps(s, d, steps);
  }

  /** An expected sensor that asks for a label the request does not have has a row that is skipped ... */
  lemma UnlabelledIsSkipped(ports: Ports, req: Request, res: IngestResult, d: DiscoveredSensors, id: string,
                            wanted: string)
    requires Run(ports, req) == Ok(res) && ports.discover == Ok(d)
    requires var cfg := EffectiveConfig(ports.loadConfig.value);
             && id in Expected(cfg, d) && ProperId(id)
             && Configured(cfg, id).requireLabel == Some(wanted) && wanted !in req.labels
    ensures exists row :: row in res.report.sensors && row.id == id && row.verdict.status == VerdictStatus.Skip
              && row.presence == Missing
  {
    hide Run, Process, Expected, ProperId, Configured, NotesComment;
    RowInReport(ports, req, res, d, id);
    SettingIs(ports, req);
    var s := SettingFor(ports, req, EffectiveConfig(ports.loadConfig.value));
    CommentRead(s, id);
    LabelGate(s, id, wanted);
  }

  lemma CommentRead(s: Setting, id: string)
    requires ProperId(id) && Process(s, id).Ok?
    ensures s.ports.readComment(id).Ok?
  {
    hide ProperId, IsValidSensorId;
    ProperIdIff(id);
  }

  /** ... and one that asks for none, or for one the request has, has the status of its receipt, if that is accepted and
      parses. */
  lemma LabelledIsJudged(ports: Ports, req: Request, res: IngestResult, d: DiscoveredSensors, id: string, bytes: Bytes,
                         report: SensorReport)
    requires Run(ports, req) == Ok(res) && ports.discover == Ok(d)
    requires var cfg := EffectiveConfig(ports.loadConfig.value);
             && id in Expected(cfg, d) && ProperId(id)
             && (Configured(cfg, id).requireLabel.None? || Configured(cfg, id).requireLabel.value in req.labels)
             && ports.readReport(id) == Ok(ReportBytes(bytes)) && ports.parseReceipt(bytes) == Ok(report)
             && Accepted(SettingFor(ports, req, cfg), bytes)
    ensures exists row :: row in res.report.sensors && row.id == id && row.verdict.status == report.verdict.status
              && row.presence == Present
  {
    hide Run, Process, Expected, ProperId, Configured, NotesComment, RaisesKept, Survive, Misreported;
    RowInReport(ports, req, res, d, id);
    SettingIs(ports, req);
    var s := SettingFor(ports, req, EffectiveConfig(ports.loadConfig.value));
    CommentRead(s, id);
    var kept := ReceiptParsed(s, id, bytes, report);
  }

  // ---- Highlights ----

  /** Within the budget the fingerprint of every finding of such a receipt that survives the cap of its sensor is in the
      report; if the receipt is within that cap, of every finding. */
  lemma ReceiptIsShown(ports: Ports, req: Request, res: IngestResult, d: DiscoveredSensors, id: string, bytes: Bytes,
                       report: SensorReport)
    returns (kept: seq<Finding>)
    requires Run(ports, req) == Ok(res) && ports.discover == Ok(d)
    requires var cfg := EffectiveConfig(ports.loadConfig.value);
             && id in Expected(cfg, d) && ProperId(id)
             && (Configured(cfg, id).requireLabel.None? || Configured(cfg, id).requireLabel.value in req.labels)
             && ports.readReport(id) == Ok(ReportBytes(bytes)) && ports.parseReceipt(bytes) == Ok(report)
             && Accepted(SettingFor(ports, req, cfg), bytes) && BudgetSuffices(SettingFor(ports, req, cfg), d)
    ensures var max := EffectiveConfig(ports.loadConfig.value).policy.maxPerSensorFindings;
            && Survive(kept, report.findings, max)
            && (|report.findings| <= max ==> forall f :: f in report.findings ==> f in kept)
    ensures forall f :: f in kept ==>
              exists h :: h in res.report.highlights && h.finding.fingerprint ==
                (match f.fingerprint
                 case Some(fp) => Some(fp)
                 case None => Some(Fingerprint.DeriveFingerprint(ports.hash, id, f)))
  {
    hide Run, Process, Expected, ProperId, Configured, Survive, Misreported, BudgetSuffices,
         Fingerprint.DeriveFingerprint;
    RowInReport(ports, req, res, d, id);
    SettingIs(ports, req);
    var cfg := EffectiveConfig(ports.loadConfig.value);
    var s := SettingFor(ports, req, cfg);
    CommentRead(s, id);
    kept := ReceiptParsed(s, id, bytes, report);
    var note := Misreported(report, cfg.policy.maxPerSensorFindings);
    var cs :| NotesComment(Process(s, id).value, s, id, cs) && RaisesKept(cs, id, kept, note);
    NothingLostWithinBudget(ports, req, res, d);
    FingerprintsShown(ports, req, res, d);
    forall f | f in kept
      ensures exists h :: h in res.report.highlights && h.finding.fingerprint ==
                (match f.fingerprint
                 case Some(fp) => Some(fp)
                 case None => Some(Fingerprint.DeriveFingerprint(ports.hash, id, f)))
    {
      KeptIsRaised(Process(s, id).value, s, id, cs, kept, note, f);
      var h := Highlight(id, f);
      assert Raised(s, d, h);
      assert Seen(ports.hash, res.report.highlights, EffectiveFingerprint(ports.hash, h));
      var g :| g in res.report.highlights && EffectiveFingerprint(ports.hash, g) == EffectiveFingerprint(ports.hash, h);
      assert g.finding.fingerprint == Some(EffectiveFingerprint(ports.hash, g));
    }
  }

  lemma KeptIsRaised(step: Step, s: Setting, id: string, cs: seq<Highlight>, kept: seq<Finding>, note: bool, f: Finding)
    requires NotesComment(step, s, id, cs) && RaisesKept(cs, id, kept, note) && f in kept
    ensures Highlight(id, f) in step.highlights
  {
    hide IsMadeUp, NotesInconsistency;
    var k :| 0 <= k < |kept| && kept[k] == f;
    assert cs[(if note then 1 else 0) + k] in cs;
    assert step.highlights != [] ==> step.highlights == [step.highlights[0]] + step.highlights[1..];
  }

  lemma FingerprintsShown(ports: Ports, req: Request, res: IngestResult, d: DiscoveredSensors)
    requires Run(ports, req) == Ok(res) && ports.discover == Ok(d)
    ensures forall h :: h in res.report.highlights ==>
              h.finding.fingerprint == Some(EffectiveFingerprint(ports.hash, h))
  {
    hide Run, EffectiveFingerprint, Expected, BlockingMap;
    RunHighlightsAreSelected(ports, req, res, d);
    forall h | h in res.report.highlights
      ensures h.finding.fingerprint == Some(EffectiveFingerprint(ports.hash, h))
    {
      NormalizePresent(ports.hash, h);
    }
  }

  /** Among highlights of one severity, those of blocking sensors come first; and if one of a blocking sensor was raised
      first with its fingerprint and dropped, only blocking sensors of that severity are shown. */
  lemma BlockingFirst(ports: Ports, req: Request, res: IngestResult, d: DiscoveredSensors)
    requires Run(ports, req) == Ok(res) && ports.discover == Ok(d)
    ensures var cfg := EffectiveConfig(ports.loadConfig.value);
            var s, hs := SettingFor(ports, req, cfg), res.report.highlights;
            && (forall i, j :: 0 <= i < j < |hs| && hs[i].finding.severity == hs[j].finding.severity
                  && Configured(cfg, hs[j].sensorId).blocking
                  ==> Configured(cfg, hs[i].sensorId).blocking)
            && (forall kept, dropped :: kept in hs && RaisedFirst(ports.hash, AllRaised(s, d), dropped)
                  && Normalize(ports.hash, dropped) !in hs
                  && kept.finding.severity == dropped.finding.severity
                  && Configured(cfg, dropped.sensorId).blocking
                  ==> Configured(cfg, kept.sensorId).blocking)
  {
    hide Run, Expected, AllRaised, Select, Dedup, SettingFor, Normalize, BlockingMap, Configured;
    Loaded(ports, req);
    var cfg := EffectiveConfig(ports.loadConfig.value);
    var s := AllRaisedAre(ports, req, res, d);
    SettingKeepsHash(ports, req);
    var raised, blocking := AllRaised(s, d), BlockingMap(cfg, Expected(cfg, d));
    FieldOrders.BlockingSensorsFirst(ports.hash, blocking, cfg.policy.maxHighlights, raised);
    forall id
      ensures (id in blocking && blocking[id]) <==> Configured(cfg, id).blocking
    {
      BlockingIs(cfg, d, id);
    }
    DedupKeepsFirsts(ports.hash, raised);
    forall kept, dropped | kept in res.report.highlights && RaisedFirst(ports.hash, raised, dropped)
      && Normalize(ports.hash, dropped) !in res.report.highlights
      && kept.finding.severity == dropped.finding.severity && Configured(cfg, dropped.sensorId).blocking
      ensures Configured(cfg, kept.sensorId).blocking
    {
      var x := Normalize(ports.hash, dropped);
      assert x in Dedup(ports.hash, raised);
      NormalizeKeeps(ports.hash, dropped);
    }
  }

  lemma Loaded(ports: Ports, req: Request)
    requires Run(ports, req).Ok?
    ensures ports.loadConfig.Ok?
  {
    hide ProcessAll, Expected, Assemble;
  }

  lemma BlockingIs(cfg: CockpitConfig, d: DiscoveredSensors, id: string)
    ensures var blocking := BlockingMap(cfg, Expected(cfg, d));
            (id in blocking && blocking[id]) <==> Configured(cfg, id).blocking
  {
    ExpectedIs(cfg, d);
  }

  /** Filling in the fingerprint changes nothing else. */
  lemma NormalizeKeeps(hash: Fingerprint.Hash, h: Highlight)
    ensures var n := Normalize(hash, h);
            && n.sensorId == h.sensorId
            && n.finding.(fingerprint := None) == h.finding.(fingerprint := None)
            && (match h.finding.fingerprint
                case Some(fp) => n.finding.fingerprint == Some(fp)
                case None => n.finding.fingerprint == Some(Fingerprint.DeriveFingerprint(hash, h.sensorId, h.finding)))
  {
  }

  /** Highlights come by severity, then blocking sensors first, then by sensor, path, line, code and message. */
  lemma HighlightsOrdered(ports: Ports, req: Request, res: IngestResult, d: DiscoveredSensors)
    requires Run(ports, req) == Ok(res) && ports.discover == Ok(d)
    ensures var cfg, hs := EffectiveConfig(ports.loadConfig.value), res.report.highlights;
            forall i, j :: 0 <= i < j < |hs| ==>
              FieldOrders.HighlightsInOrder(BlockingMap(cfg, Expected(cfg, d)), hs[i], hs[j])
  {
    hide Run, Expected, AllRaised, Select, BlockingMap, FieldOrders.HighlightsInOrder;
    Loaded(ports, req);
    var s := AllRaisedAre(ports, req, res, d);
    var cfg := EffectiveConfig(ports.loadConfig.value);
    SettingKeepsHash(ports, req);
    FieldOrders.SelectedInOrder(ports.hash, BlockingMap(cfg, Expected(cfg, d)), cfg.policy.maxHighlights,
                                AllRaised(s, d));
  }

  /** The last place of a section in the list. */
  predicate LastAt(order: seq<string>, section: string, n: nat) {
    n < |order| && order[n] == section && forall k :: n < k < |order| ==> order[k] != section
  }

  /** Rows come by section, in the configured order of sections, and within a section by id. */
  lemma RowsOrdered(ports: Ports, req: Request, res: IngestResult, i: nat, j: nat)
    requires Run(ports, req) == Ok(res) && i < j < |res.report.sensors|
    requires |EffectiveConfig(ports.loadConfig.value).policy.sectionOrder| <= U64_MAX
    ensures var cfg, rows := EffectiveConfig(ports.loadConfig.value), res.report.sensors;
            var a, b := OutputFields.SectionName(cfg, rows[i].id), OutputFields.SectionName(cfg, rows[j].id);
            && (a == b ==> SortKeys.StringLeq(rows[i].id, rows[j].id))
            && (b in cfg.policy.sectionOrder ==> a in cfg.policy.sectionOrder)
            && (forall m, n ::
                  LastAt(cfg.policy.sectionOrder, a, m) && LastAt(cfg.policy.sectionOrder, b, n) ==> m <= n)
  {
    hide ProcessAll, Expected, Assemble, Summaries, SortKeys.StringLeq, OutputFields.SectionName;
    var s, d, steps := RunSteps(ports, req, res);
    OutputFields.RowsBySection(s.cfg, Summaries(steps), i, j);
  }

  // ---- Notices ----

  /** What is raised before the sensors: an error for each rejected id, in order, and then, exactly if discovery was cut
      short, a warning that says so. */
  lemma NoticesAre(ports: Ports, d: DiscoveredSensors)
    ensures var notices, ids := EarlyCandidates(ports, d), d.invalidSensorIds;
            && |notices| == |ids| + (if d.truncated then 1 else 0)
            && (forall i :: 0 <= i < |ids| ==>
                  IsMadeUp(notices[i], "_cockpit", Error, "cockpit.path_traversal",
                           TraversalFingerprint(ids[i], ports.reportPath(ids[i]))))
            && (d.truncated ==>
                  IsMadeUp(notices[|ids|], "_cockpit", Severity.Warn, "cockpit.sensors_truncated",
                           Some("cockpit.sensors_truncated:" + Text.Decimal(|d.sensors|) + ":"
                                + Text.Decimal(d.totalFound))))
  {
    hide RejectedIds;
    RejectedAre(ports, d.invalidSensorIds);
  }

  lemma {:induction false} RejectedAre(ports: Ports, ids: seq<string>)
    ensures |RejectedIds(ports, ids)| == |ids|
    ensures forall i :: 0 <= i < |ids| ==>
              IsMadeUp(RejectedIds(ports, ids)[i], "_cockpit", Error, "cockpit.path_traversal",
                       TraversalFingerprint(ids[i], ports.reportPath(ids[i])))
  {
    hide TraversalMessage;
    if ids != [] {
      RejectedAre(ports, ids[..|ids| - 1]);
    }
  }

  /** What a completed run hands back: its report, the comment rendered from it, code 2 exactly for a failure, and the
      fixes of the report; and the report was written with a final newline. */
  lemma ResultIs(ports: Ports, req: Request, res: IngestResult)
    requires Run(ports, req) == Ok(res)
    ensures var cfg := EffectiveConfig(ports.loadConfig.value);
            && res.commentMd == ports.render(res.report, cfg) && res.buildfix == res.report.buildfix
            && res.report.run == req.run && res.report.verdict == OverallVerdict.Overall(cfg, res.report.sensors)
            && res.exitCode == (if res.report.verdict.status == VerdictStatus.Fail then 2 else 0)
            && ports.serialize(res.report).Ok? && ports.writeReport(ports.serialize(res.report).value + "\n").Ok?
            && ports.writeComment(res.commentMd).Ok?
  {
    hide ProcessAll, Expected, Assemble, RunRows;
    var s, d, steps := RunSteps(ports, req, res);
  }
}
