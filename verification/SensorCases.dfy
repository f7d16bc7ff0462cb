/** What becomes of a sensor, case by case, spelled out on what was configured and what the ports return. */
module SensorCases {
  import opened Types
  import opened Findings
  import opened Synthesize
  import opened Summarize
  import opened Ingest
  import opened SummaryFields
  import Text

  /** The characters ids may be made of. */
  predicate ProperId(id: string) {
    id != "" && forall c :: c in id ==> 'a' <= c <= 'z' || 'A' <= c <= 'Z' || '0' <= c <= '9' || c == '_' || c == '-'
  }

  lemma ProperIdIff(id: string)
    ensures IsValidSensorId(id) <==> ProperId(id)
  {
    assert forall i :: 0 <= i < |id| ==> id[i] in id;
  }

  /** The policy of a sensor: the configured one, or not blocking, skipped when missing, and without conditions. */
  function Configured(cfg: CockpitConfig, id: string): SensorPolicy {
    if id in cfg.sensors then cfg.sensors[id] else SensorPolicy(false, MissingPolicy.Skip, None, None, None)
  }

  /** The row names the sensor, where its receipt lies and its comment, if one was found. */
  ghost predicate Identifies(row: SensorSummary, s: Setting, id: string) {
    && row.id == id && row.reportPath == s.ports.reportPath(id)
    && row.blocking == Configured(s.cfg, id).blocking
    && row.commentPath == (match s.ports.readComment(id)
                           case Ok(CommentPresent(p)) => Some(p)
                           case _ => None)
  }

  /** Blocked if the sensor blocks and failed, allowed if it blocks and did not, informational if it does not block. */
  predicate OutcomeFits(row: SensorSummary) {
    row.policyOutcome == Some(if row.blocking && row.verdict.status == VerdictStatus.Fail then Blocked
                              else if row.blocking then Allowed else Informational)
  }

  predicate IsMadeUp(h: Highlight, sensorId: string, severity: Severity, code: string, fingerprint: Option<string>) {
    && h.sensorId == sensorId && h.finding.severity == severity && h.finding.code == code
    && h.finding.location == None && h.finding.fingerprint == fingerprint
  }

  function TraversalFingerprint(id: string, path: string): Option<string> {
    Some("cockpit.path_traversal:" + id + ":" + path)
  }

  /** One error, one warning, or nothing. */
  predicate CountsOne(c: VerdictCounts, severity: Option<Severity>) {
    && c.error == (if severity == Some(Error) then 1 else 0)
      && c.warn == (if severity == Some(Severity.Warn) then 1 else 0)
    && c.info == 0 && c.suppressed == 0
  }

  lemma OneCounted(f: Finding)
    ensures CountsOne(Counts([f]), Some(f.severity)) || f.severity == Info
  {
    CountOfOne(Error, f);
    CountOfOne(Severity.Warn, f);
    CountOfOne(Info, f);
  }

  /** A sensor that failed without a receipt that could be summarized. */
  ghost predicate FailsBare(step: Step, s: Setting, id: string, presence: Presence, reason: string) {
    var row := step.summary;
    && Identifies(row, s, id) && row.missing == Configured(s.cfg, id).missing && row.presence == presence
      && row.missingPolicyApplied == None && !row.truncated
    && row.verdict.status == VerdictStatus.Fail && row.verdict.reasons == [reason]
    && CountsOne(row.verdict.counts, Some(Error))
  }

  // ---- Before the receipt ----

  /** An id that is not proper fails its sensor, and nothing is read. */
  lemma ImproperId(s: Setting, id: string)
    requires !ProperId(id)
    ensures Process(s, id).Ok?
    ensures var step := Process(s, id).value;
            && step.summary.id == id && step.summary.commentPath == None && step.summary.presence == Missing
            && step.summary.blocking == Configured(s.cfg, id).blocking
            && step.summary.verdict.status == VerdictStatus.Fail && step.summary.verdict.reasons == ["path_traversal"]
            && CountsOne(step.summary.verdict.counts, Some(Error)) && step.summary.policyOutcome == Some(Blocked)
            && |step.highlights| == 1
            && IsMadeUp(step.highlights[0], "_cockpit", Error, "cockpit.path_traversal",
                        TraversalFingerprint(id, s.ports.reportPath(id)))
  {
    hide Counts, IsValidSensorId, TraversalMessage, ProperId, CountsOne;
    ProperIdIff(id);
    OneCounted(SynthesizePathTraversalHighlight(id, s.ports.reportPath(id), None).finding);
  }

  /** The candidates of a sensor: first the note about an unsafe comment, if there is one; the others follow. */
  ghost predicate NotesComment(step: Step, s: Setting, id: string, others: seq<Highlight>) {
    if s.ports.readComment(id) == Ok(CommentUnsafePath) then
      && step.highlights != [] && step.highlights[1..] == others
      && IsMadeUp(step.highlights[0], "_cockpit", Error, "cockpit.path_traversal",
                  TraversalFingerprint(id, "artifacts/" + id + "/comment.md"))
    else step.highlights == others
  }

  lemma CommentNoted(s: Setting, id: string, r: Result<Step>)
    requires s.ports.readComment(id).Ok? && r.Ok?
    ensures var step := AddHighlights(CommentHighlights(id, s.ports.readComment(id).value), r).value;
            step.summary == r.value.summary && NotesComment(step, s, id, r.value.highlights)
  {
    hide TraversalMessage;
    var h := SynthesizePathTraversalHighlight(id, "artifacts/" + id + "/comment.md", Some("comment.md"));
    assert ([h] + r.value.highlights)[1..] == r.value.highlights && [] + r.value.highlights == r.value.highlights;
    assert "cockpit.path_traversal:" + id + ":" + ("artifacts/" + id + "/comment.md") ==
           TraversalFingerprint(id, "artifacts/" + id + "/comment.md").value;
  }

  /** A sensor that asks for a label the request does not have is skipped, whatever its receipt says: it is as if the
      receipt were missing and missing receipts were skipped. */
  lemma LabelGate(s: Setting, id: string, wanted: string)
    requires ProperId(id) && s.ports.readComment(id).Ok?
    requires Configured(s.cfg, id).requireLabel == Some(wanted) && wanted !in s.labels
    ensures Process(s, id).Ok?
    ensures var step := Process(s, id).value;
            && Identifies(step.summary, s, id) && step.summary.presence == Missing
            && step.summary.missing == MissingPolicy.Skip
            && step.summary.missingPolicyApplied == Some(MissingPolicy.Skip)
            && step.summary.verdict.status == VerdictStatus.Skip && step.summary.verdict.reasons == []
            && CountsOne(step.summary.verdict.counts, None) && OutcomeFits(step.summary)
            && NotesComment(step, s, id, [])
    ensures forall read :: Process(s.(ports := s.ports.(readReport := read)), id) == Process(s, id)
  {
    hide Counts, IsValidSensorId, TraversalMessage, ProperId;
    ProperIdIff(id);
  }

  // ---- The receipt ----

  /** The label, if one is asked for, is there, and the comment could be looked for. */
  ghost predicate GetsToReceipt(s: Setting, id: string) {
    && ProperId(id) && s.ports.readComment(id).Ok?
    && (match Configured(s.cfg, id).requireLabel
        case None => true
        case Some(wanted) => wanted in s.labels)
  }

  lemma ReceiptStep(s: Setting, id: string)
    requires GetsToReceipt(s, id) && s.ports.readReport(id).Ok?
    ensures var comment := match s.ports.readComment(id)
                           case Ok(CommentPresent(p)) => Some(p)
                           case _ => None;
            var judged := JudgeRead(s, id, s.ports.reportPath(id), comment, s.ports.readReport(id).value);
            && Process(s, id).Ok? == judged.Ok?
            && (judged.Ok? ==> Process(s, id).value.summary == judged.value.summary
                               && NotesComment(Process(s, id).value, s, id, judged.value.highlights))
    ensures PolicyFor(s.cfg, id) == Configured(s.cfg, id)
  {
    hide IsValidSensorId, ProperId, JudgeRead, NotesComment, CommentHighlights;
    ProperIdIff(id);
    var read := s.ports.readComment(id).value;
    var judged := JudgeRead(s, id, s.ports.reportPath(id), CommentPath(read), s.ports.readReport(id).value);
    if judged.Ok? {
      CommentNoted(s, id, judged);
    }
  }

  /** No receipt: skipped silently, or a warning, or an error, as configured. */
  lemma ReceiptMissing(s: Setting, id: string)
    requires GetsToReceipt(s, id) && s.ports.readReport(id) == Ok(ReportMissing)
    ensures Process(s, id).Ok?
    ensures var step, missing := Process(s, id).value, Configured(s.cfg, id).missing;
            && Identifies(step.summary, s, id) && step.summary.presence == Missing
            && step.summary.missing == missing && step.summary.missingPolicyApplied == Some(missing)
              && OutcomeFits(step.summary)
            && (match missing
                case Skip =>
                  && step.summary.verdict.status == VerdictStatus.Skip && step.summary.verdict.reasons == []
                  && CountsOne(step.summary.verdict.counts, None) && NotesComment(step, s, id, [])
                case Warn => WarnsOfMissing(step, s, id, VerdictStatus.Warn, Severity.Warn)
                case Fail => WarnsOfMissing(step, s, id, VerdictStatus.Fail, Error))
  {
    hide Counts, IsValidSensorId, MissingMessage, ProperId, CountsOne, NotesComment, Process;
    ReceiptStep(s, id);
    OneCounted(MissingFinding(Severity.Warn, id, s.ports.reportPath(id)));
    OneCounted(MissingFinding(Error, id, s.ports.reportPath(id)));
    assert CountsOne(ZERO_COUNTS, None) by { NoneCounted(); }
  }

  lemma NoneCounted()
    ensures CountsOne(ZERO_COUNTS, None)
  {
  }

  ghost predicate WarnsOfMissing(step: Step, s: Setting, id: string, status: VerdictStatus, severity: Severity) {
    && step.summary.verdict.status == status && step.summary.verdict.reasons == ["missing_receipt"]
    && CountsOne(step.summary.verdict.counts, Some(severity))
    && exists h :: IsMadeUp(h, id, severity, "cockpit.missing_receipt", None) && NotesComment(step, s, id, [h])
  }

  /** A receipt at an unsafe path: the row shows `Blocked` whether or not the sensor blocks. */
  lemma ReceiptUnsafe(s: Setting, id: string)
    requires GetsToReceipt(s, id) && s.ports.readReport(id) == Ok(ReportUnsafePath)
    ensures Process(s, id).Ok?
    ensures var step := Process(s, id).value;
            && FailsBare(step, s, id, Missing, "path_traversal") && step.summary.policyOutcome == Some(Blocked)
            && exists h :: IsMadeUp(h, "_cockpit", Error, "cockpit.path_traversal",
                                    TraversalFingerprint(id, s.ports.reportPath(id)))
                 && NotesComment(step, s, id, [h])
  {
    hide Counts, IsValidSensorId, TraversalMessage, ProperId, CountsOne, NotesComment, Process;
    ReceiptStep(s, id);
    OneCounted(SynthesizePathTraversalHighlight(id, s.ports.reportPath(id), Some("report.json")).finding);
  }

  lemma ReceiptOversized(s: Setting, id: string, size: u64, cap: usize)
    requires GetsToReceipt(s, id) && s.ports.readReport(id) == Ok(ReportOversized(size, cap))
    ensures Process(s, id).Ok?
    ensures var step := Process(s, id).value;
            && FailsBare(step, s, id, Invalid, "receipt_oversized") && OutcomeFits(step.summary)
            && exists h :: IsMadeUp(h, "_cockpit", Error, "cockpit.receipt_oversized",
                                    Some("cockpit.receipt_oversized:" + id + ":" + Text.Decimal(size)))
                 && NotesComment(step, s, id, [h])
  {
    hide Counts, IsValidSensorId, OversizedMessage, ProperId, CountsOne, NotesComment, Process;
    ReceiptStep(s, id);
    var h := SynthesizeReceiptOversizedSensor(id, Configured(s.cfg, id), s.ports.reportPath(id), None, size, cap).1;
    OneCounted(h.finding);
  }

  lemma ReceiptRejected(s: Setting, id: string, bytes: Bytes, errors: seq<string>)
    requires GetsToReceipt(s, id) && s.ports.readReport(id) == Ok(ReportBytes(bytes))
    requires s.strict && s.ports.validate(bytes) == Ok(Violations(errors))
    ensures Process(s, id).Ok?
    ensures var step := Process(s, id).value;
            && FailsBare(step, s, id, Invalid, "schema_violation") && OutcomeFits(step.summary)
            && step.summary.errors == errors
            && exists h :: IsMadeUp(h, id, Error, "cockpit.schema_violation", None) && NotesComment(step, s, id, [h])
  {
    hide Counts, IsValidSensorId, SchemaViolationMessage, ProperId, CountsOne, NotesComment, Process;
    ReceiptStep(s, id);
    var h := SynthesizeSchemaViolationSensor(id, Configured(s.cfg, id), s.ports.reportPath(id), None, errors).1;
    OneCounted(h.finding);
  }

  /** The receipt is not rejected: validation is lax, or finds it valid. */
  ghost predicate Accepted(s: Setting, bytes: Bytes) {
    !s.strict || s.ports.validate(bytes) == Ok(Valid)
  }

  lemma ReceiptUnparsable(s: Setting, id: string, bytes: Bytes, error: string)
    requires GetsToReceipt(s, id) && s.ports.readReport(id) == Ok(ReportBytes(bytes))
    requires Accepted(s, bytes) && s.ports.parseReceipt(bytes) == Err(error)
    ensures Process(s, id).Ok?
    ensures var step := Process(s, id).value;
            && FailsBare(step, s, id, Invalid, "invalid_receipt") && OutcomeFits(step.summary)
            && step.summary.errors == [error]
            && exists h :: IsMadeUp(h, id, Error, "cockpit.invalid_receipt", None) && NotesComment(step, s, id, [h])
  {
    hide Counts, IsValidSensorId, InvalidMessage, ProperId, CountsOne, NotesComment, Process;
    ReceiptStep(s, id);
    var h := SynthesizeInvalidSensor(id, Configured(s.cfg, id), s.ports.reportPath(id), None, error).1;
    OneCounted(h.finding);
  }

  /** A receipt that is accepted and parses: its status and reasons, the counts of the findings that survive the cap,
      and these findings as candidates. */
  lemma ReceiptParsed(s: Setting, id: string, bytes: Bytes, report: SensorReport) returns (kept: seq<Finding>)
    requires GetsToReceipt(s, id) && s.ports.readReport(id) == Ok(ReportBytes(bytes))
    requires Accepted(s, bytes) && s.ports.parseReceipt(bytes) == Ok(report)
    ensures Process(s, id).Ok?
    ensures var step, max := Process(s, id).value, s.cfg.policy.maxPerSensorFindings;
            var row := step.summary;
            && Identifies(row, s, id) && row.missing == Configured(s.cfg, id).missing && row.presence == Present
              && row.missingPolicyApplied == None && row.errors == []
            && OutcomeFits(row) && row.verdict.status == report.verdict.status
            && row.verdict.reasons ==
               report.verdict.reasons + (if Misreported(report, max) then ["receipt_inconsistent"] else [])
            && (row.truncated <==> |report.findings| > max)
            && Survive(kept, report.findings, max)
            && (|report.findings| <= max ==> forall f :: f in report.findings ==> f in kept)
            && exists cs :: NotesComment(step, s, id, cs) && RaisesKept(cs, id, kept, Misreported(report, max))
  {
    hide Counts, IsValidSensorId, ProperId, NotesComment, Process, CandidatesOf, Survive, Misreported, GreedyCounts,
         CountOf;
    ReceiptStep(s, id);
    kept := CandidatesAre(id, report, s.cfg.policy.maxPerSensorFindings);
    MisreportedIff(id, report, s.cfg.policy.maxPerSensorFindings);
    var cs := CandidatesOf(id, report, s.cfg.policy.maxPerSensorFindings);
    assert RaisesKept(cs, id, kept, Misreported(report, s.cfg.policy.maxPerSensorFindings));
  }

  /** The note about misreported counts, if there is one, and then the kept findings in order. */
  ghost predicate RaisesKept(cs: seq<Highlight>, id: string, kept: seq<Finding>, note: bool) {
    var n := if note then 1 else 0;
    && |cs| == n + |kept| && (note ==> NotesInconsistency(cs[0], id))
    && forall k :: 0 <= k < |kept| ==> cs[n + k] == Highlight(id, kept[k])
  }
}
