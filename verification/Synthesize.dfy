/** Summaries and highlights the program makes up itself: for missing, unreadable, oversized, invalid and
    unsafe receipts, and for truncated discovery. */
module Synthesize {
  import opened Types
  import opened Findings
  import Text

  const COCKPIT_SENSOR := "_cockpit"

  function ComputePolicyOutcome(blocking: bool, status: VerdictStatus): PolicyOutcome {
    if !blocking then Informational
    else if status == VerdictStatus.Fail then Blocked
    else Allowed
  }

  /** A finding without location, link and payload, as all synthesized findings are. */
  function CockpitFinding(severity: Severity, code: string, message: string, help: string,
                          fingerprint: Option<string>): Finding
  {
    Finding(severity, Some(code), code, message, None, Some(help), None, fingerprint, None)
  }

  const MISSING_HELP := "Ensure the sensor ran and wrote artifacts/<sensor>/report.json."
  const INVALID_HELP := "Validate that the sensor wrote JSON matching sensor.report.v1."
  const SCHEMA_HELP := "Ensure the sensor output matches the JSON schema at contracts/schemas/sensor.report.v1.json."
  const TRAVERSAL_HELP :=
    "Ensure sensor IDs and artifact paths do not contain path traversal or escape the artifacts root."
  const OVERSIZED_HELP := "Reduce receipt size or increase the max receipt size limit."
  const INCONSISTENT_HELP := "Ensure receipt verdict counts match the findings array."
  const TRUNCATED_HELP := "This is a safety limit to prevent DoS. Consider reviewing why so many sensors exist."

  function MissingMessage(sensorId: string, reportPath: string): string {
    "Expected receipt for sensor `" + sensorId + "` but it was not found at `" + reportPath + "`."
  }

  function MissingFinding(severity: Severity, sensorId: string, reportPath: string): Finding {
    CockpitFinding(severity, "cockpit.missing_receipt", MissingMessage(sensorId, reportPath), MISSING_HELP, None)
  }

  function MissingStatus(missing: MissingPolicy): VerdictStatus {
    match missing
    case Skip => VerdictStatus.Skip
    case Warn => VerdictStatus.Warn
    case Fail => VerdictStatus.Fail
  }

  /** No receipt: the sensor's missing-policy decides between silence, a warning and an error. */
  function SynthesizeMissingSensor(sensorId: string, policy: SensorPolicy, reportPath: string,
                                   commentPath: Option<string>): (SensorSummary, Option<Highlight>)
  {
    var status := MissingStatus(policy.missing);
    var finding := match policy.missing
      case Skip => None
      case Warn => Some(MissingFinding(Severity.Warn, sensorId, reportPath))
      case Fail => Some(MissingFinding(Error, sensorId, reportPath));
    var verdict := Verdict(
      status,
      if finding.Some? then Counts([finding.value]) else ZERO_COUNTS,
      if finding.Some? then ["missing_receipt"] else []);
    var summary := SensorSummary(
      sensorId, policy.blocking, policy.missing, Missing, reportPath, commentPath, verdict, false, [],
      Some(policy.missing), Some(ComputePolicyOutcome(policy.blocking, status)));
    (summary, if finding.Some? then Some(Highlight(sensorId, finding.value)) else None)
  }

  /** The common shape of a failing summary caused by one synthesized error. */
  function FailedSummary(sensorId: string, policy: SensorPolicy, presence: Presence, reportPath: string,
                         commentPath: Option<string>, finding: Finding, reason: string, errors: seq<string>,
                         outcome: PolicyOutcome): SensorSummary
  {
    SensorSummary(
      sensorId, policy.blocking, policy.missing, presence, reportPath, commentPath,
      Verdict(VerdictStatus.Fail, Counts([finding]), [reason]), false, errors, None, Some(outcome))
  }

  function InvalidMessage(sensorId: string, reportPath: string, error: string): string {
    "Invalid receipt for sensor `" + sensorId + "` at `" + reportPath + "`: " + error
  }

  function SynthesizeInvalidSensor(sensorId: string, policy: SensorPolicy, reportPath: string,
                                   commentPath: Option<string>, error: string): (SensorSummary, Highlight)
  {
    var finding := CockpitFinding(
      Error, "cockpit.invalid_receipt", InvalidMessage(sensorId, reportPath, error), INVALID_HELP, None);
    (FailedSummary(sensorId, policy, Invalid, reportPath, commentPath, finding, "invalid_receipt", [error],
                   ComputePolicyOutcome(policy.blocking, VerdictStatus.Fail)),
     Highlight(sensorId, finding))
  }

  function Join(parts: seq<string>, separator: string): string {
    if parts == [] then ""
    else if |parts| == 1 then parts[0]
    else parts[0] + separator + Join(parts[1..], separator)
  }

  function SchemaViolationMessage(sensorId: string, reportPath: string, errors: seq<string>): string {
    var summary :=
      if |errors| == 1 then errors[0]
      else Text.Decimal(|errors|) + " schema violations: " + Join(errors, "; ");
    "Receipt for sensor `" + sensorId + "` at `" + reportPath + "` does not conform to sensor.report.v1 schema: "
    + summary
  }

  function SynthesizeSchemaViolationSensor(sensorId: string, policy: SensorPolicy, reportPath: string,
                                           commentPath: Option<string>, errors: seq<string>)
    : (SensorSummary, Highlight)
  {
    var finding := CockpitFinding(
      Error, "cockpit.schema_violation", SchemaViolationMessage(sensorId, reportPath, errors), SCHEMA_HELP, None);
    (FailedSummary(sensorId, policy, Invalid, reportPath, commentPath, finding, "schema_violation", errors,
                   ComputePolicyOutcome(policy.blocking, VerdictStatus.Fail)),
     Highlight(sensorId, finding))
  }

  function TraversalMessage(sensorId: string, path: string, context: Option<string>): string {
    "Rejected unsafe path for sensor `" + sensorId + "` at `" + path + "`"
    + (if context.Some? then " (unsafe " + context.value + ")" else "") + "."
  }

  function SynthesizePathTraversalHighlight(sensorId: string, path: string, context: Option<string>): Highlight {
    Highlight(COCKPIT_SENSOR, CockpitFinding(
      Error, "cockpit.path_traversal", TraversalMessage(sensorId, path, context), TRAVERSAL_HELP,
      Some("cockpit.path_traversal:" + sensorId + ":" + path)))
  }

  /** The outcome is `Blocked` whether or not the sensor is blocking. */
  function SynthesizePathTraversalSensor(sensorId: string, policy: SensorPolicy, reportPath: string,
                                         commentPath: Option<string>, context: Option<string>)
    : (SensorSummary, Highlight)
  {
    var highlight := SynthesizePathTraversalHighlight(sensorId, reportPath, context);
    (FailedSummary(sensorId, policy, Missing, reportPath, commentPath, highlight.finding, "path_traversal",
                   ["unsafe path rejected: " + reportPath], Blocked),
     highlight)
  }

  function OversizedMessage(sensorId: string, reportPath: string, size: u64, cap: usize): string {
    "Receipt for sensor `" + sensorId + "` exceeds size limit (" + Text.Decimal(size) + " bytes > "
    + Text.Decimal(cap) + " bytes) at `" + reportPath + "`."
  }

  function SynthesizeReceiptOversizedSensor(sensorId: string, policy: SensorPolicy, reportPath: string,
                                            commentPath: Option<string>, size: u64, cap: usize)
    : (SensorSummary, Highlight)
  {
    var finding := CockpitFinding(
      Error, "cockpit.receipt_oversized", OversizedMessage(sensorId, reportPath, size, cap), OVERSIZED_HELP,
      Some("cockpit.receipt_oversized:" + sensorId + ":" + Text.Decimal(size)));
    (FailedSummary(sensorId, policy, Invalid, reportPath, commentPath, finding, "receipt_oversized",
                   ["receipt too large: " + Text.Decimal(size) + " bytes (cap " + Text.Decimal(cap) + ")"],
                   ComputePolicyOutcome(policy.blocking, VerdictStatus.Fail)),
     Highlight(COCKPIT_SENSOR, finding))
  }

  function CountList(c: VerdictCounts, separator: string): string {
    Text.Decimal(c.info) + separator + Text.Decimal(c.warn) + separator + Text.Decimal(c.error)
  }

  function NamedCounts(c: VerdictCounts): string {
    "info=" + Text.Decimal(c.info) + ", warn=" + Text.Decimal(c.warn) + ", error=" + Text.Decimal(c.error)
  }

  function SynthesizeReceiptInconsistent(sensorId: string, reported: VerdictCounts,
                                         computed: VerdictCounts): Highlight
  {
    Highlight(sensorId, CockpitFinding(
      Info, "cockpit.receipt_inconsistent",
      "Receipt counts for sensor `" + sensorId + "` did not match findings: reported " + NamedCounts(reported)
      + ", computed " + NamedCounts(computed) + ".", INCONSISTENT_HELP,
      Some("cockpit.receipt_inconsistent:" + sensorId + ":" + CountList(reported, ":") + ":"
           + CountList(computed, ":"))))
  }

  function SynthesizeSensorsTruncated(processed: nat, totalFound: nat): Highlight {
    Highlight(COCKPIT_SENSOR, CockpitFinding(
      Severity.Warn, "cockpit.sensors_truncated",
      "Sensor discovery was truncated: processed " + Text.Decimal(processed) + " of " + Text.Decimal(totalFound)
      + " sensors found. Increase max_receipts limit if needed.", TRUNCATED_HELP,
      Some("cockpit.sensors_truncated:" + Text.Decimal(processed) + ":" + Text.Decimal(totalFound))))
  }
}
