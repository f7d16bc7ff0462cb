/** From one parsed receipt to its summary row and highlight candidates. */
module Summarize {
  import opened Types
  import opened Findings
  import opened Synthesize

  /** The findings of a receipt that are surfaced. */
  function Surfaced(sensorId: string, report: SensorReport, maxFindings: usize): seq<Finding> {
    Take(SortFindings(sensorId, report.findings), maxFindings)
  }

  predicate Inconsistent(sensorId: string, report: SensorReport, maxFindings: usize) {
    report.verdict.counts != Counts(Surfaced(sensorId, report, maxFindings))
  }

  /** The summary row of a parsed receipt. */
  function SummaryOf(sensorId: string, reportPath: string, commentPath: Option<string>, policy: SensorPolicy,
                     report: SensorReport, maxFindings: usize): SensorSummary
  {
    SensorSummary(
      sensorId, policy.blocking, policy.missing, Present, reportPath, commentPath,
      Verdict(report.verdict.status, Counts(Surfaced(sensorId, report, maxFindings)),
              report.verdict.reasons
                + if Inconsistent(sensorId, report, maxFindings) then ["receipt_inconsistent"] else []),
      |report.findings| > maxFindings, [], None,
      Some(ComputePolicyOutcome(policy.blocking, report.verdict.status)))
  }

  function FromSensor(sensorId: string, findings: seq<Finding>): seq<Highlight> {
    if findings == [] then []
    else FromSensor(sensorId, findings[..|findings| - 1]) + [Highlight(sensorId, findings[|findings| - 1])]
  }

  /** The highlight candidates of a parsed receipt. */
  function CandidatesOf(sensorId: string, report: SensorReport, maxFindings: usize): seq<Highlight> {
    var surfaced := Surfaced(sensorId, report, maxFindings);
    (if Inconsistent(sensorId, report, maxFindings)
     then [SynthesizeReceiptInconsistent(sensorId, report.verdict.counts, Counts(surfaced))] else [])
    + FromSensor(sensorId, surfaced)
  }

  method SummarizeSensorReport(sensorId: string, reportPath: string, commentPath: Option<string>, policy: SensorPolicy,
                               report: SensorReport, maxFindings: usize)
    returns (summary: SensorSummary, highlights: seq<Highlight>)
    ensures summary == SummaryOf(sensorId, reportPath, commentPath, policy, report, maxFindings)
    ensures highlights == CandidatesOf(sensorId, report, maxFindings)
  {
    hide Counts, FromSensor, SynthesizeReceiptInconsistent;
    var findings := SortFindings(sensorId, report.findings);
    StableSort.SortByLength(ByFindingKey(sensorId), report.findings);
    var surfaced, truncated := CapFindings(findings, maxFindings);

    var reported := report.verdict.counts;
    var computed := ComputeCounts(surfaced);
    var verdict := report.verdict;
    highlights := [];
    if verdict.counts != computed {
      verdict := verdict.(reasons := verdict.reasons + ["receipt_inconsistent"]);
      verdict := verdict.(counts := computed);
      highlights := highlights + [SynthesizeReceiptInconsistent(sensorId, reported, verdict.counts)];
    }
    summary := SensorSummary(
      sensorId, policy.blocking, policy.missing, Present, reportPath, commentPath, verdict, truncated, [], None,
      Some(ComputePolicyOutcome(policy.blocking, verdict.status)));

    ghost var head := highlights;
    NoneFromSensor(sensorId, surfaced);
    for i := 0 to |surfaced|
      invariant highlights == head + FromSensor(sensorId, surfaced[..i])
    {
      FromSensorSnoc(sensorId, surfaced, i);
      highlights := highlights + [Highlight(sensorId, surfaced[i])];
    }
    assert surfaced[..|surfaced|] == surfaced;
  }

  lemma NoneFromSensor(sensorId: string, findings: seq<Finding>)
    ensures FromSensor(sensorId, findings[..0]) == []
  {
  }

  lemma FromSensorSnoc(sensorId: string, findings: seq<Finding>, i: nat)
    requires i < |findings|
    ensures FromSensor(sensorId, findings[..i + 1]) ==
            FromSensor(sensorId, findings[..i]) + [Highlight(sensorId, findings[i])]
  {
    assert findings[..i + 1][..i] == findings[..i];
  }

  /** What a summary says about any receipt: the counts are those the cap leaves when it is spent on errors,
      then warnings, then infos; nothing is ever counted as suppressed; `truncated` is set exactly when
      findings were dropped; and the receipt is called inconsistent exactly when it reported other counts. */
  lemma SummaryCounts(sensorId: string, reportPath: string, commentPath: Option<string>, policy: SensorPolicy,
                      report: SensorReport, m: usize)
    ensures var findings := report.findings;
            var e, w, i := CountOf(Error, findings), CountOf(Severity.Warn, findings), CountOf(Info, findings);
            var s := SummaryOf(sensorId, reportPath, commentPath, policy, report, m);
            && s.verdict.counts == GreedyCounts(e, w, i, m)
            && (s.truncated <==> e + w + i > m)
            && s.verdict.reasons == report.verdict.reasons
               + (if report.verdict.counts != GreedyCounts(e, w, i, m) then ["receipt_inconsistent"] else [])
            && s.verdict.status == report.verdict.status
  {
    SortCapCountIsGreedy(sensorId, report.findings, m);
    CountsAddUp(report.findings);
  }
}
