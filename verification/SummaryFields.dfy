/** What summarizing a receipt yields, spelled out on its findings. */
module SummaryFields {
  import opened Types
  import opened StableSort
  import opened Findings
  import opened Synthesize
  import opened Summarize
  import FieldOrders
  import Text

  /** The findings that survive the cap: `kept` is a beginning, of at most `max`, of an arrangement of all findings by
      severity, path, line, code and message. */
  ghost predicate Survive(kept: seq<Finding>, all: seq<Finding>, max: nat) {
    exists rest ::
      && multiset(kept + rest) == multiset(all)
      && |kept| == (if |all| <= max then |all| else max)
      && forall i, j :: 0 <= i < j < |all| && |kept + rest| == |all| ==>
           FieldOrders.FindingsInOrder((kept + rest)[i], (kept + rest)[j], U32_MAX)
  }

  lemma SurfacedSurvive(sensorId: string, report: SensorReport, max: usize)
    ensures Survive(Surfaced(sensorId, report, max), report.findings, max)
    ensures |report.findings| <= max ==> forall f :: f in report.findings ==> f in Surfaced(sensorId, report, max)
  {
    hide SortBy, FieldOrders.FindingsInOrder, FindingSortKey;
    var sorted := SortFindings(sensorId, report.findings);
    SortByCorrect(ByFindingKey(sensorId), report.findings);
    SortByMembers(ByFindingKey(sensorId), report.findings);
    FieldOrders.SortedFindings(sensorId, report.findings);
    var kept := Surfaced(sensorId, report, max);
    var rest := sorted[|kept|..];
    assert kept + rest == sorted;
  }

  lemma {:induction false} FromSensorIs(sensorId: string, findings: seq<Finding>)
    ensures |FromSensor(sensorId, findings)| == |findings|
    ensures forall i :: 0 <= i < |findings| ==> FromSensor(sensorId, findings)[i] == Highlight(sensorId, findings[i])
  {
    if findings != [] {
      FromSensorIs(sensorId, findings[..|findings| - 1]);
    }
  }

  /** The note that a receipt reported other counts than its findings give. */
  predicate NotesInconsistency(h: Highlight, sensorId: string) {
    && h.sensorId == sensorId && h.finding.severity == Info && h.finding.code == "cockpit.receipt_inconsistent"
    && h.finding.location == None && h.finding.fingerprint.Some?
  }

  function Listed(c: VerdictCounts): string {
    Text.Decimal(c.info) + ":" + Text.Decimal(c.warn) + ":" + Text.Decimal(c.error)
  }

  /** The reported counts are not those the findings that survive the cap have. */
  ghost predicate Misreported(report: SensorReport, max: usize) {
    var findings := report.findings;
    report.verdict.counts !=
    GreedyCounts(CountOf(Error, findings), CountOf(Severity.Warn, findings), CountOf(Info, findings), max)
  }

  /** The candidates of a receipt: first the note, exactly if its counts are misreported; then each finding that
      survives the cap, in order. */
  lemma CandidatesAre(sensorId: string, report: SensorReport, max: usize) returns (kept: seq<Finding>)
    ensures Survive(kept, report.findings, max)
    ensures |report.findings| <= max ==> forall f :: f in report.findings ==> f in kept
    ensures var cs := CandidatesOf(sensorId, report, max);
            var note := if Misreported(report, max) then 1 else 0;
            && |cs| == note + |kept| && (note == 1 ==> NotesInconsistency(cs[0], sensorId))
            && forall k :: 0 <= k < |kept| ==> cs[note + k] == Highlight(sensorId, kept[k])
  {
    hide Survive, FromSensor, NotesInconsistency, Surfaced, Counts, SynthesizeReceiptInconsistent, Misreported,
         Inconsistent;
    kept := Surfaced(sensorId, report, max);
    MisreportedIff(sensorId, report, max);
    FromSensorIs(sensorId, kept);
    SurfacedSurvive(sensorId, report, max);
    InconsistencyNote(sensorId, report.verdict.counts, Counts(kept));
  }

  lemma MisreportedIff(sensorId: string, report: SensorReport, max: usize)
    ensures Misreported(report, max) <==> Inconsistent(sensorId, report, max)
  {
    hide CountOf, GreedyCounts, SortFindings, Counts;
    SortCapCountIsGreedy(sensorId, report.findings, max);
  }

  lemma InconsistencyNote(sensorId: string, reported: VerdictCounts, computed: VerdictCounts)
    ensures var h := SynthesizeReceiptInconsistent(sensorId, reported, computed);
            NotesInconsistency(h, sensorId) && h.finding.fingerprint ==
              Some("cockpit.receipt_inconsistent:" + sensorId + ":" + Listed(reported) + ":" + Listed(computed))
  {
  }

  /** The counts of a row, one by one: the cap is spent on errors, then warnings, then infos. */
  lemma CountsAre(sensorId: string, path: string, comment: Option<string>, policy: SensorPolicy, report: SensorReport,
                  max: usize)
    ensures var c := SummaryOf(sensorId, path, comment, policy, report, max).verdict.counts;
            var e := |At(Error, report.findings)|;
            var w := |At(Severity.Warn, report.findings)|;
            var i := |At(Info, report.findings)|;
            && c.error == (if e <= max then e else max)
            && c.warn == (if w <= max - c.error then w else max - c.error)
            && c.info == (if i <= max - c.error - c.warn then i else max - c.error - c.warn)
            && c.suppressed == 0
  {
    hide SummaryOf;
    SummaryCounts(sensorId, path, comment, policy, report, max);
    CountOfIsSize(Error, report.findings);
    CountOfIsSize(Severity.Warn, report.findings);
    CountOfIsSize(Info, report.findings);
  }

  /** Where findings of a severity stand. */
  ghost function At(severity: Severity, findings: seq<Finding>): set<nat> {
    set i: nat | i < |findings| && findings[i].severity == severity
  }

  lemma AtSnoc(severity: Severity, findings: seq<Finding>, f: Finding)
    ensures At(severity, findings + [f]) == At(severity, findings) + if f.severity == severity then {|findings|} else {}
  {
  }

  lemma {:induction false} CountOfIsSize(severity: Severity, findings: seq<Finding>)
    ensures CountOf(severity, findings) == |At(severity, findings)|
  {
    hide CountOf;
    if findings == [] {
      assert CountOf(severity, []) == 0 by { CountOfNone(severity); }
    } else {
      var n := |findings| - 1;
      var front, f := findings[..n], findings[n];
      CountOfIsSize(severity, front);
      CountOfAppend(severity, front, [f]);
      CountOfOne(severity, f);
      AtSnoc(severity, front, f);
      assert findings == front + [f];
    }
  }

  lemma CountOfNone(severity: Severity)
    ensures CountOf(severity, []) == 0
  {
  }

  lemma CountOfOne(severity: Severity, f: Finding)
    ensures CountOf(severity, [f]) == if f.severity == severity then 1 else 0
  {
    assert [f][1..] == [];
  }
}
