/** The program's data types, as far as the modelled code reads or writes them, and their ranks. */
module Types {
  datatype Option<+T> = None | Some(value: T) {
    function GetOr(default: T): T {
      match this
      case Some(v) => v
      case None => default
    }
  }

  datatype Result<+T> = Ok(value: T) | Err(error: string)

  const U32_MAX: nat := 0xFFFF_FFFF
  const U64_MAX: nat := 0xFFFF_FFFF_FFFF_FFFF

  type u32 = n: nat | n <= U32_MAX
  type u64 = n: nat | n <= U64_MAX
  type usize = u64

  /** `saturating_add`. */
  function SaturatingAdd(a: u64, b: u64): u64 {
    Saturate(a + b)
  }

  function Saturate(n: nat): u64 {
    if n <= U64_MAX then n else U64_MAX
  }

  datatype Severity = Info | Warn | Error
  datatype VerdictStatus = Pass | Warn | Fail | Skip
  datatype MissingPolicy = Skip | Warn | Fail
  datatype Presence = Present | Missing | Invalid
  datatype PolicyOutcome = Blocked | Allowed | Informational
  datatype SafetyLevel = Safe | Guarded | Unsafe
  datatype SchemaValidation = Lax | Strict

  datatype VerdictCounts = VerdictCounts(info: u64, warn: u64, error: u64, suppressed: u64)
  datatype Verdict = Verdict(status: VerdictStatus, counts: VerdictCounts, reasons: seq<string>)

  const ZERO_COUNTS := VerdictCounts(0, 0, 0, 0)

  datatype Location = Location(path: Option<string>, line: Option<u32>, col: Option<u32>)

  /** `data`, an opaque JSON value, is kept as its serialized text. */
  datatype Finding = Finding(
    severity: Severity,
    checkId: Option<string>,
    code: string,
    message: string,
    location: Option<Location>,
    help: Option<string>,
    url: Option<string>,
    fingerprint: Option<string>,
    data: Option<string>)
  {
    function Path(): Option<string> {
      if location.Some? then location.value.path else None
    }

    function Line(): Option<u32> {
      if location.Some? then location.value.line else None
    }
  }

  datatype Highlight = Highlight(sensorId: string, finding: Finding)

  datatype SensorReport = SensorReport(verdict: Verdict, findings: seq<Finding>)

  datatype SensorPolicy = SensorPolicy(
    blocking: bool,
    missing: MissingPolicy,
    section: Option<string>,
    requireLabel: Option<string>,
    repro: Option<string>)

  const DEFAULT_SENSOR_POLICY := SensorPolicy(false, MissingPolicy.Skip, None, None, None)

  datatype Policy = Policy(
    warnIsFail: bool,
    maxHighlights: usize,
    maxPerSensorFindings: usize,
    maxAnnotations: usize,
    sectionOrder: seq<string>,
    schemaValidation: SchemaValidation)

  const DEFAULT_POLICY := Policy(
    false, 7, 20, 25,
    ["Highlights", "Repo contract", "Dependencies", "Policy", "Tests", "Diagnostics", "Performance", "Environment",
     "Other"],
    Lax)

  datatype CockpitConfig = CockpitConfig(policy: Policy, sensors: map<string, SensorPolicy>)

  const DEFAULT_CONFIG := CockpitConfig(DEFAULT_POLICY, map[])

  datatype SensorSummary = SensorSummary(
    id: string,
    blocking: bool,
    missing: MissingPolicy,
    presence: Presence,
    reportPath: string,
    commentPath: Option<string>,
    verdict: Verdict,
    truncated: bool,
    errors: seq<string>,
    missingPolicyApplied: Option<MissingPolicy>,
    policyOutcome: Option<PolicyOutcome>)

  datatype Capability = Capability(reason: Option<string>)
  datatype RunInfo = RunInfo(startedAt: string, capabilities: map<string, Capability>)

  datatype FindingRef = FindingRef(sensorId: string, fingerprint: Option<string>, code: Option<string>)
  datatype Fix = Fix(id: string, safety: SafetyLevel, description: string, findingRefs: seq<FindingRef>)
  datatype BuildfixPlan = BuildfixPlan(fixes: seq<Fix>)
  datatype MatchedFinding = MatchedFinding(sensorId: string, code: string, fingerprint: Option<string>)

  datatype FixSummary = FixSummary(
    fixId: string,
    sensorId: string,
    safety: SafetyLevel,
    description: string,
    matchedFindings: seq<MatchedFinding>,
    unmatched: bool)

  datatype BuildfixSummary = BuildfixSummary(
    fixes: seq<FixSummary>, totalFixes: nat, matchedCount: nat, unmatchedCount: nat)

  /** The aggregate report; `buildfix` is what the source stores in the report's extension data. */
  datatype CockpitReport = CockpitReport(
    run: RunInfo,
    verdict: Verdict,
    sensors: seq<SensorSummary>,
    highlights: seq<Highlight>,
    buildfix: Option<BuildfixSummary>)

  /** Lower is more severe. */
  function SeverityRank(s: Severity): nat {
    match s
    case Error => 0
    case Warn => 1
    case Info => 2
  }

  /** Lower is worse. */
  function VerdictStatusRank(s: VerdictStatus): nat {
    match s
    case Fail => 0
    case Warn => 1
    case Pass => 2
    case Skip => 3
  }

  /** Lower is safer. */
  function SafetyLevelRank(s: SafetyLevel): nat {
    match s
    case Safe => 0
    case Guarded => 1
    case Unsafe => 2
  }

  predicate IsAsciiAlphanumeric(c: char) {
    'a' <= c <= 'z' || 'A' <= c <= 'Z' || '0' <= c <= '9'
  }

  predicate ContainsDotDot(s: string) {
    exists i :: 0 <= i < |s| - 1 && s[i] == '.' && s[i + 1] == '.'
  }

  predicate IsValidSensorId(id: string) {
    && id != ""
    && !ContainsDotDot(id)
    && '/' !in id
    && '\\' !in id
    && forall i :: 0 <= i < |id| ==> IsAsciiAlphanumeric(id[i]) || id[i] == '_' || id[i] == '-'
  }
}
