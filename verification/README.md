# cockpitctl: a verified model

cockpitctl collects receipts (`report.json`) from sensors, summarizes them under strict budgets, decides one verdict and
exit code, and renders a pull-request comment. Its promise is determinism: the same inputs give the same report. Its
releases are gated by graph checks over the workspace's crates. This project models both, together with the consumers
that must agree with the report: trends, fix matching, annotation rendering and the conformance checks.

| part | files |
|---|---|
| release-order graph checks | `Graph`, `CycleDetection`, `PublishOrder`, `ReleaseGate` |
| orders and sorting | `SortKeys`, `StableSort`, `OrderedSet`, `Text` |
| receipt to verdict | `Types`, `Fingerprint`, `Findings`, `Synthesize`, `Summarize`, `Highlights`, `SelectionOrder`, `OverallVerdict`, `Ingest` |
| guarantees of whole runs | `IngestGuarantees`, `Completion`, `PolicyOutcomes`, `Evidence`, `AggregateFixes`, `DiscoveryOrder`, `SensorBlocks`, `BlockCut`, `SensorOrder`, `FixOrder`, `DiscoveryWitness`, `StandInWitness` |
| consumers | `Conform`, `Trend`, `TrendPatch`, `Buildfix`, `Render`, `CommentSections` |
| spelled out on fields and cases | `FieldOrders`, `SummaryFields`, `SensorCases`, `RunCases`, `LabelWitness`, `TrendFields`, `FixFields`, `OutputFields` |

`dafny verify dfyconfig.toml` verifies everything.

## How the model relates to the program

- Loops that update variables are methods with loops, proved equal to a specification function of their inputs; the
  properties are lemmas about those functions. Functions that only compute, such as the sort keys and the synthesized
  summaries, are functions.
- The depth-first search is a class whose fields are the shared sets. Its ghost fields `path` and `finished` record the
  stack and the finishing order; the program does not store them. Where the graph code walks a set or map, the model
  leaves the order open, so its results hold for every order.
- Strings are sequences of Unicode code points, compared code point by code point. That is the byte order of UTF-8, in
  which the program compares.
- The library's stable sort is the function `StableSort.SortBy`; `StableSortUnique` shows that any sorted and stable
  result equals it.
- Counters and sizes are bounded as in the program (`u32`, `u64`, `usize` of 64 bits), with saturation and wrap-around
  written out. In-degrees are unbounded above; that they never fall below zero is proved.
- The hash is a parameter, and so are the ports: functions from a sensor id, or from bytes, to what reading, validating
  or parsing returned, errors included; serializing, rendering and the two writes are ports as well. An error of a port
  ends the run.
- Missing lines have three meanings, all modelled as they are: 2^32 - 1 in the selection and sort keys, 0 in the
  conformance and trend keys, and first of all in the renderer's key.

Where code and its comments disagree the model follows the code:

- `crates/cockpitctl-domain/src/lib.rs:974-979` says an oversized receipt's outcome is always `Blocked`; the code
  computes it from the blocking flag (line 1008). Only rejected paths are always `Blocked` (line 968).
- `crates/cockpitctl-domain/src/lib.rs:617` says the verdict derives from blocking sensors only; its counts sum over all
  sensors.

The ports document discovered sensors as sorted (`crates/cockpitctl-ingest/src/lib.rs:50-51`), and the file system
adapter sorts them; the pipeline does not check it. What is said about other orders is about adapters that do
not sort. For sorted discoveries the order is determined (`DiscoveryOrder.SortedDiscoveryIsDetermined`).

Claims that do not hold without a condition, with a failing input and the exact condition:

| claim | fails | holds exactly if |
|---|---|---|
| sorted findings pass the ordering check | `Conform.MissingLineBreaksConformance` | `Conform.SortFindingsConformsIff` |
| the annotations shown keep the selection order | `Render.MissingLineReordersAnnotations` | `Render.ShowsBeginningIff` |
| an annotation is one line | `Render.PathSplitsAnnotation` | `Render.GhLineIsOneLineIff` |
| the hashed text identifies a finding | `Fingerprint.PathlessInputCollides`, `Fingerprint.NewlineInputCollides` | `Fingerprint.SameInputAnyMessageIff`, without newlines in sensor, code and path |
| the selection ignores arrival order | `SelectionOrder.ClashShowsOrder` | `SelectionOrder.OrderInsensitiveIff` |
| the ranking ignores the order of the discovered sensors | `DiscoveryWitness.OrderShowsInHighlights` | `SensorOrder.SensorOrderIff` |
| the listing of fixes ignores it | `DiscoveryWitness.OrderShowsInFixes` | `FixOrder.ReportListingIff` |
| the matches of fixes ignore it | `DiscoveryWitness.OrderShowsInMatches` | `FixOrder.ReportFixesIff`, where the highlights do |
| a raised finding is shown | `Evidence.EarlierFindingStandsIn`, `StandInWitness.FailureWithoutError` | `Evidence.ShownIffRaisedFirst` |
| a count delta is exact | `Trend.LargeDeltaChangesSign`, `Trend.FittingDeltaOverflows` | `Trend.DeltaExactIff`, `Trend.CheckedDeltaIff` |
| selecting fixes takes an initial stretch | `DiscoveryWitness.OrderShowsInFixes` | `Buildfix.SelectIsPrefixIff`, `AggregateFixes.RunFixesSortedIff` |
| row outcomes match the exit code | `PolicyOutcomes.PromotedWarningShowsNoBlock`, `PolicyOutcomes.RejectedPathShowsBlock` | `PolicyOutcomes.OutcomeAgainstExit` |
| a Kahn order passes the gate | `ReleaseGate.UnpublishableDependencyFailsGate` | `ReleaseGate.KahnOrderPassesGate` |

## Model

| member | source | states |
|---|---|---|
| Graph.AcyclicIffOrderable | xtask/tests/workspace_validation.rs:220-230 | The reference meaning of the graph checks: a dependency graph has no directed cycle (self-loops included) iff some list of all its crates puts every dependency before its dependent. |
| CycleDetection.CycleDetector.DfsFindsCycle | xtask/tests/workspace_validation.rs:67-89 | `true` only if the graph has a cycle, and then the stack holds all crates of one and both sets have only grown. On `false` the stack is what it was on entry, the crate is visited, and every crate that can be reached from a newly visited one is visited and lies on no cycle. Terminates because the unvisited crates shrink. |
| CycleDetection.AnyDependencyCycle | xtask/tests/workspace_validation.rs:220-230 | The driver over shared `visited`/`in_stack` sets is sound and complete: some search reports a cycle iff the graph has one; otherwise the finishing order lists every crate, dependencies first. |
| PublishOrder.CountDependencies | xtask/tests/workspace_validation.rs:160-169 | In-degrees are the exact numbers of dependencies, and the reversed adjacency lists hold each edge once. |
| PublishOrder.PayDegree | xtask/tests/workspace_validation.rs:183-187 | The decrement never underflows: a crate still owed a decrement has a positive in-degree, and afterwards the degree again counts its unpopped dependencies. |
| PublishOrder.PayDependents | xtask/tests/workspace_validation.rs:182-192 | After a pop every in-degree counts unpopped dependencies, and the queue holds, without repeats, the unpopped crates of in-degree zero. |
| PublishOrder.SortPublishable | xtask/tests/workspace_validation.rs:160-199 | Each crate is popped at most once, after its dependencies; the final count equals the number of publishable crates iff their graph is acyclic; otherwise the crates left over contain a cycle. |
| PublishOrder.LeftoversHoldCycle | xtask/tests/workspace_validation.rs:171-199 | When the queue runs dry, a nonempty rest contains a cycle. |
| ReleaseGate.CheckReleaseOrder | xtask/tests/workspace_validation.rs:428-442 | The gate reports exactly the (crate, dependency) pairs where the dependency was not published before the crate, as many as there are such pairs, and nothing iff the order is dependencies-first. |
| ReleaseGate.DetectorsAgree | xtask/tests/workspace_validation.rs:67-89 | Run on one graph, depth-first search and Kahn's count always agree. |
| ReleaseGate.KahnOrderPassesGate | xtask/tests/workspace_validation.rs:428-442 | A complete Kahn order has zero gate violations iff publishable crates depend on publishable crates only: Kahn sees only publishable dependencies, the gate sees all. |
| ReleaseGate.UnpublishableDependencyFailsGate | xtask/tests/workspace_validation.rs:143-152 | A publishable crate that depends on an unpublishable one: Kahn places it, the gate reports it. |
| ReleaseGate.PassingOrderMeansAcyclic | xtask/tests/workspace_validation.rs:428-442 | Any order that lists every publishable crate and passes the gate shows that the publishable graph is acyclic. |
| ReleaseGate.ReleasableIff | xtask/tests/workspace_validation.rs:119-199 | An order of publishable crates that passes the gate exists iff they have no cycle among them and depend on publishable crates only. |
| SortKeys.KeyLeqAntisymmetric | crates/cockpitctl-types/src/lib.rs:766-781 | Tuple keys that compare equal both ways are equal: the derived order is a total order (with the next two rows). |
| SortKeys.KeyLeqTransitive | crates/cockpitctl-types/src/lib.rs:766-781 | The lexicographic order of tuple keys is transitive. |
| SortKeys.KeyLeqTotal | crates/cockpitctl-types/src/lib.rs:766-781 | Any two tuple keys compare. |
| FieldOrders.StringOrder | crates/cockpitctl-types/src/lib.rs:766-781 | Strings compare at the first place where they differ; a beginning of a string comes before it. |
| StableSort.SortByCorrect | crates/cockpitctl-domain/src/lib.rs:374-376 | A stable sort's result is sorted and a permutation. |
| StableSort.SortByStable | crates/cockpitctl-domain/src/lib.rs:374-376 | Elements of equal key keep their input order. |
| StableSort.StableSortUnique | crates/cockpitctl-domain/src/lib.rs:374-376 | Any sorted result that keeps the order within every key class is this one, whatever algorithm the library uses. |
| StableSort.SortedPairs | crates/cockpitctl-domain/src/lib.rs:374-376 | A relation holds of all pairs of the sorted list iff it holds of every input pair taken in (key, then input position) order. |
| StableSort.AmongFirstIff | crates/cockpitctl-domain/src/lib.rs:505-547 | Of a list without repeats, an element is among the first `max` after sorting iff fewer than `max` elements have a smaller key or the same key and an earlier place. |
| Text.DecimalInjective | crates/cockpitctl-domain/src/lib.rs:295-298 | Decimal printing of line numbers is injective. |
| OutputFields.DecimalReadsBack | crates/cockpitctl-domain/src/lib.rs:295-298 | Printed numbers are made of the digits 0 to 9, without leading zero, and read back as the number. |
| Text.LinesInjective | crates/cockpitctl-domain/src/lib.rs:282-302 | Newline-closed fields without newlines are split back unambiguously. |
| Fingerprint.SameInputIff | crates/cockpitctl-domain/src/lib.rs:282-302 | Exactly when two findings with newline-free fields are hashed from the same bytes: same sensor, code and message, and same path and line, or the path of one spells the line number of the other, which has no path. |
| Fingerprint.SameInputAnyMessageIff | crates/cockpitctl-domain/src/lib.rs:282-302 | The same for any message, as long as sensor, code and path have no newline: equal hashed bytes iff same sensor and code, and the message of one reads on through none, one or both location lines of the other, which then has only the remaining ones. |
| Fingerprint.InputInjectiveWithPath | crates/cockpitctl-domain/src/lib.rs:282-302 | Among findings with a path and newline-free fields, the hashed bytes determine sensor, code, message, path and line. |
| Fingerprint.InputInjectiveAnyMessage | crates/cockpitctl-domain/src/lib.rs:282-302 | They do so for messages of several lines too, among findings with a path that agree on whether there is a line. |
| Fingerprint.PathlessInputCollides | crates/cockpitctl-domain/src/lib.rs:290-299 | Without a path they do not: two different findings with equal fingerprints under every hash. |
| Fingerprint.NewlineInputCollides | crates/cockpitctl-domain/src/lib.rs:284-289 | Nor with a newline in the code: two findings that differ in code and message share every hash. |
| OutputFields.DerivedFrom | crates/cockpitctl-domain/src/lib.rs:282-302 | The derived fingerprint is the hash of sensor, code, message, path if there is one and line if there is one, each closed by a newline. |
| OutputFields.DerivedTellApart | crates/cockpitctl-domain/src/lib.rs:282-302 | Under a hash without collisions, equal derived fingerprints of findings with a path that agree on having a line mean equal sensor, code, message, path and line. |
| Findings.CapFindings | crates/cockpitctl-domain/src/lib.rs:202-208 | The first `max` findings; truncated iff there were more. |
| Findings.ComputeCounts | crates/cockpitctl-domain/src/lib.rs:247-257 | Counting with saturation at each step gives the saturated exact number of findings of each severity. |
| Findings.CutKeepsWorst | crates/cockpitctl-domain/src/lib.rs:202-208 | Cutting a severity-sorted list keeps min(E, m) errors, then as many warnings as fit, then infos. |
| Findings.SortCapCountIsGreedy | crates/cockpitctl-domain/src/lib.rs:1191-1198 | Sort, cap, recount is severity-greedy: error = min(E, m), warn = min(W, m - error), info = min(I, m - error - warn), suppressed = 0. |
| FieldOrders.SortedFindings | crates/cockpitctl-domain/src/lib.rs:326-376 | Sorted findings come errors first, then warnings, then infos; within a severity by path, line, code and message, no path counting as empty and no line as 2^32 - 1. |
| Summarize.SummarizeSensorReport | crates/cockpitctl-domain/src/lib.rs:1183-1235 | The loop yields the row and the candidate list that the next three rows are about. |
| Summarize.SummaryCounts | crates/cockpitctl-domain/src/lib.rs:1191-1225 | For every receipt: counts are the greedy ones, truncated iff E + W + I > m, `receipt_inconsistent` is appended iff the reported counts differ from the greedy ones, and the status is the receipt's. |
| SummaryFields.CandidatesAre | crates/cockpitctl-domain/src/lib.rs:1197-1232 | The candidates are the note of that sensor, first and exactly if the reported counts differ from the greedy ones, and then each finding that survives the cap, in order; a receipt within the cap loses none. What survives is the beginning, of the capped length, of all findings in sorted order. |
| SummaryFields.CountsAre | crates/cockpitctl-domain/src/lib.rs:1191-1205 | Field by field: error, warn and info are the greedy counts of the findings of that severity, suppressed is 0. |
| Highlights.SelectHighlights | crates/cockpitctl-domain/src/lib.rs:480-549 | The loop with a `seen` set, the in-place sort and the truncation computes the selection the following rows are about. |
| Highlights.DedupFingerprints | crates/cockpitctl-domain/src/lib.rs:489-502 | After deduplication every highlight carries a fingerprint, no two the same, and exactly the effective fingerprints of the candidates occur. |
| Highlights.DedupKeepsFirsts | crates/cockpitctl-domain/src/lib.rs:489-502 | What is kept is exactly the first candidate of each effective fingerprint, with the fingerprint filled in. |
| Highlights.DedupSize | crates/cockpitctl-domain/src/lib.rs:489-502 | As many are kept as there are distinct effective fingerprints. |
| Highlights.SelectIsTopK | crates/cockpitctl-domain/src/lib.rs:480-549 | Exact top-k: fingerprints present and distinct, sorted by the seven-part key, min(`max_highlights`, distinct fingerprints) many, first candidates only, and nothing dropped sorts strictly before anything kept. |
| Highlights.DroppedErrorMeansAllErrors | crates/cockpitctl-domain/src/lib.rs:505-548 | If an error is dropped by the cap, every highlight shown is an error. |
| FieldOrders.SelectedInOrder | crates/cockpitctl-domain/src/lib.rs:505-545 | On the fields: selected highlights come by severity, then sensors the map marks blocking first, then by sensor, path, line, code and message. |
| FieldOrders.BlockingSensorsFirst | crates/cockpitctl-domain/src/lib.rs:506-511 | Within a severity a marked sensor never comes after one that is not; and if a highlight of a marked sensor is dropped, only marked sensors of that severity are kept. |
| Highlights.SelectIdempotent | crates/cockpitctl-domain/src/lib.rs:480-549 | Selecting from a selection changes nothing. |
| SelectionOrder.SameCandidatesSameSelection | crates/cockpitctl-domain/src/lib.rs:480-549 | A candidate can be shown if fewer fingerprints than the budget have all their candidates before its key. If every candidate that can be shown has the same normal form as the candidates that share its fingerprint or its key, the selection depends only on which candidates there are, not on arrival order or repetition. |
| SelectionOrder.OrderInsensitiveIff | crates/cockpitctl-domain/src/lib.rs:480-549 | That condition is exact for every budget: the selection is the same for every permutation of the candidates iff it holds. |
| SelectionOrder.ClashShowsOrder | crates/cockpitctl-domain/src/lib.rs:505-548 | Two findings with one key and two fingerprints under a budget of one: each order shows another one. |
| OverallVerdict.ComputeOverallVerdict | crates/cockpitctl-domain/src/lib.rs:616-651 | The fold equals its closed form: counts are min(2^64 - 1, exact sum over all rows) despite step-by-step saturation, `warn_is_fail` is listed once at most, status as in the next row. |
| OverallVerdict.OverallIsWorst | crates/cockpitctl-domain/src/lib.rs:632-644 | The status is the worst of Pass and the effective blocking statuses: a lower bound of all of them that is attained, and never Skip. |
| OutputFields.StatusIs | crates/cockpitctl-domain/src/lib.rs:632-644 | On the rows: failed if a blocking row failed or, under `warn_is_fail`, warned; else a warning if one warned; else passed; the only reason is `warn_is_fail`, exactly if a row was promoted. |
| OutputFields.TotalsAdd | crates/cockpitctl-domain/src/lib.rs:624-626 | Severity by severity, the totals of two lists of rows add up to those of both, up to saturation; those of one row are its counts. |
| OverallVerdict.OverallPermutation | crates/cockpitctl-domain/src/lib.rs:616-651 | The verdict does not depend on the order of the rows. |
| OverallVerdict.ExitCodeIff | crates/cockpitctl-ingest/src/lib.rs:486-490 | Exit code 2 iff a blocking sensor failed, or warned under `warn_is_fail`; 0 otherwise. |
| OverallVerdict.SectionRankIs | crates/cockpitctl-domain/src/lib.rs:416-434 | A listed section ranks by its last position, an unlisted one behind all. |
| OverallVerdict.SortSensorSummaries | crates/cockpitctl-domain/src/lib.rs:414-438 | Sorting through the rank table is the stable sort by (section rank, id). |
| OverallVerdict.RowsFollowSections | crates/cockpitctl-domain/src/lib.rs:421-437 | Rows of listed sections come first, in section order; within a section rows are ordered by id. |
| OutputFields.RowsBySection | crates/cockpitctl-domain/src/lib.rs:421-437 | The same with the section spelled out: the configured one of the sensor, else "Other". |
| OverallVerdict.RowOrderIsDetermined | crates/cockpitctl-domain/src/lib.rs:414-438 | With one row per id the row order does not depend on the order of evaluation. |
| Conform.CheckOrdering | crates/cockpitctl-conform/src/checks.rs:138-168 | Reports exactly the positions smaller than their predecessor, each once and ascending, and nothing iff the whole list is pairwise sorted by the conformance key. |
| FieldOrders.ConformingFindings | crates/cockpitctl-conform/src/checks.rs:138-168 | On the fields, what the check asks for: severity, path, line, code, message, no line counting as 0. |
| Conform.NeighboursSuffice | crates/cockpitctl-conform/src/checks.rs:157-166 | Comparing neighbours decides pairwise sortedness. |
| Conform.SortFindingsConforms | crates/cockpitctl-domain/src/lib.rs:374-376 | `sort_findings` output passes the ordering check when every finding has a line. |
| Conform.SortFindingsConformsIff | crates/cockpitctl-conform/src/checks.rs:138-168 | In general it passes iff each finding with a line n and each without one, of equal severity and path, satisfy: n = 0 and the first's (code, message) is no larger, or n = 2^32 - 1 and its (code, message) is larger, or equal and it came later. A missing line counts as 2^32 - 1 for sorting and as 0 for checking. |
| Conform.MissingLineBreaksConformance | crates/cockpitctl-conform/src/checks.rs:151-151 | A finding on line 5 and one without a line: sorted by the program, out of order for the check. |
| Conform.CheckPresenceSemantics | crates/cockpitctl-conform/src/checks.rs:380-391 | Reports exactly the rows with an applied missing-policy whose presence is not `missing`, each once and in row order. |
| OutputFields.PresenceFaultIff | crates/cockpitctl-conform/src/checks.rs:383-383 | A row is faulty if a missing-policy is said to be applied to a receipt that is present or invalid. |
| Conform.CheckCockpitReasonTokens | crates/cockpitctl-conform/src/checks.rs:394-429 | Reports exactly the malformed reason tokens, each once: of the verdict, then of the rows in order, then of the capabilities by name. |
| OutputFields.TokenIff | crates/cockpitctl-conform/src/checks.rs:15-19 | A reason token is nonempty and made of lower-case letters, digits and underscores. |
| Conform.SensorIdFormat | crates/cockpitctl-types/src/lib.rs:840-848 | The id test's rejection of `..`, `/` and `\` is implied by its character class: valid iff nonempty and made of ASCII alphanumerics, `_` and `-`. |
| Trend.BuildIndex | crates/cockpitctl-domain-trend/src/lib.rs:91-109 | The two map indexes know exactly the fingerprints and keys that occur. |
| Trend.ComputeTrend | crates/cockpitctl-domain-trend/src/lib.rs:89-177 | Equals the nested-scan definition of a trend for any two reports, with mixed or missing fingerprints; deltas wrap as the casts do; sensors added and removed are the ascending set differences. |
| TrendFields.TrendLists | crates/cockpitctl-domain-trend/src/lib.rs:23-46 | New findings describe, by sensor, code, message, path, line, fingerprint and severity, exactly the current highlights without a partner in the baseline, fixed ones those of the baseline without one in the current report, in highlight order; partners share the fingerprint, or, for a highlight without one, sensor, code, path and line. |
| TrendFields.TrendRest | crates/cockpitctl-domain-trend/src/lib.rs:139-175 | The change of status from before to after, exactly if they differ; current minus baseline counts per severity; sensors added and removed as set differences, ascending. |
| Trend.TrendUnique | crates/cockpitctl-domain-trend/src/lib.rs:89-177 | The definition has one result only. |
| Trend.TrendSwaps | crates/cockpitctl-domain-trend/src/lib.rs:89-177 | Swapping the reports exchanges new and fixed, added and removed, and negates the deltas in 64-bit arithmetic. |
| Trend.TrendOfSelfIsEmpty | crates/cockpitctl-domain-trend/src/lib.rs:89-177 | A report has an empty trend against itself. |
| Trend.DeltaExactIff | crates/cockpitctl-domain-trend/src/lib.rs:149-154 | A delta is the true difference iff that difference fits 64 signed bits; with counts up to 2^63 - 1 it always is. |
| Trend.CheckedDeltaIff | crates/cockpitctl-domain-trend/src/lib.rs:149-154 | With overflow checks: when the subtraction of the casts passes, stated on the two counts, and that it then yields the true difference iff both counts lie on the same side of 2^63. |
| Trend.LargeDeltaChangesSign | crates/cockpitctl-domain-trend/src/lib.rs:149-154 | 2^63 findings after none give a negative delta. |
| Trend.FittingDeltaOverflows | crates/cockpitctl-domain-trend/src/lib.rs:149-154 | 2^63 findings after one: the difference fits, the subtraction of the casts does not. |
| TrendPatch.UnmatchedFingerprints | crates/cockpitctl-domain-trend/src/lib.rs:111-137 | With distinct fingerprints, new findings list exactly the fingerprints the other report lacks, each once. |
| TrendPatch.TrendIsPatch | crates/cockpitctl-domain-trend/src/lib.rs:89-137 | Baseline fingerprints minus fixed plus new are the current fingerprints, fixed came from the baseline, new did not, and the sizes balance. |
| TrendPatch.NewFindingsTriangle | crates/cockpitctl-domain-trend/src/lib.rs:111-123 | new(a, c) is contained in new(a, b) united with new(b, c). |
| Buildfix.MatchFix | crates/cockpitctl-domain-buildfix/src/lib.rs:77-104 | The two inner loops list every matching highlight per reference, and the flag is set iff some reference matches some highlight. |
| Buildfix.MatchBuildfixPlan | crates/cockpitctl-domain-buildfix/src/lib.rs:66-133 | Refines the matched plan the following rows are about, with its three totals. |
| Buildfix.PlanResult | crates/cockpitctl-domain-buildfix/src/lib.rs:66-133 | One entry per fix of the plan, each unmatched iff no reference agrees with a highlight on sensor, fingerprint and code; sorted by safety, sensor and id; matched + unmatched = total. |
| FixFields.PlanDescribes | crates/cockpitctl-domain-buildfix/src/lib.rs:66-133 | On the fields: the result has one entry per fix of the plan, with its id, sensor, safety and description; it is unmatched iff no reference and highlight are both of that sensor and agree on fingerprint and on code where the reference sets them; its matches tell sensor, code and fingerprint of those highlights, reference by reference, in order; the totals count them. |
| FieldOrders.PlanInOrder | crates/cockpitctl-domain-buildfix/src/lib.rs:116-121 | Safe fixes come before guarded before unsafe ones, then by sensor and fix id. |
| Buildfix.UnmatchedIffNoFindings | crates/cockpitctl-domain-buildfix/src/lib.rs:95-113 | The unmatched flag and the list of matched findings never contradict each other. |
| Buildfix.MatchingIsMonotone | crates/cockpitctl-domain-buildfix/src/lib.rs:73-132 | More highlights never turn a matched fix into an unmatched one. |
| Buildfix.SelectIsPrefixIff | crates/cockpitctl-domain-buildfix/src/lib.rs:167-181 | Without the match gate, selection takes an initial stretch at every safety level iff the list is sorted by safety. |
| FieldOrders.SelectedToApply | crates/cockpitctl-domain-buildfix/src/lib.rs:167-181 | Selected are exactly the fixes no less safe than the level, with the match gate only matched ones. |
| Buildfix.PlanSelection | crates/cockpitctl-domain-buildfix/src/lib.rs:117-181 | For one plan it does, and the stretch grows with the safety level. |
| Render.RenderAnnotations | crates/cockpitctl-render/src/lib.rs:323-387 | The markdown lists, numbered from 1, the first min(`max_annotations`, n) highlights of the renderer's order, and says so when some are left out. |
| Render.RenderGithubAnnotations | crates/cockpitctl-render/src/lib.rs:798-844 | One workflow command per highlight among the first min(`max_annotations`, n) of the renderer's order. |
| FieldOrders.AnnotationsSorted | crates/cockpitctl-render/src/lib.rs:847-869 | On the fields, the renderer's order: severity, blocking sensors first, sensor, path and line with missing ones first, code, message. |
| OutputFields.AnnotationIs | crates/cockpitctl-render/src/lib.rs:815-836 | A whole annotation: error, warning or notice; file, line and column where known; title and message, with per cent signs and line breaks replaced. |
| OutputFields.MarkdownIs | crates/cockpitctl-render/src/lib.rs:345-371 | A whole line of the list: number, badge, sensor, code, place if known, message with line breaks as spaces. |
| Render.ResortIsIdentityIff | crates/cockpitctl-render/src/lib.rs:847-869 | On a list in selection order the renderer's re-sort is the identity iff no highlight clashes with a later one: same severity and sensor, and same path with only the earlier having a line, or an empty path before a missing one. |
| Render.ShowsBeginningIff | crates/cockpitctl-render/src/lib.rs:331-345 | Under a cap of m, what is shown of such a list is its beginning iff none of its first m highlights clashes with a later one, shown or not. |
| Render.ClashBehindCap | crates/cockpitctl-render/src/lib.rs:345-345 | Behind the cap a clash does no harm: an error alone is shown in order though the two behind it swap. |
| Render.RendererShowsSelection | crates/cockpitctl-render/src/lib.rs:331-345 | When the selected highlights have path and line (or lack both, no path being empty), what is rendered is exactly the first `max_annotations` selected highlights in order. |
| Render.MissingLineReordersAnnotations | crates/cockpitctl-render/src/lib.rs:864-865 | Otherwise it need not be: a highlight on line 5 and one on the same path without a line swap places. |
| Render.EscapeInjective | crates/cockpitctl-render/src/lib.rs:750-754 | Escaping loses nothing: different texts stay different. |
| Render.EscapeKeepsOneLine | crates/cockpitctl-render/src/lib.rs:750-754 | Escaped text has no line break. |
| Render.GhLineIsOneLineIff | crates/cockpitctl-render/src/lib.rs:820-835 | An annotation has no line feed and no carriage return iff its path, which is not escaped, has neither. |
| Render.PathSplitsAnnotation | crates/cockpitctl-render/src/lib.rs:822-824 | A path with a line feed, and one with a carriage return, which split it. |
| CommentSections.RFind | crates/cockpitctl-render/src/lib.rs:269-269 | The last occurrence: nothing later matches; none only if nothing matches. |
| CommentSections.AppendCommentSections | crates/cockpitctl-render/src/lib.rs:256-289 | Refines the splice the following rows are about. |
| CommentSections.SpliceKeepsMarker | crates/cockpitctl-render/src/lib.rs:268-283 | Text before the last end marker stays a prefix, text from it stays a suffix, and that marker is still the last one, even when a section contains the marker. |
| OutputFields.SectionsInComment | crates/cockpitctl-render/src/lib.rs:261-288 | Every section is in the comment afterwards, as a heading, a blank line and its content, both trimmed, in the order given. |
| OutputFields.BlankLineBefore | crates/cockpitctl-render/src/lib.rs:269-283 | Before the first section stands exactly what is missing of a blank line. |
| OutputFields.WithoutMarker | crates/cockpitctl-render/src/lib.rs:285-288 | Without a marker the sections follow the comment, trimmed at its end, after a blank line. |
| OutputFields.TrimEndIs | crates/cockpitctl-render/src/lib.rs:264-264 | Trimming takes white space, and nothing else, off the end, and all of it. |
| CommentSections.SpliceIsAction | crates/cockpitctl-render/src/lib.rs:256-283 | With the marker present, appending a and then b equals appending a ++ b, and appending nothing changes nothing. |
| CommentSections.HooksAreOneSplice | crates/cockpitctl-render/src/lib.rs:240-289 | Any number of hook contributions equals one splice of all their sections. |
| CommentSections.HooksKeepMarkers | crates/cockpitctl-render/src/lib.rs:108-111 | A rendered comment still begins with `<!-- cockpit:begin -->` and its body and ends with `<!-- cockpit:end -->` after any hooks. |
| Ingest.ProcessSensors | crates/cockpitctl-ingest/src/lib.rs:295-425 | The loop with all its `continue` exits and early returns equals evaluating each expected sensor on its own, in order, up to the first port error; candidates start with the early ones, and the blocking map covers every expected sensor. What each exit yields is in the rows of `SensorCases`. |
| Ingest.RaiseEarly | crates/cockpitctl-ingest/src/lib.rs:274-292 | Rejected ids and truncated discovery raise their notices first. |
| RunCases.NoticesAre | crates/cockpitctl-ingest/src/lib.rs:274-292 | An error for each rejected id, in order, with its fingerprint, and then, exactly if discovery was cut short, the warning that says so. |
| SensorCases.ImproperId | crates/cockpitctl-ingest/src/lib.rs:301-308 | An id not made of ASCII alphanumerics, `_` and `-`: failed, missing, `path_traversal`, one error, `Blocked`, and nothing is read. |
| SensorCases.LabelGate | crates/cockpitctl-ingest/src/lib.rs:324-336 | A sensor whose required label is not among the labels of the request is skipped, silently apart from its comment, and the result does not depend on what reading its receipt would return. |
| SensorCases.ReceiptMissing | crates/cockpitctl-ingest/src/lib.rs:341-349 | Otherwise, without a receipt: skipped silently, or `missing_receipt` as one warning or one error, as configured. |
| SensorCases.ReceiptUnsafe | crates/cockpitctl-ingest/src/lib.rs:350-361 | An unsafe path: failed, missing, `path_traversal`, one error, `Blocked` whether or not the sensor blocks. |
| SensorCases.ReceiptOversized | crates/cockpitctl-ingest/src/lib.rs:362-374 | Too large: failed, invalid, `receipt_oversized`, one error with its fingerprint, outcome by the blocking flag. |
| SensorCases.ReceiptRejected | crates/cockpitctl-ingest/src/lib.rs:378-396 | Rejected by strict validation: failed, invalid, `schema_violation`, the validator's errors, one error. |
| SensorCases.ReceiptUnparsable | crates/cockpitctl-ingest/src/lib.rs:412-423 | Not parsable: failed, invalid, `invalid_receipt`, the parser's error, one error. |
| SensorCases.ReceiptParsed | crates/cockpitctl-ingest/src/lib.rs:398-411 | Accepted and parsed, with no label required or the required one present: present, the receipt's status and reasons, `receipt_inconsistent` exactly for misreported counts, truncated exactly beyond the cap, and the surviving findings as candidates. |
| RunCases.SettingIs | crates/cockpitctl-ingest/src/lib.rs:256-265 | The request's validation mode overrides the configured one; labels are the request's; without a configuration the default one holds. |
| RunCases.ExpectedIs | crates/cockpitctl-ingest/src/lib.rs:267-272 | Expected are the configured sensors by id, or without any the discovered ones as discovered. |
| Ingest.CollectFixes | crates/cockpitctl-ingest/src/lib.rs:432-442 | Fixes of the readable plans of discovered sensors, plan after plan. |
| Ingest.Execute | crates/cockpitctl-ingest/src/lib.rs:249-498 | A whole run, with serialization and both writes, equals the specification `Run` that the following rows are about, errors included. |
| RunCases.ResultIs | crates/cockpitctl-ingest/src/lib.rs:455-497 | What a completed run hands back: its report with the request's run info and the verdict over its rows, the comment rendered from it, its fixes, code 2 exactly for a failed verdict; report text with a final newline and comment were written. |
| RunCases.UnlabelledIsSkipped | crates/cockpitctl-ingest/src/lib.rs:324-336 | In a completed run, the row of an expected sensor that lacks its label is skipped. |
| RunCases.LabelledIsJudged | crates/cockpitctl-ingest/src/lib.rs:324-411 | With its label, or without asking for one, it has the status of its accepted receipt. |
| LabelWitness.LabelDecides | crates/cockpitctl-ingest/src/lib.rs:324-336 | A blocking sensor with a failing receipt that asks for a label: without the label the run passes with code 0, with it the run fails with code 2. |
| RunCases.BlockingFirst | crates/cockpitctl-ingest/src/lib.rs:294-299 | In a report, within a severity, highlights of sensors configured as blocking come first; and if one of those was raised first with its fingerprint and is not shown, only such sensors of that severity are. |
| RunCases.HighlightsOrdered | crates/cockpitctl-domain/src/lib.rs:505-545 | A report's highlights come by severity, blocking first, sensor, path, line, code and message. |
| RunCases.RowsOrdered | crates/cockpitctl-domain/src/lib.rs:414-438 | A report's rows come by configured section, then by id. |
| RunCases.ReceiptIsShown | crates/cockpitctl-ingest/src/lib.rs:398-430 | Within the budget the fingerprint of every finding that survives the cap of an accepted receipt is in the report; of every finding if the receipt is within the cap. |
| Completion.AssembledIff | crates/cockpitctl-ingest/src/lib.rs:249-474 | A run gets to a report iff discovery and configuration can be read, no port call made for an expected sensor fails, and the plan of every discovered sensor can be looked up; bad receipts and bad plans never end a run. |
| Completion.CompletesIff | crates/cockpitctl-ingest/src/lib.rs:249-498 | It completes iff, besides, that report can be serialized and the report text, closed by a newline, and the rendered comment can be written. |
| Completion.NothingFoundPasses | crates/cockpitctl-ingest/src/lib.rs:249-498 | Without configuration, receipts, comments and plans a run gets to a report whatever was discovered; it completes iff that can be written, and then passes and exits with 0. |
| IngestGuarantees.StepFacts | crates/cockpitctl-ingest/src/lib.rs:297-425 | Whatever exit a sensor takes, its row has its id, its policy's blocking flag and the status read off the inputs, is consistent about presence, and carries malformed reason tokens only if its receipt does. |
| IngestGuarantees.OneRowPerSensor | crates/cockpitctl-ingest/src/lib.rs:297-427 | Conservation: the ids of the rows are the expected ids as multisets, each row with its policy's blocking flag. |
| IngestGuarantees.ReportPassesPresence | crates/cockpitctl-conform/src/checks.rs:380-391 | Every produced report passes the presence check. |
| IngestGuarantees.ReportPassesTokensIff | crates/cockpitctl-conform/src/checks.rs:394-429 | A produced report passes the token check iff the run's capability reasons and the reasons of all summarized receipts are well formed. |
| IngestGuarantees.VerdictFromInputs | crates/cockpitctl-domain/src/lib.rs:616-651 | Status, reasons and exit code of a run, stated on the inputs of its blocking sensors alone. |
| IngestGuarantees.NonInterference | crates/cockpitctl-ingest/src/lib.rs:297-427 | Two completed runs with the same configuration that agree on what is consulted for each blocking sensor (label gate, receipt behind it, strict validation, parsing unless validation rejects) have the same status, reasons and exit code, whatever other sensors, discovery, comments and plans do. |
| IngestGuarantees.RunHighlightsAreSelected | crates/cockpitctl-ingest/src/lib.rs:430-430 | Every run's highlights are within budget, in selection order and with distinct fingerprints, so trends between runs are patches. |
| IngestGuarantees.RendererKnowsBlocking | crates/cockpitctl-render/src/lib.rs:178-182 | The blocking map rebuilt from a report's rows is the one its highlights were selected with. |
| IngestGuarantees.RunRendersInOrderIff | crates/cockpitctl-render/src/lib.rs:331-345 | A run shows the first `max_annotations` of its highlights, in selection order, iff none of them clashes with a later highlight of the report. |
| DiscoveryOrder.DiscoveryOrderDoesNotShow | crates/cockpitctl-ingest/src/lib.rs:266-272 | Two runs that differ only in the order in which sensors were discovered have the same rows, verdict and exit code. |
| DiscoveryOrder.SortedDiscoveryIsDetermined | crates/cockpitctl-ingest/src/lib.rs:49-58 | Discoveries that list the same sensors and rejected ids in strictly ascending order, as documented, are equal, and so are the runs. |
| DiscoveryOrder.ReportIgnoresDiscoveryOrder | crates/cockpitctl-ingest/src/lib.rs:266-453 | If what is raised meets the condition of `OrderInsensitiveIff`, their whole reports agree except for the order in which fixes are listed: the fixes are the same as a multiset, with the same totals. |
| SensorBlocks.IgnoresBlockOrderIff | crates/cockpitctl-domain/src/lib.rs:489-545 | Candidates that arrive sensor by sensor: the ranking, before the cut, is the same for every order of the sensors iff what any two sensors add agrees on common fingerprints and, under each key, one lists a beginning of what the other lists. |
| BlockCut.CutIgnoresBlockOrderIff | crates/cockpitctl-domain/src/lib.rs:489-548 | If what the sensors add agrees on common fingerprints (disjoint ones do), the selection under any budget, cutting or not, is the same for every order iff under each key, as far as smaller keys and earlier candidates leave room, one sensor lists a beginning of what the other lists. |
| SensorOrder.SensorOrderIff | crates/cockpitctl-ingest/src/lib.rs:266-430 | For a run: without configured sensors, what is raised ranks the same for every order of the discovered sensors iff they agree in the sense of `IgnoresBlockOrderIff`; with configured sensors, which are walked by id, it always does. Rejected ids keep their order. |
| SensorOrder.ReportSensorOrderIff | crates/cockpitctl-ingest/src/lib.rs:266-430 | If they agree, every order of the discovered sensors leads to a report with the same highlights at any budget; within the budget only then. |
| SensorOrder.ReportCutOrderIff | crates/cockpitctl-ingest/src/lib.rs:266-430 | At any budget, for sensors that agree on common fingerprints: the reports show the same highlights for every order of the discovered sensors iff sensors are configured or comparable within the room of each key. |
| FixOrder.ReportListingIff | crates/cockpitctl-ingest/src/lib.rs:434-452 | Reports list the same fixes in the same order, apart from what they are matched to, for every order of the discovered sensors iff at most one of them plans any. |
| FixOrder.ReportFixesIff | crates/cockpitctl-ingest/src/lib.rs:430-452 | Whole entries, matches and totals included, can be the same for every order only then; if the highlights are, as for agreeing sensors, exactly then. |
| DiscoveryWitness.OrderShowsInHighlights | crates/cockpitctl-ingest/src/lib.rs:266-430 | Two completed runs that differ only in the order of two discovered sensors and show different highlights. |
| DiscoveryWitness.OrderShowsInFixes | crates/cockpitctl-ingest/src/lib.rs:434-442 | With a plan each, selecting from the fixes these two runs report takes an initial stretch at every safety level in one and not in the other: an unsafe fix stands before a safe one. |
| DiscoveryWitness.OrderShowsInMatches | crates/cockpitctl-ingest/src/lib.rs:430-442 | With one plan only, its fix is matched in one of the two runs and unmatched in the other, because the finding it refers to is shown in one only. |
| AggregateFixes.RunBuildfix | crates/cockpitctl-ingest/src/lib.rs:432-474 | A run reports one entry per fix of a plan of a discovered sensor, unmatched iff no reference of the fix agrees with a highlight of the report; matched + unmatched = total = number of planned fixes; nothing without fixes. |
| FixFields.RunDescribes | crates/cockpitctl-ingest/src/lib.rs:432-453 | On the fields: a run's fixes describe exactly the fixes of the plans of discovered sensors, matched against the report's highlights. |
| AggregateFixes.RunFixesSortedIff | crates/cockpitctl-ingest/src/lib.rs:434-442 | Selecting from a run's fixes takes an initial stretch at every safety level iff no plan holds a fix that is safer than one in the plan of a sensor discovered earlier. |
| AggregateFixes.AppendedFixesSortedIff | crates/cockpitctl-ingest/src/lib.rs:434-442 | Two nonempty plans appended are sorted by safety iff the last fix of the first is no less safe than the first of the second. |
| PolicyOutcomes.RowOutcome | crates/cockpitctl-domain/src/lib.rs:44-52 | The outcome each row shows: `Blocked` for a rejected path, blocking or not, else decided by blocking flag and status. |
| PolicyOutcomes.ShowsBlockedIff | crates/cockpitctl-domain/src/lib.rs:968-968 | A report shows a `Blocked` row iff a blocking sensor failed or any path was rejected. |
| PolicyOutcomes.OutcomeAgainstExit | crates/cockpitctl-ingest/src/lib.rs:486-490 | Exactly when rows and exit code disagree: code 2 without a `Blocked` row iff `warn_is_fail` promotes a blocking warning and nothing blocking failed and no path was rejected; code 0 with a `Blocked` row iff only a rejected path caused it. |
| PolicyOutcomes.PromotedWarningShowsNoBlock | crates/cockpitctl-domain/src/lib.rs:632-639 | A run of the first kind: one blocking sensor without receipt, policy `warn`. |
| PolicyOutcomes.RejectedPathShowsBlock | crates/cockpitctl-domain/src/lib.rs:942-972 | A run of the second kind: one non-blocking sensor with an unsafe receipt path. |
| Evidence.NothingLostWithinBudget | crates/cockpitctl-ingest/src/lib.rs:274-430 | Every highlight shown was raised by discovery or an expected sensor; and if the budget has room for every fingerprint raised, each of them is shown. |
| Evidence.ShownIffRaisedFirst | crates/cockpitctl-domain/src/lib.rs:489-547 | At every budget a finding itself is shown iff the finding raised first with its fingerprint has the same normal form and fewer first findings than the budget sort before it; within the budget the first condition alone decides. |
| Evidence.FailuresAreEvident | crates/cockpitctl-ingest/src/lib.rs:297-430 | A sensor that warns or fails without a summarized receipt raises a finding of that severity; within the budget its fingerprint is in the report, and the finding itself iff it was raised first with it. |
| Evidence.EarlierFindingStandsIn | crates/cockpitctl-domain/src/lib.rs:495-501 | An information raised earlier with the fingerprint of an error is shown in its place, at any budget. |
| StandInWitness.FailureWithoutError | crates/cockpitctl-ingest/src/lib.rs:297-430 | A run that exits with 2 for a rejected path and shows, with room for more, nothing but an information that carries that failure's fingerprint. |

## Left out

- Reading manifests and workflow files: the graph checks start from a built graph.
- Trend.ComputeTrend: models builds in which integer subtraction wraps; `CheckedDeltaIff` says when a build that checks it
  passes.
- Fingerprint.SameInputAnyMessageIff: with newlines in sensor, code or path, beyond the collision in
  `NewlineInputCollides`, nothing is said.
- SensorOrder.ReportSensorOrderIff: where the budget cuts and sensors disagree on a common fingerprint, which findings
  are raised first depends on the order of several sensors at once; agreement then suffices but is not necessary.
- SensorOrder.SensorOrderIff: reorders the discovered sensors; that rejected ids may be reordered too is covered by
  `DiscoveryOrder.ReportIgnoresDiscoveryOrder`, one way.
- FixOrder.ReportFixesIff: where highlights change with the order, when a single plan is still matched alike is not
  characterised.
- Wording of messages and help texts: modelled as it is, but nothing is claimed about it.
- Conform.CheckOrdering: reports positions, as do the other conformance checks; the wording of violations is left out.
- Sorting in place: the program's vectors are modelled as sequences, so slices, iterators and moves are not captured.
- Tool info and policy snapshot of the aggregate report, which only copy the request and the configuration, and parts of
  run info and receipts that no modelled code reads or compares. A finding has all its fields, its opaque payload as
  serialized text. The buildfix summary that the report carries as extension data is a field.
- The contents of files after a write, beyond whether writing succeeded; process spawning, timeouts, hooks and the
  actuator: only what ports return and the sections hooks contribute appear.
- JSON and TOML parsing, schema validation and serialization: port functions that return parsed values or errors.
- SHA-256 and the policy signature.
- SARIF export, feature flags and the table of code explanations: field-by-field mappings and enumerations.
- Wording, badges and tables of the comment beyond its markers and annotation list.
- Conformance checks of path hygiene, tool errors and artifact pointers, and the string comparison for determinism: one
  predicate per finding, without interaction.
