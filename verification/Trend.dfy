/** The trend between two reports: new and fixed findings, count deltas, sensors added and removed. */
module Trend {
  import opened Types
  import opened OrderedSet

  datatype FindingKey = FindingKey(sensorId: string, code: string, path: string, line: u32)

  function FindingToKey(h: Highlight): FindingKey {
    FindingKey(h.sensorId, h.finding.code, h.finding.Path().GetOr(""), h.finding.Line().GetOr(0))
  }

  datatype TrendFinding = TrendFinding(
    sensorId: string,
    code: string,
    message: string,
    path: Option<string>,
    line: Option<u32>,
    fingerprint: Option<string>,
    severity: Severity)

  function HighlightToTrendFinding(h: Highlight): TrendFinding {
    TrendFinding(h.sensorId, h.finding.code, h.finding.message, h.finding.Path(), h.finding.Line(),
                 h.finding.fingerprint, h.finding.severity)
  }

  // ---- 64-bit arithmetic of the count deltas ----

  const I64_MAX: int := 0x7FFF_FFFF_FFFF_FFFF
  const TWO_64: int := 0x1_0000_0000_0000_0000

  /** The signed 64-bit number congruent to `n`. */
  function WrapI64(n: int): int {
    var m := n % TWO_64;
    if m <= I64_MAX then m else m - TWO_64
  }

  /** `current as i64 - baseline as i64`; the casts wrap, and so does the subtraction in builds without
      overflow checks (with them it aborts where the model wraps). */
  function CountDelta(current: u64, baseline: u64): int {
    WrapI64(WrapI64(current) - WrapI64(baseline))
  }

  /** The subtraction of the two casts stays in range, so no overflow check can fire. */
  predicate DeltaInRange(current: u64, baseline: u64) {
    -I64_MAX - 1 <= WrapI64(current) - WrapI64(baseline) <= I64_MAX
  }

  datatype CountDeltas = CountDeltas(info: int, warn: int, error: int)
  datatype VerdictChange = VerdictChange(before: VerdictStatus, after: VerdictStatus)

  datatype TrendDelta = TrendDelta(
    verdictChange: Option<VerdictChange>,
    countDeltas: CountDeltas,
    newFindings: seq<TrendFinding>,
    fixedFindings: seq<TrendFinding>,
    sensorsAdded: seq<string>,
    sensorsRemoved: seq<string>)

  // ---- The reference definition: nested scans ----

  /** Some highlight of `others` is the same finding: by fingerprint if `h` has one, else by its key. */
  ghost predicate Matched(others: seq<Highlight>, h: Highlight) {
    if h.finding.fingerprint.Some? then exists o :: o in others && o.finding.fingerprint == h.finding.fingerprint
    else exists o :: o in others && FindingToKey(o) == FindingToKey(h)
  }

  /** The highlights of `hs` without a match in `others`, in order. */
  ghost function Unmatched(hs: seq<Highlight>, others: seq<Highlight>): seq<TrendFinding> {
    if hs == [] then []
    else
      var front, h := hs[..|hs| - 1], hs[|hs| - 1];
      Unmatched(front, others) + if Matched(others, h) then [] else [HighlightToTrendFinding(h)]
  }

  ghost function Ids(report: CockpitReport): set<string> {
    set s | s in report.sensors :: s.id
  }

  /** `added` lists `after - before` in ascending order. */
  ghost predicate ListsDifference(added: seq<string>, after: set<string>, before: set<string>) {
    StrictlyAscending(added) && forall id :: id in added <==> id in after && id !in before
  }

  ghost predicate IsTrend(t: TrendDelta, baseline: CockpitReport, current: CockpitReport) {
    && t.newFindings == Unmatched(current.highlights, baseline.highlights)
    && t.fixedFindings == Unmatched(baseline.highlights, current.highlights)
    && (t.verdictChange == if baseline.verdict.status == current.verdict.status then None
                           else Some(VerdictChange(baseline.verdict.status, current.verdict.status)))
    && t.countDeltas == CountDeltas(CountDelta(current.verdict.counts.info, baseline.verdict.counts.info),
                                    CountDelta(current.verdict.counts.warn, baseline.verdict.counts.warn),
                                    CountDelta(current.verdict.counts.error, baseline.verdict.counts.error))
    && ListsDifference(t.sensorsAdded, Ids(current), Ids(baseline))
    && ListsDifference(t.sensorsRemoved, Ids(baseline), Ids(current))
  }

  // ---- The program: map indexes ----

  /** An index knows exactly the fingerprints, or keys, of the highlights it was built from. */
  ghost predicate Indexes(byFp: map<string, Highlight>, byKey: map<FindingKey, Highlight>, hs: seq<Highlight>) {
    && (forall fp :: fp in byFp <==> exists o :: o in hs && o.finding.fingerprint == Some(fp))
    && (forall k :: k in byKey <==> exists o :: o in hs && FindingToKey(o) == k)
  }

  method BuildIndex(hs: seq<Highlight>) returns (byFp: map<string, Highlight>, byKey: map<FindingKey, Highlight>)
    ensures Indexes(byFp, byKey, hs)
  {
    hide FindingToKey;
    byFp, byKey := map[], map[];
    for i := 0 to |hs|
      invariant Indexes(byFp, byKey, hs[..i])
    {
      var h := hs[i];
      ghost var front := hs[..i];
      assert hs[..i + 1] == front + [h];
      assert forall o :: o in front + [h] <==> o in front || o == h;
      if h.finding.fingerprint.Some? {
        byFp := byFp[h.finding.fingerprint.value := h];
      }
      byKey := byKey[FindingToKey(h) := h];
    }
    assert hs[..|hs|] == hs;
  }

  /** The loop that collects new, or fixed, findings by looking each one up in the other report's index. */
  method CollectUnmatched(hs: seq<Highlight>, byFp: map<string, Highlight>, byKey: map<FindingKey, Highlight>,
                          ghost others: seq<Highlight>)
    returns (found: seq<TrendFinding>)
    requires Indexes(byFp, byKey, others)
    ensures found == Unmatched(hs, others)
  {
    hide FindingToKey, HighlightToTrendFinding;
    found := [];
    for i := 0 to |hs|
      invariant found == Unmatched(hs[..i], others)
    {
      var h := hs[i];
      assert hs[..i + 1][..i] == hs[..i];
      var matched :=
        if h.finding.fingerprint.Some? then h.finding.fingerprint.value in byFp else FindingToKey(h) in byKey;
      if !matched {
        found := found + [HighlightToTrendFinding(h)];
      }
    }
    assert hs[..|hs|] == hs;
  }

  /** The ids of the sensor rows, as an ordered set. */
  method CollectIds(sensors: seq<SensorSummary>) returns (ids: seq<string>)
    ensures StrictlyAscending(ids)
    ensures forall id :: id in ids <==> exists s :: s in sensors && s.id == id
  {
    ids := [];
    for i := 0 to |sensors|
      invariant StrictlyAscending(ids)
      invariant forall id :: id in ids <==> exists s :: s in sensors[..i] && s.id == id
    {
      InsertIdAscending(ids, sensors[i].id);
      InsertIdMembers(ids, sensors[i].id);
      assert sensors[..i + 1] == sensors[..i] + [sensors[i]];
      assert forall s :: s in sensors[..i + 1] <==> s in sensors[..i] || s == sensors[i];
      ids := InsertId(ids, sensors[i].id);
    }
    assert sensors[..|sensors|] == sensors;
  }

  /** The index-based computation agrees with the nested scans on all reports, also when some highlights have
      fingerprints and others do not. */
  method ComputeTrend(baseline: CockpitReport, current: CockpitReport) returns (t: TrendDelta)
    ensures IsTrend(t, baseline, current)
  {
    hide Unmatched, CountDelta, StrictlyAscending, Indexes;
    var baselineByFp, baselineByKey := BuildIndex(baseline.highlights);
    var currentByFp, currentByKey := BuildIndex(current.highlights);
    var newFindings := CollectUnmatched(current.highlights, baselineByFp, baselineByKey, baseline.highlights);
    var fixedFindings := CollectUnmatched(baseline.highlights, currentByFp, currentByKey, current.highlights);
    var verdictChange :=
      if baseline.verdict.status != current.verdict.status
      then Some(VerdictChange(baseline.verdict.status, current.verdict.status)) else None;
    var b, c := baseline.verdict.counts, current.verdict.counts;
    var deltas := CountDeltas(CountDelta(c.info, b.info), CountDelta(c.warn, b.warn), CountDelta(c.error, b.error));
    var baselineSensors := CollectIds(baseline.sensors);
    var currentSensors := CollectIds(current.sensors);
    var added := Difference(currentSensors, baselineSensors);
    var removed := Difference(baselineSensors, currentSensors);
    t := TrendDelta(verdictChange, deltas, newFindings, fixedFindings, added, removed);
  }

  // ---- Algebra of trends ----

  /** A trend is determined by its two reports. */
  lemma TrendUnique(t: TrendDelta, u: TrendDelta, baseline: CockpitReport, current: CockpitReport)
    requires IsTrend(t, baseline, current) && IsTrend(u, baseline, current)
    ensures t == u
  {
    AscendingUnique(t.sensorsAdded, u.sensorsAdded);
    AscendingUnique(t.sensorsRemoved, u.sensorsRemoved);
  }

  /** Negation in signed 64-bit arithmetic; only the smallest number is its own negative. */
  function NegateI64(n: int): int {
    WrapI64(-n)
  }

  function Swap(t: TrendDelta): TrendDelta {
    TrendDelta(
      if t.verdictChange.None? then None
      else Some(VerdictChange(t.verdictChange.value.after, t.verdictChange.value.before)),
      CountDeltas(NegateI64(t.countDeltas.info), NegateI64(t.countDeltas.warn), NegateI64(t.countDeltas.error)),
      t.fixedFindings, t.newFindings, t.sensorsRemoved, t.sensorsAdded)
  }

  /** Wrapping ignores multiples of 2^64 ... */
  lemma WrapShift(m: int, q: int)
    ensures WrapI64(m + q * TWO_64) == WrapI64(m)
  {
    var (d, r) := (m / TWO_64, m % TWO_64);
    assert m + q * TWO_64 == (d + q) * TWO_64 + r;
  }

  /** ... and only removes such a multiple. */
  lemma WrapRemovesMultiple(n: int) returns (q: int)
    ensures WrapI64(n) == n - q * TWO_64
  {
    q := if n % TWO_64 <= I64_MAX then n / TWO_64 else n / TWO_64 + 1;
  }

  lemma WrapOfNegated(n: int)
    ensures WrapI64(-WrapI64(n)) == WrapI64(-n)
  {
    hide WrapI64;
    var q := WrapRemovesMultiple(n);
    WrapShift(-n, q);
  }

  lemma DeltaSwaps(a: u64, b: u64)
    ensures CountDelta(b, a) == NegateI64(CountDelta(a, b))
  {
    hide WrapI64;
    WrapOfNegated(WrapI64(a) - WrapI64(b));
  }

  /** Reading a trend backwards: new becomes fixed, added becomes removed, deltas change sign. */
  lemma TrendSwaps(t: TrendDelta, baseline: CockpitReport, current: CockpitReport)
    requires IsTrend(t, baseline, current)
    ensures IsTrend(Swap(t), current, baseline)
  {
    hide WrapI64, Unmatched, StrictlyAscending;
    var b, c := baseline.verdict.counts, current.verdict.counts;
    DeltaSwaps(c.info, b.info);
    DeltaSwaps(c.warn, b.warn);
    DeltaSwaps(c.error, b.error);
  }

  lemma {:induction false} NothingUnmatchedIn(hs: seq<Highlight>, others: seq<Highlight>)
    requires forall h :: h in hs ==> h in others
    ensures Unmatched(hs, others) == []
  {
    if hs != [] {
      assert forall h :: h in hs[..|hs| - 1] ==> h in hs;
      NothingUnmatchedIn(hs[..|hs| - 1], others);
      assert hs[|hs| - 1] in others;
    }
  }

  /** A report has no trend against itself. */
  lemma TrendOfSelfIsEmpty(t: TrendDelta, r: CockpitReport)
    requires IsTrend(t, r, r)
    ensures t == TrendDelta(None, CountDeltas(0, 0, 0), [], [], [], [])
  {
    NothingUnmatchedIn(r.highlights, r.highlights);
    EmptyOrHasHead(t.sensorsAdded);
    EmptyOrHasHead(t.sensorsRemoved);
  }

  /** A delta is the true difference exactly when that difference fits a signed 64-bit number; with counts of at
      most `i64::MAX` it always does and nothing overflows on the way. */
  lemma DeltaExactIff(current: u64, baseline: u64)
    ensures CountDelta(current, baseline) == current - baseline <==> -I64_MAX - 1 <= current - baseline <= I64_MAX
    ensures current <= I64_MAX && baseline <= I64_MAX ==>
            CountDelta(current, baseline) == current - baseline && DeltaInRange(current, baseline)
  {
    hide WrapI64;
    CastOf(current);
    CastOf(baseline);
    var n := WrapI64(current) - WrapI64(baseline);
    if -I64_MAX - 1 <= n <= I64_MAX {
      WrapInRange(n);
    } else {
      WrapOutOfRange(n);
    }
  }

  /** One step out of range is brought back by one multiple. */
  lemma WrapOutOfRange(n: int)
    requires -TWO_64 < n < TWO_64 && !(-I64_MAX - 1 <= n <= I64_MAX)
    ensures WrapI64(n) == if n > 0 then n - TWO_64 else n + TWO_64
  {
  }

  /** With overflow checks: the subtraction passes exactly when both counts lie on the same side of 2^63, or differ by
      so much (2^63 or more, by more than 2^63 when the baseline is the larger) that the wrapped operands come close.
      What it returns is then the true difference exactly in the first case. */
  lemma CheckedDeltaIff(current: u64, baseline: u64)
    ensures DeltaInRange(current, baseline) <==>
      || (current <= I64_MAX <==> baseline <= I64_MAX)
      || (baseline <= I64_MAX < current && current - baseline >= I64_MAX + 1)
      || (current <= I64_MAX < baseline && baseline - current > I64_MAX + 1)
    ensures DeltaInRange(current, baseline) && CountDelta(current, baseline) == current - baseline <==>
      (current <= I64_MAX <==> baseline <= I64_MAX)
  {
    hide WrapI64;
    CastOf(current);
    CastOf(baseline);
    if DeltaInRange(current, baseline) {
      WrapInRange(WrapI64(current) - WrapI64(baseline));
    }
  }

  lemma CastOf(n: u64)
    ensures WrapI64(n) == if n <= I64_MAX then n else n - TWO_64
  {
  }

  lemma WrapInRange(n: int)
    requires -I64_MAX - 1 <= n <= I64_MAX
    ensures WrapI64(n) == n
  {
  }

  /** 2^63 findings after none: the delta is negative. */
  lemma LargeDeltaChangesSign()
    ensures CountDelta(I64_MAX + 1, 0) == -I64_MAX - 1 && CountDelta(I64_MAX + 1, 0) != I64_MAX + 1
  {
  }

  /** 2^63 findings after one: the difference fits, but the subtraction of the casts does not. */
  lemma FittingDeltaOverflows()
    ensures CountDelta(I64_MAX + 1, 1) == I64_MAX && !DeltaInRange(I64_MAX + 1, 1)
  {
  }
}
