/** The conformance checks: the independent judge of receipts and of the aggregate report. */
module Conform {
  import opened Types
  import opened SortKeys
  import opened StableSort
  import opened Findings
  import OrderedSet

  // ---- Ordering of findings ----

  /** The conformance key: unlike the sort key, a finding without a line counts as line 0. */
  function ConformKey(sensorId: string, f: Finding): Key {
    [Num(SeverityRank(f.severity)), Text(sensorId), Text(f.Path().GetOr("")), Num(f.Line().GetOr(0)), Text(f.code),
     Text(f.message)]
  }

  function ByConformKey(sensorId: string): Finding -> Key {
    (f: Finding) => ConformKey(sensorId, f)
  }

  predicate KeyLt(a: Key, b: Key) {
    !KeyLeq(b, a)
  }

  ghost predicate NeighboursSorted(key: Finding -> Key, s: seq<Finding>) {
    forall i :: 0 < i < |s| ==> KeyLeq(key(s[i - 1]), key(s[i]))
  }

  /** Comparing neighbours is enough. */
  lemma NeighboursSuffice(key: Finding -> Key, s: seq<Finding>)
    ensures NeighboursSorted(key, s) <==> Sorted(key, s)
  {
    if NeighboursSorted(key, s) {
      forall i, j | 0 <= i < j < |s|
        ensures KeyLeq(key(s[i]), key(s[j]))
      {
        ChainOfNeighbours(key, s, i, j);
      }
    }
  }

  lemma {:induction false} ChainOfNeighbours(key: Finding -> Key, s: seq<Finding>, i: nat, j: nat)
    requires NeighboursSorted(key, s) && i < j < |s|
    ensures KeyLeq(key(s[i]), key(s[j]))
    decreases j
  {
    if i < j - 1 {
      ChainOfNeighbours(key, s, i, j - 1);
      KeyLeqTransitive(key(s[i]), key(s[j - 1]), key(s[j]));
    }
  }

  /** The finding at `i` should come before its predecessor. */
  predicate OutOfOrder(sensorId: string, findings: seq<Finding>, i: nat) {
    0 < i < |findings| && KeyLt(ConformKey(sensorId, findings[i]), ConformKey(sensorId, findings[i - 1]))
  }

  ghost predicate Increasing(s: seq<nat>) {
    forall i, j :: 0 <= i < j < |s| ==> s[i] < s[j]
  }

  /** Reports every position that is out of order with its predecessor, once and in order. Nothing is reported exactly
      when all findings, not just neighbours, are in order. */
  method CheckOrdering(findings: seq<Finding>, sensorId: string) returns (violations: seq<nat>)
    ensures Increasing(violations) && forall i :: i in violations <==> OutOfOrder(sensorId, findings, i)
    ensures violations == [] <==> Sorted(ByConformKey(sensorId), findings)
  {
    hide KeyLeq, ConformKey;
    violations := [];
    var i := 1;
    while i < |findings|
      invariant 1 <= i
      invariant Increasing(violations) && forall n :: 0 <= n < |violations| ==> violations[n] < i
      invariant forall k: nat :: k in violations <==> k < i && OutOfOrder(sensorId, findings, k)
    {
      if KeyLt(ConformKey(sensorId, findings[i]), ConformKey(sensorId, findings[i - 1])) {
        violations := violations + [i];
      }
      i := i + 1;
    }
    NeighboursSuffice(ByConformKey(sensorId), findings);
    NoneOutOfOrder(sensorId, findings);
    assert violations != [] ==> violations[0] in violations;
  }

  lemma NoneOutOfOrder(sensorId: string, findings: seq<Finding>)
    ensures (forall i :: !OutOfOrder(sensorId, findings, i)) <==> NeighboursSorted(ByConformKey(sensorId), findings)
  {
    hide KeyLeq, ConformKey;
    if forall i :: !OutOfOrder(sensorId, findings, i) {
      forall i | 0 < i < |findings|
        ensures KeyLeq(ByConformKey(sensorId)(findings[i - 1]), ByConformKey(sensorId)(findings[i]))
      {
        assert !OutOfOrder(sensorId, findings, i);
      }
    }
  }

  /** Same severity and path, but only `a` has a line: the pairs on which the two keys disagree. */
  predicate OnlyFirstHasLine(a: Finding, b: Finding) {
    a.severity == b.severity && a.Path().GetOr("") == b.Path().GetOr("") && a.Line().Some? && b.Line().None?
  }

  function CodeAndMessage(f: Finding): Key {
    [Text(f.code), Text(f.message)]
  }

  /** A pair with a line at input position `i` and without one at `j` still satisfies the conformance order
      after sorting: line 0 with code and message in order, or line `u32::MAX` sorted behind its partner. */
  predicate HarmlessPair(a: Finding, i: nat, b: Finding, j: nat)
    requires a.Line().Some?
  {
    var inOrder := KeyLeq(CodeAndMessage(a), CodeAndMessage(b));
    || (a.Line().value == 0 && inOrder)
    || (a.Line().value == U32_MAX && (!inOrder || (CodeAndMessage(a) == CodeAndMessage(b) && j < i)))
  }

  /** Every mixed pair of the input is harmless. */
  ghost predicate MixedPairsHarmless(findings: seq<Finding>) {
    forall i, j :: 0 <= i < |findings| && 0 <= j < |findings| && OnlyFirstHasLine(findings[i], findings[j]) ==>
      HarmlessPair(findings[i], i, findings[j], j)
  }

  /** Comparison field by field: severity, then path, then line, then code and message. */
  predicate FieldsLeq(a: Finding, lineA: nat, b: Finding, lineB: nat) {
    var (ra, rb) := (SeverityRank(a.severity), SeverityRank(b.severity));
    var (pa, pb) := (a.Path().GetOr(""), b.Path().GetOr(""));
    if ra != rb then ra < rb
    else if pa != pb then StringLeq(pa, pb)
    else if lineA != lineB then lineA < lineB
    else KeyLeq(CodeAndMessage(a), CodeAndMessage(b))
  }

  lemma KeyIsFields(sensorId: string, sa: nat, pa: string, la: nat, ta: Key, sb: nat, pb: string, lb: nat, tb: Key)
    ensures KeyLeq([Num(sa), Text(sensorId), Text(pa), Num(la)] + ta,
                   [Num(sb), Text(sensorId), Text(pb), Num(lb)] + tb) <==>
            if sa != sb then sa < sb
            else if pa != pb then StringLeq(pa, pb)
            else if la != lb then la < lb
            else KeyLeq(ta, tb)
  {
    StringLeqReflexive(sensorId);
    StringLeqReflexive(pa);
    var a3, b3 := [Num(la)] + ta, [Num(lb)] + tb;
    var a2, b2 := [Text(pa)] + a3, [Text(pb)] + b3;
    var a1, b1 := [Text(sensorId)] + a2, [Text(sensorId)] + b2;
    assert [Num(sa), Text(sensorId), Text(pa), Num(la)] + ta == [Num(sa)] + a1;
    assert [Num(sb), Text(sensorId), Text(pb), Num(lb)] + tb == [Num(sb)] + b1;
    ConsLeq(Num(sa), a1, Num(sb), b1);
    ConsLeq(Text(sensorId), a2, Text(sensorId), b2);
    ConsLeq(Text(pa), a3, Text(pb), b3);
    ConsLeq(Num(la), ta, Num(lb), tb);
  }

  lemma CompareBothKeys(sensorId: string, a: Finding, b: Finding)
    ensures KeyLeq(FindingSortKey(sensorId, a), FindingSortKey(sensorId, b)) <==>
            FieldsLeq(a, a.Line().GetOr(U32_MAX), b, b.Line().GetOr(U32_MAX))
    ensures KeyLeq(ConformKey(sensorId, a), ConformKey(sensorId, b)) <==>
            FieldsLeq(a, a.Line().GetOr(0), b, b.Line().GetOr(0))
  {
    hide KeyLeq, StringLeq;
    KeyIsFields(sensorId, SeverityRank(a.severity), a.Path().GetOr(""), a.Line().GetOr(U32_MAX), CodeAndMessage(a),
                SeverityRank(b.severity), b.Path().GetOr(""), b.Line().GetOr(U32_MAX), CodeAndMessage(b));
    KeyIsFields(sensorId, SeverityRank(a.severity), a.Path().GetOr(""), a.Line().GetOr(0), CodeAndMessage(a),
                SeverityRank(b.severity), b.Path().GetOr(""), b.Line().GetOr(0), CodeAndMessage(b));
    SplitKeys(sensorId, a);
    SplitKeys(sensorId, b);
  }

  lemma SplitKeys(sensorId: string, f: Finding)
    ensures FindingSortKey(sensorId, f) ==
            [Num(SeverityRank(f.severity)), Text(sensorId), Text(f.Path().GetOr("")), Num(f.Line().GetOr(U32_MAX))]
              + CodeAndMessage(f)
    ensures ConformKey(sensorId, f) ==
            [Num(SeverityRank(f.severity)), Text(sensorId), Text(f.Path().GetOr("")), Num(f.Line().GetOr(0))]
              + CodeAndMessage(f)
  {
  }

  ghost function ConformLeq(sensorId: string): (Finding, Finding) -> bool {
    (a: Finding, b: Finding) => KeyLeq(ConformKey(sensorId, a), ConformKey(sensorId, b))
  }

  /** Where a stable sort by the sort key puts `a`, first given, and `b` is right for the conformance key exactly
      when the pair is not mixed or is harmless. */
  lemma SortedPairConforms(sensorId: string, a: Finding, i: nat, b: Finding, j: nat)
    requires i < j
    ensures OrderedWith(ByFindingKey(sensorId), ConformLeq(sensorId), a, b) <==>
            && (OnlyFirstHasLine(a, b) ==> HarmlessPair(a, i, b, j))
            && (OnlyFirstHasLine(b, a) ==> HarmlessPair(b, j, a, i))
  {
    hide KeyLeq, StringLeq, FindingSortKey, ConformKey, CodeAndMessage;
    CompareBothKeys(sensorId, a, b);
    CompareBothKeys(sensorId, b, a);
    StringLeqTotal(a.Path().GetOr(""), b.Path().GetOr(""));
    KeyLeqTotal(CodeAndMessage(a), CodeAndMessage(b));
    if KeyLeq(CodeAndMessage(a), CodeAndMessage(b)) && KeyLeq(CodeAndMessage(b), CodeAndMessage(a)) {
      KeyLeqAntisymmetric(CodeAndMessage(a), CodeAndMessage(b));
    }
    if a.Path().GetOr("") != b.Path().GetOr("") && StringLeq(a.Path().GetOr(""), b.Path().GetOr(""))
       && StringLeq(b.Path().GetOr(""), a.Path().GetOr("")) {
      StringLeqAntisymmetric(a.Path().GetOr(""), b.Path().GetOr(""));
    }
    assert SeverityRank(a.severity) == SeverityRank(b.severity) ==> a.severity == b.severity;
    KeyLeqReflexive(CodeAndMessage(a));
  }

  /** Sorted findings pass the conformance check exactly when all mixed pairs are harmless. A missing line sorts
      as `u32::MAX` but is checked as 0, so sorting alone is not enough. */
  lemma SortFindingsConformsIff(sensorId: string, findings: seq<Finding>)
    ensures Sorted(ByConformKey(sensorId), SortFindings(sensorId, findings)) <==> MixedPairsHarmless(findings)
  {
    hide KeyLeq, ConformKey, FindingSortKey, HarmlessPair;
    var key, R := ByFindingKey(sensorId), ConformLeq(sensorId);
    SortedPairs(key, R, findings);
    var s := SortFindings(sensorId, findings);
    assert AllPairs(R, s) <==> Sorted(ByConformKey(sensorId), s) by {
      assert forall a, b :: R(a, b) == KeyLeq(ByConformKey(sensorId)(a), ByConformKey(sensorId)(b));
    }
    forall i, j | 0 <= i < j < |findings|
      ensures OrderedWith(key, R, findings[i], findings[j]) <==>
              && (OnlyFirstHasLine(findings[i], findings[j]) ==> HarmlessPair(findings[i], i, findings[j], j))
              && (OnlyFirstHasLine(findings[j], findings[i]) ==> HarmlessPair(findings[j], j, findings[i], i))
    {
      SortedPairConforms(sensorId, findings[i], i, findings[j], j);
    }
    PairwiseIffMixed(sensorId, findings);
  }

  lemma PairwiseIffMixed(sensorId: string, fs: seq<Finding>)
    requires forall i, j :: 0 <= i < j < |fs| ==>
      (OrderedWith(ByFindingKey(sensorId), ConformLeq(sensorId), fs[i], fs[j]) <==>
        && (OnlyFirstHasLine(fs[i], fs[j]) ==> HarmlessPair(fs[i], i, fs[j], j))
        && (OnlyFirstHasLine(fs[j], fs[i]) ==> HarmlessPair(fs[j], j, fs[i], i)))
    ensures AllSortedPairs(ByFindingKey(sensorId), ConformLeq(sensorId), fs) <==> MixedPairsHarmless(fs)
  {
    hide KeyLeq, ConformKey, FindingSortKey, HarmlessPair;
    if AllSortedPairs(ByFindingKey(sensorId), ConformLeq(sensorId), fs) {
      forall i, j | 0 <= i < |fs| && 0 <= j < |fs| && OnlyFirstHasLine(fs[i], fs[j])
        ensures HarmlessPair(fs[i], i, fs[j], j)
      {
        if i < j {
          assert OrderedWith(ByFindingKey(sensorId), ConformLeq(sensorId), fs[i], fs[j]);
        } else {
          assert OrderedWith(ByFindingKey(sensorId), ConformLeq(sensorId), fs[j], fs[i]);
        }
      }
    }
    if MixedPairsHarmless(fs) {
      forall i, j | 0 <= i < j < |fs|
        ensures OrderedWith(ByFindingKey(sensorId), ConformLeq(sensorId), fs[i], fs[j])
      {
      }
    }
  }

  /** When every finding has a line, sorted findings conform. */
  lemma SortFindingsConforms(sensorId: string, findings: seq<Finding>)
    requires forall f :: f in findings ==> f.Line().Some?
    ensures Sorted(ByConformKey(sensorId), SortFindings(sensorId, findings))
  {
    SortFindingsConformsIff(sensorId, findings);
    assert forall i :: 0 <= i < |findings| ==> findings[i] in findings;
  }

  /** Without that, they need not: line 5 sorts before a missing line but must be checked after it. */
  lemma MissingLineBreaksConformance(sensorId: string, f: Finding)
    ensures var a := f.(location := Some(Location(None, Some(5), None)));
            var b := f.(location := None);
            !Sorted(ByConformKey(sensorId), SortFindings(sensorId, [a, b]))
  {
    var a := f.(location := Some(Location(None, Some(5), None)));
    var b := f.(location := None);
    SortFindingsConformsIff(sensorId, [a, b]);
    assert OnlyFirstHasLine([a, b][0], [a, b][1]) && !HarmlessPair([a, b][0], 0, [a, b][1], 1);
  }

  // ---- The aggregate report ----

  predicate PresenceFault(s: SensorSummary) {
    s.missingPolicyApplied.Some? && s.presence != Missing
  }

  /** The rows that claim a missing-policy was applied although the receipt was not missing, each once and in order. */
  method CheckPresenceSemantics(sensors: seq<SensorSummary>) returns (violations: seq<nat>)
    ensures Increasing(violations)
    ensures forall i :: i in violations <==> 0 <= i < |sensors| && PresenceFault(sensors[i])
    ensures violations == [] <==> forall s :: s in sensors ==> !PresenceFault(s)
  {
    violations := [];
    for i := 0 to |sensors|
      invariant Increasing(violations) && forall n :: 0 <= n < |violations| ==> violations[n] < i
      invariant forall k :: k in violations <==> 0 <= k < i && PresenceFault(sensors[k])
    {
      if PresenceFault(sensors[i]) {
        violations := violations + [i];
      }
    }
    assert violations != [] ==> violations[0] in violations;
  }

  predicate IsTokenChar(c: char) {
    'a' <= c <= 'z' || '0' <= c <= '9' || c == '_'
  }

  predicate IsValidReasonToken(s: string) {
    s != "" && forall i :: 0 <= i < |s| ==> IsTokenChar(s[i])
  }

  datatype TokenViolation = InVerdict(index: nat) | InSensor(sensor: nat, index: nat) | InCapability(name: string)

  predicate TokenFault(report: CockpitReport, v: TokenViolation) {
    match v
    case InVerdict(i) => i < |report.verdict.reasons| && !IsValidReasonToken(report.verdict.reasons[i])
    case InSensor(s, i) =>
      && s < |report.sensors| && i < |report.sensors[s].verdict.reasons|
      && !IsValidReasonToken(report.sensors[s].verdict.reasons[i])
    case InCapability(name) =>
      && name in report.run.capabilities && report.run.capabilities[name].reason.Some?
      && !IsValidReasonToken(report.run.capabilities[name].reason.value)
  }

  predicate TokensValid(reasons: seq<string>) {
    forall r :: r in reasons ==> IsValidReasonToken(r)
  }

  predicate CapabilityTokensValid(run: RunInfo) {
    forall n :: n in run.capabilities && run.capabilities[n].reason.Some? ==>
      IsValidReasonToken(run.capabilities[n].reason.value)
  }

  predicate ReportTokensValid(report: CockpitReport) {
    && TokensValid(report.verdict.reasons)
    && (forall s :: s in report.sensors ==> TokensValid(s.verdict.reasons))
    && CapabilityTokensValid(report.run)
  }

  /** The order of reporting: verdict, then rows, then capabilities by name. */
  predicate ReportedBefore(v: TokenViolation, w: TokenViolation) {
    match (v, w)
    case (InVerdict(i), InVerdict(j)) => i < j
    case (InVerdict(_), _) => true
    case (InSensor(s, i), InSensor(t, j)) => s < t || (s == t && i < j)
    case (InSensor(_, _), InCapability(_)) => true
    case (InCapability(m), InCapability(n)) => StringLeq(m, n) && m != n
    case _ => false
  }

  ghost predicate InReportingOrder(vs: seq<TokenViolation>) {
    forall i, j :: 0 <= i < j < |vs| ==> ReportedBefore(vs[i], vs[j])
  }

  lemma ReportNext(vs: seq<TokenViolation>, v: TokenViolation)
    requires InReportingOrder(vs) && forall w :: w in vs ==> ReportedBefore(w, v)
    ensures InReportingOrder(vs + [v])
  {
  }

  /** Appends the malformed reason tokens of the rows. */
  method AddSensorFaults(report: CockpitReport, before: seq<TokenViolation>) returns (violations: seq<TokenViolation>)
    requires InReportingOrder(before) && forall v :: v in before <==> TokenFault(report, v) && v.InVerdict?
    ensures InReportingOrder(violations)
    ensures forall v :: v in violations <==> TokenFault(report, v) && !v.InCapability?
  {
    hide IsValidReasonToken, ReportedBefore, InReportingOrder, StringLeq;
    violations := before;
    for si := 0 to |report.sensors|
      invariant InReportingOrder(violations)
      invariant forall v :: v in violations <==>
        TokenFault(report, v) && (v.InVerdict? || (v.InSensor? && v.sensor < si))
    {
      var reasons := report.sensors[si].verdict.reasons;
      for ri := 0 to |reasons|
        invariant InReportingOrder(violations)
        invariant forall v :: v in violations <==>
          TokenFault(report, v)
          && (v.InVerdict? || (v.InSensor? && (v.sensor < si || (v.sensor == si && v.index < ri))))
      {
        if !IsValidReasonToken(reasons[ri]) {
          EarlierInSensor(violations, si, ri);
          violations := violations + [InSensor(si, ri)];
        }
      }
    }
  }

  /** Appends the malformed reason tokens of the capabilities, walked by name. */
  method AddCapabilityFaults(report: CockpitReport, before: seq<TokenViolation>)
    returns (violations: seq<TokenViolation>)
    requires InReportingOrder(before) && forall v :: v in before <==> TokenFault(report, v) && !v.InCapability?
    ensures InReportingOrder(violations) && forall v :: v in violations <==> TokenFault(report, v)
  {
    hide IsValidReasonToken, ReportedBefore, InReportingOrder, StringLeq;
    violations := before;
    var names := OrderedSet.AscendingKeys(report.run.capabilities.Keys);
    for i := 0 to |names|
      invariant InReportingOrder(violations)
      invariant forall v :: v in violations <==> TokenFault(report, v) && (v.InCapability? ==> v.name in names[..i])
    {
      var name := names[i];
      assert names[..i + 1] == names[..i] + [name];
      assert name in names && name in report.run.capabilities;
      var reason := report.run.capabilities[name].reason;
      if reason.Some? && !IsValidReasonToken(reason.value) {
        EarlierCapability(violations, names, i);
        violations := violations + [InCapability(name)];
      }
    }
    assert names[..|names|] == names;
  }

  /** Reports exactly the malformed reason tokens of the report, each once and in order. */
  method CheckCockpitReasonTokens(report: CockpitReport) returns (violations: seq<TokenViolation>)
    ensures InReportingOrder(violations) && forall v :: v in violations <==> TokenFault(report, v)
    ensures violations == [] <==> ReportTokensValid(report)
  {
    hide IsValidReasonToken, ReportedBefore, InReportingOrder, StringLeq;
    violations := [];
    NothingReported();
    for i := 0 to |report.verdict.reasons|
      invariant InReportingOrder(violations)
      invariant forall v :: v in violations <==> TokenFault(report, v) && v.InVerdict? && v.index < i
    {
      if !IsValidReasonToken(report.verdict.reasons[i]) {
        EarlierInVerdict(violations, i);
        violations := violations + [InVerdict(i)];
      }
    }
    violations := AddSensorFaults(report, violations);
    violations := AddCapabilityFaults(report, violations);
    NoFaultIffValid(report);
    assert violations != [] ==> violations[0] in violations;
  }

  lemma NothingReported()
    ensures InReportingOrder([])
  {
  }

  lemma EarlierInVerdict(vs: seq<TokenViolation>, i: nat)
    requires InReportingOrder(vs) && forall w :: w in vs ==> w.InVerdict? && w.index < i
    ensures InReportingOrder(vs + [InVerdict(i)])
  {
    ReportNext(vs, InVerdict(i));
  }

  lemma EarlierInSensor(vs: seq<TokenViolation>, s: nat, i: nat)
    requires InReportingOrder(vs)
    requires forall w :: w in vs ==> w.InVerdict? || (w.InSensor? && (w.sensor < s || (w.sensor == s && w.index < i)))
    ensures InReportingOrder(vs + [InSensor(s, i)])
  {
    ReportNext(vs, InSensor(s, i));
  }

  lemma EarlierCapability(vs: seq<TokenViolation>, names: seq<string>, i: nat)
    requires InReportingOrder(vs) && OrderedSet.StrictlyAscending(names) && i < |names|
    requires forall w :: w in vs && w.InCapability? ==> w.name in names[..i]
    ensures InReportingOrder(vs + [InCapability(names[i])])
  {
    hide StringLeq;
    forall w | w in vs
      ensures ReportedBefore(w, InCapability(names[i]))
    {
      if w.InCapability? {
        var k :| 0 <= k < i && names[..i][k] == w.name;
        assert names[k] == w.name;
      }
    }
    ReportNext(vs, InCapability(names[i]));
  }

  lemma NoFaultIffValid(report: CockpitReport)
    ensures (forall v :: !TokenFault(report, v)) <==> ReportTokensValid(report)
  {
    hide IsValidReasonToken;
    if forall v :: !TokenFault(report, v) {
      forall r | r in report.verdict.reasons
        ensures IsValidReasonToken(r)
      {
        var i :| 0 <= i < |report.verdict.reasons| && report.verdict.reasons[i] == r;
        assert !TokenFault(report, InVerdict(i));
      }
      forall s, r | s in report.sensors && r in s.verdict.reasons
        ensures IsValidReasonToken(r)
      {
        var si :| 0 <= si < |report.sensors| && report.sensors[si] == s;
        var i :| 0 <= i < |s.verdict.reasons| && s.verdict.reasons[i] == r;
        assert !TokenFault(report, InSensor(si, i));
      }
      forall n | n in report.run.capabilities && report.run.capabilities[n].reason.Some?
        ensures IsValidReasonToken(report.run.capabilities[n].reason.value)
      {
        assert !TokenFault(report, InCapability(n));
      }
    }
  }

  /** The sensor id format the conformance check names agrees with the program's own test, whose three
      extra conditions are implied. */
  lemma SensorIdFormat(id: string)
    ensures IsValidSensorId(id) <==>
            id != "" && forall i :: 0 <= i < |id| ==> IsAsciiAlphanumeric(id[i]) || id[i] == '_' || id[i] == '-'
  {
  }
}
