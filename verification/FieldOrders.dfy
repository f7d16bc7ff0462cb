/** The orders the program sorts by, spelled out on the fields of what is sorted. */
module FieldOrders {
  import opened Types
  import opened SortKeys
  import opened StableSort
  import opened Findings
  import opened Highlights
  import opened Buildfix
  import Conform
  import Render

  // ---- Fields ----

  /** Errors before warnings before infos. */
  predicate NoLessSevere(a: Severity, b: Severity) {
    a == Error || b == Info || (a == Severity.Warn && b == Severity.Warn)
  }

  /** Safe before guarded before unsafe. */
  predicate NoLessSafe(a: SafetyLevel, b: SafetyLevel) {
    a == Safe || b == Unsafe || (a == Guarded && b == Guarded)
  }

  function PathOr(f: Finding, default: string): string {
    match f.location
    case Some(Location(Some(path), _, _)) => path
    case _ => default
  }

  function LineOr(f: Finding, default: u32): u32 {
    match f.location
    case Some(Location(_, Some(line), _)) => line
    case _ => default
  }

  predicate HasPath(f: Finding) {
    f.location.Some? && f.location.value.path.Some?
  }

  predicate HasLine(f: Finding) {
    f.location.Some? && f.location.value.line.Some?
  }

  /** Code, then message. */
  predicate TextsInOrder(a: Finding, b: Finding) {
    StringLeq(a.code, b.code) && (a.code == b.code ==> StringLeq(a.message, b.message))
  }

  /** Path, then line, then code and message; no path counts as the empty one, no line as `noLine`. */
  predicate PlacesInOrder(a: Finding, b: Finding, noLine: u32) {
    var p, q, m, n := PathOr(a, ""), PathOr(b, ""), LineOr(a, noLine), LineOr(b, noLine);
    StringLeq(p, q) && (p == q ==> m <= n && (m == n ==> TextsInOrder(a, b)))
  }

  predicate FindingsInOrder(a: Finding, b: Finding, noLine: u32) {
    NoLessSevere(a.severity, b.severity) && (a.severity == b.severity ==> PlacesInOrder(a, b, noLine))
  }

  predicate Marked(blocking: Blocking, id: string) {
    id in blocking && blocking[id] == true
  }

  /** Severity, then blocking sensors first, then sensor, then place. */
  predicate HighlightsInOrder(blocking: Blocking, a: Highlight, b: Highlight) {
    && NoLessSevere(a.finding.severity, b.finding.severity)
    && (a.finding.severity == b.finding.severity ==>
        && (Marked(blocking, b.sensorId) ==> Marked(blocking, a.sensorId))
        && (Marked(blocking, a.sensorId) == Marked(blocking, b.sensorId) ==>
            && StringLeq(a.sensorId, b.sensorId)
            && (a.sensorId == b.sensorId ==> PlacesInOrder(a.finding, b.finding, U32_MAX))))
  }

  // ---- Strings ----

  ghost predicate SmallerAt(a: string, b: string, k: nat) {
    k < |a| && k < |b| && a[..k] == b[..k] && a[k] < b[k]
  }

  lemma SmallerTail(a: string, b: string, k: nat)
    requires a != "" && b != "" && a[0] == b[0]
    ensures SmallerAt(a[1..], b[1..], k) <==> SmallerAt(a, b, k + 1)
    ensures !SmallerAt(a, b, 0)
  {
    if k < |a| - 1 && k < |b| - 1 {
      assert a[..k + 1] == [a[0]] + a[1..][..k] && b[..k + 1] == [b[0]] + b[1..][..k];
      assert a[..k + 1][1..] == a[1..][..k] && b[..k + 1][1..] == b[1..][..k];
    }
  }

  lemma SmallerHead(a: string, b: string, k: nat)
    requires a != "" && b != "" && a[0] != b[0]
    ensures SmallerAt(a, b, k) <==> k == 0 && a[0] < b[0]
  {
    if 0 < k <= |a| && k <= |b| {
      assert a[..k][0] == a[0] && b[..k][0] == b[0];
    }
  }

  /** Strings are compared at the first place where they differ; a beginning of a string comes before it. */
  lemma {:induction false} StringOrder(a: string, b: string)
    ensures StringLeq(a, b) <==> a <= b || exists k: nat :: SmallerAt(a, b, k)
  {
    hide SmallerAt;
    if a == "" || b == "" {
      NoneSmaller(a, b);
    } else if a[0] == b[0] {
      StringOrder(a[1..], b[1..]);
      assert a == [a[0]] + a[1..] && b == [b[0]] + b[1..];
      forall k: nat
        ensures SmallerAt(a[1..], b[1..], k) <==> SmallerAt(a, b, k + 1)
        ensures !SmallerAt(a, b, 0)
      {
        SmallerTail(a, b, k);
      }
      if k: nat :| SmallerAt(a, b, k) {
        SmallerTail(a, b, 0);
        var m: nat := k - 1;
        assert SmallerAt(a[1..], b[1..], m);
      }
    } else {
      forall k: nat
        ensures SmallerAt(a, b, k) <==> k == 0 && a[0] < b[0]
      {
        SmallerHead(a, b, k);
      }
      assert SmallerAt(a, b, 0) <==> a[0] < b[0];
    }
  }

  lemma NoneSmaller(a: string, b: string)
    requires a == "" || b == ""
    ensures forall k: nat :: !SmallerAt(a, b, k)
  {
  }

  // ---- Keys ----

  lemma TextsLeq(a: Finding, b: Finding)
    ensures KeyLeq([Text(a.code), Text(a.message)], [Text(b.code), Text(b.message)]) <==> TextsInOrder(a, b)
  {
    hide StringLeq;
    ConsLeq(Text(a.code), [Text(a.message)], Text(b.code), [Text(b.message)]);
    ConsLeq(Text(a.message), [], Text(b.message), []);
  }

  lemma PlacesLeq(a: Finding, b: Finding, noLine: u32)
    ensures KeyLeq([Text(PathOr(a, "")), Num(LineOr(a, noLine)), Text(a.code), Text(a.message)],
                   [Text(PathOr(b, "")), Num(LineOr(b, noLine)), Text(b.code), Text(b.message)]) <==>
            PlacesInOrder(a, b, noLine)
  {
    hide KeyLeq, StringLeq, TextsInOrder, PathOr, LineOr;
    TextsLeq(a, b);
    var ta, tb := [Text(a.code), Text(a.message)], [Text(b.code), Text(b.message)];
    var la, lb := Num(LineOr(a, noLine)), Num(LineOr(b, noLine));
    ConsLeq(la, ta, lb, tb);
    ConsLeq(Text(PathOr(a, "")), [la] + ta, Text(PathOr(b, "")), [lb] + tb);
    assert [Text(PathOr(a, ""))] + ([la] + ta) ==
           [Text(PathOr(a, "")), Num(LineOr(a, noLine)), Text(a.code), Text(a.message)];
    assert [Text(PathOr(b, ""))] + ([lb] + tb) ==
           [Text(PathOr(b, "")), Num(LineOr(b, noLine)), Text(b.code), Text(b.message)];
  }

  lemma SeverityOrder(a: Severity, b: Severity)
    ensures PartLeq(Num(SeverityRank(a)), Num(SeverityRank(b))) <==> NoLessSevere(a, b)
    ensures Num(SeverityRank(a)) == Num(SeverityRank(b)) <==> a == b
  {
  }

  lemma FindingKeys(sensorId: string, f: Finding)
    ensures FindingSortKey(sensorId, f) ==
            [Num(SeverityRank(f.severity)), Text(sensorId)]
            + [Text(PathOr(f, "")), Num(LineOr(f, U32_MAX)), Text(f.code), Text(f.message)]
    ensures Conform.ConformKey(sensorId, f) ==
            [Num(SeverityRank(f.severity)), Text(sensorId)]
            + [Text(PathOr(f, "")), Num(LineOr(f, 0)), Text(f.code), Text(f.message)]
  {
  }

  lemma FindingLeq(sensorId: string, a: Finding, b: Finding, noLine: u32)
    ensures KeyLeq([Num(SeverityRank(a.severity)), Text(sensorId)]
                   + [Text(PathOr(a, "")), Num(LineOr(a, noLine)), Text(a.code), Text(a.message)],
                   [Num(SeverityRank(b.severity)), Text(sensorId)]
                   + [Text(PathOr(b, "")), Num(LineOr(b, noLine)), Text(b.code), Text(b.message)]) <==>
            FindingsInOrder(a, b, noLine)
  {
    hide KeyLeq, PartLeq, NoLessSevere, PlacesInOrder, PathOr, LineOr, SeverityRank;
    var pa := [Text(PathOr(a, "")), Num(LineOr(a, noLine)), Text(a.code), Text(a.message)];
    var pb := [Text(PathOr(b, "")), Num(LineOr(b, noLine)), Text(b.code), Text(b.message)];
    var ra, rb := Num(SeverityRank(a.severity)), Num(SeverityRank(b.severity));
    PlacesLeq(a, b, noLine);
    SeverityOrder(a.severity, b.severity);
    SameTextLeq(sensorId);
    ConsLeq(Text(sensorId), pa, Text(sensorId), pb);
    ConsLeq(ra, [Text(sensorId)] + pa, rb, [Text(sensorId)] + pb);
    assert [ra, Text(sensorId)] + pa == [ra] + ([Text(sensorId)] + pa);
    assert [rb, Text(sensorId)] + pb == [rb] + ([Text(sensorId)] + pb);
  }

  lemma SameTextLeq(s: string)
    ensures PartLeq(Text(s), Text(s))
  {
    StringLeqReflexive(s);
  }

  /** Sorted findings: by severity, path, line, code and message, a missing line last. */
  lemma SortedFindings(sensorId: string, findings: seq<Finding>)
    ensures var r := SortFindings(sensorId, findings);
            forall i, j :: 0 <= i < j < |r| ==> FindingsInOrder(r[i], r[j], U32_MAX)
  {
    hide KeyLeq, FindingSortKey, Conform.ConformKey, FindingsInOrder, SortBy;
    var r := SortFindings(sensorId, findings);
    SortByCorrect(ByFindingKey(sensorId), findings);
    forall i, j | 0 <= i < j < |r|
      ensures FindingsInOrder(r[i], r[j], U32_MAX)
    {
      assert KeyLeq(ByFindingKey(sensorId)(r[i]), ByFindingKey(sensorId)(r[j]));
      FindingKeys(sensorId, r[i]);
      FindingKeys(sensorId, r[j]);
      FindingLeq(sensorId, r[i], r[j], U32_MAX);
    }
  }

  /** What the ordering check asks for: the same order, but a missing line first. */
  lemma ConformingFindings(sensorId: string, findings: seq<Finding>)
    ensures Sorted(Conform.ByConformKey(sensorId), findings) <==>
            forall i, j :: 0 <= i < j < |findings| ==> FindingsInOrder(findings[i], findings[j], 0)
  {
    hide KeyLeq, FindingSortKey, Conform.ConformKey, FindingsInOrder;
    var key := Conform.ByConformKey(sensorId);
    forall i, j | 0 <= i < j < |findings|
      ensures KeyLeq(key(findings[i]), key(findings[j])) <==> FindingsInOrder(findings[i], findings[j], 0)
    {
      FindingKeys(sensorId, findings[i]);
      FindingKeys(sensorId, findings[j]);
      FindingLeq(sensorId, findings[i], findings[j], 0);
    }
  }

  // ---- Highlights ----

  function MarkPart(blocking: Blocking, h: Highlight): Part {
    if Marked(blocking, h.sensorId) then Num(0) else Num(1)
  }

  lemma HighlightKeyIs(blocking: Blocking, h: Highlight)
    ensures HighlightKey(blocking, h) ==
            [Num(SeverityRank(h.finding.severity)), MarkPart(blocking, h), Text(h.sensorId)]
            + [Text(PathOr(h.finding, "")), Num(LineOr(h.finding, U32_MAX)), Text(h.finding.code),
               Text(h.finding.message)]
  {
  }

  lemma HighlightLeq(blocking: Blocking, a: Highlight, b: Highlight)
    ensures KeyLeq(HighlightKey(blocking, a), HighlightKey(blocking, b)) <==> HighlightsInOrder(blocking, a, b)
  {
    hide KeyLeq, HighlightKey, StringLeq, PlacesInOrder, PathOr, LineOr, SeverityRank, NoLessSevere, Marked;
    var f, g := a.finding, b.finding;
    var pa := [Text(PathOr(f, "")), Num(LineOr(f, U32_MAX)), Text(f.code), Text(f.message)];
    var pb := [Text(PathOr(g, "")), Num(LineOr(g, U32_MAX)), Text(g.code), Text(g.message)];
    var ra, rb := Num(SeverityRank(f.severity)), Num(SeverityRank(g.severity));
    var ma, mb := MarkPart(blocking, a), MarkPart(blocking, b);
    HighlightKeyIs(blocking, a);
    HighlightKeyIs(blocking, b);
    PlacesLeq(f, g, U32_MAX);
    SeverityOrder(f.severity, g.severity);
    ConsLeq(Text(a.sensorId), pa, Text(b.sensorId), pb);
    ConsLeq(ma, [Text(a.sensorId)] + pa, mb, [Text(b.sensorId)] + pb);
    ConsLeq(ra, [ma] + ([Text(a.sensorId)] + pa), rb, [mb] + ([Text(b.sensorId)] + pb));
    assert [ra, ma, Text(a.sensorId)] + pa == [ra] + ([ma] + ([Text(a.sensorId)] + pa));
    assert [rb, mb, Text(b.sensorId)] + pb == [rb] + ([mb] + ([Text(b.sensorId)] + pb));
  }

  /** Selected highlights: by severity, then blocking sensors first, then sensor, path, line, code and message. */
  lemma SelectedInOrder(hash: Fingerprint.Hash, blocking: Blocking, max: nat, candidates: seq<Highlight>)
    ensures var r := Select(hash, blocking, max, candidates);
            forall i, j :: 0 <= i < j < |r| ==> HighlightsInOrder(blocking, r[i], r[j])
  {
    hide KeyLeq, HighlightKey, HighlightsInOrder, Select;
    var r := Select(hash, blocking, max, candidates);
    SelectIsTopK(hash, blocking, max, candidates);
    forall i, j | 0 <= i < j < |r|
      ensures HighlightsInOrder(blocking, r[i], r[j])
    {
      assert KeyLeq(ByHighlightKey(blocking)(r[i]), ByHighlightKey(blocking)(r[j]));
      HighlightLeq(blocking, r[i], r[j]);
    }
  }

  /** Nothing the cap drops would have come before anything it keeps. */
  lemma DroppedInOrder(hash: Fingerprint.Hash, blocking: Blocking, max: nat, candidates: seq<Highlight>)
    ensures var r := Select(hash, blocking, max, candidates);
            forall kept, dropped :: kept in r && dropped in Dedup(hash, candidates) && dropped !in r ==>
              HighlightsInOrder(blocking, kept, dropped)
  {
    hide KeyLeq, HighlightKey, HighlightsInOrder, Select, Dedup;
    var r := Select(hash, blocking, max, candidates);
    SelectIsTopK(hash, blocking, max, candidates);
    forall kept, dropped | kept in r && dropped in Dedup(hash, candidates) && dropped !in r
      ensures HighlightsInOrder(blocking, kept, dropped)
    {
      assert KeyLeq(ByHighlightKey(blocking)(kept), ByHighlightKey(blocking)(dropped));
      HighlightLeq(blocking, kept, dropped);
    }
  }

  /** Among highlights of one severity blocking sensors come first: in the list, and under the cap. */
  lemma BlockingSensorsFirst(hash: Fingerprint.Hash, blocking: Blocking, max: nat, candidates: seq<Highlight>)
    ensures var r := Select(hash, blocking, max, candidates);
            && (forall i, j :: 0 <= i < j < |r| && r[i].finding.severity == r[j].finding.severity
                  && r[j].sensorId in blocking && blocking[r[j].sensorId]
                  ==> r[i].sensorId in blocking && blocking[r[i].sensorId])
            && (forall kept, dropped :: kept in r && dropped in Dedup(hash, candidates) && dropped !in r
                  && kept.finding.severity == dropped.finding.severity
                  && dropped.sensorId in blocking && blocking[dropped.sensorId]
                  ==> kept.sensorId in blocking && blocking[kept.sensorId])
  {
    hide Select, Dedup, StringLeq, PlacesInOrder, NoLessSevere;
    SelectedInOrder(hash, blocking, max, candidates);
    DroppedInOrder(hash, blocking, max, candidates);
  }

  // ---- Annotations ----

  /** No path before any path, no line before any line. */
  predicate AnnotationPlacesInOrder(a: Finding, b: Finding) {
    && (HasPath(a) ==> HasPath(b) && StringLeq(PathOr(a, ""), PathOr(b, "")))
    && (HasPath(a) == HasPath(b) && PathOr(a, "") == PathOr(b, "") ==>
        && (HasLine(a) ==> HasLine(b) && LineOr(a, 0) <= LineOr(b, 0))
        && (HasLine(a) == HasLine(b) && LineOr(a, 0) == LineOr(b, 0) ==> TextsInOrder(a, b)))
  }

  predicate AnnotationsInOrder(blocking: Blocking, a: Highlight, b: Highlight) {
    && NoLessSevere(a.finding.severity, b.finding.severity)
    && (a.finding.severity == b.finding.severity ==>
        && (Marked(blocking, b.sensorId) ==> Marked(blocking, a.sensorId))
        && (Marked(blocking, a.sensorId) == Marked(blocking, b.sensorId) ==>
            && StringLeq(a.sensorId, b.sensorId)
            && (a.sensorId == b.sensorId ==> AnnotationPlacesInOrder(a.finding, b.finding))))
  }

  function PathPartOf(f: Finding): Part {
    if HasPath(f) then Text(PathOr(f, "")) else Absent
  }

  function LinePartOf(f: Finding): Part {
    if HasLine(f) then Num(LineOr(f, 0)) else Absent
  }

  lemma AnnotationKeyIs(blocking: Blocking, h: Highlight)
    ensures Render.AnnotationKey(blocking, h) ==
            [Num(SeverityRank(h.finding.severity)), MarkPart(blocking, h), Text(h.sensorId)]
            + [PathPartOf(h.finding), LinePartOf(h.finding), Text(h.finding.code), Text(h.finding.message)]
  {
  }

  lemma AnnotationPlacesLeq(a: Finding, b: Finding)
    ensures KeyLeq([PathPartOf(a), LinePartOf(a), Text(a.code), Text(a.message)],
                   [PathPartOf(b), LinePartOf(b), Text(b.code), Text(b.message)]) <==>
            AnnotationPlacesInOrder(a, b)
  {
    hide KeyLeq, StringLeq, TextsInOrder, PathOr, LineOr;
    TextsLeq(a, b);
    var ta, tb := [Text(a.code), Text(a.message)], [Text(b.code), Text(b.message)];
    ConsLeq(LinePartOf(a), ta, LinePartOf(b), tb);
    ConsLeq(PathPartOf(a), [LinePartOf(a)] + ta, PathPartOf(b), [LinePartOf(b)] + tb);
    assert [PathPartOf(a)] + ([LinePartOf(a)] + ta) == [PathPartOf(a), LinePartOf(a), Text(a.code), Text(a.message)];
    assert [PathPartOf(b)] + ([LinePartOf(b)] + tb) == [PathPartOf(b), LinePartOf(b), Text(b.code), Text(b.message)];
    NoPathIsEmpty(a);
    NoPathIsEmpty(b);
  }

  lemma NoPathIsEmpty(f: Finding)
    ensures !HasPath(f) ==> PathOr(f, "") == ""
    ensures !HasLine(f) ==> LineOr(f, 0) == 0
  {
  }

  /** The renderer's order of annotations. */
  lemma AnnotationsSorted(blocking: Blocking, hs: seq<Highlight>)
    ensures var r := SortBy(Render.ByAnnotationKey(blocking), hs);
            forall i, j :: 0 <= i < j < |r| ==> AnnotationsInOrder(blocking, r[i], r[j])
  {
    hide KeyLeq, Render.AnnotationKey, SortBy, AnnotationsInOrder;
    var key := Render.ByAnnotationKey(blocking);
    var r := SortBy(key, hs);
    SortByCorrect(key, hs);
    forall i, j | 0 <= i < j < |r|
      ensures AnnotationsInOrder(blocking, r[i], r[j])
    {
      assert KeyLeq(key(r[i]), key(r[j]));
      AnnotationLeq(blocking, r[i], r[j]);
    }
  }

  lemma AnnotationLeq(blocking: Blocking, a: Highlight, b: Highlight)
    ensures KeyLeq(Render.AnnotationKey(blocking, a), Render.AnnotationKey(blocking, b)) <==>
            AnnotationsInOrder(blocking, a, b)
  {
    hide KeyLeq, Render.AnnotationKey, StringLeq, AnnotationPlacesInOrder, PathPartOf, LinePartOf, SeverityRank,
         NoLessSevere, Marked;
    var f, g := a.finding, b.finding;
    var pa := [PathPartOf(f), LinePartOf(f), Text(f.code), Text(f.message)];
    var pb := [PathPartOf(g), LinePartOf(g), Text(g.code), Text(g.message)];
    var ra, rb := Num(SeverityRank(f.severity)), Num(SeverityRank(g.severity));
    var ma, mb := MarkPart(blocking, a), MarkPart(blocking, b);
    AnnotationKeyIs(blocking, a);
    AnnotationKeyIs(blocking, b);
    AnnotationPlacesLeq(f, g);
    SeverityOrder(f.severity, g.severity);
    ConsLeq(Text(a.sensorId), pa, Text(b.sensorId), pb);
    ConsLeq(ma, [Text(a.sensorId)] + pa, mb, [Text(b.sensorId)] + pb);
    ConsLeq(ra, [ma] + ([Text(a.sensorId)] + pa), rb, [mb] + ([Text(b.sensorId)] + pb));
    assert [ra, ma, Text(a.sensorId)] + pa == [ra] + ([ma] + ([Text(a.sensorId)] + pa));
    assert [rb, mb, Text(b.sensorId)] + pb == [rb] + ([mb] + ([Text(b.sensorId)] + pb));
  }

  // ---- Fixes ----

  predicate FixesInOrder(a: FixSummary, b: FixSummary) {
    && NoLessSafe(a.safety, b.safety)
    && (a.safety == b.safety ==>
        && StringLeq(a.sensorId, b.sensorId)
        && (a.sensorId == b.sensorId ==> StringLeq(a.fixId, b.fixId)))
  }

  /** The fixes of a plan: safe ones first, then by sensor and fix id. */
  lemma PlanInOrder(sensorId: string, plan: BuildfixPlan, hs: seq<Highlight>)
    ensures var r := MatchedPlan(sensorId, plan, hs);
            forall i, j :: 0 <= i < j < |r| ==> FixesInOrder(r[i], r[j])
  {
    hide KeyLeq, MatchedPlan, FixesInOrder, FixKey;
    var r := MatchedPlan(sensorId, plan, hs);
    PlanResult(sensorId, plan, hs);
    forall i, j | 0 <= i < j < |r|
      ensures FixesInOrder(r[i], r[j])
    {
      assert KeyLeq(BY_FIX_KEY(r[i]), BY_FIX_KEY(r[j]));
      FixLeq(r[i], r[j]);
    }
  }

  lemma FixLeq(a: FixSummary, b: FixSummary)
    ensures KeyLeq(FixKey(a), FixKey(b)) <==> FixesInOrder(a, b)
  {
    hide KeyLeq, StringLeq;
    var ra, rb := Num(SafetyLevelRank(a.safety)), Num(SafetyLevelRank(b.safety));
    KeyLeqReflexive([]);
    ConsLeq(Text(a.fixId), [], Text(b.fixId), []);
    ConsLeq(Text(a.sensorId), [Text(a.fixId)], Text(b.sensorId), [Text(b.fixId)]);
    ConsLeq(ra, [Text(a.sensorId), Text(a.fixId)], rb, [Text(b.sensorId), Text(b.fixId)]);
    assert [Text(a.fixId)] + [] == [Text(a.fixId)] && [Text(b.fixId)] + [] == [Text(b.fixId)];
    assert [Text(a.sensorId)] + [Text(a.fixId)] == [Text(a.sensorId), Text(a.fixId)];
    assert [Text(b.sensorId)] + [Text(b.fixId)] == [Text(b.sensorId), Text(b.fixId)];
    assert FixKey(a) == [ra] + [Text(a.sensorId), Text(a.fixId)];
    assert FixKey(b) == [rb] + [Text(b.sensorId), Text(b.fixId)];
  }

  /** What is selected to apply: the fixes up to the level, and with the match gate only matched ones. */
  lemma SelectedToApply(fixes: seq<FixSummary>, max: SafetyLevel, requireMatched: bool)
    ensures forall f :: f in SelectAutoApplyFixes(fixes, max, requireMatched) <==>
              f in fixes && NoLessSafe(f.safety, max) && !(requireMatched && f.unmatched)
  {
    hide SelectAutoApplyFixes;
    SelectMembers(fixes, max, requireMatched);
  }
}
