/** Matching buildfix plans to surfaced findings, and selecting the fixes to apply. */
module Buildfix {
  import opened Types
  import opened SortKeys
  import opened StableSort

  /** The reference names this sensor, and agrees with the highlight on fingerprint and code where it sets them. */
  predicate RefMatches(sensorId: string, fref: FindingRef, h: Highlight) {
    && fref.sensorId == sensorId && h.sensorId == sensorId
    && (fref.fingerprint.Some? ==> h.finding.fingerprint == fref.fingerprint)
    && (fref.code.Some? ==> fref.code.value == h.finding.code)
  }

  ghost predicate FixMatches(sensorId: string, fix: Fix, highlights: seq<Highlight>) {
    exists fref, h :: fref in fix.findingRefs && h in highlights && RefMatches(sensorId, fref, h)
  }

  function MatchedOf(h: Highlight): MatchedFinding {
    MatchedFinding(h.sensorId, h.finding.code, h.finding.fingerprint)
  }

  /** Every highlight a reference matches, in highlight order. */
  ghost function RefMatchList(sensorId: string, fref: FindingRef, highlights: seq<Highlight>): seq<MatchedFinding> {
    if highlights == [] then []
    else
      var front, h := highlights[..|highlights| - 1], highlights[|highlights| - 1];
      RefMatchList(sensorId, fref, front) + if RefMatches(sensorId, fref, h) then [MatchedOf(h)] else []
  }

  ghost function FixMatchList(sensorId: string, refs: seq<FindingRef>,
                              highlights: seq<Highlight>): seq<MatchedFinding>
  {
    if refs == [] then []
    else FixMatchList(sensorId, refs[..|refs| - 1], highlights) + RefMatchList(sensorId, refs[|refs| - 1], highlights)
  }

  ghost function Summarized(sensorId: string, fix: Fix, highlights: seq<Highlight>): FixSummary {
    FixSummary(fix.id, sensorId, fix.safety, fix.description, FixMatchList(sensorId, fix.findingRefs, highlights),
               !FixMatches(sensorId, fix, highlights))
  }

  ghost function SummarizedAll(sensorId: string, fixes: seq<Fix>, highlights: seq<Highlight>): seq<FixSummary> {
    if fixes == [] then []
    else
      SummarizedAll(sensorId, fixes[..|fixes| - 1], highlights)
      + [Summarized(sensorId, fixes[|fixes| - 1], highlights)]
  }

  function FixKey(f: FixSummary): Key {
    [Num(SafetyLevelRank(f.safety)), Text(f.sensorId), Text(f.fixId)]
  }

  const BY_FIX_KEY: FixSummary -> Key := (f: FixSummary) => FixKey(f)

  function UnmatchedCount(fixes: seq<FixSummary>): nat {
    if fixes == [] then 0 else (if fixes[0].unmatched then 1 else 0) + UnmatchedCount(fixes[1..])
  }

  function MatchedCount(fixes: seq<FixSummary>): nat {
    if fixes == [] then 0 else (if fixes[0].unmatched then 0 else 1) + MatchedCount(fixes[1..])
  }

  lemma {:induction false} CountsSplit(fixes: seq<FixSummary>)
    ensures MatchedCount(fixes) + UnmatchedCount(fixes) == |fixes|
  {
    if fixes != [] {
      CountsSplit(fixes[1..]);
    }
  }

  /** A summary built from a list of fixes. */
  function SummaryFrom(fixes: seq<FixSummary>): BuildfixSummary {
    BuildfixSummary(fixes, |fixes|, MatchedCount(fixes), UnmatchedCount(fixes))
  }

  ghost function MatchedPlan(sensorId: string, plan: BuildfixPlan, highlights: seq<Highlight>): seq<FixSummary> {
    SortBy(BY_FIX_KEY, SummarizedAll(sensorId, plan.fixes, highlights))
  }

  /** The two inner loops, over one fix's references and the highlights. */
  method MatchFix(sensorId: string, fix: Fix, highlights: seq<Highlight>)
    returns (matchedFindings: seq<MatchedFinding>, anyMatched: bool)
    ensures matchedFindings == FixMatchList(sensorId, fix.findingRefs, highlights)
    ensures anyMatched <==> FixMatches(sensorId, fix, highlights)
  {
    hide FixMatches, MatchedOf, RefMatchList, FixMatchList;
    matchedFindings, anyMatched := [], false;
    NothingMatched(sensorId, highlights);
    for i := 0 to |fix.findingRefs|
      invariant matchedFindings == FixMatchList(sensorId, fix.findingRefs[..i], highlights)
      invariant anyMatched <==> matchedFindings != []
    {
      var fref := fix.findingRefs[i];
      FixMatchListSnoc(sensorId, fix.findingRefs, highlights, i);
      if fref.sensorId != sensorId {
        NoMatchElsewhere(sensorId, fref, highlights);
        continue;
      }
      ghost var before := matchedFindings;
      NoRefMatched(sensorId, fref, highlights);
      for k := 0 to |highlights|
        invariant matchedFindings == before + RefMatchList(sensorId, fref, highlights[..k])
        invariant anyMatched <==> matchedFindings != []
      {
        var h := highlights[k];
        RefMatchListSnoc(sensorId, fref, highlights, k);
        if h.sensorId != sensorId {
          continue;
        }
        var fpMatch := match fref.fingerprint
          case None => true
          case Some(fp) => h.finding.fingerprint == Some(fp);
        var codeMatch := match fref.code
          case None => true
          case Some(code) => code == h.finding.code;
        if fpMatch && codeMatch {
          matchedFindings := matchedFindings + [MatchedOf(h)];
          anyMatched := true;
        }
      }
      assert highlights[..|highlights|] == highlights;
    }
    assert fix.findingRefs[..|fix.findingRefs|] == fix.findingRefs;
    MatchesIffListed(sensorId, fix, highlights);
  }

  lemma NothingMatched(sensorId: string, highlights: seq<Highlight>)
    ensures forall refs: seq<FindingRef> :: FixMatchList(sensorId, refs[..0], highlights) == []
  {
  }

  lemma NoRefMatched(sensorId: string, fref: FindingRef, highlights: seq<Highlight>)
    ensures RefMatchList(sensorId, fref, highlights[..0]) == []
  {
  }

  lemma FixMatchListSnoc(sensorId: string, refs: seq<FindingRef>, highlights: seq<Highlight>, i: nat)
    requires i < |refs|
    ensures FixMatchList(sensorId, refs[..i + 1], highlights) ==
            FixMatchList(sensorId, refs[..i], highlights) + RefMatchList(sensorId, refs[i], highlights)
  {
    assert refs[..i + 1][..i] == refs[..i];
  }

  lemma RefMatchListSnoc(sensorId: string, fref: FindingRef, highlights: seq<Highlight>, k: nat)
    requires k < |highlights|
    ensures RefMatchList(sensorId, fref, highlights[..k + 1]) ==
            RefMatchList(sensorId, fref, highlights[..k])
            + if RefMatches(sensorId, fref, highlights[k]) then [MatchedOf(highlights[k])] else []
  {
    assert highlights[..k + 1][..k] == highlights[..k];
  }

  lemma MatchesIffListed(sensorId: string, fix: Fix, highlights: seq<Highlight>)
    ensures FixMatches(sensorId, fix, highlights) <==> FixMatchList(sensorId, fix.findingRefs, highlights) != []
  {
    FixMatchListNonempty(sensorId, fix.findingRefs, highlights);
  }

  lemma {:induction false} NoMatchElsewhere(sensorId: string, fref: FindingRef, highlights: seq<Highlight>)
    requires fref.sensorId != sensorId
    ensures RefMatchList(sensorId, fref, highlights) == []
  {
    if highlights != [] {
      NoMatchElsewhere(sensorId, fref, highlights[..|highlights| - 1]);
    }
  }

  method MatchBuildfixPlan(sensorId: string, plan: BuildfixPlan, highlights: seq<Highlight>)
    returns (summary: BuildfixSummary)
    ensures summary == SummaryFrom(MatchedPlan(sensorId, plan, highlights))
  {
    hide FixMatchList, FixMatches;
    var fixes: seq<FixSummary> := [];
    for i := 0 to |plan.fixes|
      invariant fixes == SummarizedAll(sensorId, plan.fixes[..i], highlights)
    {
      var fix := plan.fixes[i];
      assert plan.fixes[..i + 1][..i] == plan.fixes[..i];
      var matchedFindings, anyMatched := MatchFix(sensorId, fix, highlights);
      fixes := fixes + [FixSummary(fix.id, sensorId, fix.safety, fix.description, matchedFindings, !anyMatched)];
    }
    assert plan.fixes[..|plan.fixes|] == plan.fixes;
    fixes := SortBy(BY_FIX_KEY, fixes);
    var totalFixes := |fixes|;
    var unmatchedCount := UnmatchedCount(fixes);
    CountsSplit(fixes);
    var matchedCount := totalFixes - unmatchedCount;
    summary := BuildfixSummary(fixes, totalFixes, matchedCount, unmatchedCount);
  }

  /** Each fix of the plan appears in the result, and is marked unmatched exactly when no pair of one of its
      references and a highlight agrees on sensor, fingerprint and code. */
  lemma {:induction false} SummarizedMembers(sensorId: string, fixes: seq<Fix>, highlights: seq<Highlight>)
    ensures forall s :: s in SummarizedAll(sensorId, fixes, highlights) <==>
      exists fix :: fix in fixes && s == Summarized(sensorId, fix, highlights)
    ensures |SummarizedAll(sensorId, fixes, highlights)| == |fixes|
  {
    hide Summarized;
    if fixes != [] {
      var n := |fixes| - 1;
      SummarizedMembers(sensorId, fixes[..n], highlights);
      assert fixes == fixes[..n] + [fixes[n]];
      assert forall fix :: fix in fixes <==> fix in fixes[..n] || fix == fixes[n];
    }
  }

  lemma PlanResult(sensorId: string, plan: BuildfixPlan, highlights: seq<Highlight>)
    ensures var r := MatchedPlan(sensorId, plan, highlights);
            && Sorted(BY_FIX_KEY, r) && |r| == |plan.fixes|
            && (forall s :: s in r <==> exists fix :: fix in plan.fixes && s == Summarized(sensorId, fix, highlights))
            && SummaryFrom(r).matchedCount + SummaryFrom(r).unmatchedCount == SummaryFrom(r).totalFixes == |plan.fixes|
  {
    hide Summarized;
    var all := SummarizedAll(sensorId, plan.fixes, highlights);
    SummarizedMembers(sensorId, plan.fixes, highlights);
    SortByCorrect(BY_FIX_KEY, all);
    SortByMembers(BY_FIX_KEY, all);
    CountsSplit(MatchedPlan(sensorId, plan, highlights));
  }

  /** A fix is listed as unmatched exactly when its list of matched findings is empty. */
  lemma UnmatchedIffNoFindings(sensorId: string, fix: Fix, highlights: seq<Highlight>)
    ensures Summarized(sensorId, fix, highlights).unmatched <==>
            Summarized(sensorId, fix, highlights).matchedFindings == []
  {
    FixMatchListNonempty(sensorId, fix.findingRefs, highlights);
  }

  lemma {:induction false} RefMatchListNonempty(sensorId: string, fref: FindingRef, highlights: seq<Highlight>)
    ensures RefMatchList(sensorId, fref, highlights) != [] <==>
            exists h :: h in highlights && RefMatches(sensorId, fref, h)
  {
    if highlights != [] {
      var n := |highlights| - 1;
      RefMatchListNonempty(sensorId, fref, highlights[..n]);
      assert highlights == highlights[..n] + [highlights[n]];
      assert forall h :: h in highlights <==> h in highlights[..n] || h == highlights[n];
    }
  }

  lemma {:induction false} FixMatchListNonempty(sensorId: string, refs: seq<FindingRef>, highlights: seq<Highlight>)
    ensures FixMatchList(sensorId, refs, highlights) != [] <==>
            exists fref, h :: fref in refs && h in highlights && RefMatches(sensorId, fref, h)
  {
    if refs != [] {
      var n := |refs| - 1;
      FixMatchListNonempty(sensorId, refs[..n], highlights);
      RefMatchListNonempty(sensorId, refs[n], highlights);
      assert refs == refs[..n] + [refs[n]];
      assert forall r :: r in refs <==> r in refs[..n] || r == refs[n];
    }
  }

  /** Surfacing more highlights never turns a matched fix into an unmatched one. */
  lemma MatchingIsMonotone(sensorId: string, fix: Fix, few: seq<Highlight>, more: seq<Highlight>)
    requires forall h :: h in few ==> h in more
    ensures Summarized(sensorId, fix, more).unmatched ==> Summarized(sensorId, fix, few).unmatched
  {
  }

  // ---- Selecting fixes to apply ----

  function SelectAutoApplyFixes(fixes: seq<FixSummary>, max: SafetyLevel, requireMatched: bool): seq<FixSummary> {
    if fixes == [] then []
    else
      var rest := SelectAutoApplyFixes(fixes[1..], max, requireMatched);
      if SafetyLevelRank(fixes[0].safety) <= SafetyLevelRank(max) && (!requireMatched || !fixes[0].unmatched)
      then [fixes[0]] + rest else rest
  }

  ghost predicate SafetySorted(fixes: seq<FixSummary>) {
    forall i, j :: 0 <= i < j < |fixes| ==> SafetyLevelRank(fixes[i].safety) <= SafetyLevelRank(fixes[j].safety)
  }

  lemma {:induction false} SelectMembers(fixes: seq<FixSummary>, max: SafetyLevel, requireMatched: bool)
    ensures forall f :: f in SelectAutoApplyFixes(fixes, max, requireMatched) <==>
      f in fixes && SafetyLevelRank(f.safety) <= SafetyLevelRank(max) && (!requireMatched || !f.unmatched)
  {
    if fixes != [] {
      SelectMembers(fixes[1..], max, requireMatched);
      assert fixes == [fixes[0]] + fixes[1..];
    }
  }

  lemma {:induction false} SelectPrefix(fixes: seq<FixSummary>, max: SafetyLevel)
    requires SafetySorted(fixes)
    ensures SelectAutoApplyFixes(fixes, max, false) <= fixes
  {
    if fixes != [] {
      SelectPrefix(fixes[1..], max);
      if SafetyLevelRank(fixes[0].safety) > SafetyLevelRank(max) {
        SelectNothing(fixes, max);
      }
      assert fixes == [fixes[0]] + fixes[1..];
    }
  }

  lemma {:induction false} SelectNothing(fixes: seq<FixSummary>, max: SafetyLevel)
    requires forall f :: f in fixes ==> SafetyLevelRank(f.safety) > SafetyLevelRank(max)
    ensures SelectAutoApplyFixes(fixes, max, false) == []
  {
    if fixes != [] {
      assert fixes == [fixes[0]] + fixes[1..];
      SelectNothing(fixes[1..], max);
    }
  }

  lemma {:induction false} SelectAppend(a: seq<FixSummary>, b: seq<FixSummary>, max: SafetyLevel, requireMatched: bool)
    ensures SelectAutoApplyFixes(a + b, max, requireMatched) ==
            SelectAutoApplyFixes(a, max, requireMatched) + SelectAutoApplyFixes(b, max, requireMatched)
  {
    if a == [] {
      assert a + b == b;
    } else {
      assert (a + b)[1..] == a[1..] + b;
      SelectAppend(a[1..], b, max, requireMatched);
    }
  }

  lemma {:induction false} SelectAll(a: seq<FixSummary>, max: SafetyLevel)
    requires forall f :: f in a ==> SafetyLevelRank(f.safety) <= SafetyLevelRank(max)
    ensures SelectAutoApplyFixes(a, max, false) == a
  {
    if a != [] {
      assert a == [a[0]] + a[1..];
      SelectAll(a[1..], max);
    }
  }

  /** If the selection is an initial stretch, an unsafer fix never stands before a selected one. */
  lemma PrefixOrders(fixes: seq<FixSummary>, i: nat, j: nat)
    requires i < j < |fixes|
    requires SelectAutoApplyFixes(fixes, fixes[j].safety, false) <= fixes
    ensures SafetyLevelRank(fixes[i].safety) <= SafetyLevelRank(fixes[j].safety)
  {
    hide SelectAutoApplyFixes, SafetyLevelRank;
    var max := fixes[j].safety;
    var s := SelectAutoApplyFixes(fixes, max, false);
    SelectMembers(fixes, max, false);
    SplitAt(s, fixes);
    RestUnselected(s, fixes[|s|..], max);
    InBeginning(s, fixes, i, j);
  }

  lemma SplitAt<T>(s: seq<T>, whole: seq<T>)
    requires s <= whole
    ensures whole == s + whole[|s|..]
  {
  }

  lemma InBeginning(s: seq<FixSummary>, fixes: seq<FixSummary>, i: nat, j: nat)
    requires s <= fixes && i < j < |fixes|
    requires forall f :: f in fixes[|s|..] ==> SafetyLevelRank(f.safety) > SafetyLevelRank(fixes[j].safety)
    ensures fixes[i] in s
  {
    hide SafetyLevelRank;
    var tail := fixes[|s|..];
    assert forall k :: |s| <= k < |fixes| ==> fixes[k] == tail[k - |s|] && fixes[k] in tail;
    assert s[i] == fixes[i];
  }

  /** What stands behind a selected beginning is not selected. */
  lemma RestUnselected(s: seq<FixSummary>, tail: seq<FixSummary>, max: SafetyLevel)
    requires SelectAutoApplyFixes(s + tail, max, false) == s
    requires forall f :: f in s ==> SafetyLevelRank(f.safety) <= SafetyLevelRank(max)
    ensures forall f :: f in tail ==> SafetyLevelRank(f.safety) > SafetyLevelRank(max)
  {
    hide SelectAutoApplyFixes, SafetyLevelRank;
    SelectAppend(s, tail, max, false);
    SelectAll(s, max);
    assert SelectAutoApplyFixes(tail, max, false) == [];
    SelectMembers(tail, max, false);
  }

  /** For every safety level, what is selected without the match gate is an initial stretch of the list. */
  ghost predicate SelectsInitialStretch(fixes: seq<FixSummary>) {
    forall max :: SelectAutoApplyFixes(fixes, max, false) <= fixes
  }

  /** That is so exactly when the list is sorted by safety. */
  lemma SelectIsPrefixIff(fixes: seq<FixSummary>)
    ensures SelectsInitialStretch(fixes) <==> SafetySorted(fixes)
  {
    if SafetySorted(fixes) {
      forall max
        ensures SelectAutoApplyFixes(fixes, max, false) <= fixes
      {
        SelectPrefix(fixes, max);
      }
    }
    if SelectsInitialStretch(fixes) {
      forall i, j | 0 <= i < j < |fixes|
        ensures SafetyLevelRank(fixes[i].safety) <= SafetyLevelRank(fixes[j].safety)
      {
        PrefixOrders(fixes, i, j);
      }
    }
  }

  /** On a list sorted by safety a more permissive level only extends the selection. */
  lemma SelectGrows(fixes: seq<FixSummary>, max: SafetyLevel, larger: SafetyLevel)
    requires SafetySorted(fixes) && SafetyLevelRank(max) <= SafetyLevelRank(larger)
    ensures SelectAutoApplyFixes(fixes, max, false) <= SelectAutoApplyFixes(fixes, larger, false)
  {
    hide SelectAutoApplyFixes, SafetySorted, SafetyLevelRank;
    var s := SelectAutoApplyFixes(fixes, max, false);
    SelectPrefix(fixes, max);
    SelectMembers(fixes, max, false);
    assert fixes == s + fixes[|s|..];
    SelectAppend(s, fixes[|s|..], larger, false);
    SelectAll(s, larger);
  }

  /** The fixes matched from one plan are sorted by safety, so selecting from them takes an initial stretch
      that grows with the level. */
  lemma PlanSelection(sensorId: string, plan: BuildfixPlan, highlights: seq<Highlight>, max: SafetyLevel,
                      larger: SafetyLevel)
    requires SafetyLevelRank(max) <= SafetyLevelRank(larger)
    ensures var r := MatchedPlan(sensorId, plan, highlights);
            SelectAutoApplyFixes(r, max, false) <= SelectAutoApplyFixes(r, larger, false) <= r
  {
    var r := MatchedPlan(sensorId, plan, highlights);
    PlanResult(sensorId, plan, highlights);
    forall i, j | 0 <= i < j < |r|
      ensures SafetyLevelRank(r[i].safety) <= SafetyLevelRank(r[j].safety)
    {
      assert KeyLeq(BY_FIX_KEY(r[i]), BY_FIX_KEY(r[j]));
      assert PartLeq(FixKey(r[i])[0], FixKey(r[j])[0]);
    }
    SelectPrefix(r, larger);
    SelectGrows(r, max, larger);
  }
}
