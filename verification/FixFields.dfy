/** What matching a plan yields, spelled out on the fields of references and highlights. */
module FixFields {
  import opened Types
  import opened Buildfix
  import opened Ingest
  import opened AggregateFixes

  /** Reference and highlight are of this sensor, and where the reference sets a fingerprint or a code, the highlight
      has it. */
  predicate Agree(sensorId: string, fref: FindingRef, h: Highlight) {
    && fref.sensorId == sensorId && h.sensorId == sensorId
    && (match fref.fingerprint
        case None => true
        case Some(fp) => h.finding.fingerprint == Some(fp))
    && (match fref.code
        case None => true
        case Some(code) => h.finding.code == code)
  }

  predicate Tells(m: MatchedFinding, h: Highlight) {
    m.sensorId == h.sensorId && m.code == h.finding.code && m.fingerprint == h.finding.fingerprint
  }

  lemma AgreeIff(sensorId: string, fref: FindingRef, h: Highlight)
    ensures RefMatches(sensorId, fref, h) <==>
            && fref.sensorId == sensorId && h.sensorId == sensorId
            && (fref.fingerprint.None? || h.finding.fingerprint == fref.fingerprint)
            && (fref.code.None? || fref.code.value == h.finding.code)
    ensures RefMatches(sensorId, fref, h) <==> Agree(sensorId, fref, h)
    ensures Tells(MatchedOf(h), h)
  {
  }

  // ---- One reference ----

  /** `at` gives the highlight each entry tells: ascending, and exactly those that agree with the reference. */
  ghost predicate ListsAgreeing(entries: seq<MatchedFinding>, sensorId: string, fref: FindingRef, hs: seq<Highlight>,
                                at: seq<nat>)
  {
    && |at| == |entries|
    && (forall k :: 0 <= k < |at| ==> at[k] < |hs| && Tells(entries[k], hs[at[k]]))
    && (forall k, l :: 0 <= k < l < |at| ==> at[k] < at[l])
    && (forall j :: 0 <= j < |hs| ==> (j in at <==> Agree(sensorId, fref, hs[j])))
  }

  lemma AgreeingSnoc(entries: seq<MatchedFinding>, sensorId: string, fref: FindingRef, hs: seq<Highlight>, at: seq<nat>,
                     h: Highlight)
    requires ListsAgreeing(entries, sensorId, fref, hs, at)
    ensures !Agree(sensorId, fref, h) ==> ListsAgreeing(entries, sensorId, fref, hs + [h], at)
    ensures Agree(sensorId, fref, h) ==>
              ListsAgreeing(entries + [MatchedOf(h)], sensorId, fref, hs + [h], at + [|hs|])
  {
    hide Agree;
    var longer := at + [|hs|];
    assert forall j :: 0 <= j < |hs| ==> (hs + [h])[j] == hs[j];
    assert forall j :: j in longer <==> j in at || j == |hs|;
    assert |hs| !in at;
  }

  lemma {:induction false} RefMatchesAt(sensorId: string, fref: FindingRef, hs: seq<Highlight>) returns (at: seq<nat>)
    ensures ListsAgreeing(RefMatchList(sensorId, fref, hs), sensorId, fref, hs, at)
  {
    hide RefMatches, Agree, ListsAgreeing, MatchedOf;
    if hs == [] {
      at := [];
      assert ListsAgreeing([], sensorId, fref, [], []) by { NothingAgrees(sensorId, fref); }
    } else {
      var n := |hs| - 1;
      at := RefMatchesAt(sensorId, fref, hs[..n]);
      AgreeIff(sensorId, fref, hs[n]);
      AgreeingSnoc(RefMatchList(sensorId, fref, hs[..n]), sensorId, fref, hs[..n], at, hs[n]);
      assert hs == hs[..n] + [hs[n]];
      if Agree(sensorId, fref, hs[n]) {
        at := at + [n];
      } else {
        assert RefMatchList(sensorId, fref, hs[..n]) + [] == RefMatchList(sensorId, fref, hs[..n]);
      }
    }
  }

  lemma NothingAgrees(sensorId: string, fref: FindingRef)
    ensures ListsAgreeing([], sensorId, fref, [], [])
  {
  }

  // ---- One fix ----

  /** The matches are listed reference by reference: `parts[i]` are those of `refs[i]`. */
  ghost predicate ListsByReference(entries: seq<MatchedFinding>, sensorId: string, refs: seq<FindingRef>,
                                   hs: seq<Highlight>, parts: seq<seq<MatchedFinding>>)
  {
    && |parts| == |refs| && entries == Joined(parts)
    && forall i :: 0 <= i < |refs| ==> ListsAll(parts[i], sensorId, refs[i], hs)
  }

  /** The entries tell exactly the highlights that agree with the reference, in order. */
  ghost predicate ListsAll(entries: seq<MatchedFinding>, sensorId: string, fref: FindingRef, hs: seq<Highlight>) {
    exists at :: ListsAgreeing(entries, sensorId, fref, hs, at)
  }

  function Joined(parts: seq<seq<MatchedFinding>>): seq<MatchedFinding> {
    if parts == [] then [] else Joined(parts[..|parts| - 1]) + parts[|parts| - 1]
  }

  lemma RefMatchesAll(sensorId: string, fref: FindingRef, hs: seq<Highlight>)
    ensures ListsAll(RefMatchList(sensorId, fref, hs), sensorId, fref, hs)
  {
    var at := RefMatchesAt(sensorId, fref, hs);
  }

  lemma {:induction false} FixMatchesBy(sensorId: string, refs: seq<FindingRef>, hs: seq<Highlight>)
    returns (parts: seq<seq<MatchedFinding>>)
    ensures ListsByReference(FixMatchList(sensorId, refs, hs), sensorId, refs, hs, parts)
  {
    hide ListsAgreeing, RefMatchList, ListsAll;
    if refs == [] {
      parts := [];
    } else {
      var n := |refs| - 1;
      var front := FixMatchesBy(sensorId, refs[..n], hs);
      RefMatchesAll(sensorId, refs[n], hs);
      parts := front + [RefMatchList(sensorId, refs[n], hs)];
      assert parts[..|parts| - 1] == front && parts[|parts| - 1] == RefMatchList(sensorId, refs[n], hs);
      assert Joined(parts) == FixMatchList(sensorId, refs, hs);
      forall i | 0 <= i < |refs|
        ensures ListsAll(parts[i], sensorId, refs[i], hs)
      {
        assert i < n ==> refs[..n][i] == refs[i] && parts[i] == front[i];
      }
    }
  }

  /** The summary of a fix copies its fields and says what it is matched to; it is unmatched exactly if no reference of
      the fix and highlight agree on sensor, and on fingerprint and code where the reference sets them. */
  ghost predicate DescribesFix(s: FixSummary, sensorId: string, fix: Fix, hs: seq<Highlight>) {
    && s.fixId == fix.id && s.sensorId == sensorId && s.safety == fix.safety && s.description == fix.description
    && (s.unmatched <==>
        forall fref, h :: fref in fix.findingRefs && h in hs ==>
          !(&& fref.sensorId == sensorId && h.sensorId == sensorId
            && (fref.fingerprint.None? || h.finding.fingerprint == fref.fingerprint)
            && (fref.code.None? || fref.code.value == h.finding.code)))
    && exists parts :: ListsByReference(s.matchedFindings, sensorId, fix.findingRefs, hs, parts)
  }

  lemma SummaryDescribes(sensorId: string, fix: Fix, hs: seq<Highlight>)
    ensures DescribesFix(Summarized(sensorId, fix, hs), sensorId, fix, hs)
  {
    hide RefMatches, FixMatchList, ListsByReference;
    forall fref, h
      ensures RefMatches(sensorId, fref, h) <==>
              && fref.sensorId == sensorId && h.sensorId == sensorId
              && (fref.fingerprint.None? || h.finding.fingerprint == fref.fingerprint)
              && (fref.code.None? || fref.code.value == h.finding.code)
    {
      AgreeIff(sensorId, fref, h);
    }
    var parts := FixMatchesBy(sensorId, fix.findingRefs, hs);
  }

  /** A matched plan describes exactly the fixes of the plan; its totals count them. */
  lemma PlanDescribes(sensorId: string, plan: BuildfixPlan, hs: seq<Highlight>)
    ensures var r := SummaryFrom(MatchedPlan(sensorId, plan, hs));
            && |r.fixes| == r.totalFixes == |plan.fixes|
            && (forall s :: s in r.fixes ==> exists fix :: fix in plan.fixes && DescribesFix(s, sensorId, fix, hs))
            && (forall fix :: fix in plan.fixes ==> exists s :: s in r.fixes && DescribesFix(s, sensorId, fix, hs))
            && r.unmatchedCount == |UnmatchedAt(r.fixes)|
            && r.matchedCount + r.unmatchedCount == r.totalFixes
  {
    hide Summarized, MatchedPlan, DescribesFix;
    var fixes := MatchedPlan(sensorId, plan, hs);
    PlanResult(sensorId, plan, hs);
    UnmatchedCounted(fixes);
    CountsSplit(fixes);
    forall s | s in fixes
      ensures exists fix :: fix in plan.fixes && DescribesFix(s, sensorId, fix, hs)
    {
      var fix :| fix in plan.fixes && s == Summarized(sensorId, fix, hs);
      SummaryDescribes(sensorId, fix, hs);
    }
    forall fix | fix in plan.fixes
      ensures exists s :: s in fixes && DescribesFix(s, sensorId, fix, hs)
    {
      SummaryDescribes(sensorId, fix, hs);
      assert Summarized(sensorId, fix, hs) in fixes;
    }
  }

  /** Where unmatched fixes stand. */
  ghost function UnmatchedAt(fixes: seq<FixSummary>): set<nat> {
    set i: nat | i < |fixes| && fixes[i].unmatched
  }

  lemma UnmatchedAtSnoc(fixes: seq<FixSummary>, f: FixSummary)
    ensures UnmatchedAt(fixes + [f]) == UnmatchedAt(fixes) + if f.unmatched then {|fixes|} else {}
  {
  }

  lemma {:induction false} UnmatchedCountSnoc(fixes: seq<FixSummary>, f: FixSummary)
    ensures UnmatchedCount(fixes + [f]) == UnmatchedCount(fixes) + if f.unmatched then 1 else 0
  {
    if fixes == [] {
      assert [] + [f] == [f] && [f][1..] == [];
    } else {
      assert (fixes + [f])[1..] == fixes[1..] + [f];
      UnmatchedCountSnoc(fixes[1..], f);
    }
  }

  lemma {:induction false} UnmatchedCounted(fixes: seq<FixSummary>)
    ensures UnmatchedCount(fixes) == |UnmatchedAt(fixes)|
  {
    if fixes == [] {
      assert UnmatchedAt(fixes) == {};
    } else {
      var n := |fixes| - 1;
      assert fixes == fixes[..n] + [fixes[n]];
      UnmatchedCounted(fixes[..n]);
      UnmatchedCountSnoc(fixes[..n], fixes[n]);
      UnmatchedAtSnoc(fixes[..n], fixes[n]);
    }
  }

  /** The fixes of a run describe exactly the fixes of the plans of discovered sensors, against the report's highlights.
      */
  lemma RunDescribes(ports: Ports, req: Request, res: IngestResult, d: DiscoveredSensors)
    requires Run(ports, req) == Ok(res) && ports.discover == Ok(d)
    ensures var fixes, hs := FixesIn(res.report.buildfix), res.report.highlights;
            && (forall s :: s in fixes ==>
                  exists id, fix :: id in d.sensors && fix in PlannedFixes(ports, id) && DescribesFix(s, id, fix, hs))
            && (forall id, fix :: id in d.sensors && fix in PlannedFixes(ports, id) ==>
                  exists s :: s in fixes && DescribesFix(s, id, fix, hs))
            && (res.report.buildfix.Some? ==> res.report.buildfix.value.unmatchedCount == |UnmatchedAt(fixes)|)
  {
    hide Run, Summarized, DescribesFix, PlannedFixes, FixTotal, RefMatches;
    RunBuildfix(ports, req, res, d);
    UnmatchedCounted(FixesIn(res.report.buildfix));
    var fixes, hs := FixesIn(res.report.buildfix), res.report.highlights;
    forall s | s in fixes
      ensures exists id, fix :: id in d.sensors && fix in PlannedFixes(ports, id) && DescribesFix(s, id, fix, hs)
    {
      var id, fix :| id in d.sensors && fix in PlannedFixes(ports, id) && s == Summarized(id, fix, hs);
      SummaryDescribes(id, fix, hs);
    }
    forall id, fix | id in d.sensors && fix in PlannedFixes(ports, id)
      ensures exists s :: s in fixes && DescribesFix(s, id, fix, hs)
    {
      SummaryDescribes(id, fix, hs);
      assert Summarized(id, fix, hs) in fixes;
    }
  }
}
