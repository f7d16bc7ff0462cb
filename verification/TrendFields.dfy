/** What a trend lists, spelled out on the fields of the two reports. */
module TrendFields {
  import opened Types
  import opened Trend
  import OrderedSet

  /** The entry describes the highlight. */
  predicate Describes(e: TrendFinding, h: Highlight) {
    && e.sensorId == h.sensorId && e.code == h.finding.code && e.message == h.finding.message
    && e.severity == h.finding.severity && e.fingerprint == h.finding.fingerprint
    && (match h.finding.location
        case None => e.path == None && e.line == None
        case Some(Location(path, line, _)) => e.path == path && e.line == line)
  }

  /** With a fingerprint, a highlight of the same fingerprint; without, one of the same sensor, code, path and line,
      where a missing path counts as empty and a missing line as 0. */
  ghost predicate HasPartner(h: Highlight, others: seq<Highlight>) {
    match h.finding.fingerprint
    case Some(fp) => exists o :: o in others && o.finding.fingerprint == Some(fp)
    case None => exists o :: o in others && SamePlace(h, o)
  }

  predicate SamePlace(h: Highlight, o: Highlight) {
    && h.sensorId == o.sensorId && h.finding.code == o.finding.code
    && PathText(h.finding.location) == PathText(o.finding.location)
    && LineNumber(h.finding.location) == LineNumber(o.finding.location)
  }

  function PathText(location: Option<Location>): string {
    match location
    case Some(Location(Some(path), _, _)) => path
    case _ => ""
  }

  function LineNumber(location: Option<Location>): u32 {
    match location
    case Some(Location(_, Some(line), _)) => line
    case _ => 0
  }

  lemma PartnerIff(h: Highlight, others: seq<Highlight>)
    ensures Matched(others, h) <==> HasPartner(h, others)
  {
    forall o
      ensures FindingToKey(o) == FindingToKey(h) <==> SamePlace(h, o)
    {
    }
  }

  lemma EntryDescribes(h: Highlight)
    ensures Describes(HighlightToTrendFinding(h), h)
  {
  }

  /** `at` gives the highlight each entry describes: ascending, so in highlight order, and exactly those without a
      partner. */
  ghost predicate ListsPartnerless(entries: seq<TrendFinding>, hs: seq<Highlight>, others: seq<Highlight>,
                                   at: seq<nat>)
  {
    && |at| == |entries|
    && (forall k :: 0 <= k < |at| ==> at[k] < |hs| && Describes(entries[k], hs[at[k]]))
    && (forall k, l :: 0 <= k < l < |at| ==> at[k] < at[l])
    && (forall i :: 0 <= i < |hs| ==> (i in at <==> !HasPartner(hs[i], others)))
  }

  /** A further highlight with a partner is not listed ... */
  lemma PartnerNotListed(entries: seq<TrendFinding>, hs: seq<Highlight>, others: seq<Highlight>, at: seq<nat>,
                         h: Highlight)
    requires ListsPartnerless(entries, hs, others, at) && HasPartner(h, others)
    ensures ListsPartnerless(entries, hs + [h], others, at)
  {
    hide HasPartner, Describes;
    forall i | 0 <= i < |hs + [h]|
      ensures i in at <==> !HasPartner((hs + [h])[i], others)
    {
      if i in at {
        var k :| 0 <= k < |at| && at[k] == i;
      }
    }
  }

  /** ... and one without is listed last. */
  lemma PartnerlessListed(entries: seq<TrendFinding>, hs: seq<Highlight>, others: seq<Highlight>, at: seq<nat>,
                          h: Highlight, e: TrendFinding)
    requires ListsPartnerless(entries, hs, others, at) && !HasPartner(h, others) && Describes(e, h)
    ensures ListsPartnerless(entries + [e], hs + [h], others, at + [|hs|])
  {
    hide HasPartner, Describes;
    var longer := at + [|hs|];
    forall i | 0 <= i < |hs + [h]|
      ensures i in longer <==> !HasPartner((hs + [h])[i], others)
    {
      assert i in longer <==> i in at || i == |hs|;
      assert i < |hs| ==> (hs + [h])[i] == hs[i];
    }
  }

  lemma {:induction false} UnmatchedLists(hs: seq<Highlight>, others: seq<Highlight>) returns (at: seq<nat>)
    ensures ListsPartnerless(Unmatched(hs, others), hs, others, at)
  {
    hide Matched, HasPartner, HighlightToTrendFinding, Describes, ListsPartnerless;
    if hs == [] {
      at := [];
      NothingListed(others);
    } else {
      var n := |hs| - 1;
      at := UnmatchedLists(hs[..n], others);
      PartnerIff(hs[n], others);
      EntryDescribes(hs[n]);
      assert hs == hs[..n] + [hs[n]];
      if HasPartner(hs[n], others) {
        assert Unmatched(hs, others) == Unmatched(hs[..n], others);
        PartnerNotListed(Unmatched(hs[..n], others), hs[..n], others, at, hs[n]);
      } else {
        PartnerlessListed(Unmatched(hs[..n], others), hs[..n], others, at, hs[n], HighlightToTrendFinding(hs[n]));
        at := at + [n];
      }
    }
  }

  lemma NothingListed(others: seq<Highlight>)
    ensures ListsPartnerless([], [], others, [])
  {
  }

  /** New findings describe the highlights of the current report without a partner in the baseline, fixed findings those
      of the baseline without a partner in the current report, each once and in highlight order. */
  lemma TrendLists(t: TrendDelta, baseline: CockpitReport, current: CockpitReport)
    returns (newAt: seq<nat>, fixedAt: seq<nat>)
    requires IsTrend(t, baseline, current)
    ensures ListsPartnerless(t.newFindings, current.highlights, baseline.highlights, newAt)
    ensures ListsPartnerless(t.fixedFindings, baseline.highlights, current.highlights, fixedAt)
  {
    hide ListsPartnerless, Unmatched;
    newAt := UnmatchedLists(current.highlights, baseline.highlights);
    fixedAt := UnmatchedLists(baseline.highlights, current.highlights);
  }

  /** The rest of a trend: the change of status, if any, the differences of the counts, and the sensors that came and
      went. */
  lemma TrendRest(t: TrendDelta, baseline: CockpitReport, current: CockpitReport)
    requires IsTrend(t, baseline, current)
    ensures var b, c := baseline.verdict, current.verdict;
            && (t.verdictChange.None? <==> b.status == c.status)
            && (t.verdictChange.Some? ==>
                t.verdictChange.value.before == b.status && t.verdictChange.value.after == c.status)
            && (b.counts.info <= I64_MAX && c.counts.info <= I64_MAX ==>
                t.countDeltas.info == c.counts.info - b.counts.info)
            && (b.counts.warn <= I64_MAX && c.counts.warn <= I64_MAX ==>
                t.countDeltas.warn == c.counts.warn - b.counts.warn)
            && (b.counts.error <= I64_MAX && c.counts.error <= I64_MAX ==>
                t.countDeltas.error == c.counts.error - b.counts.error)
    ensures forall id :: id in t.sensorsAdded <==>
              (exists s :: s in current.sensors && s.id == id) && !(exists s :: s in baseline.sensors && s.id == id)
    ensures forall id :: id in t.sensorsRemoved <==>
              (exists s :: s in baseline.sensors && s.id == id) && !(exists s :: s in current.sensors && s.id == id)
    ensures OrderedSet.StrictlyAscending(t.sensorsAdded) && OrderedSet.StrictlyAscending(t.sensorsRemoved)
  {
    hide CountDelta, Unmatched, OrderedSet.StrictlyAscending;
    DeltaExactIff(current.verdict.counts.info, baseline.verdict.counts.info);
    DeltaExactIff(current.verdict.counts.warn, baseline.verdict.counts.warn);
    DeltaExactIff(current.verdict.counts.error, baseline.verdict.counts.error);
  }
}
