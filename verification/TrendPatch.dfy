/** For reports whose highlights carry distinct fingerprints, as selected highlights do, a trend is a patch
    from one set of fingerprints to the other. */
module TrendPatch {
  import opened Types
  import opened Trend
  import opened Highlights

  ghost function FingerprintSet(hs: seq<Highlight>): set<Option<string>> {
    set h | h in hs :: h.finding.fingerprint
  }

  ghost function TrendFingerprints(fs: seq<TrendFinding>): set<Option<string>> {
    set f | f in fs :: f.fingerprint
  }

  lemma MatchedByFingerprint(others: seq<Highlight>, h: Highlight)
    requires h.finding.fingerprint.Some?
    ensures Matched(others, h) <==> h.finding.fingerprint in FingerprintSet(others)
  {
  }

  /** Unmatched findings are those whose fingerprint the other report lacks, each listed once. */
  lemma {:induction false} UnmatchedFingerprints(hs: seq<Highlight>, others: seq<Highlight>)
    requires FingerprintsPresent(hs) && FingerprintsDistinct(hs)
    ensures TrendFingerprints(Unmatched(hs, others)) == FingerprintSet(hs) - FingerprintSet(others)
    ensures |Unmatched(hs, others)| == |FingerprintSet(hs) - FingerprintSet(others)|
    ensures |hs| == |FingerprintSet(hs)|
  {
    hide Matched, FingerprintSet, TrendFingerprints, HighlightToTrendFinding;
    if hs == [] {
      EmptySets();
      assert FingerprintSet(hs) - FingerprintSet(others) == {};
    } else {
      var n := |hs| - 1;
      var front, h := hs[..n], hs[n];
      var fp := h.finding.fingerprint;
      assert h in hs && forall x :: x in front ==> x in hs;
      UnmatchedFingerprints(front, others);
      MatchedByFingerprint(others, h);
      TrendKeepsFingerprint(h);
      NewFingerprint(hs);
      var before, known := FingerprintSet(front), FingerprintSet(others);
      assert FingerprintSet(hs) == before + {fp};
      AddElement(before, known, fp);
      var shorter := Unmatched(front, others);
      if Matched(others, h) {
        assert Unmatched(hs, others) == shorter;
      } else {
        assert Unmatched(hs, others) == shorter + [HighlightToTrendFinding(h)];
        TrendFingerprintsSnoc(shorter, HighlightToTrendFinding(h));
      }
    }
  }

  lemma TrendKeepsFingerprint(h: Highlight)
    ensures HighlightToTrendFinding(h).fingerprint == h.finding.fingerprint
  {
  }

  lemma EmptySets()
    ensures FingerprintSet([]) == {} && TrendFingerprints([]) == {}
  {
  }

  lemma AddElement<T>(a: set<T>, known: set<T>, x: T)
    requires x !in a
    ensures a + {x} - known == if x in known then a - known else (a - known) + {x}
    ensures |a + {x} - known| == |a - known| + if x in known then 0 else 1
    ensures |a + {x}| == |a| + 1
  {
    assert a + {x} - known == if x in known then a - known else (a - known) + {x};
  }

  lemma NewFingerprint(hs: seq<Highlight>)
    requires hs != [] && FingerprintsDistinct(hs)
    ensures var n := |hs| - 1;
            && FingerprintSet(hs) == FingerprintSet(hs[..n]) + {hs[n].finding.fingerprint}
            && hs[n].finding.fingerprint !in FingerprintSet(hs[..n])
  {
    var n := |hs| - 1;
    assert hs == hs[..n] + [hs[n]];
    forall x | x in hs[..n]
      ensures x.finding.fingerprint != hs[n].finding.fingerprint
    {
      var i :| 0 <= i < n && hs[i] == x;
    }
  }

  lemma TrendFingerprintsSnoc(fs: seq<TrendFinding>, f: TrendFinding)
    ensures TrendFingerprints(fs + [f]) == TrendFingerprints(fs) + {f.fingerprint}
  {
    assert forall x :: x in fs + [f] <==> x in fs || x == f;
  }

  ghost predicate Patchable(r: CockpitReport) {
    FingerprintsPresent(r.highlights) && FingerprintsDistinct(r.highlights)
  }

  /** Taking the fixed fingerprints out of the baseline and adding the new ones gives the current report, and the
      two lists account exactly for the change in size. */
  lemma TrendIsPatch(t: TrendDelta, baseline: CockpitReport, current: CockpitReport)
    requires Patchable(baseline) && Patchable(current) && IsTrend(t, baseline, current)
    ensures var before, after := FingerprintSet(baseline.highlights), FingerprintSet(current.highlights);
            var fixed, added := TrendFingerprints(t.fixedFindings), TrendFingerprints(t.newFindings);
            && (before - fixed) + added == after
            && fixed <= before && added !! before
            && |t.newFindings| - |t.fixedFindings| == |current.highlights| - |baseline.highlights|
  {
    hide FingerprintSet, TrendFingerprints;
    UnmatchedFingerprints(current.highlights, baseline.highlights);
    UnmatchedFingerprints(baseline.highlights, current.highlights);
    DifferenceSizes(FingerprintSet(baseline.highlights), FingerprintSet(current.highlights));
  }

  lemma DifferenceSizes<T>(a: set<T>, b: set<T>)
    ensures |b - a| - |a - b| == |b| - |a|
  {
    assert a == (a - b) + (a * b) && b == (b - a) + (a * b);
  }

  /** Nothing is new over two steps that was not new in one of them. */
  lemma NewFindingsTriangle(ab: TrendDelta, bc: TrendDelta, ac: TrendDelta, a: CockpitReport, b: CockpitReport,
                            c: CockpitReport)
    requires Patchable(a) && Patchable(b) && Patchable(c)
    requires IsTrend(ab, a, b) && IsTrend(bc, b, c) && IsTrend(ac, a, c)
    ensures TrendFingerprints(ac.newFindings) <= TrendFingerprints(ab.newFindings) + TrendFingerprints(bc.newFindings)
  {
    UnmatchedFingerprints(b.highlights, a.highlights);
    UnmatchedFingerprints(c.highlights, b.highlights);
    UnmatchedFingerprints(c.highlights, a.highlights);
  }
}
