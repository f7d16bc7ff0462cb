/** Highlight selection: deduplicate by fingerprint, sort, cap (`select_highlights`). */
module Highlights {
  import opened Types
  import opened SortKeys
  import opened StableSort
  import opened Fingerprint
  import opened Findings

  /** The sensors known to block, as the ingest loop records them. */
  type Blocking = map<string, bool>

  predicate IsBlocking(blocking: Blocking, sensorId: string) {
    sensorId in blocking && blocking[sensorId]
  }

  function HighlightKey(blocking: Blocking, h: Highlight): Key {
    [Num(SeverityRank(h.finding.severity)), Num(if IsBlocking(blocking, h.sensorId) then 0 else 1), Text(h.sensorId),
     Text(h.finding.Path().GetOr("")), Num(h.finding.Line().GetOr(U32_MAX)), Text(h.finding.code),
     Text(h.finding.message)]
  }

  function ByHighlightKey(blocking: Blocking): Highlight -> Key {
    h => HighlightKey(blocking, h)
  }

  function EffectiveFingerprint(hash: Hash, h: Highlight): string {
    h.finding.fingerprint.GetOr(DeriveFingerprint(hash, h.sensorId, h.finding))
  }

  /** A kept candidate carries its effective fingerprint. */
  function Normalize(hash: Hash, h: Highlight): Highlight {
    h.(finding := h.finding.(fingerprint := Some(EffectiveFingerprint(hash, h))))
  }

  ghost predicate Seen(hash: Hash, candidates: seq<Highlight>, fp: string) {
    exists h :: h in candidates && EffectiveFingerprint(hash, h) == fp
  }

  /** Candidates whose effective fingerprint did not occur before, normalized, in order. */
  ghost function Dedup(hash: Hash, candidates: seq<Highlight>): seq<Highlight> {
    if candidates == [] then []
    else
      var front, h := candidates[..|candidates| - 1], candidates[|candidates| - 1];
      if Seen(hash, front, EffectiveFingerprint(hash, h)) then Dedup(hash, front)
      else Dedup(hash, front) + [Normalize(hash, h)]
  }

  ghost function Select(hash: Hash, blocking: Blocking, max: nat, candidates: seq<Highlight>): seq<Highlight> {
    Take(SortBy(ByHighlightKey(blocking), Dedup(hash, candidates)), max)
  }

  method SelectHighlights(hash: Hash, candidates: seq<Highlight>, cfg: CockpitConfig, blocking: Blocking)
    returns (selected: seq<Highlight>)
    ensures selected == Select(hash, blocking, cfg.policy.maxHighlights, candidates)
  {
    hide EffectiveFingerprint;
    var seen: set<string> := {};
    var deduped: seq<Highlight> := [];
    for i := 0 to |candidates|
      invariant forall fp :: fp in seen <==> Seen(hash, candidates[..i], fp)
      invariant deduped == Dedup(hash, candidates[..i])
    {
      var h := candidates[i];
      var front := candidates[..i];
      assert candidates[..i + 1] == front + [h] && (front + [h])[..i] == front;
      var fp := EffectiveFingerprint(hash, h);
      if fp !in seen {
        seen := seen + {fp};
        if h.finding.fingerprint.None? {
          h := h.(finding := h.finding.(fingerprint := Some(fp)));
        }
        assert h == Normalize(hash, candidates[i]) by { NormalizeKeepsGiven(hash, candidates[i]); }
        deduped := deduped + [h];
      }
      forall p
        ensures Seen(hash, front + [candidates[i]], p) <==> Seen(hash, front, p) || p == fp
      {
        SeenSnoc(hash, front, candidates[i], p);
      }
    }
    assert candidates[..|candidates|] == candidates;
    deduped := SortBy(ByHighlightKey(blocking), deduped);
    selected := Take(deduped, cfg.policy.maxHighlights);
  }

  lemma NormalizeKeepsGiven(hash: Hash, h: Highlight)
    ensures h.finding.fingerprint.Some? ==> Normalize(hash, h) == h
  {
  }

  lemma SeenSnoc(hash: Hash, front: seq<Highlight>, h: Highlight, fp: string)
    ensures Seen(hash, front + [h], fp) <==> Seen(hash, front, fp) || EffectiveFingerprint(hash, h) == fp
  {
    if EffectiveFingerprint(hash, h) == fp {
      assert h in front + [h];
    }
    if x :| x in front && EffectiveFingerprint(hash, x) == fp {
      assert x in front + [h];
    }
  }

  // ---- What deduplication keeps ----

  ghost predicate FingerprintsPresent(hs: seq<Highlight>) {
    forall h :: h in hs ==> h.finding.fingerprint.Some?
  }

  ghost predicate FingerprintsDistinct(hs: seq<Highlight>) {
    forall i, j :: 0 <= i < j < |hs| ==> hs[i].finding.fingerprint != hs[j].finding.fingerprint
  }

  /** `candidates[i]` is the first with its effective fingerprint. */
  ghost predicate IsFirst(hash: Hash, candidates: seq<Highlight>, i: nat) {
    i < |candidates| && !Seen(hash, candidates[..i], EffectiveFingerprint(hash, candidates[i]))
  }

  ghost function Fingerprints(hash: Hash, hs: seq<Highlight>): set<string> {
    set h | h in hs :: EffectiveFingerprint(hash, h)
  }

  lemma {:induction false} DedupFingerprints(hash: Hash, candidates: seq<Highlight>)
    ensures var d := Dedup(hash, candidates);
            && FingerprintsPresent(d) && FingerprintsDistinct(d)
            && (forall fp :: Seen(hash, d, fp) <==> Seen(hash, candidates, fp))
  {
    if candidates != [] {
      var n := |candidates| - 1;
      var front, h := candidates[..n], candidates[n];
      DedupFingerprints(hash, front);
      assert candidates == front + [h];
      forall fp
        ensures Seen(hash, Dedup(hash, candidates), fp) <==> Seen(hash, candidates, fp)
      {
        SeenSnoc(hash, front, h, fp);
        SeenSnoc(hash, Dedup(hash, front), Normalize(hash, h), fp);
      }
      var d := Dedup(hash, front);
      if !Seen(hash, front, EffectiveFingerprint(hash, h)) {
        forall i | 0 <= i < |d|
          ensures d[i].finding.fingerprint != Normalize(hash, h).finding.fingerprint
        {
          assert d[i] in d;
        }
      }
    }
  }

  /** Every kept candidate is the normalized first occurrence of its fingerprint, and every first occurrence
      is kept. */
  lemma {:induction false} DedupKeepsFirsts(hash: Hash, candidates: seq<Highlight>)
    ensures forall d :: d in Dedup(hash, candidates) <==>
      exists i :: 0 <= i < |candidates| && IsFirst(hash, candidates, i) && d == Normalize(hash, candidates[i])
  {
    hide EffectiveFingerprint, Normalize;
    if candidates != [] {
      var n := |candidates| - 1;
      var front, h := candidates[..n], candidates[n];
      DedupKeepsFirsts(hash, front);
      forall d
        ensures d in Dedup(hash, candidates) <==>
          exists i :: 0 <= i < |candidates| && IsFirst(hash, candidates, i) && d == Normalize(hash, candidates[i])
      {
        FirstsSnoc(hash, candidates, d);
        assert d in Dedup(hash, candidates) <==>
          d in Dedup(hash, front) || (d == Normalize(hash, h) && IsFirst(hash, candidates, n));
      }
    }
  }

  lemma FirstsSnoc(hash: Hash, candidates: seq<Highlight>, d: Highlight)
    requires candidates != []
    ensures var n := |candidates| - 1;
            var front := candidates[..n];
            (exists i ::
               0 <= i < |candidates| && IsFirst(hash, candidates, i) && d == Normalize(hash, candidates[i])) <==>
            || (exists i :: 0 <= i < |front| && IsFirst(hash, front, i) && d == Normalize(hash, front[i]))
            || (d == Normalize(hash, candidates[n]) && IsFirst(hash, candidates, n))
  {
    hide EffectiveFingerprint, Normalize, Seen;
    var n := |candidates| - 1;
    var front := candidates[..n];
    forall i | 0 <= i < n
      ensures IsFirst(hash, candidates, i) <==> IsFirst(hash, front, i)
    {
      assert candidates[..i] == front[..i] && candidates[i] == front[i];
    }
    if i :| 0 <= i < |front| && IsFirst(hash, front, i) && d == Normalize(hash, front[i]) {
      assert IsFirst(hash, candidates, i) && d == Normalize(hash, candidates[i]);
    }
    if i :| 0 <= i < n && IsFirst(hash, candidates, i) && d == Normalize(hash, candidates[i]) {
      assert IsFirst(hash, front, i) && d == Normalize(hash, front[i]);
    }
  }

  /** There are as many kept candidates as distinct effective fingerprints. */
  lemma {:induction false} DedupSize(hash: Hash, candidates: seq<Highlight>)
    ensures |Dedup(hash, candidates)| == |Fingerprints(hash, candidates)|
  {
    hide EffectiveFingerprint, Normalize;
    if candidates == [] {
      assert Fingerprints(hash, candidates) == {};
    } else {
      var n := |candidates| - 1;
      var front, h := candidates[..n], candidates[n];
      DedupSize(hash, front);
      assert candidates == front + [h];
      var fp := EffectiveFingerprint(hash, h);
      assert Fingerprints(hash, candidates) == Fingerprints(hash, front) + {fp};
      assert fp in Fingerprints(hash, front) <==> Seen(hash, front, fp);
    }
  }

  // ---- Exact top-k ----

  /** The selection is the `max` least first occurrences: fingerprints are present and distinct, the list is
      sorted by the seven-part key, it is as long as the budget and the distinct fingerprints allow, and
      nothing that was dropped would have come before anything that was kept. */
  lemma SelectIsTopK(hash: Hash, blocking: Blocking, max: nat, candidates: seq<Highlight>)
    ensures var r := Select(hash, blocking, max, candidates);
            var key := ByHighlightKey(blocking);
            && FingerprintsPresent(r) && FingerprintsDistinct(r) && Sorted(key, r)
            && |r| == Min(max, |Fingerprints(hash, candidates)|)
            && (forall h :: h in r ==> h in Dedup(hash, candidates))
            && (forall kept, dropped :: kept in r && dropped in Dedup(hash, candidates) && dropped !in r ==>
                  KeyLeq(key(kept), key(dropped)))
  {
    hide KeyLeq, HighlightKey, EffectiveFingerprint, Dedup, SortBy, Seen, Sorted, FingerprintsPresent,
         FingerprintsDistinct, Take;
    var d := Dedup(hash, candidates);
    var key := ByHighlightKey(blocking);
    DedupFingerprints(hash, candidates);
    DedupSize(hash, candidates);
    SortByCorrect(key, d);
    SortByMembers(key, d);
    SortKeepsDistinct(key, d);
    PresentAmong(SortBy(key, d), d);
    BeginningFacts(key, SortBy(key, d), max);
  }

  lemma PresentAmong(s: seq<Highlight>, d: seq<Highlight>)
    requires FingerprintsPresent(d) && forall h :: h in s <==> h in d
    ensures FingerprintsPresent(s)
  {
  }

  /** The beginning of a sorted list, against what is cut off. */
  lemma BeginningFacts(key: Highlight -> Key, s: seq<Highlight>, max: nat)
    requires Sorted(key, s) && FingerprintsPresent(s) && FingerprintsDistinct(s)
    ensures var r := Take(s, max);
            && FingerprintsPresent(r) && FingerprintsDistinct(r) && Sorted(key, r) && |r| == Min(max, |s|)
            && (forall h :: h in r ==> h in s)
            && (forall kept, dropped :: kept in r && dropped in s && dropped !in r ==> KeyLeq(key(kept), key(dropped)))
  {
    hide KeyLeq;
    var r := Take(s, max);
    assert forall h :: h in r ==> h in s;
    forall kept, dropped | kept in r && dropped in s && dropped !in r
      ensures KeyLeq(key(kept), key(dropped))
    {
      var i :| 0 <= i < |r| && r[i] == kept;
      var j :| 0 <= j < |s| && s[j] == dropped;
      assert j >= |r| && s[i] == kept;
    }
  }

  lemma SortKeepsDistinct(key: Highlight -> Key, d: seq<Highlight>)
    requires FingerprintsDistinct(d)
    ensures FingerprintsDistinct(SortBy(key, d))
  {
    var differ := (a: Highlight, b: Highlight) => a.finding.fingerprint != b.finding.fingerprint;
    SortedPairs(key, differ, d);
    assert AllPairs(differ, SortBy(key, d));
    forall i, j | 0 <= i < j < |SortBy(key, d)|
      ensures SortBy(key, d)[i].finding.fingerprint != SortBy(key, d)[j].finding.fingerprint
    {
      assert differ(SortBy(key, d)[i], SortBy(key, d)[j]);
    }
  }

  /** Severity comes first: while an error is dropped, only errors are shown. */
  lemma DroppedErrorMeansAllErrors(hash: Hash, blocking: Blocking, max: nat, candidates: seq<Highlight>,
                                   dropped: Highlight)
    requires dropped in Dedup(hash, candidates) && dropped !in Select(hash, blocking, max, candidates)
    requires dropped.finding.severity == Error
    ensures forall h :: h in Select(hash, blocking, max, candidates) ==> h.finding.severity == Error
  {
    SelectIsTopK(hash, blocking, max, candidates);
    var key := ByHighlightKey(blocking);
    forall h | h in Select(hash, blocking, max, candidates)
      ensures h.finding.severity == Error
    {
      assert KeyLeq(key(h), key(dropped));
      assert PartLeq(key(h)[0], key(dropped)[0]);
    }
  }

  // ---- Idempotence ----

  lemma NormalizePresent(hash: Hash, h: Highlight)
    requires h.finding.fingerprint.Some?
    ensures Normalize(hash, h) == h && EffectiveFingerprint(hash, h) == h.finding.fingerprint.value
  {
  }

  lemma {:induction false} DedupFixpoint(hash: Hash, hs: seq<Highlight>)
    requires FingerprintsPresent(hs) && FingerprintsDistinct(hs)
    ensures Dedup(hash, hs) == hs
  {
    hide EffectiveFingerprint, Normalize, Seen, FingerprintsPresent, FingerprintsDistinct;
    if hs != [] {
      var n := |hs| - 1;
      FrontKeepsFingerprints(hs);
      DedupFixpoint(hash, hs[..n]);
      LastIsNew(hash, hs);
      assert hs == hs[..n] + [hs[n]];
    }
  }

  lemma FrontKeepsFingerprints(hs: seq<Highlight>)
    requires hs != [] && FingerprintsPresent(hs) && FingerprintsDistinct(hs)
    ensures FingerprintsPresent(hs[..|hs| - 1]) && FingerprintsDistinct(hs[..|hs| - 1])
  {
    assert forall x :: x in hs[..|hs| - 1] ==> x in hs;
  }

  lemma LastIsNew(hash: Hash, hs: seq<Highlight>)
    requires hs != [] && FingerprintsPresent(hs) && FingerprintsDistinct(hs)
    ensures var n := |hs| - 1;
            Normalize(hash, hs[n]) == hs[n] && !Seen(hash, hs[..n], EffectiveFingerprint(hash, hs[n]))
  {
    hide EffectiveFingerprint, Normalize;
    var n := |hs| - 1;
    assert hs[n] in hs;
    NormalizePresent(hash, hs[n]);
    forall x | x in hs[..n]
      ensures EffectiveFingerprint(hash, x) != EffectiveFingerprint(hash, hs[n])
    {
      var i :| 0 <= i < n && hs[..n][i] == x;
      assert hs[i] == x && hs[i] in hs;
      NormalizePresent(hash, x);
    }
  }

  /** Selecting again from a selection changes nothing. */
  lemma SelectIdempotent(hash: Hash, blocking: Blocking, max: nat, candidates: seq<Highlight>)
    ensures var r := Select(hash, blocking, max, candidates);
            Select(hash, blocking, max, r) == r
  {
    var r := Select(hash, blocking, max, candidates);
    SelectIsTopK(hash, blocking, max, candidates);
    DedupFixpoint(hash, r);
    SortByFixpoint(ByHighlightKey(blocking), r);
  }
}
