/** When the selected highlights do not depend on the order in which candidates arrive. */
module SelectionOrder {
  import opened Types
  import opened SortKeys
  import opened StableSort
  import opened Fingerprint
  import opened Findings
  import opened Highlights

  /** The fingerprints that come before `k` whichever of their candidates is met first. */
  ghost function Ahead(hash: Hash, blocking: Blocking, cs: seq<Highlight>, k: Key): set<string> {
    set fp | fp in Fingerprints(hash, cs) && AllBelow(hash, blocking, cs, fp, k)
  }

  ghost predicate AllBelow(hash: Hash, blocking: Blocking, cs: seq<Highlight>, fp: string, k: Key) {
    forall c :: c in cs && EffectiveFingerprint(hash, c) == fp ==> !KeyLeq(k, HighlightKey(blocking, c))
  }

  /** The budget has room for the candidate in at least one arrival order. */
  ghost predicate CanShow(hash: Hash, blocking: Blocking, max: nat, cs: seq<Highlight>, a: Highlight) {
    |Ahead(hash, blocking, cs, HighlightKey(blocking, a))| < max
  }

  /** No candidate that can be shown shares its effective fingerprint or its sort key with another candidate, unless the
      two are the same highlight once their fingerprint is filled in. */
  ghost predicate Unambiguous(hash: Hash, blocking: Blocking, max: nat, cs: seq<Highlight>) {
    forall a, b :: a in cs && b in cs && CanShow(hash, blocking, max, cs, a)
      && (EffectiveFingerprint(hash, a) == EffectiveFingerprint(hash, b)
          || HighlightKey(blocking, a) == HighlightKey(blocking, b))
      ==> Normalize(hash, a) == Normalize(hash, b)
  }

  lemma NormalizeKeepsKey(hash: Hash, blocking: Blocking, h: Highlight)
    ensures HighlightKey(blocking, Normalize(hash, h)) == HighlightKey(blocking, h)
    ensures EffectiveFingerprint(hash, Normalize(hash, h)) == EffectiveFingerprint(hash, h)
  {
  }

  lemma FirstWith(hash: Hash, cs: seq<Highlight>, c: Highlight) returns (i: nat)
    requires c in cs
    ensures IsFirst(hash, cs, i) && EffectiveFingerprint(hash, cs[i]) == EffectiveFingerprint(hash, c)
  {
    hide EffectiveFingerprint;
    i :| 0 <= i < |cs| && cs[i] == c;
    while Seen(hash, cs[..i], EffectiveFingerprint(hash, c))
      invariant 0 <= i < |cs| && EffectiveFingerprint(hash, cs[i]) == EffectiveFingerprint(hash, c)
      decreases i
    {
      var x :| x in cs[..i] && EffectiveFingerprint(hash, x) == EffectiveFingerprint(hash, c);
      var j :| 0 <= j < i && cs[j] == x;
      i := j;
    }
  }

  lemma {:induction false} DistinctMultiset(hs: seq<Highlight>)
    requires FingerprintsDistinct(hs)
    ensures forall h :: multiset(hs)[h] == if h in hs then 1 else 0
  {
    if hs != [] {
      var t := hs[1..];
      assert hs == [hs[0]] + t;
      DistinctMultiset(t);
      assert hs[0] !in t;
    }
  }

  lemma SameFormsSameMultiset(ds: seq<Highlight>, es: seq<Highlight>)
    requires FingerprintsDistinct(ds) && FingerprintsDistinct(es)
    requires forall h :: h in ds <==> h in es
    ensures multiset(ds) == multiset(es)
  {
    DistinctMultiset(ds);
    DistinctMultiset(es);
    assert forall h :: multiset(ds)[h] == multiset(es)[h];
  }

  // ---- The condition suffices ----

  /** The selection before the cut. */
  ghost function Ranked(hash: Hash, blocking: Blocking, cs: seq<Highlight>): seq<Highlight> {
    SortBy(ByHighlightKey(blocking), Dedup(hash, cs))
  }

  lemma RankedFacts(hash: Hash, blocking: Blocking, cs: seq<Highlight>)
    ensures var s := Ranked(hash, blocking, cs);
            && Sorted(ByHighlightKey(blocking), s) && FingerprintsPresent(s) && FingerprintsDistinct(s)
            && (forall h :: h in s <==> h in Dedup(hash, cs))
  {
    hide HighlightKey, Dedup, KeyLeq, SortBy;
    var key := ByHighlightKey(blocking);
    DedupFingerprints(hash, cs);
    SortByCorrect(key, Dedup(hash, cs));
    SortByMembers(key, Dedup(hash, cs));
    SortKeepsDistinct(key, Dedup(hash, cs));
  }

  lemma DistinctCount(hash: Hash, hs: seq<Highlight>)
    requires FingerprintsPresent(hs) && FingerprintsDistinct(hs)
    ensures |Fingerprints(hash, hs)| == |hs|
  {
    DedupFixpoint(hash, hs);
    DedupSize(hash, hs);
  }

  lemma PrefixCount(hash: Hash, hs: seq<Highlight>, i: nat)
    requires FingerprintsPresent(hs) && FingerprintsDistinct(hs) && i <= |hs|
    ensures |Fingerprints(hash, hs[..i])| == i
  {
    assert forall h :: h in hs[..i] ==> h in hs;
    DistinctCount(hash, hs[..i]);
  }

  /** Every fingerprint ahead of an entry stands before it in the ranking. */
  lemma AheadStandsBefore(hash: Hash, blocking: Blocking, cs: seq<Highlight>, i: nat)
    requires i < |Ranked(hash, blocking, cs)|
    ensures var s := Ranked(hash, blocking, cs);
            Ahead(hash, blocking, cs, HighlightKey(blocking, s[i])) <= Fingerprints(hash, s[..i])
  {
    hide EffectiveFingerprint, Normalize, HighlightKey, Dedup, KeyLeq, Ranked;
    var s := Ranked(hash, blocking, cs);
    var k := HighlightKey(blocking, s[i]);
    RankedFacts(hash, blocking, cs);
    DedupKeepsFirsts(hash, cs);
    forall fp | fp in Ahead(hash, blocking, cs, k)
      ensures fp in Fingerprints(hash, s[..i])
    {
      var c :| c in cs && EffectiveFingerprint(hash, c) == fp;
      var m := FirstWith(hash, cs, c);
      var x := Normalize(hash, cs[m]);
      NormalizeKeepsKey(hash, blocking, cs[m]);
      assert x in s;
      var j :| 0 <= j < |s| && s[j] == x;
      assert !KeyLeq(k, HighlightKey(blocking, cs[m]));
      SmallerStandsBefore(ByHighlightKey(blocking), s, i, j);
      assert s[..i][j] == x;
    }
  }

  /** An entry within the budget is a candidate that can be shown. */
  lemma ShownCanShow(hash: Hash, blocking: Blocking, max: nat, cs: seq<Highlight>, i: nat) returns (c: Highlight)
    requires i < |Ranked(hash, blocking, cs)| && i < max
    ensures c in cs && Ranked(hash, blocking, cs)[i] == Normalize(hash, c) && CanShow(hash, blocking, max, cs, c)
  {
    hide EffectiveFingerprint, Normalize, HighlightKey, Dedup, KeyLeq, Ranked, Ahead;
    var s := Ranked(hash, blocking, cs);
    RankedFacts(hash, blocking, cs);
    DedupKeepsFirsts(hash, cs);
    assert s[i] in Dedup(hash, cs);
    var m :| 0 <= m < |cs| && IsFirst(hash, cs, m) && s[i] == Normalize(hash, cs[m]);
    c := cs[m];
    NormalizeKeepsKey(hash, blocking, c);
    AheadStandsBefore(hash, blocking, cs, i);
    PrefixCount(hash, s, i);
    SubsetSize(Ahead(hash, blocking, cs, HighlightKey(blocking, c)), Fingerprints(hash, s[..i]));
  }

  lemma SubsetSize<T>(a: set<T>, b: set<T>)
    requires a <= b
    ensures |a| <= |b|
  {
    assert b == a + (b - a);
  }

  /** Without ambiguity, a candidate that can be shown is shown: everything before the cut would be ahead of it. */
  lemma CanShowIsShown(hash: Hash, blocking: Blocking, max: nat, cs: seq<Highlight>, c: Highlight)
    requires Unambiguous(hash, blocking, max, cs) && c in cs && CanShow(hash, blocking, max, cs, c)
    ensures Normalize(hash, c) in Select(hash, blocking, max, cs)
  {
    hide EffectiveFingerprint, Normalize, HighlightKey, Dedup, KeyLeq, SortBy;
    var s, x := Ranked(hash, blocking, cs), Normalize(hash, c);
    RankedFacts(hash, blocking, cs);
    DedupKeepsFirsts(hash, cs);
    var m := FirstWith(hash, cs, c);
    assert Normalize(hash, cs[m]) == x;
    assert x in s;
    var i :| 0 <= i < |s| && s[i] == x;
    if max <= i {
      forall fp | fp in Fingerprints(hash, s[..max])
        ensures fp in Ahead(hash, blocking, cs, HighlightKey(blocking, c))
      {
        var y :| y in s[..max] && EffectiveFingerprint(hash, y) == fp;
        var j :| 0 <= j < max && s[j] == y;
        EarlierIsAhead(hash, blocking, max, cs, c, j, i);
      }
      PrefixCount(hash, s, max);
      SubsetSize(Fingerprints(hash, s[..max]), Ahead(hash, blocking, cs, HighlightKey(blocking, c)));
      assert false;
    }
    assert Take(s, max)[i] == x;
  }

  lemma EarlierIsAhead(hash: Hash, blocking: Blocking, max: nat, cs: seq<Highlight>, c: Highlight, j: nat, i: nat)
    requires Unambiguous(hash, blocking, max, cs) && c in cs
    requires j < i < |Ranked(hash, blocking, cs)| && j < max && Ranked(hash, blocking, cs)[i] == Normalize(hash, c)
    ensures var fp := EffectiveFingerprint(hash, Ranked(hash, blocking, cs)[j]);
            fp in Ahead(hash, blocking, cs, HighlightKey(blocking, c))
  {
    hide EffectiveFingerprint, Normalize, HighlightKey, Dedup, KeyLeq, Ranked;
    var s, k := Ranked(hash, blocking, cs), HighlightKey(blocking, c);
    RankedFacts(hash, blocking, cs);
    var y := ShownCanShow(hash, blocking, max, cs, j);
    NormalizeKeepsKey(hash, blocking, y);
    NormalizeKeepsKey(hash, blocking, c);
    assert KeyLeq(ByHighlightKey(blocking)(s[j]), ByHighlightKey(blocking)(s[i]));
    assert HighlightKey(blocking, y) == k ==> Normalize(hash, y) == Normalize(hash, c);
    DifferentForms(hash, s, j, i);
    forall z | z in cs && EffectiveFingerprint(hash, z) == EffectiveFingerprint(hash, s[j])
      ensures !KeyLeq(k, HighlightKey(blocking, z))
    {
      assert Normalize(hash, y) == Normalize(hash, z);
      NormalizeKeepsKey(hash, blocking, z);
      if KeyLeq(k, HighlightKey(blocking, y)) {
        KeyLeqAntisymmetric(k, HighlightKey(blocking, y));
        assert false;
      }
    }
    assert EffectiveFingerprint(hash, y) in Fingerprints(hash, cs);
  }

  lemma DifferentForms(hash: Hash, s: seq<Highlight>, j: nat, i: nat)
    requires FingerprintsDistinct(s) && j < i < |s|
    ensures s[j] != s[i]
  {
  }

  /** Without ambiguity, what is selected are the normal forms of the candidates that can be shown. */
  lemma SelectedAre(hash: Hash, blocking: Blocking, max: nat, cs: seq<Highlight>, x: Highlight)
    requires Unambiguous(hash, blocking, max, cs)
    ensures x in Select(hash, blocking, max, cs) <==>
            exists c :: c in cs && CanShow(hash, blocking, max, cs, c) && x == Normalize(hash, c)
  {
    hide Normalize, HighlightKey, Dedup, KeyLeq, CanShow, Unambiguous, SortBy;
    var s := Ranked(hash, blocking, cs);
    if x in Select(hash, blocking, max, cs) {
      var i :| 0 <= i < |Take(s, max)| && Take(s, max)[i] == x;
      var c := ShownCanShow(hash, blocking, max, cs, i);
    }
    if c :| c in cs && CanShow(hash, blocking, max, cs, c) && x == Normalize(hash, c) {
      CanShowIsShown(hash, blocking, max, cs, c);
    }
  }

  lemma SameAhead(hash: Hash, blocking: Blocking, max: nat, cs: seq<Highlight>, ds: seq<Highlight>)
    requires forall h :: h in cs <==> h in ds
    ensures forall k :: Ahead(hash, blocking, cs, k) == Ahead(hash, blocking, ds, k)
    ensures forall a :: CanShow(hash, blocking, max, cs, a) <==> CanShow(hash, blocking, max, ds, a)
    ensures Unambiguous(hash, blocking, max, cs) <==> Unambiguous(hash, blocking, max, ds)
  {
    hide EffectiveFingerprint, Normalize, HighlightKey, KeyLeq;
    assert Fingerprints(hash, cs) == Fingerprints(hash, ds);
    forall k
      ensures Ahead(hash, blocking, cs, k) == Ahead(hash, blocking, ds, k)
    {
      assert forall fp :: AllBelow(hash, blocking, cs, fp, k) <==> AllBelow(hash, blocking, ds, fp, k);
    }
  }

  /** For unambiguous candidates the selection depends only on which candidates there are: neither their
      order nor how often one is repeated matters. */
  lemma SameCandidatesSameSelection(hash: Hash, blocking: Blocking, max: nat, cs: seq<Highlight>, ds: seq<Highlight>)
    requires Unambiguous(hash, blocking, max, cs) && forall h :: h in cs <==> h in ds
    ensures Select(hash, blocking, max, cs) == Select(hash, blocking, max, ds)
  {
    hide EffectiveFingerprint, Normalize, HighlightKey, Dedup, Select, CanShow, KeyLeq, Unambiguous;
    var key := ByHighlightKey(blocking);
    var r, t := Select(hash, blocking, max, cs), Select(hash, blocking, max, ds);
    SameAhead(hash, blocking, max, cs, ds);
    forall h
      ensures h in r <==> h in t
    {
      SelectedAre(hash, blocking, max, cs, h);
      SelectedAre(hash, blocking, max, ds, h);
    }
    SelectIsTopK(hash, blocking, max, cs);
    SelectIsTopK(hash, blocking, max, ds);
    SameFormsSameMultiset(r, t);
    SelectedKeysDecide(hash, blocking, max, cs);
    SortedSameElements(key, r, t);
  }

  lemma SelectedKeysDecide(hash: Hash, blocking: Blocking, max: nat, cs: seq<Highlight>)
    requires Unambiguous(hash, blocking, max, cs)
    ensures KeysDecide(ByHighlightKey(blocking), Select(hash, blocking, max, cs))
  {
    hide EffectiveFingerprint, Normalize, HighlightKey, Select, CanShow;
    var r, key := Select(hash, blocking, max, cs), ByHighlightKey(blocking);
    forall x, y | x in r && y in r && key(x) == key(y)
      ensures x == y
    {
      SelectedAre(hash, blocking, max, cs, x);
      SelectedAre(hash, blocking, max, cs, y);
      var a :| a in cs && CanShow(hash, blocking, max, cs, a) && x == Normalize(hash, a);
      var b :| b in cs && CanShow(hash, blocking, max, cs, b) && y == Normalize(hash, b);
      NormalizeKeepsKey(hash, blocking, a);
      NormalizeKeepsKey(hash, blocking, b);
    }
  }

  // ---- The condition is necessary ----

  lemma {:induction false} DedupPrefix(hash: Hash, cs: seq<Highlight>, n: nat)
    requires n <= |cs|
    ensures Dedup(hash, cs[..n]) <= Dedup(hash, cs)
  {
    if n < |cs| {
      var front := cs[..|cs| - 1];
      DedupPrefix(hash, front, n);
      assert front[..n] == cs[..n];
    } else {
      assert cs[..n] == cs;
    }
  }

  ghost predicate OrderInsensitive(hash: Hash, blocking: Blocking, max: nat, cs: seq<Highlight>) {
    forall ds :: multiset(ds) == multiset(cs) ==> Select(hash, blocking, max, ds) == Select(hash, blocking, max, cs)
  }

  lemma MultisetMembers(cs: seq<Highlight>, ds: seq<Highlight>)
    requires multiset(cs) == multiset(ds)
    ensures forall h :: h in cs <==> h in ds
  {
    forall h
      ensures h in cs <==> h in ds
    {
      assert h in multiset(cs) <==> h in multiset(ds);
    }
  }

  /** Two different candidates can be moved to the front in either order. */
  lemma MoveToFront(cs: seq<Highlight>, a: Highlight, b: Highlight) returns (rest: seq<Highlight>)
    requires a in cs && b in cs && a != b
    ensures multiset([a, b] + rest) == multiset(cs) && multiset([b, a] + rest) == multiset(cs)
  {
    var i, t := TakeOut(cs, a);
    assert b in multiset(cs) && b in multiset(t);
    i, rest := TakeOut(t, b);
  }

  /** The candidate in front survives deduplication; so does the second if its fingerprint is another one. */
  lemma FrontSurvives(hash: Hash, a: Highlight, b: Highlight, rest: seq<Highlight>)
    ensures var d := Dedup(hash, [a, b] + rest);
            && |d| >= 1 && d[0] == Normalize(hash, a)
            && (EffectiveFingerprint(hash, a) != EffectiveFingerprint(hash, b) ==>
                |d| >= 2 && d[1] == Normalize(hash, b))
  {
    hide EffectiveFingerprint, Normalize;
    var p := [a, b] + rest;
    DedupPrefix(hash, p, 2);
    assert p[..2] == [a, b] && [a, b][..1] == [a] && [a][..0] == [];
    assert Dedup(hash, [a]) == [Normalize(hash, a)];
    assert a in [a];
    assert Seen(hash, [a], EffectiveFingerprint(hash, b)) <==>
           EffectiveFingerprint(hash, a) == EffectiveFingerprint(hash, b);
  }

  /** The candidates that sort before `k` can be moved behind the others. */
  lemma {:induction false} MoveBack(blocking: Blocking, k: Key, cs: seq<Highlight>)
    returns (others: seq<Highlight>, below: seq<Highlight>)
    ensures multiset(others + below) == multiset(cs)
    ensures forall c :: c in others ==> KeyLeq(k, HighlightKey(blocking, c))
    ensures forall c :: c in below ==> !KeyLeq(k, HighlightKey(blocking, c))
  {
    hide HighlightKey, KeyLeq;
    if cs == [] {
      others, below := [], [];
    } else {
      var c := cs[0];
      others, below := MoveBack(blocking, k, cs[1..]);
      assert cs == [c] + cs[1..];
      if KeyLeq(k, HighlightKey(blocking, c)) {
        assert [c] + others + below == [c] + (others + below);
        others := [c] + others;
      } else {
        assert multiset(others + ([c] + below)) == multiset(others) + multiset{c} + multiset(below);
        below := [c] + below;
      }
    }
  }

  /** The first shown highlight with the key of `a` is the normal form of `a`. */
  ghost predicate LeadsClass(hash: Hash, blocking: Blocking, r: seq<Highlight>, a: Highlight) {
    exists i :: 0 <= i < |r| && r[i] == Normalize(hash, a)
      && forall j :: 0 <= j < i ==> HighlightKey(blocking, r[j]) != HighlightKey(blocking, a)
  }

  /** A candidate that can be shown is shown, and leads its key class, when it comes first and everything that
      sorts before it comes last. */
  lemma FrontIsShown(hash: Hash, blocking: Blocking, max: nat, a: Highlight, b: Highlight, others: seq<Highlight>,
                     below: seq<Highlight>)
    requires EffectiveFingerprint(hash, a) == EffectiveFingerprint(hash, b)
             || HighlightKey(blocking, a) == HighlightKey(blocking, b)
    requires forall c :: c in others ==> KeyLeq(HighlightKey(blocking, a), HighlightKey(blocking, c))
    requires forall c :: c in below ==> !KeyLeq(HighlightKey(blocking, a), HighlightKey(blocking, c))
    requires CanShow(hash, blocking, max, [a, b] + (others + below), a)
    ensures LeadsClass(hash, blocking, Select(hash, blocking, max, [a, b] + (others + below)), a)
  {
    hide EffectiveFingerprint, Normalize, HighlightKey, Dedup, KeyLeq, SortBy, Ahead;
    var p, k, key := [a, b] + (others + below), HighlightKey(blocking, a), ByHighlightKey(blocking);
    var s := Ranked(hash, blocking, p);
    FrontSurvives(hash, a, b, others + below);
    NormalizeKeepsKey(hash, blocking, a);
    SortByStable(key, k, Dedup(hash, p));
    var i := FirstOfClass(key, k, s);
    assert s[i] == Normalize(hash, a);
    RankedFacts(hash, blocking, p);
    forall fp | fp in Fingerprints(hash, s[..i])
      ensures fp in Ahead(hash, blocking, p, k)
    {
      var y :| y in s[..i] && EffectiveFingerprint(hash, y) == fp;
      var j :| 0 <= j < i && s[j] == y;
      assert KeyLeq(key(s[j]), key(s[i])) && key(s[j]) != k;
      if KeyLeq(k, key(y)) {
        KeyLeqAntisymmetric(k, key(y));
      }
      FirstBelow(hash, blocking, a, b, others, below, y);
    }
    PrefixCount(hash, s, i);
    SubsetSize(Fingerprints(hash, s[..i]), Ahead(hash, blocking, p, k));
    assert i < max;
    var r := Take(s, max);
    assert r[i] == Normalize(hash, a) && forall j :: 0 <= j < i ==> r[j] == s[j] && key(s[j]) != k;
  }

  lemma EarlierDiffer(hash: Hash, cs: seq<Highlight>, m: nat)
    requires IsFirst(hash, cs, m)
    ensures forall l :: 0 <= l < m ==> EffectiveFingerprint(hash, cs[l]) != EffectiveFingerprint(hash, cs[m])
  {
    hide EffectiveFingerprint;
    assert forall l :: 0 <= l < m ==> cs[l] == cs[..m][l];
  }

  /** In that arrangement a kept highlight that sorts before `a` belongs to a fingerprint that is ahead of `a`. */
  lemma FirstBelow(hash: Hash, blocking: Blocking, a: Highlight, b: Highlight, others: seq<Highlight>,
                   below: seq<Highlight>, y: Highlight)
    requires EffectiveFingerprint(hash, a) == EffectiveFingerprint(hash, b)
             || HighlightKey(blocking, a) == HighlightKey(blocking, b)
    requires forall c :: c in others ==> KeyLeq(HighlightKey(blocking, a), HighlightKey(blocking, c))
    requires forall c :: c in below ==> !KeyLeq(HighlightKey(blocking, a), HighlightKey(blocking, c))
    requires y in Dedup(hash, [a, b] + (others + below))
             && !KeyLeq(HighlightKey(blocking, a), HighlightKey(blocking, y))
    ensures EffectiveFingerprint(hash, y) in Ahead(hash, blocking, [a, b] + (others + below), HighlightKey(blocking, a))
  {
    hide EffectiveFingerprint, Normalize, HighlightKey, Dedup, KeyLeq, IsFirst, Seen;
    var p, k := [a, b] + (others + below), HighlightKey(blocking, a);
    DedupKeepsFirsts(hash, p);
    var m :| 0 <= m < |p| && IsFirst(hash, p, m) && y == Normalize(hash, p[m]);
    NormalizeKeepsKey(hash, blocking, p[m]);
    KeyLeqReflexive(k);
    var n := 2 + |others|;
    assert p[0] == a && p[1] == b;
    assert forall l :: 2 <= l < n ==> p[l] == others[l - 2];
    EarlierDiffer(hash, p, m);
    forall c | c in p && EffectiveFingerprint(hash, c) == EffectiveFingerprint(hash, y)
      ensures !KeyLeq(k, HighlightKey(blocking, c))
    {
      var l :| 0 <= l < |p| && p[l] == c;
      assert m <= l;
      assert p[l] == below[l - n];
    }
    assert p[m] in p;
  }

  /** The condition is exact for every budget: the selection is the same for every arrival order if and only if no
      candidate that can be shown is ambiguous. */
  lemma OrderInsensitiveIff(hash: Hash, blocking: Blocking, max: nat, cs: seq<Highlight>)
    ensures OrderInsensitive(hash, blocking, max, cs) <==> Unambiguous(hash, blocking, max, cs)
  {
    hide EffectiveFingerprint, Normalize, HighlightKey, CanShow, Select;
    if Unambiguous(hash, blocking, max, cs) {
      forall ds | multiset(ds) == multiset(cs)
        ensures Select(hash, blocking, max, ds) == Select(hash, blocking, max, cs)
      {
        MultisetMembers(cs, ds);
        SameCandidatesSameSelection(hash, blocking, max, cs, ds);
      }
    }
    if OrderInsensitive(hash, blocking, max, cs) {
      forall a, b | a in cs && b in cs && CanShow(hash, blocking, max, cs, a)
        && (EffectiveFingerprint(hash, a) == EffectiveFingerprint(hash, b)
            || HighlightKey(blocking, a) == HighlightKey(blocking, b))
        ensures Normalize(hash, a) == Normalize(hash, b)
      {
        if a != b {
          ClashingPairAgrees(hash, blocking, max, cs, a, b);
        }
      }
    }
  }

  /** Order insensitivity shows the normal form of `a` in the selection, leading its key class. */
  lemma ShownFirst(hash: Hash, blocking: Blocking, max: nat, cs: seq<Highlight>, a: Highlight, b: Highlight)
    requires OrderInsensitive(hash, blocking, max, cs) && CanShow(hash, blocking, max, cs, a)
    requires a in cs && b in cs && a != b
    requires EffectiveFingerprint(hash, a) == EffectiveFingerprint(hash, b)
             || HighlightKey(blocking, a) == HighlightKey(blocking, b)
    ensures LeadsClass(hash, blocking, Select(hash, blocking, max, cs), a)
  {
    hide EffectiveFingerprint, Normalize, HighlightKey, Select, CanShow, LeadsClass, KeyLeq;
    var rest := MoveToFront(cs, a, b);
    var others, below := MoveBack(blocking, HighlightKey(blocking, a), rest);
    var p := [a, b] + (others + below);
    assert multiset(p) == multiset([a, b]) + multiset(others + below) == multiset([a, b] + rest);
    MultisetMembers(cs, p);
    SameAhead(hash, blocking, max, cs, p);
    FrontIsShown(hash, blocking, max, a, b, others, below);
  }

  lemma ClashingPairAgrees(hash: Hash, blocking: Blocking, max: nat, cs: seq<Highlight>, a: Highlight, b: Highlight)
    requires OrderInsensitive(hash, blocking, max, cs) && CanShow(hash, blocking, max, cs, a)
    requires a in cs && b in cs && a != b
    requires EffectiveFingerprint(hash, a) == EffectiveFingerprint(hash, b)
             || HighlightKey(blocking, a) == HighlightKey(blocking, b)
    ensures Normalize(hash, a) == Normalize(hash, b)
  {
    hide EffectiveFingerprint, Normalize, HighlightKey, Dedup, Select;
    var r := Select(hash, blocking, max, cs);
    ShownFirst(hash, blocking, max, cs, a, b);
    if HighlightKey(blocking, a) == HighlightKey(blocking, b) {
      ShownFirst(hash, blocking, max, cs, b, a);
      NormalizeKeepsKey(hash, blocking, a);
      NormalizeKeepsKey(hash, blocking, b);
    } else {
      var rest := MoveToFront(cs, a, b);
      var q := [b, a] + rest;
      assert Select(hash, blocking, max, q) == r;
      FrontSurvives(hash, b, a, rest);
      SelectIsTopK(hash, blocking, max, q);
      DedupFingerprints(hash, q);
      SameFingerprintSameHighlight(hash, Dedup(hash, q), a, b);
    }
  }

  lemma SameFingerprintSameHighlight(hash: Hash, r: seq<Highlight>, a: Highlight, b: Highlight)
    requires FingerprintsDistinct(r) && Normalize(hash, a) in r && Normalize(hash, b) in r
    requires EffectiveFingerprint(hash, a) == EffectiveFingerprint(hash, b)
    ensures Normalize(hash, a) == Normalize(hash, b)
  {
    assert Normalize(hash, a).finding.fingerprint == Normalize(hash, b).finding.fingerprint;
    var i :| 0 <= i < |r| && r[i] == Normalize(hash, a);
    var j :| 0 <= j < |r| && r[j] == Normalize(hash, b);
  }

  // ---- The two sides of the condition ----

  /** Two findings with one sort key and different fingerprints: under a budget of one, each order of arrival shows
      another one of them. */
  lemma ClashShowsOrder(hash: Hash, blocking: Blocking, h: Highlight)
    ensures var a := h.(finding := h.finding.(fingerprint := Some("a")));
            var b := h.(finding := h.finding.(fingerprint := Some("b")));
            && Select(hash, blocking, 1, [a, b]) == [a] && Select(hash, blocking, 1, [b, a]) == [b]
            && !OrderInsensitive(hash, blocking, 1, [a, b])
  {
    hide KeyLeq, HighlightKey;
    var a := h.(finding := h.finding.(fingerprint := Some("a")));
    var b := h.(finding := h.finding.(fingerprint := Some("b")));
    SameKeyShowsFirst(hash, blocking, a, b);
    SameKeyShowsFirst(hash, blocking, b, a);
    var p: seq<Highlight>, q: seq<Highlight> := [a, b], [b, a];
    assert multiset(p) == multiset(q);
  }

  lemma SameKeyShowsFirst(hash: Hash, blocking: Blocking, a: Highlight, b: Highlight)
    requires a.finding.fingerprint.Some? && b.finding.fingerprint.Some?
             && a.finding.fingerprint != b.finding.fingerprint
    requires a.(finding := a.finding.(fingerprint := None)) == b.(finding := b.finding.(fingerprint := None))
    ensures Select(hash, blocking, 1, [a, b]) == [a]
  {
    hide KeyLeq;
    DedupFixpoint(hash, [a, b]);
    KeyLeqReflexive(HighlightKey(blocking, a));
    SortByFixpoint(ByHighlightKey(blocking), [a, b]);
  }
}
