/** When the highlights do not depend on the order in which whole sensors are looked at: the candidates of one sensor
    stay together, and what was raised before the sensors stays in front. */
module SensorBlocks {
  import opened Types
  import opened SortKeys
  import opened StableSort
  import opened Fingerprint
  import opened Findings
  import opened Highlights
  import opened SelectionOrder

  type Blocks = string -> seq<Highlight>

  ghost function Concat(blocks: Blocks, ids: seq<string>): seq<Highlight> {
    if ids == [] then [] else Concat(blocks, ids[..|ids| - 1]) + blocks(ids[|ids| - 1])
  }

  lemma {:induction false} ConcatAppend(blocks: Blocks, a: seq<string>, b: seq<string>)
    ensures Concat(blocks, a + b) == Concat(blocks, a) + Concat(blocks, b)
    decreases |b|
  {
    if b == [] {
      assert a + b == a;
    } else {
      var n := |b| - 1;
      assert (a + b)[..|a + b| - 1] == a + b[..n] && (a + b)[|a + b| - 1] == b[n];
      ConcatAppend(blocks, a, b[..n]);
    }
  }

  lemma ConcatOne(blocks: Blocks, id: string)
    ensures Concat(blocks, [id]) == blocks(id)
  {
    assert [id][..0] == [];
    assert Concat(blocks, [id]) == Concat(blocks, []) + blocks(id);
  }

  lemma {:induction false} ConcatMember(blocks: Blocks, ids: seq<string>, h: Highlight)
    ensures h in Concat(blocks, ids) <==> exists id :: id in ids && h in blocks(id)
  {
    if ids != [] {
      var n := |ids| - 1;
      ConcatMember(blocks, ids[..n], h);
      assert ids == ids[..n] + [ids[n]];
    }
  }

  // ---- What a block adds ----

  /** What deduplication keeps of `block` when `seen` comes first. */
  ghost function Adds(hash: Hash, seen: seq<Highlight>, block: seq<Highlight>): seq<Highlight> {
    if block == [] then []
    else
      var front, h := block[..|block| - 1], block[|block| - 1];
      Adds(hash, seen, front)
      + if Seen(hash, seen, EffectiveFingerprint(hash, h)) || Seen(hash, front, EffectiveFingerprint(hash, h)) then []
        else [Normalize(hash, h)]
  }

  lemma SeenAppend(hash: Hash, a: seq<Highlight>, b: seq<Highlight>, fp: string)
    ensures Seen(hash, a + b, fp) <==> Seen(hash, a, fp) || Seen(hash, b, fp)
  {
    hide EffectiveFingerprint;
    assert forall h :: h in a + b <==> h in a || h in b;
  }

  lemma {:induction false} DedupAppend(hash: Hash, a: seq<Highlight>, b: seq<Highlight>)
    ensures Dedup(hash, a + b) == Dedup(hash, a) + Adds(hash, a, b)
    decreases |b|
  {
    hide EffectiveFingerprint, Normalize, Seen;
    if b == [] {
      assert a + b == a;
    } else {
      var n := |b| - 1;
      assert (a + b)[..|a + b| - 1] == a + b[..n] && (a + b)[|a + b| - 1] == b[n];
      DedupAppend(hash, a, b[..n]);
      SeenAppend(hash, a, b[..n], EffectiveFingerprint(hash, b[n]));
    }
  }

  lemma {:induction false} AddsAppend(hash: Hash, seen: seq<Highlight>, a: seq<Highlight>, b: seq<Highlight>)
    ensures Adds(hash, seen, a + b) == Adds(hash, seen, a) + Adds(hash, seen + a, b)
    decreases |b|
  {
    hide EffectiveFingerprint, Normalize, Seen;
    if b == [] {
      assert a + b == a;
    } else {
      var n := |b| - 1;
      var fp := EffectiveFingerprint(hash, b[n]);
      assert (a + b)[..|a + b| - 1] == a + b[..n] && (a + b)[|a + b| - 1] == b[n];
      AddsAppend(hash, seen, a, b[..n]);
      SeenAppend(hash, a, b[..n], fp);
      SeenAppend(hash, seen, a, fp);
    }
  }

  /** The highlights whose fingerprint does not occur in `others`. */
  ghost function Unseen(hash: Hash, others: seq<Highlight>, hs: seq<Highlight>): seq<Highlight> {
    if hs == [] then []
    else
      var front, h := hs[..|hs| - 1], hs[|hs| - 1];
      Unseen(hash, others, front) + if Seen(hash, others, EffectiveFingerprint(hash, h)) then [] else [h]
  }

  lemma UnseenSnoc(hash: Hash, others: seq<Highlight>, hs: seq<Highlight>, h: Highlight)
    ensures Unseen(hash, others, hs + [h]) ==
            Unseen(hash, others, hs) + if Seen(hash, others, EffectiveFingerprint(hash, h)) then [] else [h]
  {
    assert (hs + [h])[..|hs + [h]| - 1] == hs;
  }

  lemma {:induction false} UnseenAppend(hash: Hash, others: seq<Highlight>, a: seq<Highlight>, b: seq<Highlight>)
    ensures Unseen(hash, others, a + b) == Unseen(hash, others, a) + Unseen(hash, others, b)
    decreases |b|
  {
    hide EffectiveFingerprint, Seen, Unseen;
    if b == [] {
      assert a + b == a;
      UnseenAllOrNone(hash, others, b);
    } else {
      var n := |b| - 1;
      UnseenAppend(hash, others, a, b[..n]);
      UnseenSnoc(hash, others, a + b[..n], b[n]);
      UnseenSnoc(hash, others, b[..n], b[n]);
      assert a + b == (a + b[..n]) + [b[n]] && b == b[..n] + [b[n]];
    }
  }

  /** Other candidates in between only take away what they have shown already. */
  lemma {:induction false} AddsAfter(hash: Hash, seen: seq<Highlight>, others: seq<Highlight>, block: seq<Highlight>)
    ensures Adds(hash, seen + others, block) == Unseen(hash, others, Adds(hash, seen, block))
  {
    hide EffectiveFingerprint, Normalize, Seen;
    if block != [] {
      var n := |block| - 1;
      var fp := EffectiveFingerprint(hash, block[n]);
      AddsAfter(hash, seen, others, block[..n]);
      SeenAppend(hash, seen, others, fp);
      NormalizedFingerprint(hash, block[n]);
      UnseenSnoc(hash, others, Adds(hash, seen, block[..n]), Normalize(hash, block[n]));
      assert Adds(hash, seen, block[..n]) + [] == Adds(hash, seen, block[..n]);
      assert Unseen(hash, others, Adds(hash, seen, block[..n])) + [] ==
             Unseen(hash, others, Adds(hash, seen, block[..n]));
    }
  }

  lemma NormalizedFingerprint(hash: Hash, h: Highlight)
    ensures EffectiveFingerprint(hash, Normalize(hash, h)) == EffectiveFingerprint(hash, h)
    ensures Normalize(hash, h).finding.fingerprint == Some(EffectiveFingerprint(hash, h))
  {
  }

  /** Each fingerprint of a block that was not seen before has one highlight among what the block adds. */
  lemma {:induction false} AddsFacts(hash: Hash, seen: seq<Highlight>, block: seq<Highlight>)
    ensures forall x :: x in Adds(hash, seen, block) ==>
      && x.finding.fingerprint == Some(EffectiveFingerprint(hash, x))
      && Seen(hash, block, EffectiveFingerprint(hash, x))
      && !Seen(hash, seen, EffectiveFingerprint(hash, x))
    ensures forall fp :: Seen(hash, block, fp) && !Seen(hash, seen, fp) ==> Seen(hash, Adds(hash, seen, block), fp)
  {
    hide EffectiveFingerprint, Normalize;
    if block != [] {
      var n := |block| - 1;
      var front, h := block[..n], block[n];
      AddsFacts(hash, seen, front);
      NormalizedFingerprint(hash, h);
      assert block == front + [h];
      forall fp
        ensures Seen(hash, block, fp) <==> Seen(hash, front, fp) || EffectiveFingerprint(hash, h) == fp
        ensures Seen(hash, block, fp) && !Seen(hash, seen, fp) ==> Seen(hash, Adds(hash, seen, block), fp)
      {
        SeenSnoc(hash, front, h, fp);
        SeenSnoc(hash, Adds(hash, seen, front), Normalize(hash, h), fp);
      }
    }
  }

  // ---- The condition ----

  ghost predicate Comparable<T>(a: seq<T>, b: seq<T>) {
    a <= b || b <= a
  }

  /** What the block of `i` adds under the key `k`. */
  ghost function AddsUnder(hash: Hash, key: Highlight -> Key, early: seq<Highlight>, blocks: Blocks, i: string, k: Key)
    : seq<Highlight>
  {
    WithKey(key, k, Adds(hash, early, blocks(i)))
  }

  /** What two blocks add agrees on common fingerprints. */
  ghost predicate FingerprintsAgree(hash: Hash, early: seq<Highlight>, blocks: Blocks, ids: seq<string>) {
    forall i, j :: i in ids && j in ids ==>
      SameOnFingerprints(hash, Adds(hash, early, blocks(i)), Adds(hash, early, blocks(j)))
  }

  ghost predicate SameOnFingerprints(hash: Hash, p: seq<Highlight>, q: seq<Highlight>) {
    forall a, b :: a in p && b in q && EffectiveFingerprint(hash, a) == EffectiveFingerprint(hash, b) ==> a == b
  }

  /** Of what two blocks add under a key, as far as there is room for `r`, one lists a beginning of what the other
      lists. */
  ghost predicate ComparableUnder(hash: Hash, key: Highlight -> Key, early: seq<Highlight>, blocks: Blocks,
                                  ids: seq<string>, k: Key, r: nat)
  {
    forall i, j :: i in ids && j in ids ==>
      Comparable(Take(AddsUnder(hash, key, early, blocks, i, k), r), Take(AddsUnder(hash, key, early, blocks, j, k), r))
  }

  /** Blocks agree on common fingerprints, and under each key, without limit, one lists a beginning of what the other
      lists. */
  ghost predicate BlocksAgree(hash: Hash, key: Highlight -> Key, early: seq<Highlight>, blocks: Blocks,
                              ids: seq<string>)
  {
    && FingerprintsAgree(hash, early, blocks, ids)
    && forall i, j, k :: i in ids && j in ids ==>
         Comparable(AddsUnder(hash, key, early, blocks, i, k), AddsUnder(hash, key, early, blocks, j, k))
  }

  // ---- It suffices ----

  lemma {:induction false} WithKeyUnseen(hash: Hash, key: Highlight -> Key, k: Key, others: seq<Highlight>,
                                         hs: seq<Highlight>)
    ensures WithKey(key, k, Unseen(hash, others, hs)) == Unseen(hash, others, WithKey(key, k, hs))
  {
    hide EffectiveFingerprint, Seen, WithKey, Unseen;
    if hs == [] {
      NothingWithKey(key, k);
      UnseenAllOrNone(hash, others, []);
    } else {
      var n := |hs| - 1;
      var front, h := hs[..n], hs[n];
      WithKeyUnseen(hash, key, k, others, front);
      assert hs == front + [h];
      WithKeyAppend(key, k, front, [h]);
      OneWithKey(key, k, h);
      UnseenSnoc(hash, others, front, h);
      UnseenSnoc(hash, others, WithKey(key, k, front), h);
      WithKeyAppend(key, k, Unseen(hash, others, front), [h]);
      assert Unseen(hash, others, front) + [] == Unseen(hash, others, front);
      assert WithKey(key, k, front) + [] == WithKey(key, k, front);
      assert Unseen(hash, others, WithKey(key, k, front)) + [] == Unseen(hash, others, WithKey(key, k, front));
    }
  }

  lemma NothingWithKey(key: Highlight -> Key, k: Key)
    ensures WithKey(key, k, []) == []
  {
  }

  lemma OneWithKey(key: Highlight -> Key, k: Key, h: Highlight)
    ensures WithKey(key, k, [h]) == if key(h) == k then [h] else []
  {
  }

  lemma {:induction false} WithKeyMembers(key: Highlight -> Key, k: Key, s: seq<Highlight>)
    ensures forall h :: h in WithKey(key, k, s) <==> h in s && key(h) == k
  {
    if s != [] {
      WithKeyMembers(key, k, s[1..]);
      assert s == [s[0]] + s[1..];
    }
  }

  lemma {:induction false} UnseenAllOrNone(hash: Hash, others: seq<Highlight>, hs: seq<Highlight>)
    ensures (forall h :: h in hs ==> Seen(hash, others, EffectiveFingerprint(hash, h))) ==>
            Unseen(hash, others, hs) == []
    ensures (forall h :: h in hs ==> !Seen(hash, others, EffectiveFingerprint(hash, h))) ==>
            Unseen(hash, others, hs) == hs
  {
    hide EffectiveFingerprint, Seen;
    if hs != [] {
      var n := |hs| - 1;
      assert hs == hs[..n] + [hs[n]];
      UnseenAllOrNone(hash, others, hs[..n]);
    }
  }

  lemma {:induction false} AddsDistinct(hash: Hash, seen: seq<Highlight>, block: seq<Highlight>)
    ensures Distinct(Adds(hash, seen, block))
  {
    hide EffectiveFingerprint, Normalize, Seen;
    if block != [] {
      var n := |block| - 1;
      AddsDistinct(hash, seen, block[..n]);
      AddsFacts(hash, seen, block[..n]);
      NormalizedFingerprint(hash, block[n]);
    }
  }

  lemma {:induction false} WithKeyDistinct(key: Highlight -> Key, k: Key, s: seq<Highlight>)
    requires Distinct(s)
    ensures Distinct(WithKey(key, k, s))
  {
    if s != [] {
      assert s == [s[0]] + s[1..];
      WithKeyDistinct(key, k, s[1..]);
      WithKeyMembers(key, k, s[1..]);
      assert s[0] !in s[1..];
    }
  }

  lemma RestIsNew<T>(p: seq<T>, r: seq<T>)
    requires Distinct(p + r)
    ensures forall y :: y in r ==> y !in p
  {
    forall y | y in r
      ensures y !in p
    {
      var n :| 0 <= n < |r| && r[n] == y;
      assert (p + r)[|p| + n] == y && forall m :: 0 <= m < |p| ==> p[m] == (p + r)[m];
    }
  }

  /** Adding a list to one it can be compared with, without what the first holds, gives the longer of the two. */
  lemma MergeComparable(hash: Hash, others: seq<Highlight>, p: seq<Highlight>, q: seq<Highlight>)
    requires Comparable(p, q) && Distinct(q)
    requires forall y :: y in q ==> (Seen(hash, others, EffectiveFingerprint(hash, y)) <==> y in p)
    ensures p + Unseen(hash, others, q) == if q <= p then p else q
  {
    hide EffectiveFingerprint, Seen, Unseen, Distinct;
    if q <= p {
      assert forall y :: y in q ==> y in p;
      UnseenAllOrNone(hash, others, q);
    } else {
      var r := q[|p|..];
      assert q == p + r;
      UnseenAppend(hash, others, p, r);
      UnseenAllOrNone(hash, others, p);
      RestIsNew(p, r);
      assert forall y :: y in p || y in r ==> y in q;
      UnseenAllOrNone(hash, others, r);
    }
  }

  /** A fingerprint two blocks have in common stands for the same highlight. */
  lemma SeenInBlock(hash: Hash, early: seq<Highlight>, blocks: Blocks, ids: seq<string>, j: string, y: Highlight)
    returns (m: string)
    requires FingerprintsAgree(hash, early, blocks, ids + [j]) && y in Adds(hash, early, blocks(j))
    requires Seen(hash, Concat(blocks, ids), EffectiveFingerprint(hash, y))
    ensures m in ids && y in Adds(hash, early, blocks(m))
  {
    hide EffectiveFingerprint, Adds, Concat;
    var fp := EffectiveFingerprint(hash, y);
    AddsFacts(hash, early, blocks(j));
    var h :| h in Concat(blocks, ids) && EffectiveFingerprint(hash, h) == fp;
    ConcatMember(blocks, ids, h);
    m :| m in ids && h in blocks(m);
    AddsFacts(hash, early, blocks(m));
    assert Seen(hash, blocks(m), fp);
    var z :| z in Adds(hash, early, blocks(m)) && EffectiveFingerprint(hash, z) == fp;
    assert m in ids + [j] && j in ids + [j];
    assert SameOnFingerprints(hash, Adds(hash, early, blocks(m)), Adds(hash, early, blocks(j)));
  }

  lemma AddedIsSeen(hash: Hash, early: seq<Highlight>, blocks: Blocks, ids: seq<string>, i: string, y: Highlight)
    requires i in ids && y in Adds(hash, early, blocks(i))
    ensures Seen(hash, Concat(blocks, ids), EffectiveFingerprint(hash, y))
  {
    hide EffectiveFingerprint, Adds, Concat;
    AddsFacts(hash, early, blocks(i));
    var h :| h in blocks(i) && EffectiveFingerprint(hash, h) == EffectiveFingerprint(hash, y);
    ConcatMember(blocks, ids, h);
  }

  /** What the block of `j` adds under a key was shown before exactly if it is in the class so far. */
  lemma SeenIffInClass(hash: Hash, key: Highlight -> Key, early: seq<Highlight>, blocks: Blocks, ids: seq<string>,
                       j: string, k: Key, p: seq<Highlight>, y: Highlight)
    requires FingerprintsAgree(hash, early, blocks, ids + [j]) && y in AddsUnder(hash, key, early, blocks, j, k)
    requires exists i :: i in ids && p == AddsUnder(hash, key, early, blocks, i, k)
    requires forall i :: i in ids ==> AddsUnder(hash, key, early, blocks, i, k) <= p
    ensures Seen(hash, Concat(blocks, ids), EffectiveFingerprint(hash, y)) <==> y in p
  {
    hide EffectiveFingerprint, Adds, WithKey, Concat, Seen, FingerprintsAgree;
    WithKeyMembers(key, k, Adds(hash, early, blocks(j)));
    if y in p {
      var i :| i in ids && p == AddsUnder(hash, key, early, blocks, i, k);
      WithKeyMembers(key, k, Adds(hash, early, blocks(i)));
      AddedIsSeen(hash, early, blocks, ids, i, y);
    }
    if Seen(hash, Concat(blocks, ids), EffectiveFingerprint(hash, y)) {
      var m := SeenInBlock(hash, early, blocks, ids, j, y);
      WithKeyMembers(key, k, Adds(hash, early, blocks(m)));
      assert y in AddsUnder(hash, key, early, blocks, m, k);
    }
  }

  lemma TakeFacts<T>(s: seq<T>, r: nat)
    ensures Take(s, r) <= s && |Take(s, r)| <= r && (|Take(s, r)| < r ==> Take(s, r) == s)
    ensures |s| < r ==> Take(s, r) == s
    ensures r <= |s| ==> |Take(s, r)| == r && forall x :: Take(s + x, r) == Take(s, r)
  {
  }

  /** The class of a key, as far as there is room, is what one of the blocks adds under it, and what any block adds is a
      beginning of it. */
  lemma {:induction false} ClassOfBlocks(hash: Hash, key: Highlight -> Key, early: seq<Highlight>, blocks: Blocks,
                                         ids: seq<string>, k: Key, r: nat)
    requires FingerprintsAgree(hash, early, blocks, ids) && ComparableUnder(hash, key, early, blocks, ids, k, r)
    ensures var group := WithKey(key, k, Adds(hash, early, Concat(blocks, ids)));
            && (ids == [] ==> group == [])
            && (ids != [] ==>
                exists i :: i in ids && Take(group, r) == Take(AddsUnder(hash, key, early, blocks, i, k), r))
            && forall i :: i in ids ==> Take(AddsUnder(hash, key, early, blocks, i, k), r) <= Take(group, r)
  {
    hide EffectiveFingerprint, Adds, WithKey, Seen, Concat, SameOnFingerprints, AddsUnder, Unseen, Distinct, Take;
    if ids == [] {
      assert Concat(blocks, []) == [] && Adds(hash, early, []) == [] by { NoBlocks(hash, early, blocks); }
      NothingWithKey(key, k);
    } else {
      var n := |ids| - 1;
      var front, j := ids[..n], ids[n];
      assert ids == front + [j];
      ClassOfBlocks(hash, key, early, blocks, front, k, r);
      ClassGrows(hash, key, early, blocks, front, j, k);
      var p := WithKey(key, k, Adds(hash, early, Concat(blocks, front)));
      var q := AddsUnder(hash, key, early, blocks, j, k);
      if front == [] {
        UnseenOfNothing(hash, q);
        assert Concat(blocks, []) == [] by { NoBlocks(hash, early, blocks); }
        assert p == [] && [] + q == q && j in ids;
      } else {
        var i :| i in front && Take(p, r) == Take(AddsUnder(hash, key, early, blocks, i, k), r);
        assert Comparable(Take(p, r), Take(q, r));
        if |p| < r {
          ShortClassGrows(hash, key, early, blocks, front, j, k, r, p);
        } else {
          TakeFacts(p, r);
          TakeFacts(q, r);
        }
      }
    }
  }

  /** While the class is short of the room, adding a block leaves the longer of the class and what the block adds. */
  lemma ShortClassGrows(hash: Hash, key: Highlight -> Key, early: seq<Highlight>, blocks: Blocks, front: seq<string>,
                        j: string, k: Key, r: nat, p: seq<Highlight>)
    requires FingerprintsAgree(hash, early, blocks, front + [j]) && |p| < r
    requires exists i :: i in front && Take(p, r) == Take(AddsUnder(hash, key, early, blocks, i, k), r)
    requires forall i :: i in front ==> Take(AddsUnder(hash, key, early, blocks, i, k), r) <= Take(p, r)
    requires Comparable(Take(p, r), Take(AddsUnder(hash, key, early, blocks, j, k), r))
    ensures var q := AddsUnder(hash, key, early, blocks, j, k);
            var group := p + Unseen(hash, Concat(blocks, front), q);
            && (group == p || group == q) && Take(p, r) <= Take(group, r) && Take(q, r) <= Take(group, r)
  {
    hide EffectiveFingerprint, Adds, WithKey, Seen, Concat, FingerprintsAgree, AddsUnder, Unseen, Distinct, Take;
    var q := AddsUnder(hash, key, early, blocks, j, k);
    TakeFacts(p, r);
    TakeFacts(q, r);
    forall i | i in front
      ensures AddsUnder(hash, key, early, blocks, i, k) <= p
    {
      TakeFacts(AddsUnder(hash, key, early, blocks, i, k), r);
    }
    var i :| i in front && Take(p, r) == Take(AddsUnder(hash, key, early, blocks, i, k), r);
    TakeFacts(AddsUnder(hash, key, early, blocks, i, k), r);
    forall y | y in q
      ensures Seen(hash, Concat(blocks, front), EffectiveFingerprint(hash, y)) <==> y in p
    {
      SeenIffInClass(hash, key, early, blocks, front, j, k, p, y);
    }
    assert Distinct(q) by { AddsUnderDistinct(hash, key, early, blocks, j, k); }
    MergeComparable(hash, Concat(blocks, front), p, q);
  }

  lemma AddsUnderDistinct(hash: Hash, key: Highlight -> Key, early: seq<Highlight>, blocks: Blocks, j: string, k: Key)
    ensures Distinct(AddsUnder(hash, key, early, blocks, j, k))
  {
    hide Adds, WithKey, Distinct;
    AddsDistinct(hash, early, blocks(j));
    WithKeyDistinct(key, k, Adds(hash, early, blocks(j)));
  }

  lemma NoBlocks(hash: Hash, early: seq<Highlight>, blocks: Blocks)
    ensures Concat(blocks, []) == [] && Adds(hash, early, []) == []
  {
  }

  lemma UnseenOfNothing(hash: Hash, hs: seq<Highlight>)
    ensures Unseen(hash, [], hs) == hs
  {
    assert forall fp :: !Seen(hash, [], fp);
    UnseenAllOrNone(hash, [], hs);
  }

  lemma ClassGrows(hash: Hash, key: Highlight -> Key, early: seq<Highlight>, blocks: Blocks, front: seq<string>,
                   j: string, k: Key)
    ensures WithKey(key, k, Adds(hash, early, Concat(blocks, front + [j]))) ==
            WithKey(key, k, Adds(hash, early, Concat(blocks, front)))
            + Unseen(hash, Concat(blocks, front), AddsUnder(hash, key, early, blocks, j, k))
  {
    hide EffectiveFingerprint, Adds, WithKey, Seen, Concat, Unseen;
    var x := Concat(blocks, front);
    ConcatAppend(blocks, front, [j]);
    ConcatOne(blocks, j);
    AddsAppend(hash, early, x, blocks(j));
    AddsAfter(hash, early, x, blocks(j));
    WithKeyAppend(key, k, Adds(hash, early, x), Unseen(hash, x, Adds(hash, early, blocks(j))));
    WithKeyUnseen(hash, key, k, x, Adds(hash, early, blocks(j)));
  }

  /** So the class of a key, as far as there is room, does not depend on the order of the blocks. */
  lemma SameClass(hash: Hash, key: Highlight -> Key, early: seq<Highlight>, blocks: Blocks, ids: seq<string>,
                  ids': seq<string>, k: Key, r: nat)
    requires FingerprintsAgree(hash, early, blocks, ids) && ComparableUnder(hash, key, early, blocks, ids, k, r)
    requires forall id :: id in ids <==> id in ids'
    ensures Take(WithKey(key, k, Adds(hash, early, Concat(blocks, ids))), r) ==
            Take(WithKey(key, k, Adds(hash, early, Concat(blocks, ids'))), r)
  {
    hide EffectiveFingerprint, Adds, WithKey, Concat, SameOnFingerprints, AddsUnder, Take;
    ClassOfBlocks(hash, key, early, blocks, ids, k, r);
    ClassOfBlocks(hash, key, early, blocks, ids', k, r);
    if ids != [] {
      assert ids[0] in ids;
    }
    if ids' != [] {
      assert ids'[0] in ids';
    }
  }

  lemma SameRankingIf(hash: Hash, blocking: Blocking, early: seq<Highlight>, blocks: Blocks, ids: seq<string>,
                      ids': seq<string>)
    requires BlocksAgree(hash, ByHighlightKey(blocking), early, blocks, ids)
    requires forall id :: id in ids <==> id in ids'
    ensures Ranked(hash, blocking, early + Concat(blocks, ids)) == Ranked(hash, blocking, early + Concat(blocks, ids'))
  {
    hide EffectiveFingerprint, Adds, WithKey, Seen, Concat, FingerprintsAgree, AddsUnder, Dedup, HighlightKey, KeyLeq,
         SortBy, Take;
    var key := ByHighlightKey(blocking);
    var c, c' := Concat(blocks, ids), Concat(blocks, ids');
    var d, d' := Dedup(hash, early + c), Dedup(hash, early + c');
    DedupAppend(hash, early, c);
    DedupAppend(hash, early, c');
    forall k
      ensures WithKey(key, k, SortBy(key, d)) == WithKey(key, k, SortBy(key, d'))
    {
      SortByStable(key, k, d);
      SortByStable(key, k, d');
      WithKeyAppend(key, k, Dedup(hash, early), Adds(hash, early, c));
      WithKeyAppend(key, k, Dedup(hash, early), Adds(hash, early, c'));
      var g, g' := WithKey(key, k, Adds(hash, early, c)), WithKey(key, k, Adds(hash, early, c'));
      var r := |g| + |g'| + 1;
      forall i, j | i in ids && j in ids
        ensures Comparable(Take(AddsUnder(hash, key, early, blocks, i, k), r),
                           Take(AddsUnder(hash, key, early, blocks, j, k), r))
      {
        ComparableCut(AddsUnder(hash, key, early, blocks, i, k), AddsUnder(hash, key, early, blocks, j, k), r);
      }
      SameClass(hash, key, early, blocks, ids, ids', k, r);
      TakeFacts(g, r);
      TakeFacts(g', r);
    }
    SortByCorrect(key, d);
    SortByCorrect(key, d');
    SortedUnique(key, SortBy(key, d), SortBy(key, d'));
  }

  lemma ComparableCut<T>(a: seq<T>, b: seq<T>, r: nat)
    requires Comparable(a, b)
    ensures Comparable(Take(a, r), Take(b, r))
  {
  }

  // ---- It is necessary ----

  /** The ranking is the same for every order of the blocks. */
  ghost predicate IgnoresBlockOrder(hash: Hash, blocking: Blocking, early: seq<Highlight>, blocks: Blocks,
                                    ids: seq<string>)
  {
    forall ids' :: multiset(ids') == multiset(ids) ==>
      Ranked(hash, blocking, early + Concat(blocks, ids')) == Ranked(hash, blocking, early + Concat(blocks, ids))
  }

  /** Any block can come first: what it adds is then ranked, and leads its key classes behind what came early. */
  lemma FirstBlock(hash: Hash, blocking: Blocking, early: seq<Highlight>, blocks: Blocks, ids: seq<string>, i: string)
    requires IgnoresBlockOrder(hash, blocking, early, blocks, ids) && i in ids
    ensures var key, r := ByHighlightKey(blocking), Ranked(hash, blocking, early + Concat(blocks, ids));
            && (forall a :: a in Adds(hash, early, blocks(i)) ==> a in r)
            && (forall k :: WithKey(key, k, Dedup(hash, early)) + WithKey(key, k, Adds(hash, early, blocks(i)))
                            <= WithKey(key, k, r))
  {
    hide EffectiveFingerprint, Adds, WithKey, Concat, Dedup, HighlightKey, KeyLeq, SortBy;
    var key := ByHighlightKey(blocking);
    var n, rest := TakeOut(ids, i);
    var first := [i] + rest;
    assert multiset(first) == multiset(ids);
    var c, d := Concat(blocks, first), Dedup(hash, early + Concat(blocks, first));
    ConcatAppend(blocks, [i], rest);
    ConcatOne(blocks, i);
    DedupAppend(hash, early, c);
    AddsAppend(hash, early, blocks(i), Concat(blocks, rest));
    SortByMembers(key, d);
    forall k
      ensures WithKey(key, k, Dedup(hash, early)) + WithKey(key, k, Adds(hash, early, blocks(i)))
              <= WithKey(key, k, SortBy(key, d))
    {
      SortByStable(key, k, d);
      WithKeyAppend(key, k, Dedup(hash, early), Adds(hash, early, c));
      WithKeyAppend(key, k, Adds(hash, early, blocks(i)), Adds(hash, early + blocks(i), Concat(blocks, rest)));
    }
  }

  lemma PrefixesOfOne<T>(e: seq<T>, p: seq<T>, q: seq<T>, r: seq<T>)
    requires e + p <= r && e + q <= r
    ensures Comparable(p, q)
  {
    assert p == r[|e|..|e| + |p|] && q == r[|e|..|e| + |q|];
  }

  /** The condition is exact: the ranking, from which every budget takes its highlights, is the same for every order of
      the blocks if and only if the blocks agree. */
  lemma IgnoresBlockOrderIff(hash: Hash, blocking: Blocking, early: seq<Highlight>, blocks: Blocks, ids: seq<string>)
    ensures IgnoresBlockOrder(hash, blocking, early, blocks, ids) <==>
            BlocksAgree(hash, ByHighlightKey(blocking), early, blocks, ids)
  {
    hide EffectiveFingerprint, Adds, WithKey, Concat, Dedup, HighlightKey, Ranked, SameOnFingerprints;
    var key, r := ByHighlightKey(blocking), Ranked(hash, blocking, early + Concat(blocks, ids));
    if BlocksAgree(hash, key, early, blocks, ids) {
      forall ids' | multiset(ids') == multiset(ids)
        ensures Ranked(hash, blocking, early + Concat(blocks, ids')) == r
      {
        SameIds(ids, ids');
        SameRankingIf(hash, blocking, early, blocks, ids, ids');
      }
    }
    if IgnoresBlockOrder(hash, blocking, early, blocks, ids) {
      RankedFacts(hash, blocking, early + Concat(blocks, ids));
      forall i, j | i in ids && j in ids
        ensures SameOnFingerprints(hash, Adds(hash, early, blocks(i)), Adds(hash, early, blocks(j)))
        ensures forall k :: Comparable(AddsUnder(hash, key, early, blocks, i, k),
                                       AddsUnder(hash, key, early, blocks, j, k))
      {
        FirstBlock(hash, blocking, early, blocks, ids, i);
        FirstBlock(hash, blocking, early, blocks, ids, j);
        SameInRanking(hash, early, blocks(i), blocks(j), r);
        forall k
          ensures Comparable(AddsUnder(hash, key, early, blocks, i, k), AddsUnder(hash, key, early, blocks, j, k))
        {
          PrefixesOfOne(WithKey(key, k, Dedup(hash, early)), AddsUnder(hash, key, early, blocks, i, k),
                        AddsUnder(hash, key, early, blocks, j, k), WithKey(key, k, r));
        }
      }
    }
  }

  lemma SameIds(ids: seq<string>, ids': seq<string>)
    requires multiset(ids') == multiset(ids)
    ensures forall id :: id in ids <==> id in ids'
  {
    forall id
      ensures id in ids <==> id in ids'
    {
      assert id in multiset(ids) <==> id in multiset(ids');
    }
  }

  lemma SameInRanking(hash: Hash, early: seq<Highlight>, a: seq<Highlight>, b: seq<Highlight>, r: seq<Highlight>)
    requires FingerprintsDistinct(r)
    requires forall x :: x in Adds(hash, early, a) || x in Adds(hash, early, b) ==> x in r
    ensures SameOnFingerprints(hash, Adds(hash, early, a), Adds(hash, early, b))
  {
    hide EffectiveFingerprint, Adds;
    AddsFacts(hash, early, a);
    AddsFacts(hash, early, b);
    forall x, y | x in Adds(hash, early, a) && y in Adds(hash, early, b)
      && EffectiveFingerprint(hash, x) == EffectiveFingerprint(hash, y)
      ensures x == y
    {
      var m :| 0 <= m < |r| && r[m] == x;
      var n :| 0 <= n < |r| && r[n] == y;
    }
  }
}
