/** What a budget shows of candidates that arrive sensor by sensor, and when that does not depend on their order. */
module BlockCut {
  import opened Types
  import opened SortKeys
  import opened StableSort
  import opened Fingerprint
  import opened Findings
  import opened Highlights
  import opened SelectionOrder
  import opened SensorBlocks

  function Minus(a: nat, b: nat): nat {
    if a <= b then 0 else a - b
  }

  // ---- A key class of the beginning of a sorted list ----

  ghost function LessCount(key: Highlight -> Key, k: Key, s: seq<Highlight>): nat {
    if s == [] then 0 else (if KeyLeq(k, key(s[0])) then 0 else 1) + LessCount(key, k, s[1..])
  }

  /** The elements that sort before the key `k`. */
  ghost function Below(key: Highlight -> Key, k: Key, s: seq<Highlight>): set<Highlight> {
    set x | x in s && !KeyLeq(k, key(x))
  }

  lemma {:induction false} LessCountIsSize(key: Highlight -> Key, k: Key, s: seq<Highlight>)
    requires Distinct(s)
    ensures LessCount(key, k, s) == |Below(key, k, s)|
  {
    hide KeyLeq;
    if s != [] {
      var t := s[1..];
      assert s == [s[0]] + t;
      LessCountIsSize(key, k, t);
      assert s[0] !in t;
      assert Below(key, k, s) == Below(key, k, t) + if KeyLeq(k, key(s[0])) then {} else {s[0]};
    }
  }

  lemma {:induction false} NothingBefore(key: Highlight -> Key, k: Key, s: seq<Highlight>)
    requires forall x :: x in s ==> KeyLeq(k, key(x))
    ensures LessCount(key, k, s) == 0
    ensures (forall x :: x in s ==> key(x) != k) ==> WithKey(key, k, s) == []
  {
    hide KeyLeq;
    if s != [] {
      assert s == [s[0]] + s[1..];
      NothingBefore(key, k, s[1..]);
    }
  }

  /** Of a sorted list's beginning, the class of `k` gets the room that smaller keys leave. */
  lemma {:induction false} ClassOfBeginning(key: Highlight -> Key, k: Key, s: seq<Highlight>, n: nat)
    requires Sorted(key, s)
    ensures WithKey(key, k, Take(s, n)) == Take(WithKey(key, k, s), Minus(n, LessCount(key, k, s)))
  {
    hide KeyLeq;
    if s != [] && n > 0 {
      var x, t := s[0], s[1..];
      SortedCons(key, s);
      ClassOfBeginning(key, k, t, n - 1);
      assert Take(s, n) == [x] + Take(t, n - 1);
      assert Take(s, n)[1..] == Take(t, n - 1);
      if KeyLeq(k, key(x)) {
        forall y | y in t
          ensures KeyLeq(k, key(y)) && (key(x) != k ==> key(y) != k)
        {
          KeyLeqTransitive(k, key(x), key(y));
          if key(y) == k {
            KeyLeqAntisymmetric(k, key(x));
          }
        }
        NothingBefore(key, k, t);
      } else {
        KeyLeqReflexive(k);
      }
    }
  }

  // ---- What is kept ----

  /** If blocks agree on common fingerprints, what they add together is what each of them adds. */
  lemma {:induction false} AddedTogether(hash: Hash, early: seq<Highlight>, blocks: Blocks, ids: seq<string>)
    requires FingerprintsAgree(hash, early, blocks, ids)
    ensures forall x :: x in Adds(hash, early, Concat(blocks, ids)) <==>
            exists i :: i in ids && x in Adds(hash, early, blocks(i))
  {
    hide EffectiveFingerprint, Adds, Concat, Seen, SameOnFingerprints, Unseen;
    if ids == [] {
      NoBlocks(hash, early, blocks);
    } else {
      var n := |ids| - 1;
      var front, j := ids[..n], ids[n];
      assert ids == front + [j];
      AddedTogether(hash, early, blocks, front);
      var c := Concat(blocks, front);
      ConcatAppend(blocks, front, [j]);
      ConcatOne(blocks, j);
      AddsAppend(hash, early, c, blocks(j));
      AddsAfter(hash, early, c, blocks(j));
      UnseenMembers(hash, c, Adds(hash, early, blocks(j)));
      forall x | x in Adds(hash, early, blocks(j)) && Seen(hash, c, EffectiveFingerprint(hash, x))
        ensures exists m :: m in front && x in Adds(hash, early, blocks(m))
      {
        var m := SeenInBlock(hash, early, blocks, front, j, x);
      }
    }
  }

  lemma {:induction false} UnseenMembers(hash: Hash, others: seq<Highlight>, hs: seq<Highlight>)
    ensures forall x :: x in Unseen(hash, others, hs) <==> x in hs && !Seen(hash, others, EffectiveFingerprint(hash, x))
  {
    hide EffectiveFingerprint, Seen;
    if hs != [] {
      var n := |hs| - 1;
      UnseenMembers(hash, others, hs[..n]);
      assert hs == hs[..n] + [hs[n]];
    }
  }

  lemma SameKept(hash: Hash, early: seq<Highlight>, blocks: Blocks, ids: seq<string>, ids': seq<string>)
    requires FingerprintsAgree(hash, early, blocks, ids) && forall id :: id in ids <==> id in ids'
    ensures forall x ::
      x in Dedup(hash, early + Concat(blocks, ids)) <==> x in Dedup(hash, early + Concat(blocks, ids'))
  {
    hide EffectiveFingerprint, Adds, Concat, SameOnFingerprints, Dedup;
    AddedTogether(hash, early, blocks, ids);
    AddedTogether(hash, early, blocks, ids');
    DedupAppend(hash, early, Concat(blocks, ids));
    DedupAppend(hash, early, Concat(blocks, ids'));
  }

  // ---- The condition ----

  /** What smaller keys and the candidates raised early leave of the budget for the class of `k`. */
  ghost function Room(hash: Hash, key: Highlight -> Key, max: nat, early: seq<Highlight>, all: seq<Highlight>,
                      k: Key): nat
  {
    Minus(max, |Below(key, k, Dedup(hash, all))| + |WithKey(key, k, Dedup(hash, early))|)
  }

  /** Under each key, as far as the budget has room, one block lists a beginning of what the other lists. */
  ghost predicate CutAgrees(hash: Hash, key: Highlight -> Key, max: nat, early: seq<Highlight>, blocks: Blocks,
                            ids: seq<string>)
  {
    forall k ::
      ComparableUnder(hash, key, early, blocks, ids, k, Room(hash, key, max, early, early + Concat(blocks, ids), k))
  }

  /** The selection within the budget is the same for every order of the blocks. */
  ghost predicate CutIgnoresBlockOrder(hash: Hash, blocking: Blocking, max: nat, early: seq<Highlight>, blocks: Blocks,
                                       ids: seq<string>)
  {
    forall ids' :: multiset(ids') == multiset(ids) ==>
      Select(hash, blocking, max, early + Concat(blocks, ids')) ==
        Select(hash, blocking, max, early + Concat(blocks, ids))
  }

  lemma TakeTwo<T>(e: seq<T>, g: seq<T>, n: nat)
    ensures Take(e + g, n) == Take(e, n) + Take(g, Minus(n, |e|))
  {
  }

  /** The class of `k` in the selection: what came early, then the blocks as far as there is room. */
  lemma ClassOfSelection(hash: Hash, blocking: Blocking, max: nat, early: seq<Highlight>, c: seq<Highlight>, k: Key)
    ensures var key := ByHighlightKey(blocking);
            var e := WithKey(key, k, Dedup(hash, early));
            var n := Minus(max, |Below(key, k, Dedup(hash, early + c))|);
            WithKey(key, k, Select(hash, blocking, max, early + c)) ==
            Take(e, n) + Take(WithKey(key, k, Adds(hash, early, c)), Room(hash, key, max, early, early + c, k))
  {
    hide EffectiveFingerprint, Adds, WithKey, Dedup, HighlightKey, KeyLeq, SortBy, Take, Below, Seen;
    var key, d := ByHighlightKey(blocking), Dedup(hash, early + c);
    RankedFacts(hash, blocking, early + c);
    ClassOfBeginning(key, k, SortBy(key, d), max);
    assert Distinct(SortBy(key, d)) by { Evident(SortBy(key, d)); }
    LessCountIsSize(key, k, SortBy(key, d));
    SameBelow(key, k, SortBy(key, d), d);
    SortByStable(key, k, d);
    DedupAppend(hash, early, c);
    WithKeyAppend(key, k, Dedup(hash, early), Adds(hash, early, c));
    TakeTwo(WithKey(key, k, Dedup(hash, early)), WithKey(key, k, Adds(hash, early, c)), Minus(max, |Below(key, k, d)|));
  }

  lemma Evident(hs: seq<Highlight>)
    requires FingerprintsDistinct(hs)
    ensures Distinct(hs)
  {
  }

  lemma SameBelow(key: Highlight -> Key, k: Key, s: seq<Highlight>, t: seq<Highlight>)
    requires forall x :: x in s <==> x in t
    ensures Below(key, k, s) == Below(key, k, t)
  {
  }

  lemma SameRoom(hash: Hash, key: Highlight -> Key, max: nat, early: seq<Highlight>, blocks: Blocks, ids: seq<string>,
                 ids': seq<string>, k: Key)
    requires FingerprintsAgree(hash, early, blocks, ids) && multiset(ids') == multiset(ids)
    ensures Below(key, k, Dedup(hash, early + Concat(blocks, ids'))) ==
            Below(key, k, Dedup(hash, early + Concat(blocks, ids)))
    ensures Room(hash, key, max, early, early + Concat(blocks, ids'), k) ==
            Room(hash, key, max, early, early + Concat(blocks, ids), k)
  {
    hide EffectiveFingerprint, Concat, FingerprintsAgree, Dedup, Below, WithKey;
    SameIds(ids, ids');
    SameKept(hash, early, blocks, ids, ids');
    SameBelow(key, k, Dedup(hash, early + Concat(blocks, ids')), Dedup(hash, early + Concat(blocks, ids)));
  }

  /** Any block can come first, and then the class of `k` in the selection goes on with what it adds. */
  lemma FirstInSelection(hash: Hash, blocking: Blocking, max: nat, early: seq<Highlight>, blocks: Blocks,
                         ids: seq<string>, i: string, k: Key)
    requires FingerprintsAgree(hash, early, blocks, ids) && i in ids
    requires CutIgnoresBlockOrder(hash, blocking, max, early, blocks, ids)
    ensures var key, all := ByHighlightKey(blocking), early + Concat(blocks, ids);
            var n := Minus(max, |Below(key, k, Dedup(hash, all))|);
            Take(WithKey(key, k, Dedup(hash, early)), n)
            + Take(AddsUnder(hash, key, early, blocks, i, k), Room(hash, key, max, early, all, k))
            <= WithKey(key, k, Select(hash, blocking, max, all))
  {
    hide EffectiveFingerprint, Adds, WithKey, Concat, Dedup, HighlightKey, KeyLeq, Select, Below, Room,
         FingerprintsAgree, Take;
    var key := ByHighlightKey(blocking);
    var n, rest := TakeOut(ids, i);
    var first := [i] + rest;
    assert multiset(first) == multiset(ids);
    var c := Concat(blocks, first);
    ClassOfSelection(hash, blocking, max, early, c, k);
    SameRoom(hash, key, max, early, blocks, ids, first, k);
    ConcatAppend(blocks, [i], rest);
    ConcatOne(blocks, i);
    AddsAppend(hash, early, blocks(i), Concat(blocks, rest));
    WithKeyAppend(key, k, Adds(hash, early, blocks(i)), Adds(hash, early + blocks(i), Concat(blocks, rest)));
    TakeTwo(AddsUnder(hash, key, early, blocks, i, k),
            WithKey(key, k, Adds(hash, early + blocks(i), Concat(blocks, rest))),
            Room(hash, key, max, early, early + Concat(blocks, ids), k));
  }

  /** Exact at every budget, for blocks that agree on common fingerprints, as disjoint ones do: the selection is the
      same for every order of the blocks if and only if they are comparable under each key as far as the budget has
      room. */
  lemma CutIgnoresBlockOrderIff(hash: Hash, blocking: Blocking, max: nat, early: seq<Highlight>, blocks: Blocks,
                                ids: seq<string>)
    requires FingerprintsAgree(hash, early, blocks, ids)
    ensures CutIgnoresBlockOrder(hash, blocking, max, early, blocks, ids) <==>
            CutAgrees(hash, ByHighlightKey(blocking), max, early, blocks, ids)
  {
    hide EffectiveFingerprint, Adds, WithKey, Concat, Dedup, HighlightKey, KeyLeq, Select, Below, Room,
         FingerprintsAgree, Take, AddsUnder, Comparable;
    var key, all := ByHighlightKey(blocking), early + Concat(blocks, ids);
    if CutAgrees(hash, key, max, early, blocks, ids) {
      forall ids' | multiset(ids') == multiset(ids)
        ensures Select(hash, blocking, max, early + Concat(blocks, ids')) == Select(hash, blocking, max, all)
      {
        SameSelectionIf(hash, blocking, max, early, blocks, ids, ids');
      }
    }
    if CutIgnoresBlockOrder(hash, blocking, max, early, blocks, ids) {
      forall i, j, k | i in ids && j in ids
        ensures var r := Room(hash, key, max, early, all, k);
                Comparable(Take(AddsUnder(hash, key, early, blocks, i, k), r),
                           Take(AddsUnder(hash, key, early, blocks, j, k), r))
      {
        FirstInSelection(hash, blocking, max, early, blocks, ids, i, k);
        FirstInSelection(hash, blocking, max, early, blocks, ids, j, k);
        var r := Room(hash, key, max, early, all, k);
        PrefixesOfOne(Take(WithKey(key, k, Dedup(hash, early)), Minus(max, |Below(key, k, Dedup(hash, all))|)),
                      Take(AddsUnder(hash, key, early, blocks, i, k), r),
                      Take(AddsUnder(hash, key, early, blocks, j, k), r),
                      WithKey(key, k, Select(hash, blocking, max, all)));
      }
    }
  }

  lemma SameSelectionIf(hash: Hash, blocking: Blocking, max: nat, early: seq<Highlight>, blocks: Blocks,
                        ids: seq<string>, ids': seq<string>)
    requires FingerprintsAgree(hash, early, blocks, ids) && multiset(ids') == multiset(ids)
    requires CutAgrees(hash, ByHighlightKey(blocking), max, early, blocks, ids)
    ensures Select(hash, blocking, max, early + Concat(blocks, ids')) ==
            Select(hash, blocking, max, early + Concat(blocks, ids))
  {
    hide EffectiveFingerprint, Adds, WithKey, Concat, Dedup, HighlightKey, KeyLeq, Select, Below, Room,
         FingerprintsAgree, Take, ComparableUnder;
    var key, all, all' := ByHighlightKey(blocking), early + Concat(blocks, ids), early + Concat(blocks, ids');
    SameIds(ids, ids');
    forall k
      ensures WithKey(key, k, Select(hash, blocking, max, all')) == WithKey(key, k, Select(hash, blocking, max, all))
    {
      ClassOfSelection(hash, blocking, max, early, Concat(blocks, ids), k);
      ClassOfSelection(hash, blocking, max, early, Concat(blocks, ids'), k);
      SameRoom(hash, key, max, early, blocks, ids, ids', k);
      SameClass(hash, key, early, blocks, ids, ids', k, Room(hash, key, max, early, all, k));
    }
    SelectIsTopK(hash, blocking, max, all);
    SelectIsTopK(hash, blocking, max, all');
    SortedUnique(key, Select(hash, blocking, max, all'), Select(hash, blocking, max, all));
  }
}
