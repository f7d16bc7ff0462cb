/** The library's stable sort (`sort_by`, `sort_by_key`), as a function: insertion that keeps equal keys
    in input order. `StableSortUnique` shows that any stable sort returns the same list. */
module StableSort {
  import opened SortKeys

  function Insert<T>(key: T -> Key, x: T, s: seq<T>): seq<T> {
    if s == [] || KeyLeq(key(x), key(s[0])) then [x] + s else [s[0]] + Insert(key, x, s[1..])
  }

  function SortBy<T>(key: T -> Key, s: seq<T>): seq<T> {
    if s == [] then [] else Insert(key, s[0], SortBy(key, s[1..]))
  }

  ghost predicate Sorted<T>(key: T -> Key, s: seq<T>) {
    forall i, j :: 0 <= i < j < |s| ==> KeyLeq(key(s[i]), key(s[j]))
  }

  /** The elements whose key is `k`, in list order. */
  ghost function WithKey<T>(key: T -> Key, k: Key, s: seq<T>): seq<T> {
    if s == [] then []
    else if key(s[0]) == k then [s[0]] + WithKey(key, k, s[1..])
    else WithKey(key, k, s[1..])
  }

  ghost predicate KeysDecide<T>(key: T -> Key, s: seq<T>) {
    forall x, y :: x in s && y in s && key(x) == key(y) ==> x == y
  }

  lemma SortedCons<T>(key: T -> Key, s: seq<T>)
    requires s != []
    ensures Sorted(key, s) <==> Sorted(key, s[1..]) && forall y :: y in s[1..] ==> KeyLeq(key(s[0]), key(y))
  {
    var t := s[1..];
    if Sorted(key, t) && forall y :: y in t ==> KeyLeq(key(s[0]), key(y)) {
      forall i, j | 0 <= i < j < |s|
        ensures KeyLeq(key(s[i]), key(s[j]))
      {
        assert s[j] == t[j - 1] && t[j - 1] in t;
        if i > 0 {
          assert s[i] == t[i - 1];
        }
      }
    }
    if Sorted(key, s) {
      forall y | y in t
        ensures KeyLeq(key(s[0]), key(y))
      {
        var j :| 0 <= j < |t| && t[j] == y;
        assert s[j + 1] == y;
      }
    }
  }

  lemma {:induction false} InsertMultiset<T>(key: T -> Key, x: T, s: seq<T>)
    ensures multiset(Insert(key, x, s)) == multiset{x} + multiset(s)
  {
    if s == [] || KeyLeq(key(x), key(s[0])) {
    } else {
      InsertMultiset(key, x, s[1..]);
      assert s == [s[0]] + s[1..];
    }
  }

  lemma InsertMember<T>(key: T -> Key, x: T, s: seq<T>, y: T)
    ensures y in Insert(key, x, s) <==> y == x || y in s
  {
    InsertMultiset(key, x, s);
    assert y in Insert(key, x, s) <==> y in multiset(Insert(key, x, s));
    assert y in multiset{x} + multiset(s) <==> y == x || y in s;
  }

  lemma {:induction false} InsertSorted<T>(key: T -> Key, x: T, s: seq<T>)
    requires Sorted(key, s)
    ensures Sorted(key, Insert(key, x, s))
  {
    hide KeyLeq;
    var r := Insert(key, x, s);
    if s == [] {
    } else if KeyLeq(key(x), key(s[0])) {
      SortedCons(key, s);
      forall y | y in s
        ensures KeyLeq(key(x), key(y))
      {
        if y != s[0] {
          assert y in s[1..];
          KeyLeqTransitive(key(x), key(s[0]), key(y));
        }
      }
      assert r[1..] == s;
      SortedCons(key, r);
    } else {
      SortedCons(key, s);
      InsertSorted(key, x, s[1..]);
      KeyLeqTotal(key(x), key(s[0]));
      assert r[0] == s[0] && r[1..] == Insert(key, x, s[1..]);
      forall y | y in r[1..]
        ensures KeyLeq(key(s[0]), key(y))
      {
        InsertMember(key, x, s[1..], y);
      }
      SortedCons(key, r);
    }
  }

  /** The result is sorted and a permutation. */
  lemma {:induction false} SortByCorrect<T>(key: T -> Key, s: seq<T>)
    ensures Sorted(key, SortBy(key, s)) && multiset(SortBy(key, s)) == multiset(s)
    ensures |SortBy(key, s)| == |s|
  {
    hide KeyLeq;
    if s != [] {
      SortByCorrect(key, s[1..]);
      InsertSorted(key, s[0], SortBy(key, s[1..]));
      InsertMultiset(key, s[0], SortBy(key, s[1..]));
      assert s == [s[0]] + s[1..];
    }
    assert |multiset(SortBy(key, s))| == |multiset(s)|;
  }

  lemma SortByLength<T>(key: T -> Key, s: seq<T>)
    ensures |SortBy(key, s)| == |s|
  {
    SortByCorrect(key, s);
  }

  lemma SortByMember<T>(key: T -> Key, s: seq<T>, x: T)
    ensures x in SortBy(key, s) <==> x in s
  {
    SortByCorrect(key, s);
    assert x in multiset(SortBy(key, s)) <==> x in multiset(s);
  }

  lemma SortByMembers<T>(key: T -> Key, s: seq<T>)
    ensures forall x :: x in SortBy(key, s) <==> x in s
  {
    forall x
      ensures x in SortBy(key, s) <==> x in s
    {
      SortByMember(key, s, x);
    }
  }

  lemma {:induction false} InsertStable<T>(key: T -> Key, k: Key, x: T, s: seq<T>)
    requires Sorted(key, s)
    ensures WithKey(key, k, Insert(key, x, s)) ==
            if key(x) == k then [x] + WithKey(key, k, s) else WithKey(key, k, s)
  {
    var r := Insert(key, x, s);
    if s == [] || KeyLeq(key(x), key(s[0])) {
      assert r[1..] == s;
    } else {
      SortedCons(key, s);
      InsertStable(key, k, x, s[1..]);
      assert r[1..] == Insert(key, x, s[1..]);
      if key(x) == k {
        NoneWithKey(key, k, s);
      }
    }
  }

  lemma {:induction false} NoneWithKey<T>(key: T -> Key, k: Key, s: seq<T>)
    requires s != [] && !KeyLeq(k, key(s[0]))
    ensures key(s[0]) != k
  {
    KeyLeqReflexive(k);
  }

  /** Elements with equal keys keep their input order. */
  lemma {:induction false} SortByStable<T>(key: T -> Key, k: Key, s: seq<T>)
    ensures WithKey(key, k, SortBy(key, s)) == WithKey(key, k, s)
  {
    if s != [] {
      SortByStable(key, k, s[1..]);
      SortByCorrect(key, s[1..]);
      InsertStable(key, k, s[0], SortBy(key, s[1..]));
    }
  }

  lemma {:induction false} WithKeyMember<T>(key: T -> Key, k: Key, s: seq<T>)
    ensures WithKey(key, k, s) != [] <==> exists y :: y in s && key(y) == k
  {
    if s != [] {
      WithKeyMember(key, k, s[1..]);
      assert forall y :: y in s <==> y == s[0] || y in s[1..];
    }
  }

  lemma SameClasses<T>(key: T -> Key, r: seq<T>, s: seq<T>, x: T)
    requires x in r && Sorted(key, s) && WithKey(key, key(x), r) == WithKey(key, key(x), s)
    ensures s != [] && KeyLeq(key(s[0]), key(x))
  {
    WithKeyMember(key, key(x), r);
    WithKeyMember(key, key(x), s);
    var y :| y in s && key(y) == key(x);
    HeadIsLeast(key, s, y);
  }

  /** Two sorted lists that agree on every key class are equal. */
  lemma {:induction false} SortedUnique<T>(key: T -> Key, r: seq<T>, s: seq<T>)
    requires Sorted(key, r) && Sorted(key, s)
    requires forall k :: WithKey(key, k, r) == WithKey(key, k, s)
    ensures r == s
    decreases |r|
  {
    if r == [] {
      var k := if s == [] then [] else key(s[0]);
      WithKeyMember(key, k, s);
      assert WithKey(key, k, r) == WithKey(key, k, s);
    } else {
      var k := key(r[0]);
      SameClasses(key, r, s, r[0]);
      SameClasses(key, s, r, s[0]);
      KeyLeqAntisymmetric(k, key(s[0]));
      forall j
        ensures WithKey(key, j, r[1..]) == WithKey(key, j, s[1..])
      {
        assert WithKey(key, j, r) == WithKey(key, j, s);
        if j == k {
          assert WithKey(key, j, r)[1..] == WithKey(key, j, r[1..]);
          assert WithKey(key, j, s)[1..] == WithKey(key, j, s[1..]);
        }
      }
      assert WithKey(key, k, r)[0] == r[0] && WithKey(key, k, s)[0] == s[0];
      SortedUnique(key, r[1..], s[1..]);
      assert r == [r[0]] + r[1..] && s == [s[0]] + s[1..];
    }
  }

  /** Whatever algorithm the library uses: a sorted result that keeps the order within every key class
      is this one. */
  lemma StableSortUnique<T>(key: T -> Key, s: seq<T>, r: seq<T>)
    requires Sorted(key, r) && forall k :: WithKey(key, k, r) == WithKey(key, k, s)
    ensures r == SortBy(key, s)
  {
    SortByCorrect(key, s);
    forall k
      ensures WithKey(key, k, r) == WithKey(key, k, SortBy(key, s))
    {
      SortByStable(key, k, s);
    }
    SortedUnique(key, r, SortBy(key, s));
  }

  lemma SortByFixpoint<T>(key: T -> Key, s: seq<T>)
    requires Sorted(key, s)
    ensures SortBy(key, s) == s
  {
    StableSortUnique(key, s, s);
  }

  lemma HeadIsLeast<T>(key: T -> Key, s: seq<T>, y: T)
    requires Sorted(key, s) && y in s
    ensures KeyLeq(key(s[0]), key(y))
  {
    KeyLeqReflexive(key(y));
    var j :| 0 <= j < |s| && s[j] == y;
  }

  lemma SmallerStandsBefore<T>(key: T -> Key, s: seq<T>, i: nat, j: nat)
    requires Sorted(key, s) && i < |s| && j < |s| && !KeyLeq(key(s[i]), key(s[j]))
    ensures j < i
  {
    KeyLeqReflexive(key(s[i]));
  }

  lemma DropHead<T>(r: seq<T>, s: seq<T>)
    requires r != [] && s != [] && r[0] == s[0] && multiset(r) == multiset(s)
    ensures multiset(r[1..]) == multiset(s[1..])
    ensures (forall x :: x in r[1..] ==> x in r) && (r[1..] == s[1..] ==> r == s)
  {
    assert r == [r[0]] + r[1..] && s == [s[0]] + s[1..];
    assert multiset(r[1..]) == multiset(r) - multiset{r[0]};
  }

  /** When keys decide elements, the input order does not matter. */
  lemma {:induction false} SortedSameElements<T>(key: T -> Key, r: seq<T>, s: seq<T>)
    requires Sorted(key, r) && Sorted(key, s) && multiset(r) == multiset(s) && KeysDecide(key, r)
    ensures r == s
    decreases |r|
  {
    hide KeyLeq;
    assert |multiset(r)| == |multiset(s)|;
    if r != [] {
      assert r[0] in multiset(s) && s[0] in multiset(r);
      HeadIsLeast(key, r, s[0]);
      HeadIsLeast(key, s, r[0]);
      KeyLeqAntisymmetric(key(r[0]), key(s[0]));
      DropHead(r, s);
      SortedSameElements(key, r[1..], s[1..]);
    }
  }

  lemma SortPermutation<T>(key: T -> Key, s: seq<T>, t: seq<T>)
    requires multiset(s) == multiset(t) && KeysDecide(key, s)
    ensures SortBy(key, s) == SortBy(key, t)
  {
    hide KeyLeq;
    SortByCorrect(key, s);
    SortByCorrect(key, t);
    SortByMembers(key, s);
    assert KeysDecide(key, SortBy(key, s));
    SortedSameElements(key, SortBy(key, s), SortBy(key, t));
  }

  lemma {:induction false} InsertCongruent<T>(key: T -> Key, other: T -> Key, x: T, s: seq<T>)
    requires key(x) == other(x) && forall y :: y in s ==> key(y) == other(y)
    ensures Insert(key, x, s) == Insert(other, x, s)
  {
    if s != [] {
      InsertCongruent(key, other, x, s[1..]);
    }
  }

  /** Only the keys of the elements at hand matter. */
  lemma {:induction false} SortByCongruent<T>(key: T -> Key, other: T -> Key, s: seq<T>)
    requires forall y :: y in s ==> key(y) == other(y)
    ensures SortBy(key, s) == SortBy(other, s)
  {
    hide KeyLeq;
    if s != [] {
      SortByCongruent(key, other, s[1..]);
      var t := SortBy(other, s[1..]);
      forall y | y in t
        ensures key(y) == other(y)
      {
        SortByMember(other, s[1..], y);
      }
      InsertCongruent(key, other, s[0], t);
    }
  }

  /** `R` holds of every pair of list elements in list order. */
  ghost predicate AllPairs<T(!new)>(R: (T, T) -> bool, s: seq<T>) {
    forall i, j :: 0 <= i < j < |s| ==> R(s[i], s[j])
  }

  /** `R` holds of every pair of list elements in the order a stable sort puts them. */
  ghost predicate AllSortedPairs<T(!new)>(key: T -> Key, R: (T, T) -> bool, s: seq<T>) {
    forall i, j :: 0 <= i < j < |s| ==> if KeyLeq(key(s[i]), key(s[j])) then R(s[i], s[j]) else R(s[j], s[i])
  }

  lemma AllPairsCons<T(!new)>(R: (T, T) -> bool, s: seq<T>)
    requires s != []
    ensures AllPairs(R, s) <==> AllPairs(R, s[1..]) && forall y :: y in s[1..] ==> R(s[0], y)
  {
    var t := s[1..];
    if AllPairs(R, t) && forall y :: y in t ==> R(s[0], y) {
      forall i, j | 0 <= i < j < |s|
        ensures R(s[i], s[j])
      {
        assert s[j] == t[j - 1] && t[j - 1] in t;
        if i > 0 {
          assert s[i] == t[i - 1];
        }
      }
    }
    if AllPairs(R, s) {
      forall i, j | 0 <= i < j < |t|
        ensures R(t[i], t[j])
      {
        assert t[i] == s[i + 1] && t[j] == s[j + 1];
      }
      forall y | y in t
        ensures R(s[0], y)
      {
        var j :| 0 <= j < |t| && t[j] == y;
        assert s[j + 1] == y;
      }
    }
  }

  ghost predicate OrderedWith<T(!new)>(key: T -> Key, R: (T, T) -> bool, x: T, y: T) {
    if KeyLeq(key(x), key(y)) then R(x, y) else R(y, x)
  }

  lemma {:induction false} InsertPairs<T(!new)>(key: T -> Key, R: (T, T) -> bool, x: T, s: seq<T>)
    requires Sorted(key, s)
    ensures AllPairs(R, Insert(key, x, s)) <==> AllPairs(R, s) && forall y :: y in s ==> OrderedWith(key, R, x, y)
  {
    hide KeyLeq;
    var r := Insert(key, x, s);
    AllPairsCons(R, r);
    if s == [] {
    } else if KeyLeq(key(x), key(s[0])) {
      SortedCons(key, s);
      assert r[1..] == s;
      forall y | y in s
        ensures KeyLeq(key(x), key(y))
      {
        if y != s[0] {
          assert y in s[1..];
          KeyLeqTransitive(key(x), key(s[0]), key(y));
        }
      }
    } else {
      SortedCons(key, s);
      AllPairsCons(R, s);
      assert r[1..] == Insert(key, x, s[1..]);
      InsertPairs(key, R, x, s[1..]);
      forall y
        ensures y in r[1..] <==> y == x || y in s[1..]
      {
        InsertMember(key, x, s[1..], y);
      }
      assert forall y :: y in s <==> y == s[0] || y in s[1..];
    }
  }

  /** What a stable sort does to pairs: two elements come out in key order, and in input order when
      their keys are equal. So a relation holds along the output exactly when it holds of every input
      pair arranged that way. */
  lemma {:induction false} SortedPairs<T(!new)>(key: T -> Key, R: (T, T) -> bool, s: seq<T>)
    ensures AllPairs(R, SortBy(key, s)) <==> AllSortedPairs(key, R, s)
  {
    if s != [] {
      var t := s[1..];
      SortedPairs(key, R, t);
      SortByCorrect(key, t);
      SortByMembers(key, t);
      InsertPairs(key, R, s[0], SortBy(key, t));
      SortedPairsCons(key, R, s);
    }
  }

  lemma SortedPairsCons<T(!new)>(key: T -> Key, R: (T, T) -> bool, s: seq<T>)
    requires s != []
    ensures AllSortedPairs(key, R, s) <==>
            AllSortedPairs(key, R, s[1..]) && forall y :: y in s[1..] ==> OrderedWith(key, R, s[0], y)
  {
    var t := s[1..];
    if AllSortedPairs(key, R, t) && forall y :: y in t ==> OrderedWith(key, R, s[0], y) {
      forall i, j | 0 <= i < j < |s|
        ensures OrderedWith(key, R, s[i], s[j])
      {
        assert s[j] == t[j - 1] && t[j - 1] in t;
        if i > 0 {
          assert s[i] == t[i - 1];
        }
      }
    }
    if AllSortedPairs(key, R, s) {
      forall i, j | 0 <= i < j < |t|
        ensures OrderedWith(key, R, t[i], t[j])
      {
        assert t[i] == s[i + 1] && t[j] == s[j + 1];
      }
      forall y | y in t
        ensures OrderedWith(key, R, s[0], y)
      {
        var j :| 0 <= j < |t| && t[j] == y;
        assert s[j + 1] == y;
      }
    }
  }

  lemma TakeOut<T>(s: seq<T>, x: T) returns (i: nat, rest: seq<T>)
    requires x in s
    ensures i < |s| && s[i] == x && rest == s[..i] + s[i + 1..]
    ensures multiset(s) == multiset{x} + multiset(rest)
  {
    i :| 0 <= i < |s| && s[i] == x;
    rest := s[..i] + s[i + 1..];
    assert s == s[..i] + ([x] + s[i + 1..]);
  }

  lemma {:induction false} WithKeyAppend<T>(key: T -> Key, k: Key, a: seq<T>, b: seq<T>)
    ensures WithKey(key, k, a + b) == WithKey(key, k, a) + WithKey(key, k, b)
  {
    if a == [] {
      assert a + b == b;
    } else {
      assert (a + b)[1..] == a[1..] + b;
      WithKeyAppend(key, k, a[1..], b);
    }
  }

  /** The head of a key class is the first list element with that key. */
  lemma {:induction false} FirstOfClass<T>(key: T -> Key, k: Key, s: seq<T>) returns (i: nat)
    requires WithKey(key, k, s) != []
    ensures i < |s| && s[i] == WithKey(key, k, s)[0] && key(s[i]) == k
    ensures forall j :: 0 <= j < i ==> key(s[j]) != k
  {
    if key(s[0]) == k {
      i := 0;
    } else {
      var n := FirstOfClass(key, k, s[1..]);
      i := n + 1;
      assert forall j :: 1 <= j < i ==> s[j] == s[1..][j - 1];
    }
  }

  /** The first `m` elements stand no later than any element after them. */
  ghost predicate SettledPrefix<T>(key: T -> Key, s: seq<T>, m: nat) {
    forall i, j :: 0 <= i < j < |s| && i < m ==> KeyLeq(key(s[i]), key(s[j]))
  }

  /** Sorting leaves the first `m` elements where they are exactly when none of them has to move behind a later one. */
  lemma PrefixStaysIff<T>(key: T -> Key, s: seq<T>, m: nat)
    requires m <= |s|
    ensures |SortBy(key, s)| == |s| && (SortBy(key, s)[..m] == s[..m] <==> SettledPrefix(key, s, m))
  {
    hide KeyLeq, SortBy, WithKey;
    var r := SortBy(key, s);
    SortByCorrect(key, s);
    if r[..m] == s[..m] {
      forall i, j | 0 <= i < j < |s| && i < m
        ensures KeyLeq(key(s[i]), key(s[j]))
      {
        assert r[i] == r[..m][i] == s[..m][i];
        if j < m {
          assert r[j] == r[..m][j] == s[..m][j];
        } else {
          SameRest(r, s, m);
          assert s[j] == s[m..][j - m] && s[j] in s[m..];
          var n :| 0 <= n < |r[m..]| && r[m..][n] == s[j];
          assert r[m + n] == s[j];
        }
      }
    }
    if SettledPrefix(key, s, m) {
      var u := SortBy(key, s[m..]);
      var t := s[..m] + u;
      SortByCorrect(key, s[m..]);
      SortByMembers(key, s[m..]);
      forall i, j | 0 <= i < j < |t|
        ensures KeyLeq(key(t[i]), key(t[j]))
      {
        if i < m <= j {
          assert t[j] == u[j - m];
          SortByMember(key, s[m..], t[j]);
          var v := s[m..];
          var n :| 0 <= n < |v| && v[n] == t[j];
          assert s[m + n] == t[j];
        } else if m <= i {
          assert t[i] == u[i - m] && t[j] == u[j - m];
        }
      }
      forall k
        ensures WithKey(key, k, t) == WithKey(key, k, s)
      {
        SortByStable(key, k, s[m..]);
        WithKeyAppend(key, k, s[..m], u);
        WithKeyAppend(key, k, s[..m], s[m..]);
        assert s == s[..m] + s[m..];
      }
      StableSortUnique(key, s, t);
    }
  }

  /** Two permutations with a common beginning have the same elements after it. */
  lemma SameRest<T>(r: seq<T>, s: seq<T>, m: nat)
    requires m <= |r| && m <= |s| && r[..m] == s[..m] && multiset(r) == multiset(s)
    ensures forall x :: x in r[m..] <==> x in s[m..]
  {
    assert r == r[..m] + r[m..] && s == s[..m] + s[m..];
    assert multiset(r[m..]) == multiset(r) - multiset(r[..m]);
    assert multiset(s[m..]) == multiset(s) - multiset(s[..m]);
    forall x
      ensures x in r[m..] <==> x in s[m..]
    {
      assert x in multiset(r[m..]) <==> x in multiset(s[m..]);
    }
  }

  // ---- The place of an element ----

  ghost predicate Distinct<T>(s: seq<T>) {
    forall i, j :: 0 <= i < j < |s| ==> s[i] != s[j]
  }

  ghost predicate StandsBefore<T>(s: seq<T>, y: T, x: T) {
    exists j, i :: 0 <= j < i < |s| && s[j] == y && s[i] == x
  }

  /** `y` has the smaller key, or the same key and the earlier place. */
  ghost predicate SortsBefore<T>(key: T -> Key, s: seq<T>, y: T, x: T) {
    !KeyLeq(key(x), key(y)) || (key(y) == key(x) && StandsBefore(s, y, x))
  }

  ghost function Predecessors<T>(key: T -> Key, s: seq<T>, x: T): set<T> {
    set y | y in s && SortsBefore(key, s, y, x)
  }

  lemma {:induction false} DistinctSize<T>(s: seq<T>)
    requires Distinct(s)
    ensures |set x | x in s| == |s|
  {
    if s != [] {
      var n := |s| - 1;
      var front := s[..n];
      DistinctSize(front);
      assert s == front + [s[n]];
      assert (set x | x in s) == (set x | x in front) + {s[n]};
    }
  }

  lemma SortsBeforeOneWay<T>(key: T -> Key, s: seq<T>, x: T, y: T)
    requires Distinct(s) && SortsBefore(key, s, x, y)
    ensures x != y && !SortsBefore(key, s, y, x)
  {
    hide KeyLeq;
    KeyLeqTotal(key(x), key(y));
    KeyLeqReflexive(key(x));
  }

  lemma SortOrder<T(!new)>(key: T -> Key, s: seq<T>)
    ensures var r := SortBy(key, s);
            forall q, p :: 0 <= q < p < |r| ==> SortsBefore(key, s, r[q], r[p])
  {
    hide KeyLeq;
    var before := (y: T, x: T) => SortsBefore(key, s, y, x);
    forall i, j | 0 <= i < j < |s|
      ensures if KeyLeq(key(s[i]), key(s[j])) then before(s[i], s[j]) else before(s[j], s[i])
    {
      if KeyLeq(key(s[i]), key(s[j])) && KeyLeq(key(s[j]), key(s[i])) {
        KeyLeqAntisymmetric(key(s[i]), key(s[j]));
      }
    }
    SortedPairs(key, before, s);
    var r := SortBy(key, s);
    forall q, p | 0 <= q < p < |r|
      ensures SortsBefore(key, s, r[q], r[p])
    {
      assert before(r[q], r[p]);
    }
  }

  /** Each element of a list without repeats comes out behind exactly its predecessors. */
  lemma PlaceInSort<T(!new)>(key: T -> Key, s: seq<T>, p: nat)
    requires Distinct(s) && p < |SortBy(key, s)|
    ensures |Predecessors(key, s, SortBy(key, s)[p])| == p
  {
    hide KeyLeq, SortBy, SortsBefore, Distinct;
    var r := SortBy(key, s);
    var x := r[p];
    SortByMembers(key, s);
    SortOrder(key, s);
    forall q, n | 0 <= q < n < |r|
      ensures r[q] != r[n]
    {
      SortsBeforeOneWay(key, s, r[q], r[n]);
    }
    forall y
      ensures y in Predecessors(key, s, x) <==> y in r[..p]
    {
      if y in r[..p] {
        assert y in r;
      }
      if y in Predecessors(key, s, x) {
        var q :| 0 <= q < |r| && r[q] == y;
        SortsBeforeOneWay(key, s, y, x);
        assert r[..p][q] == y;
      }
    }
    assert Predecessors(key, s, x) == set y | y in r[..p];
    DistinctPrefix(r, p);
    DistinctSize(r[..p]);
  }

  lemma DistinctPrefix<T>(r: seq<T>, p: nat)
    requires p <= |r| && forall q, n :: 0 <= q < n < |r| ==> r[q] != r[n]
    ensures Distinct(r[..p])
  {
  }

  /** So the first `max` are those with fewer than `max` predecessors. */
  lemma AmongFirstIff<T(!new)>(key: T -> Key, s: seq<T>, max: nat, x: T)
    requires Distinct(s)
    ensures var r := SortBy(key, s);
            x in r[..if max <= |r| then max else |r|] <==> x in s && |Predecessors(key, s, x)| < max
  {
    hide Predecessors, SortBy, Distinct;
    var r := SortBy(key, s);
    SortByMember(key, s, x);
    var n := if max <= |r| then max else |r|;
    if x in r[..n] {
      var p :| 0 <= p < n && r[..n][p] == x;
      assert x in r;
      PlaceInSort(key, s, p);
    }
    if x in s && |Predecessors(key, s, x)| < max {
      var p :| 0 <= p < |r| && r[p] == x;
      PlaceInSort(key, s, p);
      assert r[..n][p] == x;
    }
  }
}
