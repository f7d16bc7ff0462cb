/** Ordered sets of strings, as strictly ascending lists: how `BTreeSet` contents and `BTreeMap` keys are walked. */
module OrderedSet {
  import opened SortKeys

  ghost predicate StrictlyAscending(s: seq<string>) {
    forall i, j :: 0 <= i < j < |s| ==> StringLeq(s[i], s[j]) && s[i] != s[j]
  }

  /** An ordered set as the strictly ascending list of its elements. */
  function InsertId(s: seq<string>, id: string): seq<string> {
    if s == [] then [id]
    else if s[0] == id then s
    else if StringLeq(id, s[0]) then [id] + s
    else [s[0]] + InsertId(s[1..], id)
  }

  lemma {:induction false} InsertIdMembers(s: seq<string>, id: string)
    ensures forall x :: x in InsertId(s, id) <==> x in s || x == id
  {
    if s != [] {
      assert s == [s[0]] + s[1..];
      InsertIdMembers(s[1..], id);
    }
  }

  lemma {:induction false} InsertIdAscending(s: seq<string>, id: string)
    requires StrictlyAscending(s)
    ensures StrictlyAscending(InsertId(s, id))
  {
    if s != [] && s[0] != id {
      if StringLeq(id, s[0]) {
        forall j | 0 <= j < |s|
          ensures StringLeq(id, s[j]) && id != s[j]
        {
          if j > 0 {
            StringLeqTransitive(id, s[0], s[j]);
            if id == s[j] {
              StringLeqAntisymmetric(id, s[0]);
            }
          }
        }
      } else {
        StringLeqTotal(id, s[0]);
        InsertIdAscending(s[1..], id);
        InsertIdMembers(s[1..], id);
        var t := InsertId(s[1..], id);
        forall j | 0 <= j < |t|
          ensures StringLeq(s[0], t[j]) && s[0] != t[j]
        {
          assert t[j] in t;
          if t[j] != id {
            var k :| 0 <= k < |s[1..]| && s[1..][k] == t[j];
            assert s[k + 1] == t[j];
          }
        }
      }
    }
  }

  /** Ordered-set difference. */
  method Difference(a: seq<string>, b: seq<string>) returns (d: seq<string>)
    requires StrictlyAscending(a)
    ensures StrictlyAscending(d) && forall id :: id in d <==> id in a && id !in b
  {
    d := [];
    for i := 0 to |a|
      invariant StrictlyAscending(d)
      invariant forall id :: id in d <==> id in a[..i] && id !in b
      invariant forall k :: 0 <= k < |d| && i < |a| ==> StringLeq(d[k], a[i]) && d[k] != a[i]
    {
      assert a[..i + 1] == a[..i] + [a[i]];
      if a[i] !in b {
        d := d + [a[i]];
      }
      forall k | 0 <= k < |d| && i + 1 < |a|
        ensures StringLeq(d[k], a[i + 1]) && d[k] != a[i + 1]
      {
        assert d[k] in a[..i + 1];
      }
    }
    assert a[..|a|] == a;
  }

  lemma EmptyOrHasHead(s: seq<string>)
    ensures s == [] || s[0] in s
  {
  }

  lemma {:induction false} AscendingUnique(a: seq<string>, b: seq<string>)
    requires StrictlyAscending(a) && StrictlyAscending(b) && forall x :: x in a <==> x in b
    ensures a == b
    decreases |a|
  {
    if a == [] {
      EmptyOrHasHead(b);
    } else {
      assert a[0] in a && a[0] in b;
      var j :| 0 <= j < |b| && b[j] == a[0];
      assert b[0] in a;
      var i :| 0 <= i < |a| && a[i] == b[0];
      if i > 0 && j > 0 {
        StringLeqAntisymmetric(a[0], b[0]);
      }
      assert a[0] == b[0];
      var s, t := a[1..], b[1..];
      assert a == [a[0]] + s && b == [b[0]] + t;
      forall x
        ensures x in s <==> x in t
      {
        TailMembers(a, x);
        TailMembers(b, x);
      }
      AscendingUnique(s, t);
    }
  }

  lemma TailMembers(a: seq<string>, x: string)
    requires StrictlyAscending(a) && a != []
    ensures x in a[1..] <==> x in a && x != a[0]
  {
    assert a == [a[0]] + a[1..];
    if x in a[1..] {
      var i :| 0 <= i < |a[1..]| && a[1..][i] == x;
      assert a[i + 1] == x;
    }
  }

  /** The elements of a set in ascending order. */
  ghost function Ascending(elems: set<string>): (s: seq<string>)
    ensures StrictlyAscending(s) && forall x :: x in s <==> x in elems
    decreases elems
  {
    if elems == {} then []
    else
      var x :| x in elems;
      var rest := Ascending(elems - {x});
      InsertIdAscending(rest, x);
      InsertIdMembers(rest, x);
      InsertId(rest, x)
  }

  /** Walking the keys of a map in order. */
  method AscendingKeys(elems: set<string>) returns (s: seq<string>)
    ensures s == Ascending(elems)
  {
    hide Ascending, StrictlyAscending;
    s := [];
    NothingAscends();
    var rest := elems;
    while rest != {}
      invariant rest <= elems && StrictlyAscending(s)
      invariant forall x :: x in s <==> x in elems && x !in rest
      decreases rest
    {
      var x :| x in rest;
      rest := rest - {x};
      InsertIdAscending(s, x);
      InsertIdMembers(s, x);
      s := InsertId(s, x);
    }
    AscendingUnique(s, Ascending(elems));
  }

  lemma NothingAscends()
    ensures StrictlyAscending([])
  {
  }
}
