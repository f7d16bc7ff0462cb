/** Sort keys. Every deterministic order of the program compares tuples of ranks, names, paths and line
    numbers component by component; a key here is the list of those components. */
module SortKeys {
  /** One component: an absent optional field, a number, or a text. */
  datatype Part = Absent | Num(n: nat) | Text(s: string)
  type Key = seq<Part>

  /** Lexicographic order of strings. Code-point order is the byte order of the UTF-8 encodings, which is
      what the program compares. */
  predicate StringLeq(a: string, b: string) {
    a == [] || (b != [] && (a[0] < b[0] || (a[0] == b[0] && StringLeq(a[1..], b[1..]))))
  }

  lemma {:induction false} StringLeqReflexive(a: string)
    ensures StringLeq(a, a)
  {
    if a != [] {
      StringLeqReflexive(a[1..]);
    }
  }

  lemma {:induction false} StringLeqAntisymmetric(a: string, b: string)
    requires StringLeq(a, b) && StringLeq(b, a)
    ensures a == b
  {
    if a != [] {
      StringLeqAntisymmetric(a[1..], b[1..]);
      assert a == [a[0]] + a[1..] && b == [b[0]] + b[1..];
    }
  }

  lemma {:induction false} StringLeqTransitive(a: string, b: string, c: string)
    requires StringLeq(a, b) && StringLeq(b, c)
    ensures StringLeq(a, c)
  {
    if a != [] && a[0] == b[0] == c[0] {
      StringLeqTransitive(a[1..], b[1..], c[1..]);
    }
  }

  lemma {:induction false} StringLeqTotal(a: string, b: string)
    ensures StringLeq(a, b) || StringLeq(b, a)
  {
    if a != [] && b != [] {
      StringLeqTotal(a[1..], b[1..]);
    }
  }

  /** `None` before `Some`, numbers by size, texts lexicographically. */
  predicate PartLeq(a: Part, b: Part) {
    match (a, b)
    case (Absent, _) => true
    case (Num(x), Num(y)) => x <= y
    case (Num(_), Text(_)) => true
    case (Text(x), Text(y)) => StringLeq(x, y)
    case (_, _) => false
  }

  /** Tuple order: the first component that differs decides; a proper prefix comes first. */
  predicate KeyLeq(a: Key, b: Key) {
    a == [] || (b != [] && PartLeq(a[0], b[0]) && (a[0] == b[0] ==> KeyLeq(a[1..], b[1..])))
  }

  lemma PartLeqAntisymmetric(a: Part, b: Part)
    requires PartLeq(a, b) && PartLeq(b, a)
    ensures a == b
  {
    if a.Text? && b.Text? {
      StringLeqAntisymmetric(a.s, b.s);
    }
  }

  lemma PartLeqTotal(a: Part, b: Part)
    ensures PartLeq(a, b) || PartLeq(b, a)
  {
    if a.Text? && b.Text? {
      StringLeqTotal(a.s, b.s);
    }
  }

  lemma PartLeqTransitive(a: Part, b: Part, c: Part)
    requires PartLeq(a, b) && PartLeq(b, c)
    ensures PartLeq(a, c)
  {
    if a.Text? && b.Text? && c.Text? {
      StringLeqTransitive(a.s, b.s, c.s);
    }
  }

  /** Keys are totally ordered: the four laws every sort below rests on. */
  lemma {:induction false} KeyLeqReflexive(a: Key)
    ensures KeyLeq(a, a)
  {
    if a != [] {
      PartLeqTotal(a[0], a[0]);
      KeyLeqReflexive(a[1..]);
    }
  }

  lemma {:induction false} KeyLeqAntisymmetric(a: Key, b: Key)
    requires KeyLeq(a, b) && KeyLeq(b, a)
    ensures a == b
  {
    if a != [] {
      PartLeqAntisymmetric(a[0], b[0]);
      KeyLeqAntisymmetric(a[1..], b[1..]);
      assert a == [a[0]] + a[1..] && b == [b[0]] + b[1..];
    }
  }

  lemma {:induction false} KeyLeqTransitive(a: Key, b: Key, c: Key)
    requires KeyLeq(a, b) && KeyLeq(b, c)
    ensures KeyLeq(a, c)
  {
    if a != [] {
      PartLeqTransitive(a[0], b[0], c[0]);
      if a[0] == c[0] {
        PartLeqAntisymmetric(a[0], b[0]);
        KeyLeqTransitive(a[1..], b[1..], c[1..]);
      }
    }
  }

  lemma {:induction false} KeyLeqTotal(a: Key, b: Key)
    ensures KeyLeq(a, b) || KeyLeq(b, a)
  {
    if a != [] && b != [] {
      PartLeqTotal(a[0], b[0]);
      KeyLeqTotal(a[1..], b[1..]);
    }
  }

  /** Comparing keys one part at a time. */
  lemma ConsLeq(x: Part, a: Key, y: Part, b: Key)
    ensures KeyLeq([x] + a, [y] + b) <==> PartLeq(x, y) && (x == y ==> KeyLeq(a, b))
  {
    assert ([x] + a)[1..] == a && ([y] + b)[1..] == b;
  }
}
