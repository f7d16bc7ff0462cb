/** Decimal printing and newline-terminated fields, and why both can be read back. */
module Text {
  function Digit(d: nat): char
    requires d < 10
  {
    "0123456789"[d]
  }

  /** `to_string` of an unsigned number. */
  function Decimal(n: nat): (s: string)
    ensures s != "" && '\n' !in s && '\r' !in s
  {
    if n < 10 then [Digit(n)] else Decimal(n / 10) + [Digit(n % 10)]
  }

  lemma {:induction false} DecimalInjective(a: nat, b: nat)
    requires Decimal(a) == Decimal(b)
    ensures a == b
    decreases a
  {
    var s, t := Decimal(a), Decimal(b);
    assert s[|s| - 1] == Digit(a % 10) && t[|t| - 1] == Digit(b % 10);
    if a < 10 || b < 10 {
      DecimalLength(a);
      DecimalLength(b);
    } else {
      assert s[..|s| - 1] == Decimal(a / 10) && t[..|t| - 1] == Decimal(b / 10);
      DecimalInjective(a / 10, b / 10);
    }
  }

  lemma DecimalLength(n: nat)
    ensures |Decimal(n)| == 1 <==> n < 10
  {
  }

  /** Fields written one after the other, each closed by a newline. */
  function Lines(fields: seq<string>): string {
    if fields == [] then "" else fields[0] + "\n" + Lines(fields[1..])
  }

  ghost predicate NewlineFree(fields: seq<string>) {
    forall f :: f in fields ==> '\n' !in f
  }

  lemma {:induction false} FirstLine(f: string, rest: string, g: string, other: string)
    requires f + "\n" + rest == g + "\n" + other && '\n' !in f && '\n' !in g
    ensures f == g && rest == other
  {
    var s, t := f + "\n" + rest, g + "\n" + other;
    assert (f != "" ==> s[0] == f[0] && f[0] in f) && (g != "" ==> t[0] == g[0] && g[0] in g);
    if f != "" && g != "" {
      assert s[1..] == f[1..] + "\n" + rest && t[1..] == g[1..] + "\n" + other;
      FirstLine(f[1..], rest, g[1..], other);
      assert f == [f[0]] + f[1..] && g == [g[0]] + g[1..];
    } else {
      assert s[1..] == rest && t[1..] == other;
    }
  }

  /** Newline-free fields are split back without ambiguity. */
  lemma {:induction false} LinesInjective(a: seq<string>, b: seq<string>)
    requires NewlineFree(a) && NewlineFree(b) && Lines(a) == Lines(b)
    ensures a == b
    decreases |a|
  {
    if a != [] && b != [] {
      assert a[0] in a && b[0] in b;
      FirstLine(a[0], Lines(a[1..]), b[0], Lines(b[1..]));
      LinesInjective(a[1..], b[1..]);
      assert a == [a[0]] + a[1..] && b == [b[0]] + b[1..];
    }
  }

  /** Reading a list of lines in one pass or in two. */
  lemma {:induction false} LinesAppend(a: seq<string>, b: seq<string>)
    ensures Lines(a + b) == Lines(a) + Lines(b)
  {
    if a == [] {
      assert a + b == b;
    } else {
      LinesAppend(a[1..], b);
      assert (a + b)[1..] == a[1..] + b;
    }
  }

  // ---- Reading lines from the end ----

  ghost predicate EndsLine(s: string) {
    s != "" && s[|s| - 1] == '\n'
  }

  lemma LastLine(p: string, f: string, q: string, g: string)
    requires EndsLine(p) && EndsLine(q) && '\n' !in f && '\n' !in g
    requires p + f + "\n" == q + g + "\n"
    ensures f == g && p == q
  {
    var s, t := p + f + "\n", q + g + "\n";
    assert s[..|s| - 1] == p + f && t[..|t| - 1] == q + g;
    LongerHead(p, f, q, g);
    LongerHead(q, g, p, f);
    assert (p + f)[..|p|] == p && (q + g)[..|q|] == q && (p + f)[|p|..] == f && (q + g)[|q|..] == g;
  }

  lemma LongerHead(p: string, f: string, q: string, g: string)
    requires EndsLine(q) && '\n' !in f && p + f == q + g
    ensures |q| <= |p|
  {
    var s := p + f;
    assert s[|q| - 1] == q[|q| - 1] == '\n';
    assert forall k :: |p| <= k < |s| ==> s[k] in f;
  }

  lemma LinesSnoc(lines: seq<string>)
    requires lines != []
    ensures Lines(lines) == Lines(lines[..|lines| - 1]) + lines[|lines| - 1] + "\n"
  {
    var n := |lines| - 1;
    LinesAppend(lines[..n], [lines[n]]);
    assert lines == lines[..n] + [lines[n]];
    assert Lines([lines[n]]) == lines[n] + "\n";
    assert Lines(lines[..n]) + (lines[n] + "\n") == Lines(lines[..n]) + lines[n] + "\n";
  }

  lemma EndsLineAppend(head: string, lines: seq<string>)
    requires EndsLine(head)
    ensures EndsLine(head + Lines(lines))
  {
    if lines != [] {
      LinesSnoc(lines);
    }
  }

  /** Of two texts that end in newline-free lines, the one with fewer of them holds the other's extra lines in its
      head. */
  lemma {:induction false} TailLines(x: string, a: seq<string>, y: string, b: seq<string>)
    requires EndsLine(x) && EndsLine(y) && NewlineFree(a) && NewlineFree(b) && |b| <= |a|
    requires x + Lines(a) == y + Lines(b)
    ensures b == a[|a| - |b|..] && y == x + Lines(a[..|a| - |b|])
    decreases |b|
  {
    hide Lines, EndsLine;
    if b == [] {
      assert Lines(b) == "" by { NoLines(); }
      assert y + "" == y && a[..|a|] == a;
    } else {
      var m, n := |a| - 1, |b| - 1;
      LinesSnoc(a);
      LinesSnoc(b);
      EndsLineAppend(x, a[..m]);
      EndsLineAppend(y, b[..n]);
      assert x + Lines(a) == (x + Lines(a[..m])) + a[m] + "\n";
      assert y + Lines(b) == (y + Lines(b[..n])) + b[n] + "\n";
      assert a[m] in a && b[n] in b;
      LastLine(x + Lines(a[..m]), a[m], y + Lines(b[..n]), b[n]);
      TailLines(x, a[..m], y, b[..n]);
      assert b == b[..n] + [b[n]] && a[|a| - |b|..] == a[..m][|a| - |b|..] + [a[m]];
      assert a[..m][..m - n] == a[..|a| - |b|];
    }
  }

  lemma NoLines()
    ensures Lines([]) == ""
  {
  }
}
