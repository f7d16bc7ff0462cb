/** Derived fingerprints. The hash itself (hexadecimal SHA-256 in the program) is a parameter `hash`; what is
    proved is what the text fed to it determines. */
module Fingerprint {
  import opened Types
  import Text

  type Hash = string -> string

  /** The text hashed for a finding without a fingerprint. */
  function FingerprintInput(sensorId: string, f: Finding): string {
    sensorId + "\n" + f.code + "\n" + f.message + "\n"
    + (if f.Path().Some? then f.Path().value + "\n" else "")
    + (if f.Line().Some? then Text.Decimal(f.Line().value) + "\n" else "")
  }

  function DeriveFingerprint(hash: Hash, sensorId: string, f: Finding): string {
    hash(FingerprintInput(sensorId, f))
  }

  ghost predicate FieldsNewlineFree(sensorId: string, f: Finding) {
    && '\n' !in sensorId && '\n' !in f.code && '\n' !in f.message
    && (f.Path().Some? ==> '\n' !in f.Path().value)
  }

  /** The hashed text as a list of fields. */
  ghost function Fields(sensorId: string, f: Finding): seq<string> {
    [sensorId, f.code, f.message] + LocationFields(f)
  }

  ghost function LocationFields(f: Finding): seq<string> {
    (if f.Path().Some? then [f.Path().value] else []) + (if f.Line().Some? then [Text.Decimal(f.Line().value)] else [])
  }

  lemma HeadLines(a: string, b: string, c: string)
    ensures Text.Lines([a, b, c]) == a + "\n" + b + "\n" + c + "\n"
  {
    assert Text.Lines([c]) == c + "\n";
    assert [b, c][1..] == [c] && [a, b, c][1..] == [b, c];
    assert Text.Lines([b, c]) == b + "\n" + (c + "\n");
  }

  lemma LocationLines(f: Finding)
    ensures Text.Lines(LocationFields(f)) ==
            (if f.Path().Some? then f.Path().value + "\n" else "")
            + (if f.Line().Some? then Text.Decimal(f.Line().value) + "\n" else "")
  {
    var p := if f.Path().Some? then [f.Path().value] else [];
    var l := if f.Line().Some? then [Text.Decimal(f.Line().value)] else [];
    Text.LinesAppend(p, l);
    assert Text.Lines(p) == if f.Path().Some? then f.Path().value + "\n" else "";
    assert Text.Lines(l) == if f.Line().Some? then Text.Decimal(f.Line().value) + "\n" else "";
  }

  lemma InputIsLines(sensorId: string, f: Finding)
    ensures FingerprintInput(sensorId, f) == Text.Lines(Fields(sensorId, f))
  {
    hide Text.Lines;
    HeadLines(sensorId, f.code, f.message);
    LocationLines(f);
    Text.LinesAppend([sensorId, f.code, f.message], LocationFields(f));
  }

  /** The one ambiguity of the hashed text: a path that spells a number, without a line, reads like that line
      number without a path. */
  ghost predicate PathSpellsLine(f: Finding, g: Finding) {
    && f.Path().Some? && f.Line().None? && g.Path().None? && g.Line().Some?
    && f.Path().value == Text.Decimal(g.Line().value)
  }

  /** Exactly when two newline-free findings are hashed from the same text. */
  lemma SameInputIff(s: string, f: Finding, t: string, g: Finding)
    requires FieldsNewlineFree(s, f) && FieldsNewlineFree(t, g)
    ensures FingerprintInput(s, f) == FingerprintInput(t, g) <==>
            && s == t && f.code == g.code && f.message == g.message
            && ((f.Path() == g.Path() && f.Line() == g.Line()) || PathSpellsLine(f, g) || PathSpellsLine(g, f))
  {
    InputIsLines(s, f);
    InputIsLines(t, g);
    var a, b := Fields(s, f), Fields(t, g);
    if FingerprintInput(s, f) == FingerprintInput(t, g) {
      Text.LinesInjective(a, b);
      assert a[0] == b[0] && a[1] == b[1] && a[2] == b[2];
      assert LocationFields(f) == a[3..] && LocationFields(g) == b[3..];
      SameLocationFields(f, g);
    }
  }

  lemma SameLocationFields(f: Finding, g: Finding)
    requires LocationFields(f) == LocationFields(g)
    ensures (f.Path() == g.Path() && f.Line() == g.Line()) || PathSpellsLine(f, g) || PathSpellsLine(g, f)
  {
    var a, b := LocationFields(f), LocationFields(g);
    assert |a| == |b|;
    if |a| == 2 {
      assert a[0] == b[0] && a[1] == b[1];
      Text.DecimalInjective(f.Line().value, g.Line().value);
    } else if |a| == 1 {
      assert a[0] == b[0];
      if f.Path().None? && g.Path().None? {
        Text.DecimalInjective(f.Line().value, g.Line().value);
      }
    }
  }

  /** Among findings that have a path, the hashed text determines sensor, code, message, path and line. */
  lemma InputInjectiveWithPath(s: string, f: Finding, t: string, g: Finding)
    requires FieldsNewlineFree(s, f) && FieldsNewlineFree(t, g)
    requires f.Path().Some? && g.Path().Some?
    requires FingerprintInput(s, f) == FingerprintInput(t, g)
    ensures s == t && f.code == g.code && f.message == g.message && f.Path() == g.Path() && f.Line() == g.Line()
  {
    SameInputIff(s, f, t, g);
  }

  // ---- Messages of several lines ----

  ghost predicate HeadNewlineFree(sensorId: string, f: Finding) {
    && '\n' !in sensorId && '\n' !in f.code
    && (f.Path().Some? ==> '\n' !in f.Path().value)
  }

  /** The message of `g` reads on through the first location fields of `f`, and `g` is located by the others. With none
      of them read on, message and location fields are the same. */
  ghost predicate ReadsOn(f: Finding, g: Finding) {
    exists k :: 0 <= k <= |LocationFields(f)| && LocationFields(g) == LocationFields(f)[k..]
      && g.message + "\n" == f.message + "\n" + Text.Lines(LocationFields(f)[..k])
  }

  lemma InputParts(sensorId: string, f: Finding)
    ensures FingerprintInput(sensorId, f) ==
            sensorId + "\n" + (f.code + "\n" + (f.message + "\n" + Text.Lines(LocationFields(f))))
  {
    LocationLines(f);
    var p := if f.Path().Some? then f.Path().value + "\n" else "";
    var l := if f.Line().Some? then Text.Decimal(f.Line().value) + "\n" else "";
    assert FingerprintInput(sensorId, f) == sensorId + "\n" + (f.code + "\n" + (f.message + "\n" + (p + l)));
  }

  /** Exactly when two findings are hashed from the same text, whatever their messages: same sensor and code, and one
      message reads on through location fields of the other finding. */
  lemma SameInputAnyMessageIff(s: string, f: Finding, t: string, g: Finding)
    requires HeadNewlineFree(s, f) && HeadNewlineFree(t, g)
    ensures FingerprintInput(s, f) == FingerprintInput(t, g) <==>
            s == t && f.code == g.code && (ReadsOn(f, g) || ReadsOn(g, f))
  {
    hide FingerprintInput, LocationFields, Text.Lines;
    var a, b := LocationFields(f), LocationFields(g);
    var x, y := f.message + "\n", g.message + "\n";
    InputParts(s, f);
    InputParts(t, g);
    if FingerprintInput(s, f) == FingerprintInput(t, g) {
      Text.FirstLine(s, f.code + "\n" + (x + Text.Lines(a)), t, g.code + "\n" + (y + Text.Lines(b)));
      Text.FirstLine(f.code, x + Text.Lines(a), g.code, y + Text.Lines(b));
      LocationNewlineFree(s, f);
      LocationNewlineFree(t, g);
      if |b| <= |a| {
        Text.TailLines(x, a, y, b);
      } else {
        Text.TailLines(y, b, x, a);
      }
    }
    if ReadsOn(f, g) {
      SameTail(f, g);
    }
    if ReadsOn(g, f) {
      SameTail(g, f);
    }
  }

  lemma LocationNewlineFree(sensorId: string, f: Finding)
    requires HeadNewlineFree(sensorId, f)
    ensures Text.NewlineFree(LocationFields(f))
  {
  }

  lemma SameTail(f: Finding, g: Finding)
    requires ReadsOn(f, g)
    ensures f.message + "\n" + Text.Lines(LocationFields(f)) == g.message + "\n" + Text.Lines(LocationFields(g))
  {
    hide LocationFields, Text.Lines;
    var a, b := LocationFields(f), LocationFields(g);
    var k :| 0 <= k <= |a| && b == a[k..] && g.message + "\n" == f.message + "\n" + Text.Lines(a[..k]);
    Text.LinesAppend(a[..k], b);
    assert a == a[..k] + b;
    var x := f.message + "\n";
    assert x + (Text.Lines(a[..k]) + Text.Lines(b)) == x + Text.Lines(a[..k]) + Text.Lines(b);
  }

  /** Among findings with a path that agree on whether there is a line, the hashed text determines sensor, code,
      message, path and line, also for messages of several lines. */
  lemma InputInjectiveAnyMessage(s: string, f: Finding, t: string, g: Finding)
    requires HeadNewlineFree(s, f) && HeadNewlineFree(t, g)
    requires f.Path().Some? && g.Path().Some? && f.Line().Some? == g.Line().Some?
    requires FingerprintInput(s, f) == FingerprintInput(t, g)
    ensures s == t && f.code == g.code && f.message == g.message && f.Path() == g.Path() && f.Line() == g.Line()
  {
    hide FingerprintInput;
    SameInputAnyMessageIff(s, f, t, g);
    assert |LocationFields(f)| == |LocationFields(g)|;
    NothingReadsOn(f, g);
    NothingReadsOn(g, f);
    SameLocationFields(f, g);
  }

  lemma NothingReadsOn(f: Finding, g: Finding)
    requires |LocationFields(f)| == |LocationFields(g)|
    ensures ReadsOn(f, g) ==> f.message == g.message && LocationFields(f) == LocationFields(g)
  {
    hide LocationFields;
    if ReadsOn(f, g) {
      var x, y := f.message + "\n", g.message + "\n";
      assert x + Text.Lines([]) == x;
      assert x[..|x| - 1] == f.message && y[..|y| - 1] == g.message;
      assert LocationFields(f)[0..] == LocationFields(f) && LocationFields(f)[..0] == [];
    }
  }

  /** Without a path it does not: these two findings share every hash. */
  lemma PathlessInputCollides(f: Finding, hash: Hash)
    ensures var g := f.(location := Some(Location(Some("12"), None, None)));
            var h := f.(location := Some(Location(None, Some(12), None)));
            DeriveFingerprint(hash, "s", g) == DeriveFingerprint(hash, "s", h) && g.Path() != h.Path()
  {
    assert Text.Decimal(12) == "12" by {
      assert Text.Decimal(1) == "1";
    }
    var g := f.(location := Some(Location(Some("12"), None, None)));
    var h := f.(location := Some(Location(None, Some(12), None)));
    assert FingerprintInput("s", g) == FingerprintInput("s", h);
  }

  /** Nor with a line break in a field: code and message share one separator. */
  lemma NewlineInputCollides(f: Finding, hash: Hash)
    ensures var g, h := f.(code := "a\nb", message := "c"), f.(code := "a", message := "b\nc");
            DeriveFingerprint(hash, "s", g) == DeriveFingerprint(hash, "s", h) && g.code != h.code
  {
    var g, h := f.(code := "a\nb", message := "c"), f.(code := "a", message := "b\nc");
    assert FingerprintInput("s", g) == FingerprintInput("s", h);
    assert g.code[1..] == "\nb";
  }
}
