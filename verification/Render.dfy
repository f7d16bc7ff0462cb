/** The renderer's own order of annotations, and the lines it prints for them. */
module Render {
  import opened Types
  import opened SortKeys
  import opened StableSort
  import opened Findings
  import opened Highlights
  import Fingerprint
  import Text

  /** Like the selection key, but a missing path or line stays missing and sorts first. */
  function AnnotationKey(blocking: Blocking, h: Highlight): Key {
    [Num(SeverityRank(h.finding.severity)), Num(if IsBlocking(blocking, h.sensorId) then 0 else 1), Text(h.sensorId),
     PathPart(h.finding.Path()), LinePart(h.finding.Line()), Text(h.finding.code), Text(h.finding.message)]
  }

  function PathPart(path: Option<string>): Part {
    if path.Some? then Text(path.value) else Absent
  }

  function LinePart(line: Option<u32>): Part {
    if line.Some? then Num(line.value) else Absent
  }

  function ByAnnotationKey(blocking: Blocking): Highlight -> Key {
    (h: Highlight) => AnnotationKey(blocking, h)
  }

  /** Replacing every `c` by `sub`. */
  function Replace(s: string, c: char, sub: string): string {
    if s == "" then "" else (if s[0] == c then sub else [s[0]]) + Replace(s[1..], c, sub)
  }

  function GhEscape(s: string): string {
    Replace(Replace(Replace(s, '%', "%25"), '\n', "%0A"), '\r', "%0D")
  }

  function GhLevel(s: Severity): string {
    match s
    case Error => "error"
    case Warn => "warning"
    case Info => "notice"
  }

  function GhLine(h: Highlight): string {
    var f := h.finding;
    "::" + GhLevel(f.severity) + " "
    + (if f.location.Some? && f.location.value.path.Some? then "file=" + f.location.value.path.value + "," else "")
    + (if f.location.Some? && f.location.value.line.Some?
       then "line=" + Text.Decimal(f.location.value.line.value) + "," else "")
    + (if f.location.Some? && f.location.value.col.Some?
       then "col=" + Text.Decimal(f.location.value.col.value) + "," else "")
    + "title=" + GhEscape("[" + h.sensorId + "] " + f.code) + "::" + GhEscape(f.message)
  }

  function GhLines(hs: seq<Highlight>): seq<string> {
    seq(|hs|, i requires 0 <= i < |hs| => GhLine(hs[i]))
  }

  /** GitHub annotations: the first `max_annotations` highlights in the renderer's order, one line each. */
  method RenderGithubAnnotations(highlights: seq<Highlight>, cfg: CockpitConfig, blocking: Blocking)
    returns (lines: seq<string>, truncated: bool, totalCount: nat, renderedCount: nat)
    ensures lines == GhLines(Take(SortBy(ByAnnotationKey(blocking), highlights), cfg.policy.maxAnnotations))
    ensures totalCount == |highlights| && renderedCount == |lines| == Min(|highlights|, cfg.policy.maxAnnotations)
    ensures truncated <==> renderedCount < totalCount
  {
    hide GhLine, SortBy, ByAnnotationKey;
    var max := cfg.policy.maxAnnotations;
    totalCount := |highlights|;
    var sorted := SortBy(ByAnnotationKey(blocking), highlights);
    SortByLength(ByAnnotationKey(blocking), highlights);
    truncated := totalCount > max;
    renderedCount := Min(totalCount, max);
    lines := [];
    var shown := Take(sorted, max);
    for i := 0 to |shown|
      invariant |lines| == i && forall k :: 0 <= k < i ==> lines[k] == GhLine(shown[k])
    {
      lines := lines + [GhLine(shown[i])];
    }
  }

  function SeverityBadge(s: Severity): string {
    match s
    case Error => "\U{274C}"
    case Warn => "\U{26A0}\U{FE0F}"
    case Info => "\U{2139}\U{FE0F}"
  }

  function LocationText(f: Finding): string {
    (if f.Path().Some? then f.Path().value else "")
    + (if f.Line().Some? then ":" + Text.Decimal(f.Line().value) else "")
  }

  /** One numbered markdown line. */
  function MarkdownLine(number: nat, h: Highlight): string {
    var loc := LocationText(h.finding);
    Text.Decimal(number) + ". " + SeverityBadge(h.finding.severity) + " **" + h.sensorId + "**: `"
    + h.finding.code + "`"
    + (if loc == "" then "" else " at `" + loc + "`") + " \U{2014} " + Replace(h.finding.message, '\n', " ") + "\n"
  }

  function MarkdownLines(hs: seq<Highlight>): string {
    if hs == [] then "" else MarkdownLines(hs[..|hs| - 1]) + MarkdownLine(|hs|, hs[|hs| - 1])
  }

  /** The markdown list of annotations, with a notice when some are left out. */
  method RenderAnnotations(highlights: seq<Highlight>, cfg: CockpitConfig, blocking: Blocking)
    returns (content: string, truncated: bool, totalCount: nat, renderedCount: nat)
    ensures totalCount == |highlights| && renderedCount == Min(|highlights|, cfg.policy.maxAnnotations)
    ensures truncated <==> renderedCount < totalCount
    ensures content ==
            if highlights == [] then "_No annotations._\n"
            else MarkdownLines(Take(SortBy(ByAnnotationKey(blocking), highlights), cfg.policy.maxAnnotations))
                 + (if truncated then "\n_Showing " + Text.Decimal(renderedCount) + " of " + Text.Decimal(totalCount)
                                      + " annotations (capped by `max_annotations`)._\n" else "")
  {
    hide MarkdownLine, Text.Decimal, SortBy, ByAnnotationKey;
    var max := cfg.policy.maxAnnotations;
    totalCount := |highlights|;
    var sorted := SortBy(ByAnnotationKey(blocking), highlights);
    SortByLength(ByAnnotationKey(blocking), highlights);
    truncated := totalCount > max;
    renderedCount := Min(totalCount, max);
    content := "";
    if sorted == [] {
      content := content + "_No annotations._\n";
    } else {
      var shown := Take(sorted, max);
      for i := 0 to |shown|
        invariant content == MarkdownLines(shown[..i])
      {
        assert shown[..i + 1][..i] == shown[..i];
        content := content + MarkdownLine(i + 1, shown[i]);
      }
      assert shown[..|shown|] == shown;
      if truncated {
        content := content + ("\n_Showing " + Text.Decimal(renderedCount) + " of " + Text.Decimal(totalCount)
                              + " annotations (capped by `max_annotations`)._\n");
      }
    }
  }

  // ---- The renderer's order against the selection order ----

  predicate SameGroup(a: Highlight, b: Highlight) {
    a.finding.severity == b.finding.severity && a.sensorId == b.sensorId
  }

  /** The pairs the renderer would put the other way round: same severity and sensor, and either the same path
      with a line only on the first, or an empty path before a missing one. */
  predicate Clash(a: Highlight, b: Highlight) {
    SameGroup(a, b)
    && ((a.finding.Path() == b.finding.Path() && a.finding.Line().Some? && b.finding.Line().None?)
        || (a.finding.Path() == Some("") && b.finding.Path() == None))
  }

  /** The two keys agree up to the sensor; after it each compares path, line and the rest in its own way. */
  lemma KeyParts(a1: Part, a2: Part, a3: Part, a4: Part, a5: Part, ta: Key, b1: Part, b2: Part, b3: Part, b4: Part,
                 b5: Part, tb: Key)
    ensures KeyLeq([a1, a2, a3, a4, a5] + ta, [b1, b2, b3, b4, b5] + tb) <==>
            PartLeq(a1, b1) && (a1 == b1 ==> PartLeq(a2, b2) && (a2 == b2 ==> PartLeq(a3, b3) && (a3 == b3 ==>
              PartLeq(a4, b4) && (a4 == b4 ==> PartLeq(a5, b5) && (a5 == b5 ==> KeyLeq(ta, tb))))))
  {
    hide KeyLeq, PartLeq;
    var (a, b) := ([a5] + ta, [b5] + tb);
    ConsLeq(a5, ta, b5, tb);
    ConsLeq(a4, a, b4, b);
    ConsLeq(a3, [a4] + a, b3, [b4] + b);
    ConsLeq(a2, [a3] + ([a4] + a), b2, [b3] + ([b4] + b));
    ConsLeq(a1, [a2] + ([a3] + ([a4] + a)), b1, [b2] + ([b3] + ([b4] + b)));
    assert [a1, a2, a3, a4, a5] + ta == [a1] + ([a2] + ([a3] + ([a4] + a)));
    assert [b1, b2, b3, b4, b5] + tb == [b1] + ([b2] + ([b3] + ([b4] + b)));
  }

  function BlockRank(blocking: Blocking, h: Highlight): nat {
    if IsBlocking(blocking, h.sensorId) then 0 else 1
  }

  function RestKey(h: Highlight): Key {
    [Text(h.finding.code), Text(h.finding.message)]
  }

  lemma SelectionKeyParts(blocking: Blocking, h: Highlight)
    ensures HighlightKey(blocking, h) ==
            [Num(SeverityRank(h.finding.severity)), Num(BlockRank(blocking, h)), Text(h.sensorId),
             Text(h.finding.Path().GetOr("")), Num(h.finding.Line().GetOr(U32_MAX))] + RestKey(h)
    ensures AnnotationKey(blocking, h) ==
            [Num(SeverityRank(h.finding.severity)), Num(BlockRank(blocking, h)), Text(h.sensorId),
             PathPart(h.finding.Path()), LinePart(h.finding.Line())] + RestKey(h)
  {
  }

  /** Path and line, compared as the selection does and as the renderer does. */
  predicate SelectionPathLine(pa: Option<string>, la: Option<u32>, ta: Key, pb: Option<string>, lb: Option<u32>,
                              tb: Key)
  {
    var (p, q) := (pa.GetOr(""), pb.GetOr(""));
    var (m, n) := (la.GetOr(U32_MAX), lb.GetOr(U32_MAX));
    StringLeq(p, q) && (p == q ==> m <= n && (m == n ==> KeyLeq(ta, tb)))
  }

  predicate RendererPathLine(pa: Option<string>, la: Option<u32>, ta: Key, pb: Option<string>, lb: Option<u32>,
                             tb: Key)
  {
    PartLeq(PathPart(pa), PathPart(pb))
      && (pa == pb ==> PartLeq(LinePart(la), LinePart(lb)) && (la == lb ==> KeyLeq(ta, tb)))
  }

  lemma PathLineDisagree(pa: Option<string>, la: Option<u32>, ta: Key, pb: Option<string>, lb: Option<u32>, tb: Key)
    requires SelectionPathLine(pa, la, ta, pb, lb, tb)
    ensures RendererPathLine(pa, la, ta, pb, lb, tb) <==>
            !((pa == pb && la.Some? && lb.None?) || (pa == Some("") && pb == None))
  {
    hide KeyLeq;
    if pa.Some? {
      assert StringLeq(pa.value, "") ==> pa.value == "";
    }
  }

  lemma KeysAgreeUpToClash(blocking: Blocking, a: Highlight, b: Highlight)
    requires KeyLeq(HighlightKey(blocking, a), HighlightKey(blocking, b))
    ensures KeyLeq(AnnotationKey(blocking, a), AnnotationKey(blocking, b)) <==> !Clash(a, b)
  {
    hide KeyLeq, HighlightKey, AnnotationKey, StringLeq, PathPart, LinePart;
    var (ra, rb) := (Num(SeverityRank(a.finding.severity)), Num(SeverityRank(b.finding.severity)));
    var (ka, kb) := (Num(BlockRank(blocking, a)), Num(BlockRank(blocking, b)));
    var (pa, pb, la, lb) := (a.finding.Path(), b.finding.Path(), a.finding.Line(), b.finding.Line());
    SelectionKeyParts(blocking, a);
    SelectionKeyParts(blocking, b);
    KeyParts(ra, ka, Text(a.sensorId), Text(pa.GetOr("")), Num(la.GetOr(U32_MAX)), RestKey(a),
             rb, kb, Text(b.sensorId), Text(pb.GetOr("")), Num(lb.GetOr(U32_MAX)), RestKey(b));
    KeyParts(ra, ka, Text(a.sensorId), PathPart(pa), LinePart(la), RestKey(a),
             rb, kb, Text(b.sensorId), PathPart(pb), LinePart(lb), RestKey(b));
    SameParts(pa, pb, la, lb);
    assert ra == rb <==> a.finding.severity == b.finding.severity;
    if SameGroup(a, b) {
      PathLineDisagree(pa, la, RestKey(a), pb, lb, RestKey(b));
    }
  }

  lemma SameParts(pa: Option<string>, pb: Option<string>, la: Option<u32>, lb: Option<u32>)
    ensures PathPart(pa) == PathPart(pb) <==> pa == pb
    ensures LinePart(la) == LinePart(lb) <==> la == lb
  {
  }

  ghost predicate NoClash(hs: seq<Highlight>) {
    forall i, j :: 0 <= i < j < |hs| ==> !Clash(hs[i], hs[j])
  }

  /** No entry among the first `m` clashes with a later one, shown or not. */
  ghost predicate NoClashBefore(hs: seq<Highlight>, m: nat) {
    forall i, j :: 0 <= i < j < |hs| && i < m ==> !Clash(hs[i], hs[j])
  }

  /** The renderer sorts again on its own. What it shows of a list in selection order under a cap of `m` is the
      beginning of that list exactly when none of the first `m` entries clashes with a later one. */
  lemma ShowsBeginningIff(blocking: Blocking, hs: seq<Highlight>, m: nat)
    requires Sorted(ByHighlightKey(blocking), hs)
    ensures Take(SortBy(ByAnnotationKey(blocking), hs), m) == Take(hs, m) <==> NoClashBefore(hs, m)
  {
    hide KeyLeq, HighlightKey, AnnotationKey, Clash, SortBy;
    var key := ByAnnotationKey(blocking);
    forall i, j | 0 <= i < j < |hs|
      ensures KeyLeq(key(hs[i]), key(hs[j])) <==> !Clash(hs[i], hs[j])
    {
      assert KeyLeq(ByHighlightKey(blocking)(hs[i]), ByHighlightKey(blocking)(hs[j]));
      KeysAgreeUpToClash(blocking, hs[i], hs[j]);
    }
    PrefixStaysIff(key, hs, Min(m, |hs|));
    assert SortBy(key, hs)[..|hs|] == SortBy(key, hs) && hs[..|hs|] == hs;
  }

  /** Without a cap: sorting again changes nothing exactly when no entry clashes with a later one. */
  lemma ResortIsIdentityIff(blocking: Blocking, hs: seq<Highlight>)
    requires Sorted(ByHighlightKey(blocking), hs)
    ensures SortBy(ByAnnotationKey(blocking), hs) == hs <==> NoClash(hs)
  {
    hide SortBy, Clash, HighlightKey, AnnotationKey, KeyLeq;
    SortByLength(ByAnnotationKey(blocking), hs);
    ShowsBeginningIff(blocking, hs, |hs|);
  }

  /** Every highlight has a path and a line; or those that lack one lack both, and no path is empty. */
  ghost predicate LocationsWhole(hs: seq<Highlight>) {
    || (forall h :: h in hs ==> h.finding.Path().Some? && h.finding.Line().Some?)
    || (forall h :: h in hs ==>
          || (h.finding.Path().None? && h.finding.Line().None?)
          || (h.finding.Path().Some? && h.finding.Path().value != "" && h.finding.Line().Some?))
  }

  /** Such highlights never clash, so the renderer shows exactly the first `max_annotations` selected highlights,
      in selection order. */
  lemma RendererShowsSelection(hash: Fingerprint.Hash, blocking: Blocking, max: nat, candidates: seq<Highlight>,
                               maxAnnotations: nat)
    requires LocationsWhole(Select(hash, blocking, max, candidates))
    ensures var r := Select(hash, blocking, max, candidates);
            Take(SortBy(ByAnnotationKey(blocking), r), maxAnnotations) == Take(r, maxAnnotations)
  {
    var r := Select(hash, blocking, max, candidates);
    SelectIsTopK(hash, blocking, max, candidates);
    forall i, j | 0 <= i < j < |r|
      ensures !Clash(r[i], r[j])
    {
      assert r[i] in r && r[j] in r;
    }
    ResortIsIdentityIff(blocking, r);
  }

  /** A highlight with a line selected before one without is shown after it. */
  lemma MissingLineReordersAnnotations(blocking: Blocking, h: Highlight)
    ensures var a := h.(finding := h.finding.(location := Some(Location(Some("p"), Some(5), None))));
            var b := h.(finding := h.finding.(location := Some(Location(Some("p"), None, None))));
            && Sorted(ByHighlightKey(blocking), [a, b])
            && SortBy(ByAnnotationKey(blocking), [a, b]) != [a, b]
  {
    var a := h.(finding := h.finding.(location := Some(Location(Some("p"), Some(5), None))));
    var b := h.(finding := h.finding.(location := Some(Location(Some("p"), None, None))));
    SelectionKeyParts(blocking, a);
    SelectionKeyParts(blocking, b);
    var r, k, s := Num(SeverityRank(h.finding.severity)), Num(BlockRank(blocking, h)), Text(h.sensorId);
    KeyParts(r, k, s, Text("p"), Num(5), RestKey(a), r, k, s, Text("p"), Num(U32_MAX), RestKey(b));
    StringLeqReflexive(h.sensorId);
    StringLeqReflexive("p");
    ResortIsIdentityIff(blocking, [a, b]);
    assert Clash([a, b][0], [a, b][1]);
  }

  lemma ErrorFirst(blocking: Blocking, x: Highlight, a: Highlight)
    requires x.finding.severity == Error && a.finding.severity == Info
    ensures KeyLeq(HighlightKey(blocking, x), HighlightKey(blocking, a))
  {
    hide KeyLeq;
    var (s, t) := (HighlightKey(blocking, x), HighlightKey(blocking, a));
    ConsLeq(s[0], s[1..], t[0], t[1..]);
    assert s == [s[0]] + s[1..] && t == [t[0]] + t[1..];
  }

  lemma LineBeforeNone(blocking: Blocking, a: Highlight, b: Highlight, path: string, line: u32)
    requires a.finding.location == Some(Location(Some(path), Some(line), None)) && line < U32_MAX
    requires b == a.(finding := a.finding.(location := Some(Location(Some(path), None, None))))
    ensures KeyLeq(HighlightKey(blocking, a), HighlightKey(blocking, b))
  {
    hide KeyLeq, StringLeq, HighlightKey, AnnotationKey;
    SelectionKeyParts(blocking, a);
    SelectionKeyParts(blocking, b);
    var r, k, s := Num(SeverityRank(a.finding.severity)), Num(BlockRank(blocking, a)), Text(a.sensorId);
    KeyParts(r, k, s, Text(path), Num(line), RestKey(a), r, k, s, Text(path), Num(U32_MAX), RestKey(b));
    StringLeqReflexive(a.sensorId);
    StringLeqReflexive(path);
  }

  /** Behind the cap a clash does no harm: the error in front is all that is shown, though the two after it swap. */
  lemma ClashBehindCap(blocking: Blocking, h: Highlight)
    ensures var x := h.(finding := h.finding.(severity := Error));
            var a := h.(finding := h.finding.(severity := Info, location := Some(Location(Some("p"), Some(5), None))));
            var b := h.(finding := h.finding.(severity := Info, location := Some(Location(Some("p"), None, None))));
            var hs := [x, a, b];
            && Sorted(ByHighlightKey(blocking), hs) && !NoClash(hs)
            && Take(SortBy(ByAnnotationKey(blocking), hs), 1) == [x]
  {
    var x := h.(finding := h.finding.(severity := Error));
    var a := h.(finding := h.finding.(severity := Info, location := Some(Location(Some("p"), Some(5), None))));
    var b := h.(finding := h.finding.(severity := Info, location := Some(Location(Some("p"), None, None))));
    hide HighlightKey, AnnotationKey, KeyLeq;
    var hs := [x, a, b];
    ErrorFirst(blocking, x, a);
    ErrorFirst(blocking, x, b);
    LineBeforeNone(blocking, a, b, "p", 5);
    assert Clash(hs[1], hs[2]);
    assert !Clash(hs[0], hs[1]) && !Clash(hs[0], hs[2]);
    ShowsBeginningIff(blocking, hs, 1);
  }

  // ---- Escaping ----

  /** Escaping character by character. */
  function EscapeChar(c: char): string {
    if c == '%' then "%25" else if c == '\n' then "%0A" else if c == '\r' then "%0D" else [c]
  }

  lemma {:induction false} ReplaceAppend(s: string, t: string, c: char, sub: string)
    ensures Replace(s + t, c, sub) == Replace(s, c, sub) + Replace(t, c, sub)
  {
    if s == "" {
      assert s + t == t;
    } else {
      assert (s + t)[1..] == s[1..] + t;
      ReplaceAppend(s[1..], t, c, sub);
    }
  }

  lemma ReplaceShort(c: char, sub: string)
    ensures forall x :: Replace([x], c, sub) == if x == c then sub else [x]
    ensures forall x, y, z :: x != c && y != c && z != c ==> Replace([x, y, z], c, sub) == [x, y, z]
  {
    forall x, y, z | x != c && y != c && z != c
      ensures Replace([x, y, z], c, sub) == [x, y, z]
    {
      assert [x, y, z][1..] == [y, z] && [y, z][1..] == [z];
      assert Replace([z], c, sub) == [z];
      assert Replace([y, z], c, sub) == [y, z];
    }
  }

  /** The three replacements, in the order they run, act on each character separately. */
  lemma {:induction false} EscapeHead(s: string)
    requires s != ""
    ensures GhEscape(s) == EscapeChar(s[0]) + GhEscape(s[1..])
  {
    hide Replace;
    assert s == [s[0]] + s[1..];
    ReplaceShort('%', "%25");
    ReplaceShort('\n', "%0A");
    ReplaceShort('\r', "%0D");
    ReplaceAppend([s[0]], s[1..], '%', "%25");
    var a, b := Replace([s[0]], '%', "%25"), Replace(s[1..], '%', "%25");
    ReplaceAppend(a, b, '\n', "%0A");
    ReplaceAppend(Replace(a, '\n', "%0A"), Replace(b, '\n', "%0A"), '\r', "%0D");
    assert "%25" == ['%', '2', '5'] && "%0A" == ['%', '0', 'A'];
  }

  /** Escaped text has no line break, and different texts stay different. */
  lemma {:induction false} EscapeKeepsOneLine(s: string)
    ensures '\n' !in GhEscape(s) && '\r' !in GhEscape(s)
  {
    hide GhEscape;
    if s == "" {
      EscapeEmpty();
    } else {
      EscapeHead(s);
      EscapeKeepsOneLine(s[1..]);
    }
  }

  lemma EscapeEmpty()
    ensures GhEscape("") == ""
  {
  }

  lemma {:induction false} EscapeInjective(s: string, t: string)
    requires GhEscape(s) == GhEscape(t)
    ensures s == t
    decreases |s|
  {
    hide GhEscape;
    EscapeEmpty();
    if s != "" {
      EscapeHead(s);
    }
    if t != "" {
      EscapeHead(t);
    }
    if s != "" && t != "" {
      var (a, b) := (EscapeChar(s[0]) + GhEscape(s[1..]), EscapeChar(t[0]) + GhEscape(t[1..]));
      assert a == b && a[0] == b[0] && (|a| > 2 && |b| > 2 ==> a[1] == b[1] && a[2] == b[2]);
      assert s[0] == t[0];
      assert a[|EscapeChar(s[0])|..] == GhEscape(s[1..]) && b[|EscapeChar(t[0])|..] == GhEscape(t[1..]);
      EscapeInjective(s[1..], t[1..]);
      assert s == [s[0]] + s[1..] && t == [t[0]] + t[1..];
    }
  }

  predicate OneLine(s: string) {
    '\n' !in s && '\r' !in s
  }

  lemma OneLineAppend(a: string, b: string)
    ensures OneLine(a + b) <==> OneLine(a) && OneLine(b)
  {
    assert forall c :: c in a + b <==> c in a || c in b;
  }

  lemma FixedPartsAreOneLine(severity: Severity)
    ensures OneLine("::" + GhLevel(severity) + " ") && OneLine("file=") && OneLine("line=") && OneLine("col=")
    ensures OneLine(",") && OneLine("title=") && OneLine("::") && OneLine("")
    ensures forall n :: OneLine(Text.Decimal(n))
  {
    hide Text.Decimal;
  }

  /** A labelled part of the place is one line if its value is. */
  lemma PartOfPlace(name: string, value: string)
    requires OneLine(name) && OneLine(",")
    ensures OneLine(name + value + ",") <==> OneLine(value)
  {
    hide OneLine;
    OneLineAppend(name, value);
    OneLineAppend(name + value, ",");
  }

  /** The path is printed without escaping, so an annotation is one line exactly when its path is: line feeds and
      carriage returns both count as breaks, as they do for escaping. */
  lemma GhLineIsOneLineIff(h: Highlight)
    ensures OneLine(GhLine(h)) <==> (h.finding.Path().Some? ==> OneLine(h.finding.Path().value))
  {
    hide GhEscape, OneLine, GhLevel, Text.Decimal;
    var f := h.finding;
    var title, message := GhEscape("[" + h.sensorId + "] " + f.code), GhEscape(f.message);
    EscapedIsOneLine(h);
    FixedPartsAreOneLine(f.severity);
    var start := "::" + GhLevel(f.severity) + " ";
    var path := if f.Path().Some? then "file=" + f.Path().value + "," else "";
    var line := if f.Line().Some? then "line=" + Text.Decimal(f.Line().value) + "," else "";
    var col := if f.location.Some? && f.location.value.col.Some?
      then "col=" + Text.Decimal(f.location.value.col.value) + "," else "";
    if f.Path().Some? {
      PartOfPlace("file=", f.Path().value);
    }
    if f.Line().Some? {
      PartOfPlace("line=", Text.Decimal(f.Line().value));
    }
    if f.location.Some? && f.location.value.col.Some? {
      PartOfPlace("col=", Text.Decimal(f.location.value.col.value));
    }
    OneLineAppend(start, path);
    OneLineAppend(start + path, line);
    OneLineAppend(start + path + line, col);
    OneLineAppend(start + path + line + col, "title=");
    OneLineAppend(start + path + line + col + "title=", title);
    OneLineAppend(start + path + line + col + "title=" + title, "::");
    OneLineAppend(start + path + line + col + "title=" + title + "::", message);
  }

  lemma EscapedIsOneLine(h: Highlight)
    ensures OneLine(GhEscape("[" + h.sensorId + "] " + h.finding.code)) && OneLine(GhEscape(h.finding.message))
  {
    hide GhEscape;
    EscapeKeepsOneLine("[" + h.sensorId + "] " + h.finding.code);
    EscapeKeepsOneLine(h.finding.message);
  }

  /** A path with a line feed, or with a carriage return, ends the annotation and starts another one. */
  lemma PathSplitsAnnotation(h: Highlight, end: char)
    requires end in "\n\r"
    ensures var path := Some("p" + [end] + "::error ::x");
            var f := h.(finding := h.finding.(location := Some(Location(path, None, None))));
            end in GhLine(f) && !OneLine(GhLine(f))
  {
    hide GhEscape;
    var path := "p" + [end] + "::error ::x";
    assert path[1] == end && end in path;
  }
}
