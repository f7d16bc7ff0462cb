/** What is written: verdict totals, row sections, fingerprints, annotations and comment sections, spelled out. */
module OutputFields {
  import opened Types
  import opened OverallVerdict
  import opened CommentSections
  import Conform
  import Fingerprint
  import Render
  import StableSort
  import SortKeys
  import Text

  // ---- Totals ----

  lemma TotalsOfOne(cfg: CockpitConfig, row: SensorSummary)
    ensures var c := Overall(cfg, [row]).counts;
            && c.info == row.verdict.counts.info && c.warn == row.verdict.counts.warn
            && c.error == row.verdict.counts.error && c.suppressed == 0
  {
    SumSnoc([], row);
    assert [] + [row] == [row];
  }

  /** The totals of two lists of rows are the sums of their totals, up to saturation, severity by severity. */
  lemma TotalsAdd(cfg: CockpitConfig, a: seq<SensorSummary>, b: seq<SensorSummary>)
    ensures var x, y, z := Overall(cfg, a).counts, Overall(cfg, b).counts, Overall(cfg, a + b).counts;
            && z.info == (if x.info + y.info <= U64_MAX then x.info + y.info else U64_MAX)
            && z.warn == (if x.warn + y.warn <= U64_MAX then x.warn + y.warn else U64_MAX)
            && z.error == (if x.error + y.error <= U64_MAX then x.error + y.error else U64_MAX)
  {
    SumAppend(a, b);
  }

  /** The status, on the rows: failed if a blocking row failed, or warned under `warn_is_fail`; else a warning if a
      blocking row warned; else passed. The only reason ever given is `warn_is_fail`, exactly if it promoted a row. */
  lemma StatusIs(cfg: CockpitConfig, rows: seq<SensorSummary>)
    ensures var v := Overall(cfg, rows);
            var failed := exists r :: r in rows && r.blocking && r.verdict.status == VerdictStatus.Fail;
            var warned := exists r :: r in rows && r.blocking && r.verdict.status == VerdictStatus.Warn;
            && v.status == (if failed || (cfg.policy.warnIsFail && warned) then VerdictStatus.Fail
                            else if warned then VerdictStatus.Warn else VerdictStatus.Pass)
            && v.reasons == (if cfg.policy.warnIsFail && warned then ["warn_is_fail"] else [])
  {
    hide Sum;
  }

  // ---- Sections ----

  /** The section a sensor is configured for; "Other" if none is. */
  function SectionName(cfg: CockpitConfig, id: string): string {
    if id in cfg.sensors && cfg.sensors[id].section.Some? then cfg.sensors[id].section.value else "Other"
  }

  /** Of two rows, the earlier one is of a section listed no later, if the later one's is listed at all; rows of one
      section come by id. */
  lemma RowsBySection(cfg: CockpitConfig, rows: seq<SensorSummary>, i: nat, j: nat)
    requires |cfg.policy.sectionOrder| <= U64_MAX && i < j < |StableSort.SortBy(BySection(cfg), rows)|
    ensures var sorted, order := StableSort.SortBy(BySection(cfg), rows), cfg.policy.sectionOrder;
            var a, b := SectionName(cfg, sorted[i].id), SectionName(cfg, sorted[j].id);
            && (a == b ==> SortKeys.StringLeq(sorted[i].id, sorted[j].id))
            && (b in order ==> a in order)
            && (forall m, n :: 0 <= m < |order| && 0 <= n < |order| && order[m] == a && order[n] == b
                  && (forall k :: m < k < |order| ==> order[k] != a) && (forall k :: n < k < |order| ==> order[k] != b)
                  ==> m <= n)
  {
    hide SectionRank, SortKeys.StringLeq, StableSort.SortBy;
    var sorted, order := StableSort.SortBy(BySection(cfg), rows), cfg.policy.sectionOrder;
    RowsFollowSections(cfg, rows, i, j);
    SectionRankIs(order, SectionName(cfg, sorted[i].id));
    SectionRankIs(order, SectionName(cfg, sorted[j].id));
  }

  // ---- Fingerprints ----

  /** A derived fingerprint is the hash of the fields, each closed by a newline. */
  lemma DerivedFrom(hash: Fingerprint.Hash, sensorId: string, f: Finding)
    ensures var head := sensorId + "\n" + f.code + "\n" + f.message + "\n";
            Fingerprint.DeriveFingerprint(hash, sensorId, f) == hash(
              match f.location
              case None => head
              case Some(Location(None, None, _)) => head
              case Some(Location(Some(path), None, _)) => head + path + "\n"
              case Some(Location(None, Some(line), _)) => head + Text.Decimal(line) + "\n"
              case Some(Location(Some(path), Some(line), _)) => head + path + "\n" + Text.Decimal(line) + "\n")
  {
    hide Text.Decimal;
    var head := sensorId + "\n" + f.code + "\n" + f.message + "\n";
    assert head + "" == head;
    match f.location
    case Some(Location(Some(path), Some(line), _)) =>
      assert head + (path + "\n") + (Text.Decimal(line) + "\n") == head + path + "\n" + Text.Decimal(line) + "\n";
    case Some(Location(Some(path), None, _)) =>
      assert head + (path + "\n") + "" == head + path + "\n";
    case Some(Location(None, Some(line), _)) =>
      assert head + "" + (Text.Decimal(line) + "\n") == head + Text.Decimal(line) + "\n";
    case _ =>
      assert head + "" + "" == head;
  }

  ghost predicate Injective(hash: Fingerprint.Hash) {
    forall x, y :: hash(x) == hash(y) ==> x == y
  }

  /** Under a hash without collisions, derived fingerprints tell apart findings with a path that agree on whether there
      is a line. */
  lemma DerivedTellApart(hash: Fingerprint.Hash, s: string, f: Finding, t: string, g: Finding)
    requires Injective(hash) && Fingerprint.HeadNewlineFree(s, f) && Fingerprint.HeadNewlineFree(t, g)
    requires f.Path().Some? && g.Path().Some? && f.Line().Some? == g.Line().Some?
    requires Fingerprint.DeriveFingerprint(hash, s, f) == Fingerprint.DeriveFingerprint(hash, t, g)
    ensures s == t && f.code == g.code && f.message == g.message && f.Path() == g.Path() && f.Line() == g.Line()
  {
    hide Fingerprint.FingerprintInput;
    Fingerprint.InputInjectiveAnyMessage(s, f, t, g);
  }

  // ---- Numbers ----

  function Value(digits: string): int {
    if digits == "" then 0 else 10 * Value(digits[..|digits| - 1]) + (digits[|digits| - 1] as int - '0' as int)
  }

  /** Printed numbers are made of the digits 0 to 9, read back as the number, and have no leading zero. */
  lemma {:induction false} DecimalReadsBack(n: nat)
    ensures var s := Text.Decimal(n);
            && Value(s) == n && (forall c :: c in s ==> '0' <= c <= '9') && s != ""
            && (n >= 10 ==> s[0] != '0')
  {
    var s := Text.Decimal(n);
    if n >= 10 {
      DecimalReadsBack(n / 10);
      assert s[..|s| - 1] == Text.Decimal(n / 10);
      assert s[0] == Text.Decimal(n / 10)[0];
      if n < 100 {
        assert Text.Decimal(n / 10) == [Text.Digit(n / 10)];
      }
    } else {
      assert s[..0] == "";
    }
  }

  // ---- Conformance ----

  /** A row is faulty if it says that a missing-policy was applied to a receipt that was there or was invalid. */
  lemma PresenceFaultIff(row: SensorSummary)
    ensures Conform.PresenceFault(row) <==>
            row.missingPolicyApplied != None && (row.presence == Present || row.presence == Invalid)
  {
  }

  /** Reason tokens are nonempty and made of lower-case letters, digits and underscores. */
  lemma TokenIff(s: string)
    ensures Conform.IsValidReasonToken(s) <==>
            s != "" && forall c :: c in s ==> 'a' <= c <= 'z' || '0' <= c <= '9' || c == '_'
  {
    assert forall i :: 0 <= i < |s| ==> s[i] in s;
  }

  /** What the token check reports: a malformed reason of the verdict, of a row or of a capability, by its place. */
  lemma TokenFaultIff(report: CockpitReport, v: Conform.TokenViolation)
    ensures Conform.TokenFault(report, v) <==>
            match v
            case InVerdict(i) => i < |report.verdict.reasons| && !Conform.IsValidReasonToken(report.verdict.reasons[i])
            case InSensor(n, i) =>
              n < |report.sensors| && i < |report.sensors[n].verdict.reasons|
              && !Conform.IsValidReasonToken(report.sensors[n].verdict.reasons[i])
            case InCapability(name) =>
              exists c :: name in report.run.capabilities && c == report.run.capabilities[name] && c.reason.Some?
                && !Conform.IsValidReasonToken(c.reason.value)
  {
    hide Conform.IsValidReasonToken;
  }

  // ---- Annotations ----

  /** Per cent signs and line breaks are replaced character by character. */
  function Escaped(s: string): string {
    if s == "" then ""
    else (match s[0]
          case '%' => "%25"
          case '\n' => "%0A"
          case '\r' => "%0D"
          case c => [c]) + Escaped(s[1..])
  }

  lemma {:induction false} EscapeIs(s: string)
    ensures Render.GhEscape(s) == Escaped(s)
  {
    hide Render.GhEscape;
    if s == "" {
      Render.EscapeEmpty();
    } else {
      Render.EscapeHead(s);
      EscapeIs(s[1..]);
    }
  }

  /** A whole annotation: level, place, title and message. */
  lemma AnnotationIs(h: Highlight)
    ensures var f := h.finding;
            var level := match f.severity
                         case Error => "error"
                         case Warn => "warning"
                         case Info => "notice";
            var place := match f.location
                         case None => ""
                         case Some(Location(path, line, col)) =>
                           (match path
                            case Some(p) => "file=" + p + ","
                            case None => "")
                           + (match line
                              case Some(n) => "line=" + Text.Decimal(n) + ","
                              case None => "")
                           + (match col
                              case Some(n) => "col=" + Text.Decimal(n) + ","
                              case None => "");
            Render.GhLine(h) ==
            "::" + level + " " + place
            + "title=" + Escaped("[" + h.sensorId + "] " + f.code) + "::" + Escaped(f.message)
  {
    hide Render.GhEscape, Text.Decimal, Escaped;
    EscapeIs("[" + h.sensorId + "] " + h.finding.code);
    EscapeIs(h.finding.message);
    var f := h.finding;
    if f.location.Some? {
      var Location(path, line, col) := f.location.value;
      var start := "::" + Render.GhLevel(f.severity) + " ";
      var p := if path.Some? then "file=" + path.value + "," else "";
      var l := if line.Some? then "line=" + Text.Decimal(line.value) + "," else "";
      var c := if col.Some? then "col=" + Text.Decimal(col.value) + "," else "";
      assert start + p + l + c == start + (p + l + c);
    } else {
      var start := "::" + Render.GhLevel(f.severity) + " ";
      assert start + "" + "" + "" == start + "";
    }
  }

  /** Line breaks become spaces. */
  function Spaced(s: string): string {
    if s == "" then "" else (if s[0] == '\n' then " " else [s[0]]) + Spaced(s[1..])
  }

  lemma {:induction false} SpacedIs(s: string)
    ensures Render.Replace(s, '\n', " ") == Spaced(s)
  {
    if s != "" {
      SpacedIs(s[1..]);
    }
  }

  /** A whole line of the annotation list: number, badge, sensor, code, place if there is one, and message. */
  lemma MarkdownIs(number: nat, h: Highlight)
    ensures var f := h.finding;
            var badge := match f.severity
                         case Error => "\U{274C}"
                         case Warn => "\U{26A0}\U{FE0F}"
                         case Info => "\U{2139}\U{FE0F}";
            var at := match f.location
                      case Some(Location(Some(path), Some(line), _)) => path + ":" + Text.Decimal(line)
                      case Some(Location(Some(path), None, _)) => path
                      case Some(Location(None, Some(line), _)) => ":" + Text.Decimal(line)
                      case _ => "";
            var place := if at == "" then "" else " at `" + at + "`";
            Render.MarkdownLine(number, h) ==
            Text.Decimal(number) + ". " + badge + " **" + h.sensorId + "**: `" + f.code + "`" + place + " \U{2014} "
            + Spaced(f.message) + "\n"
  {
    hide Text.Decimal, Spaced, Render.Replace;
    SpacedIs(h.finding.message);
    PlaceIs(h.finding);
  }

  lemma PlaceIs(f: Finding)
    ensures Render.LocationText(f) ==
            match f.location
            case Some(Location(Some(path), Some(line), _)) => path + ":" + Text.Decimal(line)
            case Some(Location(Some(path), None, _)) => path
            case Some(Location(None, Some(line), _)) => ":" + Text.Decimal(line)
            case _ => ""
  {
    hide Text.Decimal;
    match f.location
    case Some(Location(Some(path), Some(line), _)) =>
      assert path + (":" + Text.Decimal(line)) == path + ":" + Text.Decimal(line);
    case Some(Location(Some(path), None, _)) =>
      assert path + "" == path;
    case Some(Location(None, Some(line), _)) =>
      assert "" + (":" + Text.Decimal(line)) == ":" + Text.Decimal(line);
    case _ =>
  }

  /** The entry after `n` others has number `n + 1`. */
  lemma NumberedNext(hs: seq<Highlight>, h: Highlight)
    ensures Render.MarkdownLines(hs + [h]) == Render.MarkdownLines(hs) + Render.MarkdownLine(|hs| + 1, h)
    ensures Render.MarkdownLines([]) == ""
  {
    hide Render.MarkdownLine;
    var longer := hs + [h];
    assert longer[..|longer| - 1] == hs && longer[|longer| - 1] == h;
  }

  lemma LinesInTurn(hs: seq<Highlight>)
    ensures |Render.GhLines(hs)| == |hs| && forall i :: 0 <= i < |hs| ==> Render.GhLines(hs)[i] == Render.GhLine(hs[i])
  {
    hide Render.GhLine;
  }

  // ---- Comment sections ----

  /** Trimming takes white space, and nothing else, off the ends, and all of it. */
  lemma {:induction false} TrimEndIs(s: string)
    ensures var t := TrimEnd(s);
            && t <= s && (forall c :: c in s[|t|..] ==> IsSpace(c)) && (t != "" ==> !IsSpace(t[|t| - 1]))
  {
    if s != "" && IsSpace(s[|s| - 1]) {
      TrimEndIs(s[..|s| - 1]);
      var t := TrimEnd(s);
      assert s[|t|..] == s[..|s| - 1][|t|..] + [s[|s| - 1]];
    }
  }

  lemma {:induction false} TrimStartIs(s: string) returns (n: nat)
    ensures n <= |s| && TrimStart(s) == s[n..]
    ensures (forall c :: c in s[..n] ==> IsSpace(c)) && (n < |s| ==> !IsSpace(s[n]))
  {
    if s != "" && IsSpace(s[0]) {
      var m := TrimStartIs(s[1..]);
      n := m + 1;
      assert s[..n] == [s[0]] + s[1..][..m] && s[n..] == s[1..][m..];
    } else {
      n := 0;
    }
  }

  /** Sections are spliced in between a head and a tail of the comment. */
  lemma SplicedBetween(comment: string, sections: seq<Section>) returns (head: string, tail: string)
    requires sections != []
    ensures AppendSections(comment, sections) == head + RenderSections(sections) + tail
  {
    hide TrimEnd, RFind, RenderSections;
    RFindProperty(comment);
    var marker := RFind(comment, END_MARKER);
    if marker.At? {
      head, tail := comment[..marker.index] + Gap(comment[..marker.index]), comment[marker.index..];
    } else {
      head, tail := TrimEnd(comment) + "\n\n", "";
      assert head + RenderSections(sections) + "" == head + RenderSections(sections);
    }
  }

  lemma Regroup(head: string, before: string, a: string, name: string, b: string, content: string, after: string,
                tail: string)
    ensures head + (before + (a + name + b + content + b) + after) + tail ==
            (head + before) + a + name + b + content + b + (after + tail)
    ensures EndsWith(head + before, before) && after <= after + tail
  {
    assert (head + before)[|head|..] == before;
  }

  /** Every section is in the comment afterwards, a heading with its name, a blank line, and its content, both trimmed,
      in the order given: the sections before it in front and those after it behind. */
  lemma SectionsInComment(comment: string, before: seq<Section>, section: Section, after: seq<Section>)
    ensures exists front, back ::
              && AppendSections(comment, before + [section] + after) ==
                 front + "### " + TrimEnd(TrimStart(section.name)) + "\n\n" + TrimEnd(section.content) + "\n\n" + back
              && EndsWith(front, RenderSections(before)) && RenderSections(after) <= back
  {
    hide TrimEnd, TrimStart, AppendSections, RenderSections, EndsWith;
    RenderSectionsAppend(before + [section], after);
    RenderSectionsAppend(before, [section]);
    OneSection(section);
    var head, tail := SplicedBetween(comment, before + [section] + after);
    Regroup(head, RenderSections(before), "### ", TrimEnd(TrimStart(section.name)), "\n\n", TrimEnd(section.content),
            RenderSections(after), tail);
    var front, back := head + RenderSections(before), RenderSections(after) + tail;
    assert EndsWith(front, RenderSections(before)) && RenderSections(after) <= back;
  }

  lemma OneSection(section: Section)
    ensures RenderSections([section]) == RenderSection(section)
  {
    assert [section][..0] == [];
  }

  /** Without an end marker the sections follow the comment, whose trailing white space is cut, after a blank line. */
  lemma WithoutMarker(comment: string, sections: seq<Section>)
    requires sections != [] && forall i: nat :: !OccursAt(comment, END_MARKER, i)
    ensures AppendSections(comment, sections) == TrimEnd(comment) + "\n\n" + RenderSections(sections)
  {
    RFindProperty(comment);
  }

  /** With one, they stand before it after exactly what is missing of a blank line. */
  lemma BlankLineBefore(comment: string, sections: seq<Section>)
    requires sections != [] && RFind(comment, END_MARKER).At?
    ensures var i := RFind(comment, END_MARKER).index;
            i <= |comment| && exists gap ::
              && AppendSections(comment, sections) == comment[..i] + gap + RenderSections(sections) + comment[i..]
              && EndsWith(comment[..i] + gap, "\n\n")
              && (gap == "" || (gap == "\n" && !EndsWith(comment[..i], "\n\n"))
                  || (gap == "\n\n" && !EndsWith(comment[..i], "\n")))
  {
    hide RFind, RenderSections;
    RFindProperty(comment);
    var i := RFind(comment, END_MARKER).index;
    var head := comment[..i];
    var gap := Gap(head);
    assert head + "" == head;
    assert EndsWith(head + gap, "\n\n");
  }
}
