/** Splicing extra sections into the pull-request comment, before its end marker. */
module CommentSections {
  const BEGIN_MARKER := "<!-- cockpit:begin -->\n"
  const END_MARKER := "<!-- cockpit:end -->"

  /** Unicode white space. */
  predicate IsSpace(c: char) {
    var n := c as int;
    9 <= n <= 13 || n == 0x20 || n == 0x85 || n == 0xA0 || n == 0x1680 || 0x2000 <= n <= 0x200A
    || n == 0x2028 || n == 0x2029 || n == 0x202F || n == 0x205F || n == 0x3000
  }

  function TrimEnd(s: string): string {
    if s != "" && IsSpace(s[|s| - 1]) then TrimEnd(s[..|s| - 1]) else s
  }

  function TrimStart(s: string): string {
    if s != "" && IsSpace(s[0]) then TrimStart(s[1..]) else s
  }

  predicate EndsWith(s: string, suffix: string) {
    |suffix| <= |s| && s[|s| - |suffix|..] == suffix
  }

  predicate OccursAt(s: string, pattern: string, i: nat) {
    i + |pattern| <= |s| && s[i..i + |pattern|] == pattern
  }

  datatype Found = NotFound | At(index: nat)

  /** The last occurrence at or before `i`. */
  function RFindFrom(s: string, pattern: string, i: nat): (r: Found)
    ensures r.At? ==> r.index <= i && OccursAt(s, pattern, r.index)
    ensures forall j :: (if r.At? then r.index else -1) < j <= i ==> !OccursAt(s, pattern, j)
  {
    if OccursAt(s, pattern, i) then At(i)
    else if i == 0 then NotFound
    else RFindFrom(s, pattern, i - 1)
  }

  /** `rfind`: the last occurrence in the whole string. */
  function RFind(s: string, pattern: string): (r: Found)
    ensures r.At? ==> OccursAt(s, pattern, r.index)
    ensures forall j: nat :: (r.At? ==> r.index < j) ==> !OccursAt(s, pattern, j)
  {
    RFindFrom(s, pattern, |s|)
  }

  datatype Section = Section(name: string, content: string)

  function RenderSection(s: Section): string {
    "### " + TrimEnd(TrimStart(s.name)) + "\n\n" + TrimEnd(s.content) + "\n\n"
  }

  function RenderSections(sections: seq<Section>): string {
    if sections == [] then ""
    else RenderSections(sections[..|sections| - 1]) + RenderSection(sections[|sections| - 1])
  }

  /** What is put between the head of the comment and the first section: enough to have a blank line. */
  function Gap(head: string): string {
    if EndsWith(head, "\n\n") then "" else if EndsWith(head, "\n") then "\n" else "\n\n"
  }

  function Splice(head: string, rendered: string, tail: string): string {
    head + Gap(head) + rendered + tail
  }

  function AppendSections(comment: string, sections: seq<Section>): string {
    if sections == [] then comment
    else
      var marker := RFind(comment, END_MARKER);
      if marker.At? then
        Splice(comment[..marker.index], RenderSections(sections), comment[marker.index..])
      else TrimEnd(comment) + "\n\n" + RenderSections(sections)
  }

  method AppendCommentSections(comment: string, sections: seq<Section>) returns (out: string)
    ensures out == AppendSections(comment, sections)
  {
    hide RenderSection, TrimEnd, RFind, END_MARKER;
    if sections == [] {
      return comment;
    }
    var rendered := "";
    for i := 0 to |sections|
      invariant rendered == RenderSections(sections[..i])
    {
      assert sections[..i + 1][..i] == sections[..i];
      rendered := rendered + RenderSection(sections[i]);
    }
    assert sections[..|sections|] == sections;
    var marker := RFind(comment, END_MARKER);
    if marker.At? {
      var head, tail := comment[..marker.index], comment[marker.index..];
      out := "";
      out := out + head;
      if !EndsWith(head, "\n\n") {
        if EndsWith(head, "\n") {
          out := out + "\n";
        } else {
          out := out + "\n\n";
        }
      }
      out := out + rendered;
      out := out + tail;
      return out;
    }
    out := TrimEnd(comment);
    out := out + "\n\n";
    out := out + rendered;
  }

  // ---- Rendered sections ----

  lemma {:induction false} RenderSectionsAppend(a: seq<Section>, b: seq<Section>)
    ensures RenderSections(a + b) == RenderSections(a) + RenderSections(b)
  {
    hide RenderSection;
    if b == [] {
      assert a + b == a;
    } else {
      var n := |b| - 1;
      assert (a + b)[..|a + b| - 1] == a + b[..n];
      RenderSectionsAppend(a, b[..n]);
    }
  }

  lemma EndsWithAppend(s: string, t: string, suffix: string)
    requires EndsWith(t, suffix)
    ensures EndsWith(s + t, suffix)
  {
    assert (s + t)[|s + t| - |suffix|..] == t[|t| - |suffix|..];
  }

  lemma RenderedEndsBlank(sections: seq<Section>)
    requires sections != []
    ensures EndsWith(RenderSections(sections), "\n\n")
  {
    var s := sections[|sections| - 1];
    EndsWithAppend("### " + TrimEnd(TrimStart(s.name)) + "\n\n" + TrimEnd(s.content), "\n\n", "\n\n");
    EndsWithAppend(RenderSections(sections[..|sections| - 1]), RenderSection(s), "\n\n");
  }

  // ---- The marker stays last ----

  /** `tail` starts with the end marker and holds no later one. */
  ghost predicate MarkerTail(tail: string) {
    RFind(tail, END_MARKER) == At(0)
  }

  /** Whatever stands before it, the marker at the start of such a tail is the last one. */
  lemma LastMarker(head: string, tail: string)
    requires MarkerTail(tail)
    ensures RFind(head + tail, END_MARKER) == At(|head|)
  {
    hide RFind, END_MARKER;
    var s := head + tail;
    forall j: nat
      ensures j >= |head| ==> (OccursAt(s, END_MARKER, j) <==> OccursAt(tail, END_MARKER, j - |head|))
    {
      if j >= |head| && j + |END_MARKER| <= |s| {
        assert s[j..j + |END_MARKER|] == tail[j - |head|..j - |head| + |END_MARKER|];
      }
    }
    var r := RFind(s, END_MARKER);
    RFindProperty(tail);
    RFindProperty(s);
    assert OccursAt(s, END_MARKER, |head|);
  }

  lemma RFindProperty(s: string)
    ensures var r := RFind(s, END_MARKER);
            && (r.At? ==> OccursAt(s, END_MARKER, r.index))
            && forall j: nat :: (r.At? ==> r.index < j) ==> !OccursAt(s, END_MARKER, j)
  {
  }

  /** The tail cut off at the last marker is such a tail. */
  lemma CutAtLastMarker(comment: string)
    requires RFind(comment, END_MARKER).At?
    ensures var i := RFind(comment, END_MARKER).index;
            i <= |comment| && MarkerTail(comment[i..])
  {
    hide RFind, END_MARKER;
    RFindProperty(comment);
    var i := RFind(comment, END_MARKER).index;
    var tail := comment[i..];
    RFindProperty(tail);
    forall j: nat
      ensures OccursAt(tail, END_MARKER, j) <==> OccursAt(comment, END_MARKER, i + j)
    {
      if j + |END_MARKER| <= |tail| {
        assert tail[j..j + |END_MARKER|] == comment[i + j..i + j + |END_MARKER|];
      }
    }
    assert OccursAt(tail, END_MARKER, 0);
  }

  /** One splice: the text before the last marker stays in front, the text from it stays at the end, and the marker
      is again the last one. */
  lemma SpliceKeepsMarker(comment: string, sections: seq<Section>)
    requires RFind(comment, END_MARKER).At?
    ensures var i := RFind(comment, END_MARKER).index;
            var out := AppendSections(comment, sections);
            i <= |comment| && comment[..i] <= out && EndsWith(out, comment[i..])
            && RFind(out, END_MARKER) == At(|out| - |comment[i..]|)
  {
    hide RFind, END_MARKER, RenderSections;
    RFindProperty(comment);
    var i := RFind(comment, END_MARKER).index;
    CutAtLastMarker(comment);
    var head, tail := comment[..i], comment[i..];
    assert comment == head + tail;
    if sections == [] {
      assert comment[|comment| - |tail|..] == tail;
    } else {
      var longer := head + Gap(head) + RenderSections(sections);
      assert AppendSections(comment, sections) == longer + tail;
      assert (longer + tail)[|longer|..] == tail;
      assert head <= longer;
      LastMarker(longer, tail);
    }
  }

  /** Splicing into `head + tail` when `tail` starts with the last marker. */
  lemma SpliceBefore(head: string, tail: string, sections: seq<Section>)
    requires MarkerTail(tail) && sections != []
    ensures AppendSections(head + tail, sections) == head + Gap(head) + RenderSections(sections) + tail
  {
    hide RFind, END_MARKER, RenderSections, Gap, TrimEnd;
    LastMarker(head, tail);
    assert (head + tail)[..|head|] == head && (head + tail)[|head|..] == tail;
  }

  lemma NoGapAfterSections(head: string, sections: seq<Section>)
    requires sections != []
    ensures Gap(head + RenderSections(sections)) == ""
  {
    RenderedEndsBlank(sections);
    EndsWithAppend(head, RenderSections(sections), "\n\n");
  }

  /** With the marker in place, splicing is an action of lists of sections: first `a` and then `b` is the same
      as both at once, and no sections change nothing. */
  lemma SpliceIsAction(comment: string, a: seq<Section>, b: seq<Section>)
    requires RFind(comment, END_MARKER).At?
    ensures AppendSections(AppendSections(comment, a), b) == AppendSections(comment, a + b)
    ensures AppendSections(comment, []) == comment
  {
    assert AppendSections(comment, []) == comment;
    if a == [] {
      assert a + b == b;
    } else if b == [] {
      assert a + b == a;
    } else {
      SpliceTwice(comment, a, b);
    }
  }

  lemma SpliceTwice(comment: string, a: seq<Section>, b: seq<Section>)
    requires RFind(comment, END_MARKER).At? && a != [] && b != []
    ensures AppendSections(AppendSections(comment, a), b) == AppendSections(comment, a + b)
  {
    hide RFind, END_MARKER, RenderSections, Gap, AppendSections;
    CutAtLastMarker(comment);
    var i := RFind(comment, END_MARKER).index;
    var head, tail := comment[..i], comment[i..];
    assert comment == head + tail;
    var longer := head + Gap(head) + RenderSections(a);
    SpliceBefore(head, tail, a);
    SpliceBefore(longer, tail, b);
    SpliceBefore(head, tail, a + b);
    NoGapAfterSections(head + Gap(head), a);
    RenderSectionsAppend(a, b);
    assert longer + "" + RenderSections(b) + tail == head + Gap(head) + (RenderSections(a) + RenderSections(b)) + tail;
  }

  /** A rendered comment: begin marker, some text, end marker. */
  function RenderedComment(body: string): string {
    BEGIN_MARKER + body + (END_MARKER + "\n")
  }

  /** The batches of sections contributed by a run of hooks, one after the other. */
  function AppendAll(comment: string, batches: seq<seq<Section>>): string
    decreases |batches|
  {
    if batches == [] then comment else AppendAll(AppendSections(comment, batches[0]), batches[1..])
  }

  function Flatten(batches: seq<seq<Section>>): seq<Section> {
    if batches == [] then [] else batches[0] + Flatten(batches[1..])
  }

  /** A run of hooks does what one splice of all their sections would do. */
  lemma {:induction false} HooksAreOneSplice(comment: string, batches: seq<seq<Section>>)
    requires RFind(comment, END_MARKER).At?
    ensures AppendAll(comment, batches) == AppendSections(comment, Flatten(batches))
    decreases |batches|
  {
    hide RFind, END_MARKER, RenderSections, AppendSections;
    if batches == [] {
      SpliceIsAction(comment, [], []);
    } else {
      SpliceKeepsMarker(comment, batches[0]);
      HooksAreOneSplice(AppendSections(comment, batches[0]), batches[1..]);
      SpliceIsAction(comment, batches[0], Flatten(batches[1..]));
    }
  }

  lemma EndMarkerTail()
    ensures MarkerTail(END_MARKER + "\n")
  {
    var t := END_MARKER + "\n";
    assert t[0..|END_MARKER|] == END_MARKER;
    assert OccursAt(t, END_MARKER, 0);
    assert t[1] == '!' && END_MARKER[0] == '<';
    assert t[1..1 + |END_MARKER|][0] == '!';
  }

  lemma MarkersAre()
    ensures BEGIN_MARKER == "<!-- cockpit:begin -->\n" && END_MARKER + "\n" == "<!-- cockpit:end -->\n"
  {
  }

  /** After any run of hooks a rendered comment still begins with everything up to its own end marker and still
      ends with that marker, whatever the section texts contain. */
  lemma HooksKeepMarkers(body: string, batches: seq<seq<Section>>)
    ensures var out := AppendAll(RenderedComment(body), batches);
            "<!-- cockpit:begin -->\n" + body <= out && EndsWith(out, "<!-- cockpit:end -->\n")
  {
    hide RFind, END_MARKER, BEGIN_MARKER, AppendSections, AppendAll;
    MarkersAre();
    var head, tail := BEGIN_MARKER + body, END_MARKER + "\n";
    var comment := RenderedComment(body);
    EndMarkerTail();
    LastMarker(head, tail);
    assert comment == head + tail;
    HooksAreOneSplice(comment, batches);
    SpliceKeepsMarker(comment, Flatten(batches));
    assert comment[..|head|] == head && comment[|head|..] == tail;
  }
}
