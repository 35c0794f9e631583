/** The second half of `parseExtractedText` (script.js:418-503): every line
    that opens a heading of the pattern table starts a content section whose
    body is the following lines up to the next stop line; a section is added
    only when its body is not blank and no section with that pattern's id
    prefix exists yet; when no content section was found the four template
    sections are added. */
module Segmenter {
  import opened Seqs
  import opened Strings
  import opened Patterns
  import opened Document
  import opened Fields

  predicate LongerThan5(l: string) {
    |l| > 5
  }

  /** The line after the body of the heading at line i: the first line that
      stops a body, or the end of the 49-line window. */
  function BodyEnd(lines: seq<string>, i: nat): (e: nat)
    requires i < |lines|
    ensures i + 1 <= e <= Min(i + 50, |lines|)
  {
    StopIndex(lines, StopsBody, i + 1, Min(i + 50, |lines|))
  }

  /** The lines a body keeps: those longer than 5 characters. */
  function BodyLines(lines: seq<string>, i: nat): seq<string>
    requires i < |lines|
  {
    Filter(lines[i + 1..BodyEnd(lines, i)], LongerThan5)
  }

  /** The body of the heading at line i: its lines, each followed by a line
      break, the whole trimmed. */
  function Body(lines: seq<string>, i: nat): string
    requires i < |lines|
  {
    Trim(Terminated(BodyLines(lines, i), "\n"))
  }

  /** A body holds at most 49 lines, each longer than 5 characters and none
      of them a line that stops a body; on clean lines it is their join with
      line breaks, so it is empty exactly when no line was kept. */
  lemma BodySpec(lines: seq<string>, i: nat)
    requires i < |lines|
    ensures |BodyLines(lines, i)| <= 49
    ensures forall t :: 0 <= t < |BodyLines(lines, i)| ==>
              |BodyLines(lines, i)[t]| > 5 && !StopsBody(BodyLines(lines, i)[t])
    ensures AllTrimmedNonEmpty(lines) ==> Body(lines, i) == Join("\n", BodyLines(lines, i))
    ensures AllTrimmedNonEmpty(lines) ==> (Body(lines, i) == "" <==> BodyLines(lines, i) == [])
  {
    WindowSpec(lines, StopsBody, LongerThan5, i + 1, Min(i + 50, |lines|), '\n');
  }

  /** The inner `while` loop (`j < lines.length && j < i + 50`): the body
      text before trimming. */
  method CollectBody(lines: seq<string>, i: nat) returns (sectionContent: string)
    requires i < |lines|
    ensures sectionContent == Collected(lines, LongerThan5, i + 1, BodyEnd(lines, i), "\n")
  {
    sectionContent := CollectWindow(lines, i + 1, Min(i + 50, |lines|), StopsBody, LongerThan5, "\n");
  }

  /** The pattern loop over one line: the first row whose heading test the
      line passes. */
  method MatchHeading(line: string) returns (k: Option<nat>)
    ensures k == Classify(line)
  {
    var t := 0;
    while t < |Table|
      invariant 0 <= t <= |Table|
      invariant FirstIndex(Table, HeadingTest(line), 0, t) == None
    {
      var p := Table[t];
      if PatternMatches(p, line) || Upper(p.title) == Upper(line)
         || (StartsWith(Upper(line), Upper(p.title)) && |Upper(line)| < |p.title| + 5) {
        FirstIndexHit(Table, HeadingTest(line), 0, t, |Table|);
        return Some(t);
      }
      FirstIndexExtend(Table, HeadingTest(line), 0, t);
      t := t + 1;
    }
    return None;
  }

  /** What the outer loop needs to know of one line: the row whose heading
      test it passes, if any, and the body that would follow it. */
  datatype Head = Head(row: Option<nat>, body: string)

  /** The head of line i (no heading past the last line). */
  function HeadOf(lines: seq<string>, i: nat): (h: Head)
    ensures h.row.Some? ==> h.row.value < |Table|
  {
    if i < |lines| then Head(Classify(lines[i]), Body(lines, i)) else Head(None, "")
  }

  /** The heads of all lines. */
  function Heads(lines: seq<string>): (hs: seq<Head>)
    ensures |hs| == |lines|
  {
    Tabulate(i => HeadOf(lines, i), |lines|)
  }

  lemma HeadAt(lines: seq<string>, i: nat)
    requires i < |lines|
    ensures Heads(lines)[i] == HeadOf(lines, i)
  {
    TabulateAt(i => HeadOf(lines, i), |lines|, i);
  }

  // ---------------------------------------------------------------------
  // The outer loop over any table of rows: the structural part of the
  // segmenter does not depend on what the rows are, only on the facts
  // `Keyed` and `TitlesApart` below, which the pattern table has.

  /** Every row a head names is a row of the table. */
  predicate Rowed(rows: seq<SectionPattern>, hs: seq<Head>) {
    forall i :: 0 <= i < |hs| && hs[i].row.Some? ==> hs[i].row.value < |rows|
  }

  lemma HeadsRowed(lines: seq<string>)
    ensures Rowed(Table, Heads(lines))
  {
    forall i | 0 <= i < |lines| && Heads(lines)[i].row.Some?
      ensures Heads(lines)[i].row.value < |Table|
    {
      HeadAt(lines, i);
    }
  }

  /** The section pushed for row k. */
  function ContentSection(rows: seq<SectionPattern>, k: nat, content: string, stamp: string): Section
    requires k < |rows|
  {
    Section(rows[k].id + "-" + stamp, rows[k].title, content, rows[k].icon, false, None, None, true, false)
  }

  /** `sections.find(s => s.id.startsWith(id))` finds a section. */
  predicate HasIdPrefix(sections: seq<Section>, id: string) {
    exists t :: 0 <= t < |sections| && StartsWith(sections[t].id, id)
  }

  /** One pass of the outer loop, on a line with head h. */
  function Step(rows: seq<SectionPattern>, sections: seq<Section>, h: Head, stamp: string): seq<Section>
    requires h.row.Some? ==> h.row.value < |rows|
  {
    match h.row
    case None => sections
    case Some(k) =>
      if h.body != "" && !HasIdPrefix(sections, rows[k].id)
      then sections + [ContentSection(rows, k, h.body, stamp)]
      else sections
  }

  /** The sections after the outer loop has visited the first m heads. */
  function Segmented(rows: seq<SectionPattern>, sections: seq<Section>, hs: seq<Head>, stamp: string, m: nat): seq<Section>
    requires m <= |hs| && Rowed(rows, hs)
  {
    if m == 0 then sections else Step(rows, Segmented(rows, sections, hs, stamp, m - 1), hs[m - 1], stamp)
  }

  // ---------------------------------------------------------------------
  // The outer `for` loop of the source (script.js:418-481)

  /** The sections after the outer loop has visited the first m lines: the
      segmentation of their heads over the pattern table. */
  function SegmentLines(standard: seq<Section>, lines: seq<string>, stamp: string, m: nat): seq<Section>
    requires m <= |lines|
  {
    HeadsRowed(lines);
    Segmented(Table, standard, Heads(lines), stamp, m)
  }

  /** The body of the outer loop: classify line i and push its section. */
  method StepLine(sections: seq<Section>, lines: seq<string>, i: nat, stamp: string)
    returns (next: seq<Section>)
    requires i < |lines|
    ensures next == Step(Table, sections, HeadOf(lines, i), stamp)
  {
    next := sections;
    var k := MatchHeading(lines[i]);
    if k.Some? {
      var sectionContent := CollectBody(lines, i);
      CollectedIsTerminated(lines, LongerThan5, i + 1, BodyEnd(lines, i), "\n");
      assert Trim(sectionContent) == Body(lines, i);
      if Trim(sectionContent) != "" {
        var existing := HasIdPrefix(sections, Table[k.value].id);
        if !existing {
          next := sections + [ContentSection(Table, k.value, Trim(sectionContent), stamp)];
        }
      }
    }
  }

  /** A step on line i extends the running list by one line. */
  lemma SegmentLinesNext(standard: seq<Section>, lines: seq<string>, stamp: string, i: nat,
                         sections: seq<Section>, next: seq<Section>)
    requires i < |lines| && sections == SegmentLines(standard, lines, stamp, i)
    requires next == Step(Table, sections, HeadOf(lines, i), stamp)
    ensures next == SegmentLines(standard, lines, stamp, i + 1)
  {
    HeadAt(lines, i);
  }

  /** One pass of the outer loop, on line i. */
  method VisitLine(ghost standard: seq<Section>, sections: seq<Section>, lines: seq<string>, i: nat, stamp: string)
    returns (next: seq<Section>)
    requires i < |lines| && sections == SegmentLines(standard, lines, stamp, i)
    ensures next == SegmentLines(standard, lines, stamp, i + 1)
  {
    next := StepLine(sections, lines, i, stamp);
    SegmentLinesNext(standard, lines, stamp, i, sections, next);
  }

  /** The outer `for` loop. */
  method AppendContentSections(standard: seq<Section>, lines: seq<string>, stamp: string)
    returns (sections: seq<Section>)
    ensures sections == SegmentLines(standard, lines, stamp, |lines|)
  {
    sections := standard;
    var i := 0;
    while i < |lines|
      invariant 0 <= i <= |lines|
      invariant sections == SegmentLines(standard, lines, stamp, i)
    {
      sections := VisitLine(standard, sections, lines, i, stamp);
      i := i + 1;
    }
  }

  // ---------------------------------------------------------------------
  // What the loop computes, stated without the running list

  /** A line that opens a heading and whose body is not blank. */
  predicate Productive(h: Head) {
    h.row.Some? && h.body != ""
  }

  /** Head i is the first productive head of its row. */
  predicate FirstOfKind(hs: seq<Head>, i: nat)
    requires i < |hs|
  {
    Productive(hs[i]) && forall j :: 0 <= j < i && Productive(hs[j]) ==> hs[j].row != hs[i].row
  }

  /** The reference reading: one section per row, for the first productive
      head of the row, in line order. */
  function Reference(rows: seq<SectionPattern>, hs: seq<Head>, stamp: string, m: nat): (r: seq<Section>)
    requires m <= |hs| && Rowed(rows, hs)
    ensures |r| <= m
  {
    if m == 0 then []
    else
      Reference(rows, hs, stamp, m - 1) +
      (if FirstOfKind(hs, m - 1) then [ContentSection(rows, hs[m - 1].row.value, hs[m - 1].body, stamp)] else [])
  }

  /** A section id made of row j's id, a hyphen and the stamp starts with
      row k's id exactly when j is k. */
  predicate Keyed(rows: seq<SectionPattern>, stamp: string) {
    forall j, k :: 0 <= j < |rows| && 0 <= k < |rows| ==>
      (StartsWith(rows[j].id + "-" + stamp, rows[k].id) <==> j == k)
  }

  /** Different rows have different titles. */
  predicate TitlesApart(rows: seq<SectionPattern>) {
    forall j, k :: 0 <= j < |rows| && 0 <= k < |rows| && j != k ==> rows[j].title != rows[k].title
  }

  lemma TableKeyed(stamp: string)
    ensures Keyed(Table, stamp)
  {
    forall j, k | 0 <= j < |Table| && 0 <= k < |Table|
      ensures StartsWith(Table[j].id + "-" + stamp, Table[k].id) <==> j == k
    {
      PatternIdsDistinguish(j, k, stamp);
    }
  }

  lemma TableTitlesApart()
    ensures TitlesApart(Table)
  {
    forall j, k | 0 <= j < |Table| && 0 <= k < |Table| && j != k
      ensures Table[j].title != Table[k].title
    {
      TitlesDistinct(j, k);
    }
  }

  /** The pattern titles are pairwise different. */
  lemma TitlesDistinct(j: nat, k: nat)
    requires j < |Table| && k < |Table| && j != k
    ensures Table[j].title != Table[k].title
  {
    assert Table[j].title[0] != Table[k].title[0] || Table[j].title[2] != Table[k].title[2];
  }

  /** No section of the list has an id that starts with a row id. */
  predicate NoPatternPrefix(rows: seq<SectionPattern>, sections: seq<Section>) {
    forall t, k :: 0 <= t < |sections| && 0 <= k < |rows| ==> !StartsWith(sections[t].id, rows[k].id)
  }

  lemma DetailSectionsNoPatternPrefix(contents: seq<string>)
    requires |contents| == 6
    ensures NoPatternPrefix(Table, DetailSections(contents))
  {
    var d := DetailSections(contents);
    forall t, k | 0 <= t < |d| && 0 <= k < |Table|
      ensures !StartsWith(d[t].id, Table[k].id)
    {
      DetailIdsNotPatternPrefixed(t, k);
    }
  }

  /** The reference list holds a section of row k exactly when one of the
      first m heads is a productive head of row k. */
  lemma {:induction false} ReferenceKinds(rows: seq<SectionPattern>, hs: seq<Head>, stamp: string, m: nat, k: nat)
    requires m <= |hs| && Rowed(rows, hs) && k < |rows| && Keyed(rows, stamp)
    ensures HasIdPrefix(Reference(rows, hs, stamp, m), rows[k].id) <==>
            exists j :: 0 <= j < m && Productive(hs[j]) && hs[j].row == Some(k)
  {
    if m > 0 {
      ReferenceKinds(rows, hs, stamp, m - 1, k);
      var prev := Reference(rows, hs, stamp, m - 1);
      var r := Reference(rows, hs, stamp, m);
      if FirstOfKind(hs, m - 1) {
        var j := hs[m - 1].row.value;
        assert StartsWith(rows[j].id + "-" + stamp, rows[k].id) <==> j == k;
        assert r == prev + [ContentSection(rows, j, hs[m - 1].body, stamp)];
        assert r[|prev|].id == rows[j].id + "-" + stamp;
        if HasIdPrefix(r, rows[k].id) {
          var t :| 0 <= t < |r| && StartsWith(r[t].id, rows[k].id);
          if t < |prev| {
            assert r[t] == prev[t];
          }
        }
        if HasIdPrefix(prev, rows[k].id) {
          var t :| 0 <= t < |prev| && StartsWith(prev[t].id, rows[k].id);
          assert r[t] == prev[t];
        }
      } else {
        assert r == prev;
      }
    }
  }

  /** Putting sections without row-prefixed ids in front does not change
      the duplicate check. */
  lemma HasIdPrefixAfter(rows: seq<SectionPattern>, standard: seq<Section>, r: seq<Section>, k: nat)
    requires NoPatternPrefix(rows, standard) && k < |rows|
    ensures HasIdPrefix(standard + r, rows[k].id) <==> HasIdPrefix(r, rows[k].id)
  {
    var s := standard + r;
    if HasIdPrefix(s, rows[k].id) {
      var t :| 0 <= t < |s| && StartsWith(s[t].id, rows[k].id);
      assert s[t] == r[t - |standard|];
    }
    if HasIdPrefix(r, rows[k].id) {
      var t :| 0 <= t < |r| && StartsWith(r[t].id, rows[k].id);
      assert s[t + |standard|] == r[t];
    }
  }

  /** The loop with its startsWith duplicate check computes the reference
      reading after whatever sections it started from, provided none of
      those has a row-prefixed id (the detail sections have none). */
  lemma {:induction false} SegmentedIsReference(rows: seq<SectionPattern>, standard: seq<Section>, hs: seq<Head>,
                                               stamp: string, m: nat)
    requires m <= |hs| && Rowed(rows, hs) && NoPatternPrefix(rows, standard) && Keyed(rows, stamp)
    ensures Segmented(rows, standard, hs, stamp, m) == standard + Reference(rows, hs, stamp, m)
  {
    if m > 0 {
      SegmentedIsReference(rows, standard, hs, stamp, m - 1);
      var prev := Reference(rows, hs, stamp, m - 1);
      var h := hs[m - 1];
      if h.row.Some? {
        var k := h.row.value;
        HasIdPrefixAfter(rows, standard, prev, k);
        ReferenceKinds(rows, hs, stamp, m - 1, k);
        if h.body != "" {
          assert (standard + prev) + [ContentSection(rows, k, h.body, stamp)]
              == standard + (prev + [ContentSection(rows, k, h.body, stamp)]);
        }
      }
    }
  }

  /** s is the section of the first productive head of its row, among the
      first m heads. */
  predicate FromFirstOfKind(rows: seq<SectionPattern>, hs: seq<Head>, stamp: string, m: nat, s: Section)
    requires m <= |hs| && Rowed(rows, hs)
  {
    exists i :: 0 <= i < m && FirstOfKind(hs, i) && s == ContentSection(rows, hs[i].row.value, hs[i].body, stamp)
  }

  /** Each reference section is the section of its row for the first
      productive head of that row. */
  lemma {:induction false} ReferenceSound(rows: seq<SectionPattern>, hs: seq<Head>, stamp: string, m: nat)
    requires m <= |hs| && Rowed(rows, hs)
    ensures forall t :: 0 <= t < |Reference(rows, hs, stamp, m)| ==>
      FromFirstOfKind(rows, hs, stamp, m, Reference(rows, hs, stamp, m)[t])
  {
    if m > 0 {
      ReferenceSound(rows, hs, stamp, m - 1);
      var prev := Reference(rows, hs, stamp, m - 1);
      var r := Reference(rows, hs, stamp, m);
      forall t | 0 <= t < |r|
        ensures FromFirstOfKind(rows, hs, stamp, m, r[t])
      {
        if t < |prev| {
          assert FromFirstOfKind(rows, hs, stamp, m - 1, prev[t]);
          var i :| 0 <= i < m - 1 && FirstOfKind(hs, i) &&
            prev[t] == ContentSection(rows, hs[i].row.value, hs[i].body, stamp);
          assert r[t] == prev[t];
        } else {
          assert FirstOfKind(hs, m - 1);
          assert r[t] == ContentSection(rows, hs[m - 1].row.value, hs[m - 1].body, stamp);
        }
      }
    }
  }

  /** Every productive head's row has a section in the reference list. */
  lemma ReferenceComplete(rows: seq<SectionPattern>, hs: seq<Head>, stamp: string, m: nat, i: nat)
    requires i < m <= |hs| && Rowed(rows, hs) && Keyed(rows, stamp) && Productive(hs[i])
    ensures HasIdPrefix(Reference(rows, hs, stamp, m), rows[hs[i].row.value].id)
  {
    ReferenceKinds(rows, hs, stamp, m, hs[i].row.value);
  }

  /** No two reference sections have the same title. */
  lemma {:induction false} ReferenceDistinct(rows: seq<SectionPattern>, hs: seq<Head>, stamp: string, m: nat)
    requires m <= |hs| && Rowed(rows, hs) && TitlesApart(rows)
    ensures forall t, u :: 0 <= t < u < |Reference(rows, hs, stamp, m)| ==>
      Reference(rows, hs, stamp, m)[t].title != Reference(rows, hs, stamp, m)[u].title
  {
    if m > 0 {
      ReferenceDistinct(rows, hs, stamp, m - 1);
      var prev := Reference(rows, hs, stamp, m - 1);
      var r := Reference(rows, hs, stamp, m);
      if FirstOfKind(hs, m - 1) {
        var k := hs[m - 1].row.value;
        ReferenceSound(rows, hs, stamp, m - 1);
        forall t | 0 <= t < |prev|
          ensures prev[t].title != rows[k].title
        {
          assert FromFirstOfKind(rows, hs, stamp, m - 1, prev[t]);
          var i :| 0 <= i < m - 1 && FirstOfKind(hs, i) &&
            prev[t] == ContentSection(rows, hs[i].row.value, hs[i].body, stamp);
          assert rows[hs[i].row.value].title != rows[k].title;
        }
        forall t, u | 0 <= t < u < |r|
          ensures r[t].title != r[u].title
        {
          if u < |prev| {
            assert r[t] == prev[t] && r[u] == prev[u];
          } else {
            assert r[t] == prev[t];
          }
        }
      } else {
        assert r == prev;
      }
    }
  }

  /** The rows of the productive heads among the first m. */
  function Seen(hs: seq<Head>, m: nat): set<nat>
    requires m <= |hs|
  {
    if m == 0 then {} else Seen(hs, m - 1) + (if Productive(hs[m - 1]) then {hs[m - 1].row.value} else {})
  }

  lemma {:induction false} SeenHas(hs: seq<Head>, m: nat, j: nat)
    requires j < m <= |hs| && Productive(hs[j])
    ensures hs[j].row.value in Seen(hs, m)
  {
    if j < m - 1 {
      SeenHas(hs, m - 1, j);
    }
  }

  lemma {:induction false} SeenFrom(hs: seq<Head>, m: nat, k: nat) returns (j: nat)
    requires m <= |hs| && k in Seen(hs, m)
    ensures j < m && Productive(hs[j]) && hs[j].row == Some(k)
  {
    if k in Seen(hs, m - 1) {
      j := SeenFrom(hs, m - 1, k);
    } else {
      j := m - 1;
    }
  }

  /** Head m - 1 is the first of its kind exactly when it is productive and
      its row was not seen before. */
  lemma FirstOfKindUnseen(hs: seq<Head>, m: nat)
    requires 0 < m <= |hs|
    ensures FirstOfKind(hs, m - 1) <==> Productive(hs[m - 1]) && hs[m - 1].row.value !in Seen(hs, m - 1)
  {
    if Productive(hs[m - 1]) {
      if hs[m - 1].row.value in Seen(hs, m - 1) {
        var j := SeenFrom(hs, m - 1, hs[m - 1].row.value);
      } else {
        forall j | 0 <= j < m - 1 && Productive(hs[j])
          ensures hs[j].row != hs[m - 1].row
        {
          SeenHas(hs, m - 1, j);
        }
      }
    }
  }

  /** The reference list has one section per row seen, and only rows of
      the table are seen. */
  lemma {:induction false} ReferenceCountsRows(rows: seq<SectionPattern>, hs: seq<Head>, stamp: string, m: nat)
    requires m <= |hs| && Rowed(rows, hs)
    ensures |Reference(rows, hs, stamp, m)| == |Seen(hs, m)|
    ensures forall k :: k in Seen(hs, m) ==> k < |rows|
  {
    if m > 0 {
      ReferenceCountsRows(rows, hs, stamp, m - 1);
      FirstOfKindUnseen(hs, m);
    }
  }

  lemma {:induction false} BoundedSetSize(S: set<nat>, n: nat)
    requires forall k :: k in S ==> k < n
    ensures |S| <= n
  {
    if n > 0 {
      BoundedSetSize(S - {n - 1}, n - 1);
    }
  }

  /** At most one content section per row: never more sections than rows. */
  lemma ReferenceAtMostRows(rows: seq<SectionPattern>, hs: seq<Head>, stamp: string, m: nat)
    requires m <= |hs| && Rowed(rows, hs)
    ensures |Reference(rows, hs, stamp, m)| <= |rows|
  {
    ReferenceCountsRows(rows, hs, stamp, m);
    BoundedSetSize(Seen(hs, m), |rows|);
  }

  predicate IsContent(s: Section) {
    !s.isDetail
  }

  lemma {:induction false} ReferenceIsContent(rows: seq<SectionPattern>, hs: seq<Head>, stamp: string, m: nat)
    requires m <= |hs| && Rowed(rows, hs)
    ensures forall t :: 0 <= t < |Reference(rows, hs, stamp, m)| ==> IsContent(Reference(rows, hs, stamp, m)[t])
  {
    if m > 0 {
      ReferenceIsContent(rows, hs, stamp, m - 1);
    }
  }

  // ---------------------------------------------------------------------
  // The section list of a parse (script.js:362-417 and 483-502)

  /** The list after the outer loop, completed with the template when it
      holds no content section. */
  function WithTemplate(s: seq<Section>, stamp: string): seq<Section> {
    if Filter(s, IsContent) == [] then s + TemplateSections(stamp) else s
  }

  /** After sections that are all detail sections without row-prefixed
      ids, the completed list is those sections followed by the reference
      sections, or by the template when there are none. */
  lemma CompletedSpec(rows: seq<SectionPattern>, standard: seq<Section>, hs: seq<Head>, stamp: string)
    requires Rowed(rows, hs) && NoPatternPrefix(rows, standard) && Keyed(rows, stamp)
    requires Filter(standard, IsContent) == []
    ensures WithTemplate(Segmented(rows, standard, hs, stamp, |hs|), stamp) ==
      standard +
      (if Reference(rows, hs, stamp, |hs|) == [] then TemplateSections(stamp) else Reference(rows, hs, stamp, |hs|))
  {
    var r := Reference(rows, hs, stamp, |hs|);
    SegmentedIsReference(rows, standard, hs, stamp, |hs|);
    FilterAppend(standard, r, IsContent);
    ReferenceIsContent(rows, hs, stamp, |hs|);
    FilterAll(r, IsContent);
  }

  /** The six detail sections, then the content sections, then, when there
      are none, the four template sections. */
  function ParsedSections(details: seq<string>, lines: seq<string>, stamp: string): seq<Section>
    requires |details| == 6
  {
    WithTemplate(SegmentLines(DetailSections(details), lines, stamp, |lines|), stamp)
  }

  /** The section list of a parse (script.js:362-502): the detail
      sections, the content sections of the outer loop and, when that found
      none, the template. */
  method BuildSections(details: seq<string>, lines: seq<string>, stamp: string) returns (sections: seq<Section>)
    requires |details| == 6
    ensures sections == ParsedSections(details, lines, stamp)
  {
    var standardSections := DetailSections(details);
    standardSections := AppendContentSections(standardSections, lines, stamp);
    var foundSections := Filter(standardSections, IsContent);
    if |foundSections| == 0 {
      standardSections := standardSections + TemplateSections(stamp);
    }
    sections := standardSections;
  }

  /** The parsed list is the detail sections followed by the reference
      sections, or by the template when no heading had a body. */
  lemma ParsedSectionsSpec(details: seq<string>, lines: seq<string>, stamp: string)
    requires |details| == 6
    ensures Rowed(Table, Heads(lines))
    ensures ParsedSections(details, lines, stamp) ==
      DetailSections(details) +
      (if Reference(Table, Heads(lines), stamp, |lines|) == [] then TemplateSections(stamp)
       else Reference(Table, Heads(lines), stamp, |lines|))
  {
    var d := DetailSections(details);
    HeadsRowed(lines);
    DetailSectionsNoPatternPrefix(details);
    FilterEmpty(d, IsContent);
    TableKeyed(stamp);
    CompletedSpec(Table, d, Heads(lines), stamp);
  }
}
