/** The editor state `extractedData` (script.js:1-14) and the operations
    that replace or change it: `parseExtractedText` (script.js:240-503),
    `populateExtractedData` (script.js:541-660), `updateSectionData`
    (script.js:841-857), `addSection` (script.js:1301-1316) and
    `removeSection` (script.js:1318-1322). The six top-level detail fields
    mirror the contents of the six detail sections; the lemmas say which
    operations keep that mirror in step and which break it. */
module Poster {
  import opened Seqs
  import opened Strings
  import opened Patterns
  import opened Document
  import opened Fields
  import opened Segmenter

  /** Each text as a top-level field value. */
  function Texts(contents: seq<string>): (r: seq<Value>)
    ensures |r| == |contents|
    ensures forall k :: 0 <= k < |r| ==> r[k] == Text(contents[k])
  {
    seq(|contents|, k requires 0 <= k < |contents| => Text(contents[k]))
  }

  /** The six empty detail texts. */
  const NoText: seq<string> := ["", "", "", "", "", ""]

  /** The six detail texts a parse picks out of the clean lines, in the
      order of the detail sections: title, authors, affiliations, abstract,
      conference, disclosures. The authors are searched after the title. */
  function DetailTexts(lines: seq<string>): (r: seq<string>)
    ensures |r| == 6
  {
    var title := Title(lines);
    [title, Authors(lines, title), Affiliations(lines), Abstract(lines), Conference(lines), Disclosures(lines)]
  }

  /** The top-level fields after `updateSectionData` wrote v into section s:
      the field named by the section's id takes v, whatever field of the
      section was edited, when the section is a detail section. */
  function Mirrored(details: seq<Value>, s: Section, v: Value): (r: seq<Value>)
    requires |details| == 6
    ensures |r| == 6
    ensures forall k :: 0 <= k < 6 ==> r[k] == (if s.isDetail && s.id == DetailIds[k] then v else details[k])
  {
    if !s.isDetail then details
    else
      var d0 := if s.id == "title" then details[0 := v] else details;
      var d1 := if s.id == "authors" then d0[1 := v] else d0;
      var d2 := if s.id == "affiliations" then d1[2 := v] else d1;
      var d3 := if s.id == "abstract" then d2[3 := v] else d2;
      var d4 := if s.id == "conference" then d3[4 := v] else d3;
      if s.id == "disclosures" then d4[5 := v] else d4
  }

  /** `sections[index][field] = value`, on a valid index. */
  function Updated(sections: seq<Section>, index: nat, e: Edit): (r: seq<Section>)
    requires index < |sections|
    ensures |r| == |sections|
    ensures forall t :: 0 <= t < |r| && t != index ==> r[t] == sections[t]
  {
    sections[index := Edited(sections[index], e)]
  }

  /** Where `splice(index, 1)` starts: a negative index counts from the end
      and is clamped at 0, a large one is clamped at the length. */
  function SpliceStart(len: nat, index: int): (p: nat)
    ensures p <= len
  {
    if index < 0 then (if len + index < 0 then 0 else len + index)
    else if index > len then len
    else index
  }

  /** `s.splice(index, 1)`: removes the entry at index, counting from the
      end when index is negative; an index before the start removes the
      first entry and one past the end removes nothing. */
  function Spliced<T>(s: seq<T>, index: int): (r: seq<T>)
    ensures 0 <= index < |s| ==> |r| == |s| - 1 && r[..index] == s[..index] && r[index..] == s[index + 1..]
    ensures -|s| <= index < 0 ==> |r| == |s| - 1 && r == s[..|s| + index] + s[|s| + index + 1..]
    ensures index < -|s| ==> r == if s == [] then [] else s[1..]
    ensures index >= |s| ==> r == s
  {
    var p := SpliceStart(|s|, index);
    if p < |s| then s[..p] + s[p + 1..] else s
  }

  /** A splice within the list removes exactly one entry, the one at the
      normalised index, and keeps all others. */
  lemma SplicedRemovesOne<T>(s: seq<T>, index: int)
    requires -|s| <= index < |s|
    ensures var p := if index < 0 then |s| + index else index;
      multiset(Spliced(s, index)) + multiset{s[p]} == multiset(s)
  {
    var p := if index < 0 then |s| + index else index;
    assert s == s[..p] + [s[p]] + s[p + 1..];
  }

  // ---------------------------------------------------------------------
  // The mirror between the detail sections and the top-level fields

  /** Every detail section's content is held, as text, by the top-level
      field of its id. */
  predicate Synced(sections: seq<Section>, details: seq<Value>)
    requires |details| == 6
  {
    forall i, k :: (0 <= i < |sections| && 0 <= k < 6 && sections[i].isDetail && sections[i].id == DetailIds[k]) ==>
      details[k] == Text(sections[i].content)
  }

  /** No two detail sections share an id. */
  predicate DetailsUnique(sections: seq<Section>) {
    forall i, j :: (0 <= i < |sections| && 0 <= j < |sections| && sections[i].isDetail && sections[j].isDetail &&
                    sections[i].id == sections[j].id) ==> i == j
  }

  predicate Coherent(sections: seq<Section>, details: seq<Value>)
    requires |details| == 6
  {
    Synced(sections, details) && DetailsUnique(sections)
  }

  lemma DetailIdsDistinct(i: nat, j: nat)
    requires i < 6 && j < 6 && DetailIds[i] == DetailIds[j]
    ensures i == j
  {
    assert DetailIds[i][0] == DetailIds[j][0] && |DetailIds[i]| == |DetailIds[j]|;
  }

  /** The six detail sections over some texts, followed by sections that
      are no detail sections, are in step with those texts. */
  lemma DetailsFirstCoherent(contents: seq<string>, rest: seq<Section>)
    requires |contents| == 6
    requires forall t :: 0 <= t < |rest| ==> !rest[t].isDetail
    ensures Coherent(DetailSections(contents) + rest, Texts(contents))
  {
    var s := DetailSections(contents) + rest;
    forall i, k | 0 <= i < |s| && 0 <= k < 6 && s[i].isDetail && s[i].id == DetailIds[k]
      ensures Texts(contents)[k] == Text(s[i].content)
    {
      assert i < 6;
      DetailIdsDistinct(i, k);
    }
    forall i, j | 0 <= i < |s| && 0 <= j < |s| && s[i].isDetail && s[j].isDetail && s[i].id == s[j].id
      ensures i == j
    {
      assert i < 6 && j < 6;
      DetailIdsDistinct(i, j);
    }
  }

  /** What follows the detail sections in a parse: the reference sections,
      or the template when there are none. */
  function ParsedRest(lines: seq<string>, stamp: string): seq<Section> {
    HeadsRowed(lines);
    var rf := Reference(Table, Heads(lines), stamp, |lines|);
    if rf == [] then TemplateSections(stamp) else rf
  }

  lemma ParsedRestSpec(details: seq<string>, lines: seq<string>, stamp: string)
    requires |details| == 6
    ensures ParsedSections(details, lines, stamp) == DetailSections(details) + ParsedRest(lines, stamp)
    ensures 1 <= |ParsedRest(lines, stamp)| <= |Table|
    ensures forall t :: 0 <= t < |ParsedRest(lines, stamp)| ==> !ParsedRest(lines, stamp)[t].isDetail
  {
    ParsedSectionsSpec(details, lines, stamp);
    ReferenceIsContent(Table, Heads(lines), stamp, |lines|);
    ReferenceAtMostRows(Table, Heads(lines), stamp, |lines|);
  }

  /** The six detail sections followed by n or fewer other sections. */
  lemma DetailsFirstShape(details: seq<string>, rest: seq<Section>, n: nat)
    requires |details| == 6 && 1 <= |rest| <= n
    requires forall t :: 0 <= t < |rest| ==> !rest[t].isDetail
    ensures var s := DetailSections(details) + rest;
      7 <= |s| <= 6 + n && s[..6] == DetailSections(details) && forall t :: 6 <= t < |s| ==> !s[t].isDetail
  {
    var s := DetailSections(details) + rest;
    assert forall t :: 6 <= t < |s| ==> s[t] == rest[t - 6];
  }

  /** A parse yields the six detail sections over the extracted texts,
      then between one and nine sections that are no detail sections: the
      content sections, at most one per pattern row, or the template. */
  lemma ParsedShape(text: string, stamp: string)
    ensures var lines := CleanLines(text); var s := ParsedSections(DetailTexts(lines), lines, stamp);
      7 <= |s| <= 6 + |Table| && s[..6] == DetailSections(DetailTexts(lines)) &&
      forall t :: 6 <= t < |s| ==> !s[t].isDetail
  {
    var lines := CleanLines(text);
    ParsedRestSpec(DetailTexts(lines), lines, stamp);
    DetailsFirstShape(DetailTexts(lines), ParsedRest(lines, stamp), |Table|);
  }

  /** A parse leaves the detail sections and the top-level fields in step. */
  lemma ParsedCoherent(text: string, stamp: string)
    ensures var lines := CleanLines(text);
      Coherent(ParsedSections(DetailTexts(lines), lines, stamp), Texts(DetailTexts(lines)))
  {
    var lines := CleanLines(text);
    ParsedRestSpec(DetailTexts(lines), lines, stamp);
    DetailsFirstCoherent(DetailTexts(lines), ParsedRest(lines, stamp));
  }

  /** So does `populateExtractedData`. */
  lemma PopulatedCoherent(stamp: string)
    ensures Coherent(DetailSections(NoText) + TemplateSections(stamp), Texts(NoText))
  {
    DetailsFirstCoherent(NoText, TemplateSections(stamp));
  }

  /** The text without any line. */
  lemma EmptyTextHasNoLines()
    ensures CleanLines("") == []
  {
    LinesOfEmpty();
  }

  /** Parsing an empty text yields what `populateExtractedData` builds:
      empty details and the four template sections. */
  lemma EmptyTextIsPopulated(stamp: string)
    ensures DetailTexts(CleanLines("")) == NoText
    ensures ParsedSections(DetailTexts(CleanLines("")), CleanLines(""), stamp) ==
      DetailSections(NoText) + TemplateSections(stamp)
  {
    EmptyTextHasNoLines();
    NoLinesNoDetails();
    NoLinesTemplate(stamp);
  }

  lemma NoLinesNoDetails()
    ensures DetailTexts([]) == NoText
  {
    assert Title([]) == "";
    assert Affiliations([]) == "";
  }

  lemma NoLinesTemplate(stamp: string)
    ensures ParsedSections(NoText, [], stamp) == DetailSections(NoText) + TemplateSections(stamp)
  {
    ParsedSectionsSpec(NoText, [], stamp);
  }

  /** An edit of a section's content keeps the mirror in step: the field of
      a detail section takes the same text. */
  lemma ContentEditKeepsCoherence(sections: seq<Section>, details: seq<Value>, index: nat, c: string)
    requires |details| == 6 && index < |sections| && Coherent(sections, details)
    ensures Coherent(Updated(sections, index, SetContent(c)), Mirrored(details, sections[index], Text(c)))
  {
    var s := Updated(sections, index, SetContent(c));
    var d := Mirrored(details, sections[index], Text(c));
    forall i, k | 0 <= i < |s| && 0 <= k < 6 && s[i].isDetail && s[i].id == DetailIds[k]
      ensures d[k] == Text(s[i].content)
    {
      if i != index {
        assert s[i] == sections[i];
      }
    }
  }

  /** An edit of a section that is no detail section changes no top-level
      field and keeps the mirror in step. */
  lemma ContentSectionEditKeepsCoherence(sections: seq<Section>, details: seq<Value>, index: nat, e: Edit)
    requires |details| == 6 && index < |sections| && Coherent(sections, details)
    requires !sections[index].isDetail
    ensures Mirrored(details, sections[index], EditValue(e)) == details
    ensures Coherent(Updated(sections, index, e), details)
  {
  }

  /** An edit of a detail section's title, chart flag or chart data is
      written into the top-level field as well, which then no longer holds
      the section's content unless the two happen to be equal; a chart flag
      never does. */
  lemma FieldEditBreaksSync(sections: seq<Section>, details: seq<Value>, index: nat, e: Edit, k: nat)
    requires |details| == 6 && index < |sections| && k < 6
    requires sections[index].isDetail && sections[index].id == DetailIds[k]
    requires !e.SetContent? && EditValue(e) != Text(sections[index].content)
    ensures Mirrored(details, sections[index], EditValue(e))[k] == EditValue(e)
    ensures !Synced(Updated(sections, index, e), Mirrored(details, sections[index], EditValue(e)))
  {
    var s := Updated(sections, index, e);
    assert s[index].content == sections[index].content;
  }

  /** Adding a section keeps the mirror in step. */
  lemma AddKeepsCoherence(sections: seq<Section>, details: seq<Value>, stamp: string)
    requires |details| == 6 && Coherent(sections, details)
    ensures Coherent(sections + [NewSection(stamp)], details)
  {
  }

  /** Removing a section keeps the mirror in step. */
  lemma RemoveKeepsCoherence(sections: seq<Section>, details: seq<Value>, index: int)
    requires |details| == 6 && Coherent(sections, details)
    ensures Coherent(Spliced(sections, index), details)
  {
    var p := SpliceStart(|sections|, index);
    var s := Spliced(sections, index);
    if p < |sections| {
      forall i, k | 0 <= i < |s| && 0 <= k < 6 && s[i].isDetail && s[i].id == DetailIds[k]
        ensures details[k] == Text(s[i].content)
      {
        SplicedAt(sections, index, i);
      }
      forall i, j | 0 <= i < |s| && 0 <= j < |s| && s[i].isDetail && s[j].isDetail && s[i].id == s[j].id
        ensures i == j
      {
        SplicedAt(sections, index, i);
        SplicedAt(sections, index, j);
      }
    }
  }

  /** Entry t of a splice that removed something. */
  lemma SplicedAt<T>(s: seq<T>, index: int, t: nat)
    requires SpliceStart(|s|, index) < |s| && t < |s| - 1
    ensures var p := SpliceStart(|s|, index);
      Spliced(s, index)[t] == s[if t < p then t else t + 1]
  {
  }

  /** The detail searches of `parseExtractedText` (script.js:265-359), in
      the source's order: title, abstract, authors (after the title),
      affiliations, conference, disclosures. */
  method ExtractDetails(lines: seq<string>) returns (details: seq<string>)
    ensures details == DetailTexts(lines)
  {
    var title := ExtractTitle(lines);
    var abstractText := ExtractAbstract(lines);
    var authors := ExtractAuthors(lines, title);
    var affiliations := Affiliations(lines);
    var conference := Conference(lines);
    var disclosures := ExtractDisclosures(lines);
    details := [title, authors, affiliations, abstractText, conference, disclosures];
  }

  /** `extractedData`, without the logo and the layout settings. */
  class Poster {
    var title: Value
    var authors: Value
    var affiliations: Value
    /** The `abstract` field (`abstract` is a Dafny keyword). */
    var abstractText: Value
    var conference: Value
    var disclosures: Value
    var sections: seq<Section>

    /** The six top-level detail fields, in the order of the detail
        sections. */
    function Details(): (r: seq<Value>)
      reads this
      ensures |r| == 6
    {
      [title, authors, affiliations, abstractText, conference, disclosures]
    }

    /** The state before any document is read. */
    constructor()
      ensures Details() == Texts(NoText) && sections == []
    {
      title, authors, affiliations := Text(""), Text(""), Text("");
      abstractText, conference, disclosures := Text(""), Text(""), Text("");
      sections := [];
    }

    /** Writes the six top-level detail fields. */
    method SetDetails(values: seq<Value>)
      requires |values| == 6
      modifies this
      ensures Details() == values && sections == old(sections)
    {
      title, authors, affiliations := values[0], values[1], values[2];
      abstractText, conference, disclosures := values[3], values[4], values[5];
    }

    /** Replaces the state by what the text yields: the six details and the
        section list of the segmenter. */
    method ParseExtractedText(text: string, stamp: string)
      modifies this
      ensures Details() == Texts(DetailTexts(CleanLines(text)))
      ensures sections == ParsedSections(DetailTexts(CleanLines(text)), CleanLines(text), stamp)
    {
      var lines := CleanLines(text);
      var details := ExtractDetails(lines);
      Install(details, lines, stamp);
    }

    /** Writes the extracted details and the section list built over them. */
    method Install(details: seq<string>, lines: seq<string>, stamp: string)
      requires |details| == 6
      modifies this
      ensures Details() == Texts(details)
      ensures sections == ParsedSections(details, lines, stamp)
    {
      var standardSections := BuildSections(details, lines, stamp);
      SetDetails(Texts(details));
      sections := standardSections;
    }

    /** Empty details and the four template sections. */
    method PopulateExtractedData(stamp: string)
      modifies this
      ensures Details() == Texts(NoText)
      ensures sections == DetailSections(NoText) + TemplateSections(stamp)
    {
      SetDetails(Texts(NoText));
      sections := DetailSections(NoText) + TemplateSections(stamp);
    }

    /** Applies the edit to section index and, for a detail section, writes
        the edit's value into the top-level field of the section's id. An
        index outside the list makes the source throw before any change;
        the method then reports false and changes nothing. */
    method UpdateSectionData(index: int, e: Edit) returns (ok: bool)
      modifies this
      ensures ok <==> 0 <= index < |old(sections)|
      ensures !ok ==> sections == old(sections) && Details() == old(Details())
      ensures ok ==> sections == Updated(old(sections), index, e)
      ensures ok ==> Details() == Mirrored(old(Details()), old(sections)[index], EditValue(e))
    {
      if index < 0 || index >= |sections| {
        return false;
      }
      sections := sections[index := Edited(sections[index], e)];
      var section := sections[index];
      if section.isDetail {
        var value := EditValue(e);
        if section.id == "title" { title := value; }
        if section.id == "authors" { authors := value; }
        if section.id == "affiliations" { affiliations := value; }
        if section.id == "abstract" { abstractText := value; }
        if section.id == "conference" { conference := value; }
        if section.id == "disclosures" { disclosures := value; }
      }
      ok := true;
    }

    /** Appends a new content section. */
    method AddSection(stamp: string)
      modifies this
      ensures sections == old(sections) + [NewSection(stamp)]
      ensures Details() == old(Details())
    {
      sections := sections + [NewSection(stamp)];
    }

    /** `sections.splice(index, 1)`, with no check of the index. */
    method RemoveSection(index: int)
      modifies this
      ensures sections == Spliced(old(sections), index)
      ensures Details() == old(Details())
    {
      var p := SpliceStart(|sections|, index);
      if p < |sections| {
        sections := sections[..p] + sections[p + 1..];
      }
    }
  }
}
