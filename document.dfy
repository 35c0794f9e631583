/** The poster's section records and the fixed section lists the editor
    starts from: the six detail sections (script.js:362-417, 560-615), the
    four template sections (script.js:485-499, 618-655) and the section a
    user adds (script.js:1301-1316). */
module Document {
  import opened Seqs
  import opened Strings
  import opened Patterns

  /** One entry of `extractedData.sections`. `chartData` and `image` are
      None where the source leaves the property out or sets it to null. */
  datatype Section = Section(
    id: string,
    title: string,
    content: string,
    icon: string,
    hasChart: bool,
    chartData: Option<string>,
    image: Option<string>,
    editable: bool,
    isDetail: bool)

  /** A value the editor writes into a top-level field: the text fields hold
      strings, but the `hasChart` radio buttons pass booleans. */
  datatype Value = Text(s: string) | Flag(b: bool)

  /** The four edits the editor form issues through `updateSectionData`
      (script.js:700-725). */
  datatype Edit =
    | SetTitle(title: string)
    | SetContent(content: string)
    | SetHasChart(hasChart: bool)
    | SetChartData(chartData: string)

  /** `sections[index][field] = value`. */
  function Edited(s: Section, e: Edit): (r: Section)
    ensures r.id == s.id && r.isDetail == s.isDetail && r.icon == s.icon
  {
    match e
    case SetTitle(t) => s.(title := t)
    case SetContent(c) => s.(content := c)
    case SetHasChart(b) => s.(hasChart := b)
    case SetChartData(d) => s.(chartData := Some(d))
  }

  /** The value the edit carries. */
  function EditValue(e: Edit): Value {
    match e
    case SetTitle(t) => Text(t)
    case SetContent(c) => Text(c)
    case SetHasChart(b) => Flag(b)
    case SetChartData(d) => Text(d)
  }

  const DetailIds: seq<string> := ["title", "authors", "affiliations", "abstract", "conference", "disclosures"]
  const DetailTitles: seq<string> := ["Title", "Authors", "Affiliations", "Abstract", "Conference", "Disclosures"]
  const DetailIcons: seq<string> := ["📌", "👥", "🏛️", "📄", "🎯", "📋"]

  /** The k-th detail section, holding the k-th extracted field. */
  function DetailSection(k: nat, content: string): Section
    requires k < 6
  {
    Section(DetailIds[k], DetailTitles[k], content, DetailIcons[k], false, None, None, true, true)
  }

  /** The six detail sections over the title, authors, affiliations,
      abstract, conference and disclosures texts, in that order. */
  function DetailSections(contents: seq<string>): (r: seq<Section>)
    requires |contents| == 6
    ensures |r| == 6
    ensures forall k :: 0 <= k < 6 ==> r[k].isDetail && r[k].id == DetailIds[k] && r[k].content == contents[k]
  {
    [DetailSection(0, contents[0]), DetailSection(1, contents[1]), DetailSection(2, contents[2]),
     DetailSection(3, contents[3]), DetailSection(4, contents[4]), DetailSection(5, contents[5])]
  }

  /** An empty content section: the four template sections. */
  function EmptySection(id: string, title: string, icon: string): Section {
    Section(id, title, "", icon, false, None, None, true, false)
  }

  /** Background, Methods, Results and Conclusions, each with an empty body
      and an id made of its name and the time stamp. */
  function TemplateSections(stamp: string): (r: seq<Section>)
    ensures |r| == 4
    ensures forall k :: 0 <= k < 4 ==> !r[k].isDetail && r[k].content == ""
  {
    [EmptySection("background-" + stamp, "Background", "🔬"),
     EmptySection("methods-" + stamp, "Methods", "📊"),
     EmptySection("results-" + stamp, "Results", "📈"),
     EmptySection("conclusions-" + stamp, "Conclusions", "💡")]
  }

  /** The section `addSection` appends. */
  function NewSection(stamp: string): Section {
    Section("section-" + stamp, "New Section", "Enter section content here...", "📋",
            false, Some(""), None, true, false)
  }

  /** No detail id starts with a pattern id, so the duplicate check of the
      segmenter never mistakes a detail section for a content section. */
  lemma DetailIdsNotPatternPrefixed(k: nat, j: nat)
    requires k < 6 && j < |Table|
    ensures !StartsWith(DetailIds[k], Table[j].id)
  {
    DetailIdsKeyed(k, j);
  }

  /** The first, third and fifth characters tell every detail id from every
      pattern id. */
  lemma DetailIdsKeyed(k: nat, j: nat)
    requires k < 6 && j < |Table|
    ensures |DetailIds[k]| >= 5 && |Table[j].id| >= 5
    ensures DetailIds[k][0] != Table[j].id[0] || DetailIds[k][2] != Table[j].id[2] || DetailIds[k][4] != Table[j].id[4]
  {
  }
}
