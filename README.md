# Poster2Website text structuring, modelled in Dafny

Poster2Website turns a scientific poster PDF into an editable web page, all in
the browser. This project models the part of `script.js` that gives the PDF
text its structure:

- **The line walk** (`extractPDFContent`). It groups one page's positioned
  text fragments into lines and pages into one document text.
- **The parser** (`parseExtractedText`). It cuts the text into clean lines
  and picks out six poster details: title, authors, affiliations, abstract,
  conference and disclosures. It then splits the rest into content sections
  using a table of nine heading patterns, and falls back to a four-section
  template when it finds none.
- **The empty template** (`populateExtractedData`).
- **The section-list edits**: `updateSectionData`, `addSection` and
  `removeSection`.

The modules follow the program's pieces. Each `for`/`while`
loop of the source is a method with invariants, proved equal to a function
that says what it computes. The properties are lemmas about those functions.

- `Seqs`, `Strings`: JavaScript's `find`/`findIndex`/`filter`, `trim()`,
  `split`, `join` and ASCII case mapping.
- `Patterns`: the pattern table, with its regular expressions written as
  character predicates. Each predicate is proved equivalent to a
  split-based reading of its expression: the nine row expressions, the
  `materials?\s+and\s+methods?` phrase inside the methods row, the
  shouted-heading form and the canonical-heading prefix test of the
  abstract.
- `Fields`: line cleaning and the six detail searches.
- `Document`: the section records and the fixed section lists.
- `Segmenter`: the content-section loop. It is proved equal to a
  "reference reading": the first heading of each row that has a body gives
  that row's section.
- `LineWalk`: the page walk.
- `Poster`: the `extractedData` object as a class, with the operations
  that change it.

## Model

| member | source | states |
|---|---|---|
| LineWalk.Runs | script.js:164-185 | The kept fragments fall into non-empty runs; there are none exactly when no fragment is kept |
| LineWalk.Visit | script.js:164-185 | One callback: a blank fragment is skipped; otherwise the walk state covers one more kept fragment (a line is flushed on a break, or the text is glued on) |
| LineWalk.WalkItems | script.js:164-185 | After the `forEach`, the pushed lines, the current line and the last baseline are those of the runs of all kept fragments |
| LineWalk.ReconstructPage | script.js:152-190 | The lines pushed for a page are the trimmed texts of its runs of kept fragments |
| LineWalk.ExtractFullText | script.js:143-194 | The document text is every page's lines joined by `\n`, each page followed by `\n\n`, in page order (read back by LineWalk.WalkLinesParsed) |
| LineWalk.LinesTrimmedNonEmpty | script.js:172-174 | Every emitted line is trimmed and non-empty |
| LineWalk.BlankFragmentIgnored | script.js:166 | Inserting a blank fragment anywhere changes no line |
| LineWalk.RunsFlatten | script.js:164-185 | The runs, concatenated in order, are exactly the kept fragments, so each fragment lies in exactly one line |
| LineWalk.RunsStayTogether | script.js:171 | Within a run, consecutive fragments have baselines at most 2 apart |
| LineWalk.RunsSeparated | script.js:171 | Consecutive runs meet at fragments whose baselines are more than 2 apart |
| LineWalk.RunsKept | script.js:166 | Every fragment of every run is non-blank |
| LineWalk.RunTextNotBlank | script.js:172-173 | A run ending in a kept fragment never gives a blank line |
| LineWalk.TextsAppear | script.js:178-181 | Each fragment's text occurs verbatim in its run's text, at its offset |
| LineWalk.TextsInOrder | script.js:178-181 | Fragment texts occur in walk order, each starting at most one inserted space after the previous one ends |
| LineWalk.RunsFrom | script.js:164-185 | Every fragment of a line is one of the page's fragments |
| LineWalk.PageLinesUnbroken | script.js:172-192 | When no fragment text holds a line break, no line of the page does |
| LineWalk.FullTextNoCr | script.js:191-192 | When no fragment text holds a line break, the document text holds no `\r` |
| LineWalk.ClosedPageLines | script.js:191-192 | Cutting one page's text, with its closing blank line, back into lines gives exactly that page's lines |
| LineWalk.FullTextLines | script.js:191-192 | Cutting the document text at `\n` gives every page's lines, in page order |
| LineWalk.WalkLinesParsed | script.js:191-259 | Round trip: when no fragment text holds a line break, the parser's clean lines of the document text are exactly the walk's lines, page after page |
| Fields.ReplaceCrLf | script.js:258 | The `\r\n` replacement never lengthens the text and leaves a text without `\r` as it is |
| Fields.ReplaceCr | script.js:258 | The `\r` replacement keeps the length and leaves no `\r` |
| Fields.ReplaceCrLfAppend | script.js:258 | The `\r\n` replacement works piece by piece wherever the cut does not split a `\r\n` pair |
| Fields.NormalizedAppend | script.js:258 | Both replacements together work piece by piece wherever the cut does not split a `\r\n` pair |
| Fields.CrLfNormalized | script.js:258 | Each `\r\n` becomes one `\n` and the text on either side is normalised on its own |
| Fields.LoneCrNormalized | script.js:258 | A `\r` not followed by `\n` becomes one `\n` |
| Fields.LfNormalized | script.js:258 | A `\n` that does not end a `\r\n` pair stays one `\n` |
| Fields.OtherCharNormalized | script.js:258 | Every character other than `\r` and `\n` stays as it is |
| Fields.CleanLines | script.js:258-259 | A text without `\r` is cut at its `\n`s alone |
| Fields.CleanLinesTrimmed | script.js:258-259 | Every clean line is trimmed and non-empty |
| Fields.LinesOfAppend | script.js:259 | Cutting at one `\n` splits the lines into those before it and those after it |
| Fields.LinesOfBlankLine | script.js:259 | A blank line adds no line and splits the lines into those before and after it |
| Fields.LinesOfJoin | script.js:259 | Trimmed, non-empty lines free of `\n`, joined by `\n`, are cut back into the same lines |
| Fields.ExtractTitle | script.js:265-276 | The title loop and fallback compute `Title`: the first candidate of the first five lines, else the first line longer than 20, else the first line |
| Fields.TitleSpec | script.js:265-276 | The title is "" exactly when there are no lines; it is the first candidate among the first five lines when one exists; it holds a comma only when none of them is a candidate; it is always one of the lines |
| Fields.StopIndex | script.js:296-305 | The window ends at the first line of the window that stops it, or at the window's end |
| Fields.CollectWindow | script.js:296-309 | The scan loop stops at the first stop line and appends each kept line plus the separator, up to the window end |
| Fields.WindowSpec | script.js:296-309 | A window keeps at most its size in lines, each kept and none a stop line; on clean lines the trimmed text is their join, empty exactly when nothing was kept |
| Fields.AbstractStop | script.js:296-305 | The abstract window runs from the line after the anchor to at most 14 lines further |
| Fields.CollectAbstract | script.js:296-310 | The inner loop accumulates the lines longer than 10 before the first header-like line, each followed by a space |
| Fields.ExtractAbstract | script.js:292-316 | The abstract search computes `Abstract`: anchored at the first line mentioning "abstract" in any case, trimmed |
| Fields.AbstractSpec | script.js:292-316 | At most 14 lines, each longer than 10 and none a stop line (shouted, pattern-matching, or starting with a canonical heading); "" when no line mentions "abstract"; on clean lines the single-space join, and "" exactly when no line was collected |
| Fields.ScanAuthors | script.js:321-329 | The author loop returns the first author-like line among the nine after line t, or "" |
| Fields.ExtractAuthors | script.js:319-330 | The authors search computes `Authors`, anchored at the first line equal to the title |
| Fields.AuthorsSpec | script.js:319-330 | Non-empty authors are the first author-like line (comma, longer than 20, an ASCII letter, no four digits) within nine lines after the title's first occurrence; "" when the title is no line; conversely, when some author-like line lies in that window the authors are non-empty |
| Fields.AffiliationsSpec | script.js:333-339 | Exactly min(5, n) lines when n lines are affiliation lines, in order, the first of them; their `"; "`-join when there is one; "" exactly when no line is an affiliation line |
| Fields.Conference | script.js:342-348 | Non-empty exactly when some line is a conference line; it is then the first one |
| Fields.ExtractDisclosures | script.js:351-359 | The disclosure loop computes `Disclosures`: the window from the first disclosure line, each line followed by a space, trimmed |
| Fields.DisclosuresFound | script.js:352-359 | On clean lines the disclosures are non-empty exactly when the first disclosure line is not the last line |
| Fields.DisclosuresEmpty | script.js:352-359 | On clean lines the disclosures are "" exactly when no line but the last is a disclosure line |
| Fields.DisclosuresJoin | script.js:352-359 | They are then at most five lines from the first disclosure line, joined by single spaces |
| Patterns.Classify | script.js:427-431 | The heading row is the first row whose test the line passes; no row when none does |
| Patterns.PatternMatchesIffRegex | script.js:280-288 | For rows whose alternatives have proper edges, the character-level test accepts exactly what `^\s*(alternatives)\s*:?\s*$` accepts with the `i` flag |
| Patterns.TableMatchesIffRegex | script.js:280-288 | Every row of the table accepts exactly what its regular expression accepts |
| Patterns.TableEdgesSafe | script.js:280-288 | Every alternative of every row, `materials?\s+and\s+methods?` included, starts and ends with a non-blank, non-colon character |
| Patterns.PhraseIffRegex | script.js:283 | The phrase test accepts exactly what `materials?\s+and\s+methods?` accepts: "material", an optional "s", blanks, "and", blanks, then "method" or "methods" |
| Patterns.CanonicalIffRegex | script.js:301 | The canonical-heading test accepts exactly the lines that the `i`-flagged prefix expression over INTRODUCTION, BACKGROUND, METHODS, RESULTS, DISCUSSION, CONCLUSIONS and REFERENCES accepts: one of the seven names, letter by letter in either ASCII case, then anything |
| Patterns.ShoutedIffRegex | script.js:300 | The shouted test accepts exactly the lines that `^[A-Z][A-Z\s]{2,}:?\s*$` accepts, case-sensitively |
| Patterns.PatternIdsDistinguish | script.js:462-465 | A section id made of row j's id, "-" and a stamp starts with row k's id exactly when j is k |
| Patterns.AcknowledgementsUnclassified | script.js:288 | The British spelling "Acknowledgements" opens no section: `acknowledgm?ent` makes the m optional, not the e |
| Patterns.NumberedHeadingQuirk | script.js:429-446 | "Methods 2" opens a Methods section through the prefix-and-length clause, yet does not stop the body before it |
| Document.Edited | script.js:842 | Editing a field never changes the section's id, kind or icon |
| Document.DetailSections | script.js:362-417 | Six detail sections with ids title, authors, affiliations, abstract, conference, disclosures, holding the given texts |
| Document.TemplateSections | script.js:483-500 | Four non-detail sections with empty content |
| Document.DetailIdsNotPatternPrefixed | script.js:462 | No detail id starts with a pattern id |
| Segmenter.BodyEnd | script.js:438-450 | A body window lies within the 49 lines after the heading |
| Segmenter.CollectBody | script.js:434-458 | The body loop accumulates the lines longer than 5 before the first body-stop line, each followed by `\n` |
| Segmenter.BodySpec | script.js:434-460 | A body holds at most 49 lines, each longer than 5 and none a stop line; on clean lines it is their `\n`-join, empty exactly when none was kept |
| Segmenter.MatchHeading | script.js:427-431 | The pattern loop finds the row `Classify` names |
| Segmenter.StepLine | script.js:421-478 | One outer iteration pushes the row's section exactly when the line opens a heading, its body is non-empty and no section id starts with the row id |
| Segmenter.AppendContentSections | script.js:420-480 | The outer loop computes the segmentation of all line heads |
| Segmenter.ReferenceKinds | script.js:462-463 | The reference list has a section of row k exactly when a heading of row k with a body occurs |
| Segmenter.SegmentedIsReference | script.js:420-480 | After sections without row-prefixed ids, the loop with its startsWith check appends precisely the reference reading |
| Segmenter.ReferenceSound | script.js:420-480 | Every content section is its row's section for the first heading of that row with a non-empty body |
| Segmenter.ReferenceComplete | script.js:420-480 | Every row with a heading that has a body gets a section |
| Segmenter.ReferenceDistinct | script.js:462-463 | No two content sections have the same title |
| Segmenter.ReferenceAtMostRows | script.js:462-463 | There are never more content sections than pattern rows |
| Segmenter.ReferenceIsContent | script.js:464-472 | Every content section is a non-detail section |
| Segmenter.TableKeyed | script.js:462-465 | The pattern table satisfies the keyed-id fact the duplicate check relies on |
| Segmenter.DetailSectionsNoPatternPrefix | script.js:362-417 | No detail section id starts with a pattern id |
| Segmenter.CompletedSpec | script.js:483-502 | The final list is the starting sections, then the reference sections, or the template when there are none |
| Segmenter.BuildSections | script.js:362-502 | The section list is built from the detail sections, the outer loop and the template fallback |
| Segmenter.ParsedSectionsSpec | script.js:362-502 | The parsed list is the six detail sections, then the reference sections, or the four template sections when no heading had a body |
| Poster.Poster.constructor | script.js:1-14 | The detail fields start empty and the section list starts empty |
| Poster.ExtractDetails | script.js:265-359 | The six searches, in the source's order, yield the title, authors, affiliations, abstract, conference and disclosures |
| Poster.Poster.ParseExtractedText | script.js:240-503 | The fields hold the six extracted texts, and the sections are the parsed list of the clean lines |
| Poster.Poster.PopulateExtractedData | script.js:541-660 | The fields are empty, and the sections are six empty detail sections followed by the template |
| Poster.Poster.UpdateSectionData | script.js:841-857 | On a valid index, only that section's field changes, and the top-level field named by a detail section's id takes the value. An invalid index changes nothing |
| Poster.Poster.AddSection | script.js:1301-1316 | One "New Section" is appended; nothing else changes |
| Poster.Poster.RemoveSection | script.js:1318-1322 | The list becomes `splice(index, 1)` of the old list; the fields are unchanged |
| Poster.Mirrored | script.js:847-855 | The top-level field of a detail section's id takes the value; no other field changes |
| Poster.Updated | script.js:842 | Only the edited entry changes |
| Poster.Spliced | script.js:1319 | Cases of splice: a non-negative index in range removes that entry; a negative one counts from the end; before the start, the first entry goes; past the end, nothing changes |
| Poster.SplicedRemovesOne | script.js:1319 | A splice within the list removes exactly one entry, as a multiset |
| Poster.ParsedRestSpec | script.js:483-502 | After the detail sections come between one and nine non-detail sections |
| Poster.ParsedShape | script.js:362-502 | A parse yields the six detail sections over the extracted texts, then one to nine non-detail sections |
| Poster.ParsedCoherent | script.js:362-417 | After a parse every detail section's content equals the top-level field of its id, and no two detail sections share an id |
| Poster.PopulatedCoherent | script.js:541-660 | The same holds after `populateExtractedData` |
| Poster.EmptyTextIsPopulated | script.js:258-502 | Parsing an empty text gives empty details and exactly the list `populateExtractedData` builds |
| Poster.ContentEditKeepsCoherence | script.js:841-857 | A content edit keeps every detail section and its top-level field in step |
| Poster.ContentSectionEditKeepsCoherence | script.js:841-857 | An edit of a non-detail section changes no top-level field and keeps the mirror in step |
| Poster.FieldEditBreaksSync | script.js:847-855 | A title, chart-flag or chart-data edit of a detail section is written into the top-level field too, which then no longer matches the content (a flag never does) |
| Poster.AddKeepsCoherence | script.js:1301-1316 | Adding a section keeps the mirror in step |
| Poster.RemoveKeepsCoherence | script.js:1318-1322 | Removing any entry, detail sections included, keeps the mirror in step |

## Left out

- PDF.js loading, the async page retrieval and the worker. `ExtractFullText` takes each page's fragments as input.
- The sort comparator (script.js:158-162). It compares float coordinates with a tolerance and is not transitive, so the engine's result is unspecified. The walk takes the fragments already sorted.
- Fragment coordinates are integers. The source's are floats, compared with `> 2`.
- The DOM, events, alerts, the loading overlay, timers and `console.log`. Among them are `populateSections`, `addSectionToEditor` and `updatePreview`, called after the edits.
- Drag-and-drop reordering, the preview and export generators, and the logo, colour, font-size and layout settings. The fields `logo`, `logoPosition`, `headlineSize`, `bodySize` and `layoutStyle` are not modelled.
- `Date.now()` becomes a `stamp` parameter, one per call. In the source, successive calls within one parse could return different milliseconds.
- Case mapping is ASCII only. `toUpperCase` in the heading and body-stop tests would also map non-ASCII letters. The `/i` keyword and pattern tests are exact on their ASCII words.
- Lengths count code points, not UTF-16 code units. The two differ only for characters outside the Basic Multilingual Plane.
- `chartData` and `image` are `Option`. `None` stands for both an absent property and `null`.
- `updateSectionData` takes the four edits the editor issues: title, content, chart flag and chart data. Writes to other fields are not modelled.
- Fields.AuthorLike does not model the split test `lines[i].split(',').length >= 2`. It holds whenever the line contains a comma, which the same condition already requires.
- Segmenter.ReferenceSound and its companion lemmas are proved for any table of rows with distinct keyed ids. The pattern table is shown to have these properties (Segmenter.TableKeyed, Segmenter.TableTitlesApart).
- LineWalk.WalkLinesParsed assumes no fragment text holds `\n` or `\r`. A fragment with a line break inside would be cut into several lines by the parser.
- LineWalk.TextsAppear places each fragment's text in its run's untrimmed text. Trimming a line can drop blanks at the ends of its first and last fragments.
