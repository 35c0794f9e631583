/** The line reconstructor of `extractPDFContent` (script.js:152-194): it
    walks one page's text fragments, already sorted top to bottom and left to
    right, and groups them into logical lines; the page texts are then
    concatenated into the document text that the parser splits again. */
module LineWalk {
  import opened Seqs
  import opened Strings
  import Fields

  /** One positioned text item of a page's text layer: its string and its
      baseline position (`transform[4]`, `transform[5]`), as integers. */
  datatype Fragment = Fragment(text: string, x: int, y: int)

  /** A fragment the walk does not skip: its text is not blank. */
  predicate Kept(f: Fragment) {
    !Blank(f.text)
  }

  function Abs(n: int): nat {
    if n < 0 then -n else n
  }

  /** cur starts a new line after prev: their baselines differ by more than 2. */
  predicate Breaks(prev: Fragment, cur: Fragment) {
    Abs(cur.y - prev.y) > 2
  }

  /** Whether the walk inserts a space between the line so far and the next
      text: only when the line is non-empty, does not already end with a
      space and the text does not start with one. */
  predicate Spaced(acc: string, t: string) {
    acc != "" && !EndsWithChar(acc, ' ') && !(t != "" && t[0] == ' ')
  }

  /** Appends one fragment's text to the line being built. */
  function Glue(acc: string, t: string): string {
    (if Spaced(acc, t) then acc + " " else acc) + t
  }

  /** The kept fragments grouped into maximal runs of visual lines, in walk
      order: a new run starts exactly where two consecutive kept fragments
      break. */
  function Runs(fs: seq<Fragment>): (r: seq<seq<Fragment>>)
    ensures (r == []) == (fs == [])
    ensures forall k :: 0 <= k < |r| ==> r[k] != []
  {
    if fs == [] then []
    else
      var init := fs[..|fs| - 1];
      var f := fs[|fs| - 1];
      var r := Runs(init);
      if init == [] then [[f]]
      else if Breaks(init[|init| - 1], f) then r + [[f]]
      else r[..|r| - 1] + [r[|r| - 1] + [f]]
  }

  /** The untrimmed text of one run: its fragments' texts glued in order. */
  function RunText(run: seq<Fragment>): string {
    if run == [] then "" else Glue(RunText(run[..|run| - 1]), run[|run| - 1].text)
  }

  /** The line the walk emits for one run: its text, trimmed. */
  function RunLine(run: seq<Fragment>): string {
    Trim(RunText(run))
  }

  /** The trimmed text of each run. */
  function RunLines(runs: seq<seq<Fragment>>): (ls: seq<string>)
    ensures |ls| == |runs|
  {
    Map(runs, RunLine)
  }

  /** The lines the walk emits for one page. */
  function PageLines(items: seq<Fragment>): seq<string> {
    RunLines(Runs(Filter(items, Kept)))
  }

  function Flatten(runs: seq<seq<Fragment>>): seq<Fragment> {
    if runs == [] then [] else Flatten(runs[..|runs| - 1]) + runs[|runs| - 1]
  }

  function Last(run: seq<Fragment>): Fragment
    requires run != []
  {
    run[|run| - 1]
  }

  /** How the runs grow by one kept fragment. */
  lemma RunsStep(fs: seq<Fragment>, f: Fragment)
    ensures fs == [] ==> Runs(fs + [f]) == [[f]]
    ensures fs != [] && Breaks(Last(fs), f) ==> Runs(fs + [f]) == Runs(fs) + [[f]]
    ensures fs != [] && !Breaks(Last(fs), f) ==>
      var r := Runs(fs); Runs(fs + [f]) == r[..|r| - 1] + [r[|r| - 1] + [f]]
  {
    assert (fs + [f])[..|fs|] == fs;
  }

  lemma RunTextStep(run: seq<Fragment>, f: Fragment)
    ensures RunText(run + [f]) == Glue(RunText(run), f.text)
  {
    assert (run + [f])[..|run|] == run;
  }

  lemma RunLinesStep(runs: seq<seq<Fragment>>, run: seq<Fragment>)
    ensures RunLines(runs + [run]) == RunLines(runs) + [RunLine(run)]
  {
    MapSnoc(runs, run, RunLine);
  }

  /** What the walk knows after the kept fragments fs: lastY is the last
      one's baseline, currentLine the text of the last run, and lines the
      trimmed texts of all earlier runs. */
  predicate WalkState(fs: seq<Fragment>, lines: seq<string>, currentLine: string, lastY: Option<int>) {
    (lastY.None? <==> fs == [])
    && (lastY.Some? ==> lastY.value == Last(fs).y)
    && (fs == [] ==> currentLine == "" && lines == [])
    && (fs != [] ==> var r := Runs(fs);
         !Blank(currentLine) && currentLine == RunText(r[|r| - 1]) && lines == RunLines(r[..|r| - 1]))
  }

  /** A kept fragment that breaks flushes the current line and starts a new one. */
  lemma BreakStep(fs: seq<Fragment>, lines: seq<string>, currentLine: string, y: int, f: Fragment)
    requires WalkState(fs, lines, currentLine, Some(y))
    requires Kept(f) && Abs(f.y - y) > 2
    ensures WalkState(fs + [f], lines + [Trim(currentLine)], f.text, Some(f.y))
  {
    var r := Runs(fs);
    var r' := Runs(fs + [f]);
    assert r' == r + [[f]] by {
      RunsStep(fs, f);
    }
    assert RunText(r'[|r'| - 1]) == f.text by {
      assert r'[|r'| - 1] == [f];
      RunTextStep([], f);
    }
    assert RunLines(r'[..|r'| - 1]) == lines + [Trim(currentLine)] by {
      assert r'[..|r'| - 1] == r;
      assert r[..|r| - 1] + [r[|r| - 1]] == r;
      RunLinesStep(r[..|r| - 1], r[|r| - 1]);
    }
  }

  /** A kept fragment on the same line is glued onto the current line. */
  lemma JoinStep(fs: seq<Fragment>, lines: seq<string>, currentLine: string, lastY: Option<int>, f: Fragment)
    requires WalkState(fs, lines, currentLine, lastY)
    requires Kept(f) && !(lastY.Some? && Abs(f.y - lastY.value) > 2)
    ensures WalkState(fs + [f], lines, Glue(currentLine, f.text), Some(f.y))
  {
    var g := Glue(currentLine, f.text);
    NotBlankAppend(g[..|g| - |f.text|], f.text);
    assert g == g[..|g| - |f.text|] + f.text;
    RunsStep(fs, f);
    if fs == [] {
      RunTextStep([], f);
    } else {
      var r := Runs(fs);
      RunTextStep(r[|r| - 1], f);
      assert (r[..|r| - 1] + [r[|r| - 1] + [f]])[..|r| - 1] == r[..|r| - 1];
    }
  }

  lemma KeptStep(items: seq<Fragment>, t: nat)
    requires t < |items|
    ensures Filter(items[..t + 1], Kept)
      == Filter(items[..t], Kept) + if Kept(items[t]) then [items[t]] else []
  {
    assert items[..t + 1][..t] == items[..t];
  }

  /** The `forEach` callback of the walk (script.js:164-186): skips a blank
      fragment, flushes the current line when the baseline moves by more than
      2, and otherwise glues the text onto the current line. */
  method Visit(lines: seq<string>, currentLine: string, lastY: Option<int>, item: Fragment, ghost fs: seq<Fragment>)
    returns (lines': seq<string>, currentLine': string, lastY': Option<int>)
    requires WalkState(fs, lines, currentLine, lastY)
    ensures WalkState(fs + if Kept(item) then [item] else [], lines', currentLine', lastY')
  {
    lines', currentLine', lastY' := lines, currentLine, lastY;
    var text := item.text;
    TrimEmptyIffBlank(text);
    if Trim(text) == "" {
      assert fs + [] == fs;
      return;
    }
    var currentY := item.y;
    if lastY.Some? && Abs(currentY - lastY.value) > 2 {
      BreakStep(fs, lines, currentLine, lastY.value, item);
      TrimEmptyIffBlank(currentLine);
      if Trim(currentLine) != "" {
        lines' := lines + [Trim(currentLine)];
      }
      currentLine' := text;
    } else {
      JoinStep(fs, lines, currentLine, lastY, item);
      if currentLine != "" && !EndsWithChar(currentLine, ' ') && !(text != "" && text[0] == ' ') {
        currentLine' := currentLine + " ";
      }
      currentLine' := currentLine' + text;
    }
    lastY' := Some(currentY);
  }

  /** One turn of the `forEach`: the walk state after the first t + 1
      fragments. */
  method VisitItem(lines: seq<string>, currentLine: string, lastY: Option<int>, items: seq<Fragment>, t: nat)
    returns (lines': seq<string>, currentLine': string, lastY': Option<int>)
    requires t < |items| && WalkState(Filter(items[..t], Kept), lines, currentLine, lastY)
    ensures WalkState(Filter(items[..t + 1], Kept), lines', currentLine', lastY')
  {
    lines', currentLine', lastY' := Visit(lines, currentLine, lastY, items[t], Filter(items[..t], Kept));
    KeptStep(items, t);
  }

  /** The `forEach` over one page's fragments (script.js:164-186). */
  method WalkItems(items: seq<Fragment>) returns (lines: seq<string>, currentLine: string, lastY: Option<int>)
    ensures WalkState(Filter(items, Kept), lines, currentLine, lastY)
  {
    lines := [];
    currentLine := "";
    lastY := None;
    var t := 0;
    while t < |items|
      invariant 0 <= t <= |items|
      invariant WalkState(Filter(items[..t], Kept), lines, currentLine, lastY)
    {
      lines, currentLine, lastY := VisitItem(lines, currentLine, lastY, items, t);
      t := t + 1;
    }
    assert items[..|items|] == items;
  }

  /** The walk over one page (script.js:152-190): `currentLine` collects the
      texts of one visual line, `lastY` is the baseline of the last kept
      fragment, and each finished line is pushed trimmed, the last one after
      the walk. */
  method ReconstructPage(items: seq<Fragment>) returns (lines: seq<string>)
    ensures lines == PageLines(items)
  {
    var currentLine, lastY;
    lines, currentLine, lastY := WalkItems(items);
    FinishStep(Filter(items, Kept), lines, currentLine, lastY);
    TrimEmptyIffBlank(currentLine);
    if Trim(currentLine) != "" {
      lines := lines + [Trim(currentLine)];
    }
  }

  /** After the last fragment the current line, if any, is flushed. */
  lemma FinishStep(fs: seq<Fragment>, lines: seq<string>, currentLine: string, lastY: Option<int>)
    requires WalkState(fs, lines, currentLine, lastY)
    ensures RunLines(Runs(fs)) == if fs == [] then lines else lines + [Trim(currentLine)]
  {
    if fs != [] {
      var r := Runs(fs);
      assert r == r[..|r| - 1] + [r[|r| - 1]];
      RunLinesStep(r[..|r| - 1], r[|r| - 1]);
    }
  }

  /** A page's text: its lines joined by newlines (script.js:191). */
  function PageText(items: seq<Fragment>): string {
    Join("\n", PageLines(items))
  }

  /** The document text: every page's text followed by a blank line, in page
      order (script.js:192). */
  function FullText(pages: seq<seq<Fragment>>): string {
    if pages == [] then "" else FullText(pages[..|pages| - 1]) + PageText(pages[|pages| - 1]) + "\n\n"
  }

  /** The page loop of `extractPDFContent` (script.js:143-193), with the
      already retrieved and sorted fragments of every page as input. */
  method ExtractFullText(pages: seq<seq<Fragment>>) returns (fullText: string)
    ensures fullText == FullText(pages)
  {
    fullText := "";
    var p := 0;
    while p < |pages|
      invariant 0 <= p <= |pages|
      invariant fullText == FullText(pages[..p])
    {
      var lines := ReconstructPage(pages[p]);
      var pageText := Join("\n", lines);
      assert pages[..p + 1][..p] == pages[..p];
      fullText := fullText + pageText + "\n\n";
      p := p + 1;
    }
    assert pages[..|pages|] == pages;
  }

  // The parser reads back what the walk wrote.

  /** A text with no line break in it. */
  predicate Unbroken(s: string) {
    '\n' !in s && '\r' !in s
  }

  /** Pages none of whose fragments holds a line break. */
  predicate UnbrokenPages(pages: seq<seq<Fragment>>) {
    forall p, i :: 0 <= p < |pages| && 0 <= i < |pages[p]| ==> Unbroken(pages[p][i].text)
  }

  /** Every page's lines, in page order. */
  function AllLines(pages: seq<seq<Fragment>>): seq<string> {
    if pages == [] then [] else AllLines(pages[..|pages| - 1]) + PageLines(pages[|pages| - 1])
  }

  /** Every fragment of a run is one of the fragments grouped. */
  lemma {:induction false} RunsFrom(fs: seq<Fragment>)
    ensures forall k, i :: 0 <= k < |Runs(fs)| && 0 <= i < |Runs(fs)[k]| ==> Runs(fs)[k][i] in fs
  {
    if fs != [] {
      var init := fs[..|fs| - 1];
      var f := fs[|fs| - 1];
      assert fs == init + [f];
      RunsStep(init, f);
      RunsFrom(init);
      var r := Runs(init);
      var r' := Runs(fs);
      forall k, i | 0 <= k < |r'| && 0 <= i < |r'[k]| ensures r'[k][i] in fs {
        if k < |r| && i < |r[k]| {
          assert r'[k][i] == r[k][i];
        } else {
          assert r'[k][i] == f;
        }
      }
    }
  }

  /** Gluing texts without line breaks gives a text without line breaks. */
  lemma {:induction false} RunTextUnbroken(run: seq<Fragment>)
    requires forall i :: 0 <= i < |run| ==> Unbroken(run[i].text)
    ensures Unbroken(RunText(run))
  {
    if run != [] {
      RunTextUnbroken(run[..|run| - 1]);
    }
  }

  /** The lines of a page without line breaks hold none either. */
  lemma PageLinesUnbroken(items: seq<Fragment>)
    requires forall i :: 0 <= i < |items| ==> Unbroken(items[i].text)
    ensures forall k :: 0 <= k < |PageLines(items)| ==> Unbroken(PageLines(items)[k])
  {
    var fs := Filter(items, Kept);
    FilterSubset(items, Kept);
    RunsFrom(fs);
    var r := Runs(fs);
    forall k | 0 <= k < |r|
      ensures Unbroken(PageLines(items)[k])
    {
      MapAt(r, RunLine, k);
      RunTextUnbroken(r[k]);
      TrimAvoids(RunText(r[k]), '\n');
      TrimAvoids(RunText(r[k]), '\r');
    }
  }

  /** The document text holds no '\r'. */
  lemma {:induction false} FullTextNoCr(pages: seq<seq<Fragment>>)
    requires UnbrokenPages(pages)
    ensures '\r' !in FullText(pages)
  {
    if pages != [] {
      var init := pages[..|pages| - 1];
      var last := pages[|pages| - 1];
      UnbrokenSplit(pages);
      FullTextNoCr(init);
      PageLinesUnbroken(last);
      JoinAvoids("\n", PageLines(last), '\r');
    }
  }

  /** The document text ends with the blank line that closes its last
      page. */
  lemma FullTextClosed(pages: seq<seq<Fragment>>)
    requires pages != []
    ensures |FullText(pages)| >= 2 && FullText(pages)[|FullText(pages)| - 2..] == "\n\n"
  {
  }

  /** Either part of unbroken pages is unbroken. */
  lemma UnbrokenSplit(pages: seq<seq<Fragment>>)
    requires pages != [] && UnbrokenPages(pages)
    ensures UnbrokenPages(pages[..|pages| - 1])
    ensures var last := pages[|pages| - 1]; forall i :: 0 <= i < |last| ==> Unbroken(last[i].text)
  {
    var init: seq<seq<Fragment>> := pages[..|pages| - 1];
    forall p, i | 0 <= p < |init| && 0 <= i < |init[p]| ensures Unbroken(init[p][i].text) {
      assert init[p] == pages[p];
    }
  }

  /** A page's text with its closing blank line is cut back into its lines. */
  lemma ClosedPageLines(items: seq<Fragment>)
    requires forall i :: 0 <= i < |items| ==> Unbroken(items[i].text)
    ensures Fields.LinesOf(PageText(items) + "\n\n") == PageLines(items)
  {
    Fields.LinesOfBlankEnd(PageText(items), PageText(items) + "\n\n");
    LinesTrimmedNonEmpty(items);
    PageLinesUnbroken(items);
    Fields.LinesOfJoin(PageLines(items));
  }

  /** The lines of the document text are those before its last page, then
      those of the last page. */
  lemma FullTextSnoc(pages: seq<seq<Fragment>>)
    requires pages != []
    ensures Fields.LinesOf(FullText(pages)) ==
      Fields.LinesOf(FullText(pages[..|pages| - 1])) + Fields.LinesOf(PageText(pages[|pages| - 1]) + "\n\n")
  {
    var init := pages[..|pages| - 1];
    var f0 := FullText(init);
    var pt := PageText(pages[|pages| - 1]);
    assert FullText(pages) == f0 + pt + "\n\n";
    if init == [] {
      Fields.LinesOfFirstPage(f0, pt, FullText(pages));
    } else {
      FullTextClosed(init);
      Fields.LinesOfNextPage(f0, pt, FullText(pages));
    }
  }

  /** Cutting the document text at '\n' gives back every page's lines. */
  lemma {:induction false} FullTextLines(pages: seq<seq<Fragment>>)
    requires UnbrokenPages(pages)
    ensures Fields.LinesOf(FullText(pages)) == AllLines(pages)
  {
    if pages == [] {
      Fields.LinesOfEmpty();
    } else {
      UnbrokenSplit(pages);
      FullTextLines(pages[..|pages| - 1]);
      ClosedPageLines(pages[|pages| - 1]);
      FullTextSnoc(pages);
    }
  }

  /** When no fragment holds a line break, the parser's clean lines of the
      document text are exactly the lines the walk emitted, page by page. */
  lemma WalkLinesParsed(pages: seq<seq<Fragment>>)
    requires UnbrokenPages(pages)
    ensures Fields.CleanLines(FullText(pages)) == AllLines(pages)
  {
    FullTextNoCr(pages);
    FullTextLines(pages);
  }

  // Properties of the walk.

  /** Every emitted line is trimmed and non-empty. */
  lemma LinesTrimmedNonEmpty(items: seq<Fragment>)
    ensures AllTrimmedNonEmpty(PageLines(items))
  {
    var fs := Filter(items, Kept);
    var r := Runs(fs);
    RunsKept(fs);
    RunLinesTrimmed(r);
  }

  lemma RunLinesTrimmed(runs: seq<seq<Fragment>>)
    requires forall k :: 0 <= k < |runs| ==> runs[k] != [] && Kept(Last(runs[k]))
    ensures AllTrimmedNonEmpty(RunLines(runs))
  {
    forall k | 0 <= k < |runs|
      ensures RunLines(runs)[k] != [] && IsTrimmed(RunLines(runs)[k])
    {
      MapAt(runs, RunLine, k);
      RunTextNotBlank(runs[k]);
      TrimEmptyIffBlank(RunText(runs[k]));
      TrimIsTrimmed(RunText(runs[k]));
    }
  }

  /** A blank fragment anywhere in the input changes nothing. */
  lemma BlankFragmentIgnored(a: seq<Fragment>, b: Fragment, c: seq<Fragment>)
    requires !Kept(b)
    ensures PageLines(a + [b] + c) == PageLines(a + c)
  {
    FilterAppend(a + [b], c, Kept);
    FilterAppend(a, [b], Kept);
    FilterAppend(a, c, Kept);
    assert [b][..0] == [];
    assert Filter(a + [b] + c, Kept) == Filter(a + c, Kept);
  }

  /** The runs partition the kept fragments: concatenated in order they
      give back exactly the kept fragments. */
  lemma {:induction false} RunsFlatten(fs: seq<Fragment>)
    ensures Flatten(Runs(fs)) == fs
  {
    if fs != [] {
      var init := fs[..|fs| - 1];
      var f := fs[|fs| - 1];
      assert fs == init + [f];
      RunsStep(init, f);
      var r := Runs(init);
      RunsFlatten(init);
      if init == [] {
        assert Flatten([[f]]) == Flatten([]) + [f];
      } else {
        var m := |r| - 1;
        assert Flatten(r) == Flatten(r[..m]) + r[m];
        if Breaks(Last(init), f) {
          var r' := r + [[f]];
          assert r'[..|r'| - 1] == r;
        } else {
          var r' := r[..m] + [r[m] + [f]];
          assert r'[..|r'| - 1] == r[..m];
        }
      }
    }
  }

  /** The last fragment of the last run is the last kept fragment. */
  lemma RunsLast(fs: seq<Fragment>)
    requires fs != []
    ensures var r := Runs(fs); Last(r[|r| - 1]) == Last(fs)
  {
    var r := Runs(fs);
    RunsFlatten(fs);
    assert Flatten(r) == Flatten(r[..|r| - 1]) + r[|r| - 1];
  }

  /** Inside a run no two consecutive fragments break: they stay on one
      line exactly while |y - lastY| <= 2. */
  lemma {:induction false} RunsStayTogether(fs: seq<Fragment>)
    ensures forall k, i :: 0 <= k < |Runs(fs)| && 0 <= i < |Runs(fs)[k]| - 1 ==>
      !Breaks(Runs(fs)[k][i], Runs(fs)[k][i + 1])
  {
    if fs != [] {
      var init := fs[..|fs| - 1];
      var f := fs[|fs| - 1];
      assert fs == init + [f];
      RunsStep(init, f);
      RunsStayTogether(init);
      if init != [] && !Breaks(Last(init), f) {
        var r := Runs(init);
        var m := |r| - 1;
        RunsLast(init);
        var r' := r[..m] + [r[m] + [f]];
        forall k, i | 0 <= k < |r'| && 0 <= i < |r'[k]| - 1
          ensures !Breaks(r'[k][i], r'[k][i + 1])
        {
          if k < m {
            assert r'[k] == r[k];
          } else if i < |r[m]| - 1 {
            assert r'[k][i] == r[m][i] && r'[k][i + 1] == r[m][i + 1];
          } else {
            assert r'[k][i] == Last(r[m]) && r'[k][i + 1] == f;
          }
        }
      }
    }
  }

  /** Consecutive runs are separated by a break: a new line starts exactly
      where |y - lastY| > 2. */
  lemma {:induction false} RunsSeparated(fs: seq<Fragment>)
    ensures forall k :: 0 <= k < |Runs(fs)| - 1 ==> Breaks(Last(Runs(fs)[k]), Runs(fs)[k + 1][0])
  {
    if fs != [] {
      var init := fs[..|fs| - 1];
      var f := fs[|fs| - 1];
      assert fs == init + [f];
      RunsStep(init, f);
      RunsSeparated(init);
      if init != [] {
        var r := Runs(init);
        var m := |r| - 1;
        RunsLast(init);
        if Breaks(Last(init), f) {
          var r' := r + [[f]];
          forall k | 0 <= k < |r'| - 1
            ensures Breaks(Last(r'[k]), r'[k + 1][0])
          {
            assert r'[k] == r[k];
          }
        } else {
          var r' := r[..m] + [r[m] + [f]];
          forall k | 0 <= k < |r'| - 1
            ensures Breaks(Last(r'[k]), r'[k + 1][0])
          {
            assert r'[k] == r[k];
            assert r'[k + 1][0] == r[k + 1][0];
          }
        }
      }
    }
  }

  /** Each run holds only kept fragments. */
  lemma {:induction false} RunsKept(fs: seq<Fragment>)
    requires forall i :: 0 <= i < |fs| ==> Kept(fs[i])
    ensures forall k, i :: 0 <= k < |Runs(fs)| && 0 <= i < |Runs(fs)[k]| ==> Kept(Runs(fs)[k][i])
  {
    if fs != [] {
      var init := fs[..|fs| - 1];
      var f := fs[|fs| - 1];
      assert fs == init + [f];
      RunsStep(init, f);
      RunsKept(init);
      var r := Runs(init);
      var r' := Runs(fs);
      forall k, i | 0 <= k < |r'| && 0 <= i < |r'[k]| ensures Kept(r'[k][i]) {
        if k < |r| && i < |r[k]| {
          assert r'[k][i] == r[k][i];
        } else {
          assert r'[k][i] == f;
        }
      }
    }
  }

  /** A run of kept fragments never glues to a blank text. */
  lemma RunTextNotBlank(run: seq<Fragment>)
    requires run != []
    requires Kept(Last(run))
    ensures !Blank(RunText(run))
  {
    var acc := RunText(run[..|run| - 1]);
    var t := Last(run).text;
    NotBlankAppend(if Spaced(acc, t) then acc + " " else acc, t);
  }

  /** Where the i-th fragment's text begins inside its run's text. */
  function Offset(run: seq<Fragment>, i: nat): nat
    requires i < |run|
    decreases |run|
  {
    if i < |run| - 1 then Offset(run[..|run| - 1], i)
    else var acc := RunText(run[..|run| - 1]); |acc| + (if Spaced(acc, run[i].text) then 1 else 0)
  }

  /** The text of a run extends the text of the run without its last
      fragment, and the last fragment's text ends it, at its offset. */
  lemma LastTextAt(run: seq<Fragment>)
    requires run != []
    ensures var acc := RunText(run[..|run| - 1]); var whole := RunText(run);
      var o := Offset(run, |run| - 1);
      |acc| <= o && o + |Last(run).text| == |whole|
      && whole[..|acc|] == acc && whole[o..] == Last(run).text
  {
  }

  /** Every fragment's text appears verbatim in its run's text, at its
      offset. */
  lemma {:induction false} TextsAppear(run: seq<Fragment>)
    ensures forall i :: 0 <= i < |run| ==>
      Offset(run, i) + |run[i].text| <= |RunText(run)|
      && RunText(run)[Offset(run, i)..Offset(run, i) + |run[i].text|] == run[i].text
  {
    if run != [] {
      TextsAppear(run[..|run| - 1]);
      forall i | 0 <= i < |run|
        ensures Offset(run, i) + |run[i].text| <= |RunText(run)|
        ensures RunText(run)[Offset(run, i)..Offset(run, i) + |run[i].text|] == run[i].text
      {
        if i < |run| - 1 {
          InitTextAt(run, i);
        } else {
          LastTextAt(run);
          var whole := RunText(run);
          var o := Offset(run, i);
          assert whole[o..o + |run[i].text|] == whole[o..];
        }
      }
    }
  }

  /** The texts appear in fragment order, each at most one inserted
      character after the previous one ends. */
  lemma {:induction false} TextsInOrder(run: seq<Fragment>)
    ensures forall i :: 0 <= i < |run| - 1 ==>
      Offset(run, i) + |run[i].text| <= Offset(run, i + 1) <= Offset(run, i) + |run[i].text| + 1
  {
    if run != [] {
      var init := run[..|run| - 1];
      TextsInOrder(init);
      forall i | 0 <= i < |run| - 1
        ensures Offset(run, i) + |run[i].text| <= Offset(run, i + 1) <= Offset(run, i) + |run[i].text| + 1
      {
        assert init[i] == run[i];
        if i + 1 < |run| - 1 {
          assert init[i + 1] == run[i + 1];
        } else {
          LastTextAt(init);
          assert Last(init) == run[i];
        }
      }
    }
  }

  lemma InitTextAt(run: seq<Fragment>, i: nat)
    requires i < |run| - 1
    requires var init := run[..|run| - 1];
      Offset(init, i) + |init[i].text| <= |RunText(init)|
      && RunText(init)[Offset(init, i)..Offset(init, i) + |init[i].text|] == init[i].text
    ensures Offset(run, i) + |run[i].text| <= |RunText(run)|
    ensures RunText(run)[Offset(run, i)..Offset(run, i) + |run[i].text|] == run[i].text
  {
    var init := run[..|run| - 1];
    LastTextAt(run);
    var acc := RunText(init);
    var whole := RunText(run);
    assert init[i] == run[i];
    var o := Offset(init, i);
    assert whole[o..o + |run[i].text|] == whole[..|acc|][o..o + |run[i].text|];
  }
}
