/** The section-pattern table of `parseExtractedText` (script.js:279-289)
    and the line tests built on it: the heading test that opens a content
    section (script.js:429-431), the test that ends a section body
    (script.js:443-446), the test that ends the abstract (script.js:298-301)
    and the shouted-heading form `^[A-Z][A-Z\s]{2,}:?\s*$`. Each regular
    expression is written out as a character-level predicate. */
module Patterns {
  import opened Seqs
  import opened Strings

  /** One row of the table. `words` are the alternatives of the row's
      regular expression `^\s*(w1|w2|...)\s*:?\s*$/i`, in lower case;
      `phrase` says whether the row also accepts `materials?\s+and\s+methods?`. */
  datatype SectionPattern = SectionPattern(words: seq<string>, phrase: bool, id: string, title: string, icon: string)

  const Table: seq<SectionPattern> := [
    SectionPattern(["introduction", "intro"], false, "introduction", "Introduction", "📝"),
    SectionPattern(["background", "context"], false, "background", "Background", "🔬"),
    SectionPattern(["aim", "aims", "objective", "objectives", "purpose", "goal", "goals"], false,
                   "objectives", "Objectives", "🎯"),
    SectionPattern(["method", "methods", "methodology"], true, "methods", "Methods", "📊"),
    SectionPattern(["result", "results", "findings"], false, "results", "Results", "📈"),
    SectionPattern(["discussion", "interpretation"], false, "discussion", "Discussion", "💭"),
    SectionPattern(["conclusion", "conclusions", "summary"], false, "conclusions", "Conclusions", "💡"),
    SectionPattern(["reference", "references", "bibliography", "literature", "citation", "citations"], false,
                   "references", "References", "📚"),
    // `acknowledgm?ent` makes the optional letter the m, so the words are
    // "acknowledgment" and "acknowledgent", not "acknowledgement".
    SectionPattern(["acknowledgment", "acknowledgent", "acknowledgments", "acknowledgents",
                    "funding", "grant", "support"], false,
                   "acknowledgments", "Acknowledgments", "🙏")
  ]

  /** What a row's alternation group has to match: the line with the
      surrounding `\s*`, the optional colon and the trailing `\s*` removed. */
  function HeadingCore(line: string): string {
    ColonStripped(Trim(line))
  }

  /** Drops one trailing colon and the blanks before it. */
  function ColonStripped(u: string): string {
    if EndsWithChar(u, ':') then TrimEnd(u[..|u| - 1]) else u
  }

  /** `materials?\s+and\s+methods?`, on a lower-cased string with nothing
      around it. */
  predicate MaterialsAndMethods(w: string) {
    StartsWith(w, "material") && SpacedAndMethods(OptionalS(w[8..]))
  }

  /** `s?`: drops one leading "s" if there is one. Taking it is the only way
      the rest can match, since what follows must be whitespace. */
  function OptionalS(r: string): string {
    if StartsWith(r, "s") then r[1..] else r
  }

  /** `\s+and\s+methods?`. */
  predicate SpacedAndMethods(r: string) {
    r != [] && IsSpace(r[0]) && StartsWith(TrimStart(r), "and") && SpacedMethods(TrimStart(r)[3..])
  }

  /** `\s+methods?`. */
  predicate SpacedMethods(r: string) {
    r != [] && IsSpace(r[0]) && (TrimStart(r) == "method" || TrimStart(r) == "methods")
  }

  /** The row's regular expression accepts the line. */
  predicate PatternMatches(p: SectionPattern, line: string) {
    var w := Lower(HeadingCore(line));
    w in p.words || (p.phrase && MaterialsAndMethods(w))
  }

  /** script.js:429-431: the row's expression accepts the line, or the
      upper-cased line equals the upper-cased title, or it starts with it
      and is shorter than the title plus 5. */
  predicate OpensHeading(p: SectionPattern, line: string) {
    PatternMatches(p, line)
    || Upper(p.title) == Upper(line)
    || (StartsWith(Upper(line), Upper(p.title)) && |Upper(line)| < |p.title| + 5)
  }

  /** The line classifier: the first row, in table order, whose heading test
      the line passes. */
  function Classify(line: string): (r: Option<nat>)
    ensures r.Some? ==> r.value < |Table| && OpensHeading(Table[r.value], line)
    ensures r.Some? ==> forall k :: 0 <= k < r.value ==> !OpensHeading(Table[k], line)
    ensures r.None? ==> forall k :: 0 <= k < |Table| ==> !OpensHeading(Table[k], line)
  {
    FirstIndex(Table, HeadingTest(line), 0, |Table|)
  }

  /** The heading test of every row, for one line. */
  function HeadingTest(line: string): SectionPattern -> bool {
    (p: SectionPattern) => OpensHeading(p, line)
  }

  /** The character class `[A-Z\s]`. */
  predicate ShoutChar(c: char) {
    IsUpperAscii(c) || IsSpace(c)
  }

  predicate AllShout(s: string) {
    forall i :: 0 <= i < |s| ==> ShoutChar(s[i])
  }

  /** `^[A-Z][A-Z\s]{2,}:?\s*$`, case-sensitive. */
  predicate Shouted(line: string) {
    line != [] && IsUpperAscii(line[0]) &&
    var rest := line[1..];
    var t := TrimEnd(rest);
    if EndsWithChar(t, ':') then |t| - 1 >= 2 && AllShout(t[..|t| - 1])
    else |rest| >= 2 && AllShout(rest)
  }

  /** script.js:443-446: a line that ends a section body. Unlike the
      heading test it has no prefix-and-length clause. */
  predicate StopsBody(line: string) {
    (exists k :: 0 <= k < |Table| && (PatternMatches(Table[k], line) || Upper(Table[k].title) == Upper(line)))
    || Shouted(line)
  }

  /** The canonical heading names of the abstract stop rule, lower-cased. */
  const CanonicalHeadings: seq<string> :=
    ["introduction", "background", "methods", "results", "discussion", "conclusions", "references"]

  /** `/^(INTRODUCTION|...|REFERENCES)/i`: the line merely starts with one
      of the names, in any case. */
  predicate StartsWithCanonicalHeading(line: string) {
    exists k :: 0 <= k < |CanonicalHeadings| && StartsWith(Lower(line), CanonicalHeadings[k])
  }

  /** script.js:298-301: a line that ends the abstract. */
  predicate StopsAbstract(line: string) {
    (exists k :: 0 <= k < |Table| && PatternMatches(Table[k], line))
    || Shouted(line)
    || StartsWithCanonicalHeading(line)
  }

  // ---------------------------------------------------------------------
  // Reference definitions: the regular expressions read as "the line splits
  // into pieces of these shapes", and the proof that the character-level
  // predicates above accept exactly those lines.

  /** One of the row's alternatives, as its group would match it. */
  ghost predicate Alternative(p: SectionPattern, w: string) {
    w in p.words || (p.phrase && PhraseRegex(w))
  }

  /** `\s+methods?`: a run of at least one blank, then "method" or
      "methods" and nothing more. */
  ghost predicate SpacedMethodsRegex(r: string) {
    exists m :: 0 < m <= |r| && SpacesIn(r, 0, m) && (r[m..] == "method" || r[m..] == "methods")
  }

  /** `\s+and\s+methods?`: a run of at least one blank, "and", then the
      rest as above. */
  ghost predicate SpacedAndMethodsRegex(r: string) {
    exists a :: 0 < a && a + 3 <= |r| && SpacesIn(r, 0, a) && r[a..a + 3] == "and" && SpacedMethodsRegex(r[a + 3..])
  }

  /** `materials?\s+and\s+methods?`: "material", then either the rest
      directly or an "s" and then the rest. */
  ghost predicate PhraseRegex(w: string) {
    |w| >= 8 && w[..8] == "material"
    && (SpacedAndMethodsRegex(w[8..]) || (|w| > 8 && w[8] == 's' && SpacedAndMethodsRegex(w[9..])))
  }

  lemma SpacedMethodsIffRegex(r: string)
    ensures SpacedMethods(r) <==> SpacedMethodsRegex(r)
  {
    if SpacedMethods(r) {
      SpacedMethodsSplit(r);
    }
    if SpacedMethodsRegex(r) {
      var m :| 0 < m <= |r| && SpacesIn(r, 0, m) && (r[m..] == "method" || r[m..] == "methods");
      SpacedMethodsOfSplit(r, m);
    }
  }

  lemma SpacedMethodsSplit(r: string)
    requires SpacedMethods(r)
    ensures SpacedMethodsRegex(r)
  {
    var t := TrimStart(r);
    var m := |r| - |t|;
    assert t == r[m..];
    assert m > 0 by {
      assert t[0] == 'm';
    }
    assert SpacesIn(r, 0, m);
  }

  lemma SpacedMethodsOfSplit(r: string, m: nat)
    requires 0 < m <= |r| && SpacesIn(r, 0, m) && (r[m..] == "method" || r[m..] == "methods")
    ensures SpacedMethods(r)
  {
    assert !IsSpace(r[m]) by {
      assert r[m] == r[m..][0] == 'm';
    }
    TrimStartAt(r, m);
  }

  lemma SpacedAndMethodsIffRegex(r: string)
    ensures SpacedAndMethods(r) <==> SpacedAndMethodsRegex(r)
  {
    if SpacedAndMethods(r) {
      SpacedAndMethodsSplit(r);
    }
    if SpacedAndMethodsRegex(r) {
      var a :| 0 < a && a + 3 <= |r| && SpacesIn(r, 0, a) && r[a..a + 3] == "and" && SpacedMethodsRegex(r[a + 3..]);
      SpacedAndMethodsOfSplit(r, a);
    }
  }

  lemma SpacedAndMethodsSplit(r: string)
    requires SpacedAndMethods(r)
    ensures SpacedAndMethodsRegex(r)
  {
    var t := TrimStart(r);
    var a := |r| - |t|;
    assert t == r[a..];
    assert t[..3] == "and";
    assert a > 0 by {
      assert t[0] == t[..3][0];
    }
    assert SpacesIn(r, 0, a);
    assert r[a..a + 3] == t[..3];
    assert r[a + 3..] == t[3..];
    SpacedMethodsIffRegex(t[3..]);
    assert SpacedMethodsRegex(r[a + 3..]);
  }

  lemma SpacedAndMethodsOfSplit(r: string, a: nat)
    requires 0 < a && a + 3 <= |r| && SpacesIn(r, 0, a) && r[a..a + 3] == "and" && SpacedMethodsRegex(r[a + 3..])
    ensures SpacedAndMethods(r)
  {
    var t := r[a..];
    assert !IsSpace(r[a]) by {
      assert r[a] == r[a..a + 3][0] == 'a';
    }
    assert TrimStart(r) == t by {
      TrimStartAt(r, a);
    }
    assert StartsWith(t, "and") by {
      assert t[..3] == r[a..a + 3];
    }
    assert SpacedMethods(t[3..]) by {
      assert t[3..] == r[a + 3..];
      SpacedMethodsIffRegex(r[a + 3..]);
    }
    assert IsSpace(r[0]);
  }

  /** What `\s+and\s+methods?` accepts starts with a blank. */
  lemma SpacedAndMethodsRegexBlank(r: string)
    ensures SpacedAndMethodsRegex(r) ==> r != [] && IsSpace(r[0])
  {
  }

  /** The character-level phrase test accepts exactly what
      `materials?\s+and\s+methods?` accepts. */
  lemma PhraseIffRegex(w: string)
    ensures MaterialsAndMethods(w) <==> PhraseRegex(w)
  {
    if |w| >= 8 && w[..8] == "material" {
      var r1 := w[8..];
      SpacedAndMethodsIffRegex(r1);
      if |w| > 8 && w[8] == 's' {
        assert StartsWith(r1, "s") by {
          assert r1[..1] == [w[8]];
        }
        assert r1[1..] == w[9..];
        SpacedAndMethodsIffRegex(w[9..]);
        SpacedAndMethodsRegexBlank(r1);
      } else if |w| > 8 {
        assert !StartsWith(r1, "s") by {
          assert r1[..1] == [w[8]];
        }
      }
    }
  }

  /** `\s*:?\s*$` matches s from position b on. */
  ghost predicate ColonTailAt(s: string, b: nat) {
    SpacesIn(s, b, |s|)
    || exists k :: b <= k < |s| && s[k] == ':' && SpacesIn(s, b, k) && SpacesIn(s, k + 1, |s|)
  }

  /** `^\s*(alternatives)\s*:?\s*$` with the `i` flag: some split of the line
      into blanks, an alternative (in any ASCII case) and a colon tail. */
  ghost predicate RegexAccepts(p: SectionPattern, line: string) {
    exists a, b :: 0 <= a <= b <= |line| && SpacesIn(line, 0, a) && Alternative(p, Lower(line[a..b])) && ColonTailAt(line, b)
  }

  /** Positions i up to j of s are all in `[A-Z\s]`. */
  ghost predicate ShoutIn(s: string, i: int, j: int) {
    forall k :: i <= k < j && 0 <= k < |s| ==> ShoutChar(s[k])
  }

  /** `:?\s*$` matches s from position e on. */
  ghost predicate OptColonAt(s: string, e: nat) {
    SpacesIn(s, e, |s|) || (e < |s| && s[e] == ':' && SpacesIn(s, e + 1, |s|))
  }

  /** `^[A-Z][A-Z\s]{2,}:?\s*$`: an upper-case letter, at least two more
      upper-case letters or spaces, then an optional colon and blanks. */
  ghost predicate ShoutRegex(line: string) {
    exists e :: 3 <= e <= |line| && IsUpperAscii(line[0]) && ShoutIn(line, 1, e) && OptColonAt(line, e)
  }

  /** Neither end of w is whitespace and it does not end with a colon. */
  predicate ProperEdges(w: string) {
    w != [] && !IsSpace(w[0]) && !IsSpace(w[|w| - 1]) && w[|w| - 1] != ':'
  }

  /** Every alternative of the row has proper edges. */
  ghost predicate EdgesSafe(p: SectionPattern) {
    forall w :: Alternative(p, w) ==> ProperEdges(w)
  }

  /** r is non-empty and ends with a lower-case letter. */
  predicate EndsWithLetter(r: string) {
    r != [] && IsLowerAscii(r[|r| - 1])
  }

  lemma SuffixEndsWithLetter(r: string, k: nat)
    requires k <= |r| && EndsWithLetter(r[k..])
    ensures EndsWithLetter(r)
  {
    assert r[k..][|r| - k - 1] == r[|r| - 1];
  }

  lemma SpacedMethodsEnd(r: string)
    requires SpacedMethods(r)
    ensures EndsWithLetter(r)
  {
    var t := TrimStart(r);
    assert EndsWithLetter(t);
    SuffixEndsWithLetter(r, |r| - |t|);
  }

  lemma SpacedAndMethodsEnd(r: string)
    requires SpacedAndMethods(r)
    ensures EndsWithLetter(r)
  {
    var t := TrimStart(r);
    SpacedMethodsEnd(t[3..]);
    SuffixEndsWithLetter(t, 3);
    SuffixEndsWithLetter(r, |r| - |t|);
  }

  lemma PhraseEdges(w: string)
    requires MaterialsAndMethods(w)
    ensures LetterEdges(w)
  {
    PhraseStart(w);
    PhraseEnd(w);
  }

  lemma PhraseStart(w: string)
    requires StartsWith(w, "material")
    ensures w != [] && w[0] == 'm'
  {
    assert w[0] == w[..8][0];
  }

  lemma PhraseEnd(w: string)
    requires MaterialsAndMethods(w)
    ensures EndsWithLetter(w)
  {
    var r1 := w[8..];
    var r := OptionalS(r1);
    SpacedAndMethodsEnd(r);
    assert r == r1[|r1| - |r|..];
    SuffixEndsWithLetter(r1, |r1| - |r|);
    SuffixEndsWithLetter(w, 8);
  }

  /** w starts and ends with a lower-case ASCII letter. */
  predicate LetterEdges(w: string) {
    w != [] && IsLowerAscii(w[0]) && IsLowerAscii(w[|w| - 1])
  }

  /** Every alternative word of row k starts and ends with a letter. */
  lemma RowWordsLettered(k: nat)
    requires k < |Table|
    ensures forall j :: 0 <= j < |Table[k].words| ==> LetterEdges(Table[k].words[j])
  {
  }

  /** Every row of the table has proper edges on all its alternatives. */
  lemma TableEdgesSafe(k: nat)
    requires k < |Table|
    ensures EdgesSafe(Table[k])
  {
    RowWordsLettered(k);
    LetteredEdgesSafe(Table[k]);
  }

  /** A row whose words start and end with letters has proper edges. */
  lemma LetteredEdgesSafe(p: SectionPattern)
    requires forall j :: 0 <= j < |p.words| ==> LetterEdges(p.words[j])
    ensures EdgesSafe(p)
  {
    forall w | Alternative(p, w)
      ensures ProperEdges(w)
    {
      if w in p.words {
        var j :| 0 <= j < |p.words| && p.words[j] == w;
        LetterEdgesProper(w);
      } else {
        PhraseIffRegex(w);
        PhraseEdges(w);
        LetterEdgesProper(w);
      }
    }
  }

  lemma LetterEdgesProper(w: string)
    requires LetterEdges(w)
    ensures ProperEdges(w)
  {
  }

  /** Lower-casing does not change whether the edges are proper. */
  lemma LowerEdges(w: string)
    requires ProperEdges(Lower(w))
    ensures ProperEdges(w)
  {
    assert Lower(w)[0] == LowerChar(w[0]);
    assert Lower(w)[|w| - 1] == LowerChar(w[|w| - 1]);
  }

  /** Within a string that starts trimmed, what follows the trailing-colon
      core is a colon tail. */
  lemma TailAfterColon(s: string, u: string, core: string)
    requires u == TrimEnd(s) && EndsWithChar(u, ':') && core == TrimEnd(u[..|u| - 1])
    ensures |core| < |s| && s[..|core|] == core && ColonTailAt(s, |core|)
  {
    var v := u[..|u| - 1];
    assert core == v[..|core|];
    assert SpacesIn(s, |core|, |u| - 1) by {
      assert forall i :: |core| <= i < |v| ==> s[i] == v[i];
    }
    assert s[|u| - 1] == ':';
  }

  /** After leading blanks are dropped, the core is a prefix followed by a
      colon tail. */
  lemma CoreInTrimmedStart(s: string, core: string)
    requires core == ColonStripped(TrimEnd(s))
    ensures |core| <= |s| && s[..|core|] == core && ColonTailAt(s, |core|)
  {
    var u := TrimEnd(s);
    if EndsWithChar(u, ':') {
      TailAfterColon(s, u, core);
    }
  }

  lemma ColonTailShift(line: string, a: nat, n: nat)
    requires a + n <= |line| && ColonTailAt(line[a..], n)
    ensures ColonTailAt(line, a + n)
  {
    var s := line[a..];
    if SpacesIn(s, n, |s|) {
      assert forall i :: a + n <= i < |line| ==> line[i] == s[i - a];
    } else {
      var k :| n <= k < |s| && s[k] == ':' && SpacesIn(s, n, k) && SpacesIn(s, k + 1, |s|);
      assert forall i :: a + n <= i < |line| ==> line[i] == s[i - a];
      assert line[a + k] == ':';
    }
  }

  /** The heading core sits between blanks and a colon tail. */
  lemma CoreSplit(line: string) returns (a: nat, b: nat)
    ensures a <= b <= |line| && SpacesIn(line, 0, a) && line[a..b] == HeadingCore(line) && ColonTailAt(line, b)
  {
    var s := TrimStart(line);
    var core := HeadingCore(line);
    a := |line| - |s|;
    b := a + |core|;
    CoreInTrimmedStart(s, core);
    ColonTailShift(line, a, |core|);
    assert line[a..b] == s[..|core|];
  }

  /** Conversely, a part between blanks and a colon tail whose edges are
      proper is the heading core. */
  lemma CoreOfSplit(line: string, a: nat, b: nat)
    requires a <= b <= |line| && SpacesIn(line, 0, a) && ColonTailAt(line, b) && ProperEdges(line[a..b])
    ensures HeadingCore(line) == line[a..b]
  {
    assert line[a] == line[a..b][0] && line[b - 1] == line[a..b][b - a - 1];
    if SpacesIn(line, b, |line|) {
      TrimAt(line, a, b);
    } else {
      var k :| b <= k < |line| && line[k] == ':' && SpacesIn(line, b, k) && SpacesIn(line, k + 1, |line|);
      CoreBeforeColon(line, a, b, k);
    }
  }

  lemma CoreBeforeColon(line: string, a: nat, b: nat, k: nat)
    requires a < b <= k < |line| && line[k] == ':' && SpacesIn(line, b, k) && SpacesIn(line, k + 1, |line|)
    requires SpacesIn(line, 0, a) && !IsSpace(line[a]) && !IsSpace(line[b - 1])
    ensures HeadingCore(line) == line[a..b]
  {
    TrimToColon(line, a, k);
    TrimBeforeColon(line, a, b, k);
    ColonStrippedOf(line[a..k + 1], line[a..b]);
  }

  lemma TrimToColon(line: string, a: nat, k: nat)
    requires a <= k < |line| && line[k] == ':' && SpacesIn(line, 0, a) && SpacesIn(line, k + 1, |line|)
    requires !IsSpace(line[a])
    ensures Trim(line) == line[a..k + 1] && line[a..k + 1][k - a] == ':'
  {
    TrimAt(line, a, k + 1);
  }

  lemma TrimBeforeColon(line: string, a: nat, b: nat, k: nat)
    requires a < b <= k < |line| && SpacesIn(line, b, k) && !IsSpace(line[b - 1])
    ensures TrimEnd(line[a..k + 1][..k - a]) == line[a..b]
  {
    assert line[a..k + 1][..k - a] == line[a..k];
    TrimEndOfSlice(line, a, b, k);
  }

  lemma ColonStrippedOf(u: string, core: string)
    requires u != [] && u[|u| - 1] == ':' && TrimEnd(u[..|u| - 1]) == core
    ensures ColonStripped(u) == core
  {
  }

  /** A row's predicate accepts exactly the lines its regular expression
      accepts, for any row whose alternatives have proper edges. */
  lemma PatternMatchesIffRegex(p: SectionPattern, line: string)
    requires EdgesSafe(p)
    ensures PatternMatches(p, line) <==> RegexAccepts(p, line)
  {
    if PatternMatches(p, line) {
      var a, b := CoreSplit(line);
      PhraseIffRegex(Lower(line[a..b]));
    }
    if RegexAccepts(p, line) {
      var a, b :| 0 <= a <= b <= |line| && SpacesIn(line, 0, a) && Alternative(p, Lower(line[a..b])) && ColonTailAt(line, b);
      LowerEdges(line[a..b]);
      CoreOfSplit(line, a, b);
      PhraseIffRegex(Lower(line[a..b]));
    }
  }

  /** Every row of the table accepts exactly what its regular expression
      accepts. */
  lemma TableMatchesIffRegex(k: nat, line: string)
    requires k < |Table|
    ensures PatternMatches(Table[k], line) <==> RegexAccepts(Table[k], line)
  {
    TableEdgesSafe(k);
    PatternMatchesIffRegex(Table[k], line);
  }

  lemma ShoutRegexImpliesShouted(line: string, e: nat)
    requires 3 <= e <= |line| && IsUpperAscii(line[0]) && ShoutIn(line, 1, e) && OptColonAt(line, e)
    ensures Shouted(line)
  {
    var rest := line[1..];
    assert forall i :: 0 <= i < |rest| ==> rest[i] == line[i + 1];
    if SpacesIn(line, e, |line|) {
      assert AllShout(rest);
      var t := TrimEnd(rest);
      assert !EndsWithChar(t, ':') by {
        if t != [] {
          assert t[|t| - 1] == rest[|t| - 1];
        }
      }
    } else {
      ShoutRegexColon(line, e);
    }
  }

  lemma ShoutRegexColon(line: string, e: nat)
    requires 3 <= e < |line| && IsUpperAscii(line[0]) && ShoutIn(line, 1, e)
    requires line[e] == ':' && SpacesIn(line, e + 1, |line|)
    ensures Shouted(line)
  {
    TrimEndOfSlice(line, 1, e + 1, |line|);
    assert line[1..|line|] == line[1..];
    var t := line[1..e + 1];
    assert t[..|t| - 1] == line[1..e];
    assert forall i :: 0 <= i < e - 1 ==> line[1..e][i] == line[i + 1];
  }

  lemma ShoutedImpliesRegex(line: string) returns (e: nat)
    requires Shouted(line)
    ensures 3 <= e <= |line| && IsUpperAscii(line[0]) && ShoutIn(line, 1, e) && OptColonAt(line, e)
  {
    var rest := line[1..];
    var t := TrimEnd(rest);
    assert forall i :: 0 <= i < |rest| ==> rest[i] == line[i + 1];
    if EndsWithChar(t, ':') {
      e := |t|;
      var c := t[..|t| - 1];
      assert forall i :: 0 <= i < |c| ==> c[i] == line[i + 1];
      assert line[e] == t[|t| - 1];
    } else {
      e := |line|;
    }
  }

  /** The character-level shouted-heading test accepts exactly the lines
      `^[A-Z][A-Z\s]{2,}:?\s*$` accepts. */
  lemma ShoutedIffRegex(line: string)
    ensures Shouted(line) <==> ShoutRegex(line)
  {
    if Shouted(line) {
      var e := ShoutedImpliesRegex(line);
    }
    if ShoutRegex(line) {
      var e :| 3 <= e <= |line| && IsUpperAscii(line[0]) && ShoutIn(line, 1, e) && OptColonAt(line, e);
      ShoutRegexImpliesShouted(line, e);
    }
  }

  /** The seven names of `/^(INTRODUCTION|...|REFERENCES)/i`, as the
      expression writes them. */
  const CanonicalPattern: seq<string> :=
    ["INTRODUCTION", "BACKGROUND", "METHODS", "RESULTS", "DISCUSSION", "CONCLUSIONS", "REFERENCES"]

  /** c matches the upper-case pattern letter u under the `i` flag. The
      flag compares characters after mapping each to its upper case, except
      that no character outside ASCII is mapped into ASCII; so u accepts
      itself and its ASCII lower case, and nothing else. */
  predicate FoldsTo(c: char, u: char) {
    c == u || (IsUpperAscii(u) && c as int == u as int + 32)
  }

  /** `/^(INTRODUCTION|...|REFERENCES)/i`: the line begins with one of the
      names, letter by letter under the `i` flag; anything may follow. */
  ghost predicate CanonicalRegex(line: string) {
    exists k :: 0 <= k < |CanonicalPattern| && |CanonicalPattern[k]| <= |line|
      && forall i :: 0 <= i < |CanonicalPattern[k]| ==> FoldsTo(line[i], CanonicalPattern[k][i])
  }

  lemma FoldChar(c: char, u: char)
    requires IsUpperAscii(u)
    ensures LowerChar(c) == LowerChar(u) <==> FoldsTo(c, u)
  {
  }

  /** Lower-casing both sides and comparing a prefix is the letter-by-letter
      `i` comparison, for an upper-case pattern. */
  lemma PrefixFolds(line: string, u: string)
    requires forall i :: 0 <= i < |u| ==> IsUpperAscii(u[i])
    ensures StartsWith(Lower(line), Lower(u)) <==> (|u| <= |line| && forall i :: 0 <= i < |u| ==> FoldsTo(line[i], u[i]))
  {
    if |u| <= |line| {
      var l, v := Lower(line)[..|u|], Lower(u);
      forall i | 0 <= i < |u|
        ensures l[i] == v[i] <==> FoldsTo(line[i], u[i])
      {
        FoldChar(line[i], u[i]);
      }
      assert l == v <==> forall i :: 0 <= i < |u| ==> l[i] == v[i];
    }
  }

  lemma CanonicalNames(k: nat)
    requires k < |CanonicalPattern|
    ensures |CanonicalHeadings| == |CanonicalPattern|
    ensures forall i :: 0 <= i < |CanonicalPattern[k]| ==> IsUpperAscii(CanonicalPattern[k][i])
    ensures CanonicalHeadings[k] == Lower(CanonicalPattern[k])
  {
  }

  /** The abstract's canonical-heading test accepts exactly the lines
      `/^(INTRODUCTION|...|REFERENCES)/i` accepts. */
  lemma CanonicalIffRegex(line: string)
    ensures StartsWithCanonicalHeading(line) <==> CanonicalRegex(line)
  {
    forall k | 0 <= k < |CanonicalPattern|
      ensures StartsWith(Lower(line), CanonicalHeadings[k])
          <==> (|CanonicalPattern[k]| <= |line| && forall i :: 0 <= i < |CanonicalPattern[k]| ==> FoldsTo(line[i], CanonicalPattern[k][i]))
    {
      CanonicalNames(k);
      PrefixFolds(line, CanonicalPattern[k]);
    }
    CanonicalNames(0);
  }

  /** No pattern id is a prefix of another and none contains a hyphen, so a
      section id made of a pattern id, a hyphen and a suffix starts with
      that pattern id and no other. */
  lemma PatternIdsDistinguish(j: nat, k: nat, stamp: string)
    requires j < |Table| && k < |Table|
    ensures StartsWith(Table[j].id + "-" + stamp, Table[k].id) <==> j == k
  {
    var a := Table[j].id;
    var b := Table[k].id;
    var s := a + "-" + stamp;
    assert s[..|a|] == a;
    if j != k && StartsWith(s, b) {
      if |b| <= |a| {
        assert a[..|b|] == b;
        IdsPrefixFree(j, k);
      } else {
        assert b[|a|] == s[|a|] == '-';
        IdsHaveNoHyphen(k);
      }
    }
  }

  lemma IdsPrefixFree(j: nat, k: nat)
    requires j < |Table| && k < |Table| && j != k
    ensures !StartsWith(Table[j].id, Table[k].id)
  {
    IdsKeyed(j, k);
  }

  /** The first and third characters of the pattern ids tell them apart. */
  lemma IdsKeyed(j: nat, k: nat)
    requires j < |Table| && k < |Table| && j != k
    ensures |Table[j].id| >= 3 && |Table[k].id| >= 3
    ensures Table[j].id[0] != Table[k].id[0] || Table[j].id[2] != Table[k].id[2]
  {
  }

  lemma IdsHaveNoHyphen(k: nat)
    requires k < |Table|
    ensures forall i :: 0 <= i < |Table[k].id| ==> Table[k].id[i] != '-'
  {
  }

  // ---------------------------------------------------------------------
  // Two lines that show how the table behaves.

  /** The British spelling "Acknowledgements" is no alternative of any row:
      `acknowledgm?ent` makes the m optional, not the e. */
  lemma AcknowledgementsNoAlternative(k: nat)
    requires k < |Table|
    ensures !Alternative(Table[k], "acknowledgements")
  {
    assert "acknowledgements"[..8][0] == 'a';
  }

  lemma AcknowledgementsNoPattern(k: nat)
    requires k < |Table|
    ensures !PatternMatches(Table[k], "Acknowledgements")
  {
    var line := "Acknowledgements";
    TrimAt(line, 0, |line|);
    assert Lower(line) == "acknowledgements";
    AcknowledgementsNoAlternative(k);
    PhraseIffRegex("acknowledgements");
  }

  lemma AcknowledgementsNotAcknowledgments()
    ensures !StartsWith(Upper("Acknowledgements"), Upper(Table[8].title))
  {
    assert Upper("Acknowledgements")[10] == 'E';
    assert Upper(Table[8].title)[10] == 'M';
  }

  lemma AcknowledgementsOtherTitles(k: nat)
    requires k < 8
    ensures !StartsWith(Upper("Acknowledgements"), Upper(Table[k].title))
    ensures Upper("Acknowledgements") != Upper(Table[k].title)
  {
    var t := Table[k].title;
    assert Upper("Acknowledgements")[0] == 'A';
    assert t[0] != 'A' && t[0] != 'a';
    assert Upper(t)[0] == UpperChar(t[0]);
  }

  /** A heading line "Acknowledgements" opens no content section. */
  lemma AcknowledgementsUnclassified()
    ensures Classify("Acknowledgements") == None
  {
    forall k | 0 <= k < |Table|
      ensures !OpensHeading(Table[k], "Acknowledgements")
    {
      AcknowledgementsNoPattern(k);
      if k == 8 {
        AcknowledgementsNotAcknowledgments();
      } else {
        AcknowledgementsOtherTitles(k);
      }
    }
  }

  lemma NumberedNoAlternative(k: nat)
    requires k < |Table|
    ensures !Alternative(Table[k], "methods 2")
  {
    assert "methods 2"[..8][1] == 'e';
  }
  lemma NumberedCore()
    ensures HeadingCore("Methods 2") == "Methods 2" && Lower("Methods 2") == "methods 2"
  {
    TrimAt("Methods 2", 0, 9);
  }
  lemma NumberedNoPattern(k: nat)
    requires k < |Table|
    ensures !PatternMatches(Table[k], "Methods 2")
  {
    NumberedCore();
    NumberedNoAlternative(k);
    PhraseIffRegex("methods 2");
  }
  lemma NumberedNoTitle(k: nat)
    requires k < |Table|
    ensures Upper("Methods 2") != Upper(Table[k].title)
  {
    assert |Table[k].title| != 9;
  }
  lemma NumberedNotShouted()
    ensures !Shouted("Methods 2")
  {
    var rest := "Methods 2"[1..];
    assert rest[0] == 'e';
    TrimEndOfSlice("Methods 2", 1, 9, 9);
  }
  lemma NumberedDoesNotStop()
    ensures !StopsBody("Methods 2")
  {
    forall k | 0 <= k < |Table|
      ensures !(PatternMatches(Table[k], "Methods 2") || Upper(Table[k].title) == Upper("Methods 2"))
    {
      NumberedNoPattern(k);
      NumberedNoTitle(k);
    }
    NumberedNotShouted();
  }
  lemma NumberedEarlierRows(k: nat)
    requires k < 3
    ensures !OpensHeading(Table[k], "Methods 2")
  {
    NumberedNoPattern(k);
    NumberedNoTitle(k);
    NumberedEarlierTitles(k);
  }
  lemma NumberedEarlierTitles(k: nat)
    requires k < 3
    ensures !StartsWith(Upper("Methods 2"), Upper(Table[k].title))
  {
    var t := Table[k].title;
    assert Upper("Methods 2")[0] == 'M';
    assert t[0] != 'M' && t[0] != 'm';
    assert Upper(t)[0] == UpperChar(t[0]);
  }
  lemma NumberedOpensMethods()
    ensures OpensHeading(Table[3], "Methods 2")
  {
    assert Upper("Methods 2")[..7] == "METHODS";
    assert Upper(Table[3].title) == "METHODS";
  }
  /** "Methods 2" opens a Methods section through the prefix-and-length
      clause, yet does not end the body of the section before it: the
      body-stop test has no such clause, so the line is both kept in the
      earlier body and re-scanned as a heading. */
  lemma NumberedHeadingQuirk()
    ensures Classify("Methods 2") == Some(3)
    ensures !StopsBody("Methods 2")
  {
    NumberedEarlierRows(0);
    NumberedEarlierRows(1);
    NumberedEarlierRows(2);
    NumberedOpensMethods();
    NumberedDoesNotStop();
    var r := Classify("Methods 2");
    assert r.Some? && r.value == 3;
  }
}
