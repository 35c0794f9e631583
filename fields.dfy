/** The first half of `parseExtractedText` (script.js:240-359): the text is
    cut into clean lines, and the six poster details (title, abstract,
    authors, affiliations, conference and disclosures) are picked out of
    them. JavaScript `find`, `findIndex` and `filter` calls are functions;
    each `for` loop of the source is a method proved equal to the function
    that specifies it. */
module Fields {
  import opened Seqs
  import opened Strings
  import opened Patterns

  // ---------------------------------------------------------------------
  // Line cleaning (script.js:257-259)

  /** `replace(/\r\n/g, '\n')`. A text without '\r' is left as it is. */
  function ReplaceCrLf(s: string): (r: string)
    ensures |r| <= |s|
    ensures '\r' !in s ==> r == s
    decreases |s|
  {
    if |s| >= 2 && s[0] == '\r' && s[1] == '\n' then "\n" + ReplaceCrLf(s[2..])
    else if s == [] then []
    else
      assert '\r' !in s ==> '\r' !in s[1..];
      [s[0]] + ReplaceCrLf(s[1..])
  }

  /** `replace(/\r/g, '\n')`. */
  function ReplaceCr(s: string): (r: string)
    ensures |r| == |s|
    ensures '\r' !in r
    ensures '\r' !in s ==> r == s
  {
    seq(|s|, i requires 0 <= i < |s| => if s[i] == '\r' then '\n' else s[i])
  }

  /** Both replacements: every line break becomes '\n'. */
  function Normalized(text: string): string {
    ReplaceCr(ReplaceCrLf(text))
  }

  /** The first replacement works piece by piece, unless the cut falls
      inside a "\r\n" pair. */
  lemma {:induction false} ReplaceCrLfAppend(a: string, b: string)
    requires !(a != [] && a[|a| - 1] == '\r' && b != [] && b[0] == '\n')
    ensures ReplaceCrLf(a + b) == ReplaceCrLf(a) + ReplaceCrLf(b)
    decreases |a|
  {
    if a == [] {
      assert a + b == b;
    } else if |a| >= 2 && a[0] == '\r' && a[1] == '\n' {
      ReplaceCrLfAppend(a[2..], b);
      PairAppend(a, b);
    } else {
      ReplaceCrLfAppend(a[1..], b);
      CharAppend(a, b);
    }
  }

  lemma PairAppend(a: string, b: string)
    requires |a| >= 2 && a[0] == '\r' && a[1] == '\n'
    requires ReplaceCrLf(a[2..] + b) == ReplaceCrLf(a[2..]) + ReplaceCrLf(b)
    ensures ReplaceCrLf(a + b) == ReplaceCrLf(a) + ReplaceCrLf(b)
  {
    HeadsOf(a, b);
    PairHead(a + b);
    PairHead(a);
    Assoc("\n", ReplaceCrLf(a[2..]), ReplaceCrLf(b));
  }

  lemma CharAppend(a: string, b: string)
    requires a != [] && !(|a| >= 2 && a[0] == '\r' && a[1] == '\n')
    requires !(a[|a| - 1] == '\r' && b != [] && b[0] == '\n')
    requires ReplaceCrLf(a[1..] + b) == ReplaceCrLf(a[1..]) + ReplaceCrLf(b)
    ensures ReplaceCrLf(a + b) == ReplaceCrLf(a) + ReplaceCrLf(b)
  {
    HeadsOf(a, b);
    CharHead(a + b);
    CharHead(a);
    Assoc([a[0]], ReplaceCrLf(a[1..]), ReplaceCrLf(b));
  }

  /** How the head of a + b relates to a and b. */
  lemma HeadsOf(a: string, b: string)
    requires a != []
    ensures (a + b)[0] == a[0] && (a + b)[1..] == a[1..] + b
    ensures |a| >= 2 ==> (a + b)[1] == a[1] && (a + b)[2..] == a[2..] + b
    ensures |a| == 1 && b != [] ==> (a + b)[1] == b[0]
    ensures |a| == 1 || a[|a| - 1] == a[1..][|a| - 2]
  {
  }

  lemma Assoc(x: string, y: string, z: string)
    ensures x + (y + z) == (x + y) + z
  {
  }

  lemma PairHead(s: string)
    requires |s| >= 2 && s[0] == '\r' && s[1] == '\n'
    ensures ReplaceCrLf(s) == "\n" + ReplaceCrLf(s[2..])
  {
  }

  lemma CharHead(s: string)
    requires s != [] && !(|s| >= 2 && s[0] == '\r' && s[1] == '\n')
    ensures ReplaceCrLf(s) == [s[0]] + ReplaceCrLf(s[1..])
  {
  }

  lemma ReplaceCrAppend(a: string, b: string)
    ensures ReplaceCr(a + b) == ReplaceCr(a) + ReplaceCr(b)
  {
  }

  /** Both replacements work piece by piece, unless the cut falls inside a
      "\r\n" pair. */
  lemma NormalizedAppend(a: string, b: string)
    requires !(a != [] && a[|a| - 1] == '\r' && b != [] && b[0] == '\n')
    ensures Normalized(a + b) == Normalized(a) + Normalized(b)
  {
    ReplaceCrLfAppend(a, b);
    ReplaceCrAppend(ReplaceCrLf(a), ReplaceCrLf(b));
  }

  /** Replacing around a middle piece m that the first replacement turns
      into n, where a and m do not meet inside a "\r\n" pair. */
  lemma NormalizedSplice(a: string, m: string, b: string, n: string)
    requires m != [] && !(a != [] && a[|a| - 1] == '\r' && m[0] == '\n')
    requires ReplaceCrLf(m + b) == n + ReplaceCrLf(b)
    ensures Normalized(a + m + b) == Normalized(a) + ReplaceCr(n) + Normalized(b)
  {
    var mb := m + b;
    assert a + m + b == a + mb;
    assert mb[0] == m[0];
    NormalizedAppend(a, mb);
    SpliceTail(m, b, n);
    Assoc(Normalized(a), ReplaceCr(n), Normalized(b));
  }

  lemma SpliceTail(m: string, b: string, n: string)
    requires ReplaceCrLf(m + b) == n + ReplaceCrLf(b)
    ensures Normalized(m + b) == ReplaceCr(n) + Normalized(b)
  {
    ReplaceCrAppend(n, ReplaceCrLf(b));
  }

  /** A "\r\n" pair becomes one '\n'. */
  lemma CrLfNormalized(a: string, b: string)
    ensures Normalized(a + "\r\n" + b) == Normalized(a) + "\n" + Normalized(b)
  {
    assert ("\r\n" + b)[2..] == b;
    NormalizedSplice(a, "\r\n", b, "\n");
  }

  /** A '\r' not followed by '\n' becomes '\n' too. */
  lemma LoneCrNormalized(a: string, b: string)
    requires b == [] || b[0] != '\n'
    ensures Normalized(a + "\r" + b) == Normalized(a) + "\n" + Normalized(b)
  {
    assert ("\r" + b)[1..] == b;
    NormalizedSplice(a, "\r", b, "\r");
  }

  /** Every other character stays, unless it is the '\n' of a pair. */
  lemma OtherCharNormalized(a: string, c: char, b: string)
    requires c != '\r' && c != '\n'
    ensures Normalized(a + [c] + b) == Normalized(a) + [c] + Normalized(b)
  {
    assert ([c] + b)[1..] == b;
    NormalizedSplice(a, [c], b, [c]);
  }

  /** A '\n' that does not end a pair stays. */
  lemma LfNormalized(a: string, b: string)
    requires a == [] || a[|a| - 1] != '\r'
    ensures Normalized(a + "\n" + b) == Normalized(a) + "\n" + Normalized(b)
  {
    assert ("\n" + b)[1..] == b;
    NormalizedSplice(a, "\n", b, "\n");
  }

  predicate NonEmpty(l: string) {
    l != ""
  }

  function TrimAll(ls: seq<string>): (r: seq<string>)
    ensures |r| == |ls|
  {
    seq(|ls|, i requires 0 <= i < |ls| => Trim(ls[i]))
  }

  /** The lines of a text whose breaks are all '\n': the pieces between
      them, trimmed, with the empty ones dropped. */
  function LinesOf(s: string): seq<string> {
    Filter(TrimAll(SplitOn(s, '\n')), NonEmpty)
  }

  /** The lines the parser works on: line breaks normalised, the text split
      at '\n', each piece trimmed and the empty ones dropped. A text without
      '\r' is cut at its '\n's alone. */
  function CleanLines(text: string): (r: seq<string>)
    ensures '\r' !in text ==> r == LinesOf(text)
  {
    LinesOf(Normalized(text))
  }

  lemma TrimAllAppend(x: seq<string>, y: seq<string>)
    ensures TrimAll(x + y) == TrimAll(x) + TrimAll(y)
  {
    forall i | 0 <= i < |x| + |y|
      ensures TrimAll(x + y)[i] == (TrimAll(x) + TrimAll(y))[i]
    {
      if i < |x| {
        TrimAllLeft(x, y, i);
      } else {
        TrimAllRight(x, y, i);
      }
    }
  }

  lemma TrimAllLeft(x: seq<string>, y: seq<string>, i: nat)
    requires i < |x|
    ensures TrimAll(x + y)[i] == (TrimAll(x) + TrimAll(y))[i]
  {
    assert (x + y)[i] == x[i];
  }

  lemma TrimAllRight(x: seq<string>, y: seq<string>, i: nat)
    requires |x| <= i < |x| + |y|
    ensures TrimAll(x + y)[i] == (TrimAll(x) + TrimAll(y))[i]
  {
    assert (x + y)[i] == y[i - |x|];
  }

  /** An empty text has no lines. */
  lemma LinesOfEmpty()
    ensures LinesOf("") == []
  {
    assert SplitOn("", '\n') == [""];
    assert TrimAll([""]) == [""];
  }

  /** Cutting at one '\n' cuts the lines in two. */
  lemma LinesOfAppend(a: string, b: string)
    ensures LinesOf(a + "\n" + b) == LinesOf(a) + LinesOf(b)
  {
    var x := SplitOn(a, '\n');
    var y := SplitOn(b, '\n');
    SplitAppend(a, b, '\n');
    TrimAllAppend(x, y);
    FilterAppend(TrimAll(x), TrimAll(y), NonEmpty);
  }

  /** A blank line adds no line and cuts the text around it in two. */
  lemma LinesOfBlankLine(z: string, t: string, w: string)
    requires w == z + "\n\n" + t
    ensures LinesOf(w) == LinesOf(z) + LinesOf(t)
  {
    var e: string := [];
    var u := z + "\n" + e;
    assert w == u + "\n" + t by {
      BlankLineSplit(z, t);
    }
    assert LinesOf(u) == LinesOf(z) by {
      LinesOfAppend(z, e);
      LinesOfNone(e);
    }
    LinesOfAppend(u, t);
  }

  /** A closing blank line adds no line. */
  lemma LinesOfBlankEnd(z: string, w: string)
    requires w == z + "\n\n"
    ensures LinesOf(w) == LinesOf(z)
  {
    assert w == z + "\n\n" + "";
    LinesOfBlankLine(z, "", w);
    LinesOfEmpty();
  }

  /** A text that ends with a blank line is cut off from what follows it. */
  lemma LinesOfAfterBlank(s: string, t: string)
    requires |s| >= 2 && s[|s| - 2..] == "\n\n"
    ensures LinesOf(s + t) == LinesOf(s) + LinesOf(t)
  {
    var z := s[..|s| - 2];
    assert LinesOf(s + t) == LinesOf(z) + LinesOf(t) by {
      ClosedSplit(s, t);
      LinesOfBlankLine(z, t, s + t);
    }
    assert LinesOf(s) == LinesOf(z) by {
      ClosedSplit(s, t);
      LinesOfBlankEnd(z, s);
    }
  }

  /** The lines of a document text after a first page. */
  lemma LinesOfFirstPage(f0: string, pt: string, w: string)
    requires f0 == "" && w == f0 + pt + "\n\n"
    ensures LinesOf(w) == LinesOf(f0) + LinesOf(pt + "\n\n")
  {
    assert w == pt + "\n\n" by {
      assert f0 + pt == pt;
    }
    LinesOfNone(f0);
  }

  lemma LinesOfNone(s: string)
    requires s == []
    ensures LinesOf(s) == []
  {
    LinesOfEmpty();
  }

  /** The lines of a document text after one more page. */
  lemma LinesOfNextPage(f0: string, pt: string, w: string)
    requires |f0| >= 2 && f0[|f0| - 2..] == "\n\n" && w == f0 + pt + "\n\n"
    ensures LinesOf(w) == LinesOf(f0) + LinesOf(pt + "\n\n")
  {
    assert w == f0 + (pt + "\n\n");
    LinesOfAfterBlank(f0, pt + "\n\n");
  }

  lemma ClosedSplit(s: string, t: string)
    requires |s| >= 2 && s[|s| - 2..] == "\n\n"
    ensures s == s[..|s| - 2] + "\n\n"
    ensures s + t == s[..|s| - 2] + "\n\n" + t
  {
    assert s == s[..|s| - 2] + s[|s| - 2..];
  }

  lemma BlankLineSplit(z: string, t: string)
    ensures z + "\n\n" + t == (z + "\n" + "") + "\n" + t
  {
  }

  /** Lines joined by '\n' are cut back into the same lines, when each is
      trimmed, non-empty and free of '\n'. */
  lemma LinesOfJoin(ls: seq<string>)
    requires AllTrimmedNonEmpty(ls)
    requires forall i :: 0 <= i < |ls| ==> '\n' !in ls[i]
    ensures LinesOf(Join("\n", ls)) == ls
  {
    if ls == [] {
      LinesOfEmpty();
    } else {
      SplitJoin(ls, '\n');
      forall i | 0 <= i < |ls|
        ensures Trim(ls[i]) == ls[i]
      {
        TrimOfTrimmed(ls[i]);
      }
      assert TrimAll(ls) == ls;
      FilterAll(ls, NonEmpty);
    }
  }

  /** Every clean line is non-empty and trimmed. */
  lemma CleanLinesTrimmed(text: string)
    ensures AllTrimmedNonEmpty(CleanLines(text))
  {
    LinesOfTrimmed(Normalized(text));
  }

  lemma LinesOfTrimmed(s: string)
    ensures AllTrimmedNonEmpty(LinesOf(s))
  {
    var ps := SplitOn(s, '\n');
    var pieces := TrimAll(ps);
    var lines := Filter(pieces, NonEmpty);
    FilterSubset(pieces, NonEmpty);
    forall i | 0 <= i < |lines|
      ensures lines[i] != [] && IsTrimmed(lines[i])
    {
      var j :| 0 <= j < |pieces| && pieces[j] == lines[i];
      TrimAllTrimmed(ps, j);
    }
  }

  lemma TrimAllTrimmed(ps: seq<string>, j: nat)
    requires j < |ps|
    ensures IsTrimmed(TrimAll(ps)[j])
  {
    TrimIsTrimmed(ps[j]);
  }

  // ---------------------------------------------------------------------
  // Title (script.js:265-277)

  /** A line the title loop accepts among the first five. */
  predicate TitleCandidate(l: string) {
    |l| > 30 && |l| < 300 && ',' !in l
  }

  predicate LongerThan20(l: string) {
    |l| > 20
  }

  /** The first candidate among the first five lines; failing that, the
      first line longer than 20 characters; failing that, the first line;
      "" when there are no lines. */
  function Title(lines: seq<string>): string {
    match FirstIndex(lines, TitleCandidate, 0, Min(5, |lines|))
    case Some(i) => lines[i]
    case None =>
      if lines == [] then ""
      else match FirstIndex(lines, LongerThan20, 0, |lines|)
        case Some(j) => lines[j]
        case None => lines[0]
  }

  method ExtractTitle(lines: seq<string>) returns (title: string)
    ensures title == Title(lines)
  {
    title := "";
    var found := false;
    var i := 0;
    while i < Min(5, |lines|) && !found
      invariant 0 <= i <= Min(5, |lines|)
      invariant !found ==> title == "" && forall j :: 0 <= j < i ==> !TitleCandidate(lines[j])
      invariant found ==> FirstIndex(lines, TitleCandidate, 0, Min(5, |lines|)) == Some(i) && title == lines[i]
      decreases Min(5, |lines|) - i, if found then 0 else 1
    {
      if |lines[i]| > 30 && |lines[i]| < 300 && ',' !in lines[i] {
        title := lines[i];
        found := true;
        FirstIndexAt(lines, TitleCandidate, 0, Min(5, |lines|), i);
      } else {
        i := i + 1;
      }
    }
    if !found && |lines| > 0 {
      title := match FirstIndex(lines, LongerThan20, 0, |lines|)
        case Some(j) => lines[j]
        case None => lines[0];
    }
  }

  /** What the title is: the first of the first five lines that is a
      candidate when there is one; otherwise a fallback line. It is empty
      only when there are no lines, and it holds a comma only when none of
      the first five lines was a candidate. */
  lemma TitleSpec(lines: seq<string>)
    requires forall i :: 0 <= i < |lines| ==> lines[i] != ""
    ensures Title(lines) == "" <==> lines == []
    ensures forall i :: (0 <= i < Min(5, |lines|) && TitleCandidate(lines[i]) &&
              (forall j :: 0 <= j < i ==> !TitleCandidate(lines[j]))) ==> Title(lines) == lines[i]
    ensures ',' in Title(lines) ==> forall j :: 0 <= j < Min(5, |lines|) ==> !TitleCandidate(lines[j])
    ensures lines != [] ==> Title(lines) in lines
  {
    var r := FirstIndex(lines, TitleCandidate, 0, Min(5, |lines|));
    forall i | 0 <= i < Min(5, |lines|) && TitleCandidate(lines[i]) && (forall j :: 0 <= j < i ==> !TitleCandidate(lines[j]))
      ensures Title(lines) == lines[i]
    {
      FirstIndexAt(lines, TitleCandidate, 0, Min(5, |lines|), i);
    }
  }

  // ---------------------------------------------------------------------
  // Abstract (script.js:291-316)

  predicate MentionsAbstract(l: string) {
    ContainsIgnoringCase(l, "abstract")
  }

  predicate LongerThan10(l: string) {
    |l| > 10
  }

  /** The line after the abstract window: the first stop line after the
      anchor a, or the end of the 14-line window. */
  function AbstractStop(lines: seq<string>, a: nat): (stop: nat)
    requires a < |lines|
    ensures a + 1 <= stop <= Min(a + 15, |lines|)
  {
    StopIndex(lines, StopsAbstract, a + 1, Min(a + 15, |lines|))
  }

  /** The lines the abstract collects: those longer than 10 characters
      between the first line mentioning "abstract" and the stop. */
  function AbstractLines(lines: seq<string>): seq<string> {
    match FirstIndex(lines, MentionsAbstract, 0, |lines|)
    case None => []
    case Some(a) => Filter(lines[a + 1..AbstractStop(lines, a)], LongerThan10)
  }

  /** The abstract text: the collected lines, each followed by a space, the
      whole trimmed. */
  function Abstract(lines: seq<string>): string {
    Trim(Terminated(AbstractLines(lines), " "))
  }

  /** The text the abstract loop accumulates over lines [lo, hi): each line
      that p keeps, followed by sep. */
  function Collected(lines: seq<string>, p: string -> bool, lo: nat, hi: nat, sep: string): string
    requires lo <= hi <= |lines|
    decreases hi - lo
  {
    if lo == hi then "" else Collected(lines, p, lo, hi - 1, sep) + (if p(lines[hi - 1]) then lines[hi - 1] + sep else "")
  }

  /** The accumulated text is the kept lines, each followed by sep. */
  lemma {:induction false} CollectedIsTerminated(lines: seq<string>, p: string -> bool, lo: nat, hi: nat, sep: string)
    requires lo <= hi <= |lines|
    ensures Collected(lines, p, lo, hi, sep) == Terminated(Filter(lines[lo..hi], p), sep)
    decreases hi - lo
  {
    if lo < hi {
      CollectedIsTerminated(lines, p, lo, hi - 1, sep);
      FilterExtend(lines, p, lo, hi - 1);
      TerminatedStep(Filter(lines[lo..hi - 1], p), lines[hi - 1], p(lines[hi - 1]), sep);
    }
  }

  lemma TerminatedStep(kept: seq<string>, x: string, keep: bool, sep: string)
    ensures Terminated(kept + (if keep then [x] else []), sep) == Terminated(kept, sep) + (if keep then x + sep else "")
  {
    if keep {
      TerminatedSnoc(kept, x, sep);
    } else {
      assert kept + [] == kept;
    }
  }

  /** The first line of [lo, hi) that stop accepts, or hi when there is
      none. */
  function StopIndex(lines: seq<string>, stop: string -> bool, lo: nat, hi: nat): (e: nat)
    requires lo <= hi <= |lines|
    ensures lo <= e <= hi
    ensures forall j :: lo <= j < e ==> !stop(lines[j])
    ensures e < hi ==> stop(lines[e])
  {
    match FirstIndex(lines, stop, lo, hi)
    case Some(j) => j
    case None => hi
  }

  /** The scan loop of the abstract search and of the section bodies: it
      walks the lines from lo up to hi, leaves at the first line that stop
      accepts, and appends every line that keep accepts, followed by sep. */
  method CollectWindow(lines: seq<string>, lo: nat, hi: nat, stop: string -> bool, keep: string -> bool, sep: string)
    returns (text: string)
    requires lo <= hi <= |lines|
    ensures text == Collected(lines, keep, lo, StopIndex(lines, stop, lo, hi), sep)
  {
    text := "";
    var j := lo;
    while j < hi
      invariant lo <= j <= hi
      invariant FirstIndex(lines, stop, lo, j) == None
      invariant text == Collected(lines, keep, lo, j, sep)
    {
      var nextLine := lines[j];
      if stop(nextLine) {
        FirstIndexHit(lines, stop, lo, j, hi);
        return;
      }
      FirstIndexExtend(lines, stop, lo, j);
      if keep(nextLine) {
        text := text + nextLine + sep;
      }
      j := j + 1;
    }
  }

  /** A window keeps at most hi - lo lines, each accepted by keep and none
      accepted by stop; on clean lines, with a blank separator, the trimmed
      text is their join, empty exactly when no line was kept. */
  lemma WindowSpec(lines: seq<string>, stop: string -> bool, keep: string -> bool, lo: nat, hi: nat, c: char)
    requires lo <= hi <= |lines| && IsSpace(c)
    ensures var w := Filter(lines[lo..StopIndex(lines, stop, lo, hi)], keep);
      |w| <= hi - lo && (forall t :: 0 <= t < |w| ==> keep(w[t]) && !stop(w[t])) &&
      (AllTrimmedNonEmpty(lines) ==> Trim(Terminated(w, [c])) == Join([c], w) && (Join([c], w) == "" <==> w == []))
  {
    var window := lines[lo..StopIndex(lines, stop, lo, hi)];
    var w := Filter(window, keep);
    FilterSubset(window, keep);
    assert forall l :: l in window ==> !stop(l);
    if AllTrimmedNonEmpty(lines) {
      assert AllTrimmedNonEmpty(w) by {
        assert forall l :: l in window ==> l != [] && IsTrimmed(l);
      }
      TrimTerminated(w, c);
      if w != [] {
        JoinEndsWithLast([c], w);
      }
    }
  }

  /** The inner loop of the abstract search, from the line after the anchor
      (`j < lines.length && j < i + 15`). */
  method CollectAbstract(lines: seq<string>, a: nat) returns (abstractText: string)
    requires a < |lines|
    ensures abstractText == Collected(lines, LongerThan10, a + 1, AbstractStop(lines, a), " ")
  {
    abstractText := CollectWindow(lines, a + 1, Min(a + 15, |lines|), StopsAbstract, LongerThan10, " ");
  }

  method ExtractAbstract(lines: seq<string>) returns (text: string)
    ensures text == Abstract(lines)
  {
    text := "";
    var i := 0;
    var done := false;
    while i < |lines| && !done
      invariant 0 <= i <= |lines|
      invariant forall k :: 0 <= k < i ==> !MentionsAbstract(lines[k])
      invariant !done ==> text == ""
      invariant done ==> i < |lines| && MentionsAbstract(lines[i]) && text == Abstract(lines)
      decreases |lines| - i, if done then 0 else 1
    {
      if ContainsIgnoringCase(lines[i], "abstract") {
        FirstIndexAt(lines, MentionsAbstract, 0, |lines|, i);
        var abstractText := CollectAbstract(lines, i);
        CollectedIsTerminated(lines, LongerThan10, i + 1, AbstractStop(lines, i), " ");
        if Trim(abstractText) != "" {
          text := Trim(abstractText);
        }
        done := true;
      } else {
        i := i + 1;
      }
    }
  }

  /** The abstract holds lines of more than 10 characters from the 14 lines
      after the first line that mentions "abstract", none of which is a
      heading; on clean lines it is their join with single spaces. */
  lemma AbstractSpec(lines: seq<string>)
    ensures |AbstractLines(lines)| <= 14
    ensures forall i :: 0 <= i < |AbstractLines(lines)| ==>
              |AbstractLines(lines)[i]| > 10 && !StopsAbstract(AbstractLines(lines)[i]) && !Shouted(AbstractLines(lines)[i])
    ensures (forall i :: 0 <= i < |lines| ==> !MentionsAbstract(lines[i])) ==> Abstract(lines) == ""
    ensures AllTrimmedNonEmpty(lines) ==> Abstract(lines) == Join(" ", AbstractLines(lines))
    ensures AllTrimmedNonEmpty(lines) ==> (Abstract(lines) == "" <==> AbstractLines(lines) == [])
  {
    AbstractWindow(lines);
    if AllTrimmedNonEmpty(lines) && AbstractLines(lines) != [] {
      JoinEndsWithLast(" ", AbstractLines(lines));
    }
  }

  lemma AbstractWindow(lines: seq<string>)
    ensures |AbstractLines(lines)| <= 14
    ensures forall i :: 0 <= i < |AbstractLines(lines)| ==>
              |AbstractLines(lines)[i]| > 10 && !StopsAbstract(AbstractLines(lines)[i]) && !Shouted(AbstractLines(lines)[i])
    ensures (forall i :: 0 <= i < |lines| ==> !MentionsAbstract(lines[i])) ==> Abstract(lines) == ""
    ensures AllTrimmedNonEmpty(lines) ==> Abstract(lines) == Join(" ", AbstractLines(lines))
  {
    match FirstIndex(lines, MentionsAbstract, 0, |lines|)
    case None =>
    case Some(a) =>
      WindowSpec(lines, StopsAbstract, LongerThan10, a + 1, Min(a + 15, |lines|), ' ');
  }

  // ---------------------------------------------------------------------
  // Authors (script.js:318-330)

  /** `/[A-Za-z]/`: some ASCII letter occurs in l. */
  predicate HasAsciiLetter(l: string)
    decreases |l|
  {
    l != [] && (IsAsciiLetter(l[0]) || HasAsciiLetter(l[1..]))
  }

  /** `/\d{4}/`: four digits in a row occur in l. */
  predicate HasFourDigits(l: string)
    decreases |l|
  {
    |l| >= 4 && ((IsDigit(l[0]) && IsDigit(l[1]) && IsDigit(l[2]) && IsDigit(l[3])) || HasFourDigits(l[1..]))
  }

  /** A line the author search accepts. The source also asks that the line
      split at commas into at least two pieces, which a line holding a comma
      always does (Strings.SplitCount). */
  predicate AuthorLike(l: string) {
    ',' in l && |l| > 20 && HasAsciiLetter(l) && !HasFourDigits(l)
  }

  /** `lines.findIndex(line => line === title)`. */
  function TitleIndex(lines: seq<string>, title: string): Option<nat> {
    FirstIndex(lines, (l: string) => l == title, 0, |lines|)
  }

  /** The first author-like line among the nine after the first line equal
      to the title; "" when there is none or the title is no line. */
  function Authors(lines: seq<string>, title: string): string {
    match TitleIndex(lines, title)
    case None => ""
    case Some(t) =>
      match FirstIndex(lines, AuthorLike, t + 1, Min(t + 10, |lines|))
      case Some(i) => lines[i]
      case None => ""
  }

  method ExtractAuthors(lines: seq<string>, title: string) returns (authors: string)
    ensures authors == Authors(lines, title)
  {
    authors := "";
    var titleIndex := TitleIndex(lines, title);
    if titleIndex.Some? {
      authors := ScanAuthors(lines, titleIndex.value);
    }
  }

  /** The loop of the author search, over the nine lines after line t. */
  method ScanAuthors(lines: seq<string>, t: nat) returns (authors: string)
    requires t < |lines|
    ensures authors == match FirstIndex(lines, AuthorLike, t + 1, Min(t + 10, |lines|))
                       case Some(i) => lines[i]
                       case None => ""
  {
    authors := "";
    var i := t + 1;
    var found := false;
    while i < Min(t + 10, |lines|) && !found
      invariant t + 1 <= i <= Min(t + 10, |lines|)
      invariant FirstIndex(lines, AuthorLike, t + 1, i) == None
      invariant !found ==> authors == ""
      invariant found ==> i < Min(t + 10, |lines|) && AuthorLike(lines[i]) && authors == lines[i]
      decreases Min(t + 10, |lines|) - i, if found then 0 else 1
    {
      SplitCount(lines[i], ',');
      if ',' in lines[i] && |lines[i]| > 20 && |SplitOn(lines[i], ',')| >= 2 {
        if HasAsciiLetter(lines[i]) && !HasFourDigits(lines[i]) {
          authors := lines[i];
          found := true;
        }
      }
      if !found {
        FirstIndexExtend(lines, AuthorLike, t + 1, i);
        i := i + 1;
      }
    }
    if found {
      FirstIndexHit(lines, AuthorLike, t + 1, i, Min(t + 10, |lines|));
    }
  }

  /** The authors line, when there is one, is author-like, lies within nine
      lines after the first occurrence of the title, and is the first such
      line there. */
  lemma AuthorsSpec(lines: seq<string>, title: string)
    ensures Authors(lines, title) != "" ==>
      exists t, i :: 0 <= t < i < |lines| && i < t + 10 && lines[t] == title
        && (forall k :: 0 <= k < t ==> lines[k] != title)
        && lines[i] == Authors(lines, title) && AuthorLike(lines[i])
        && (forall k :: t < k < i ==> !AuthorLike(lines[k]))
    ensures TitleIndex(lines, title).None? ==> Authors(lines, title) == ""
    ensures forall t, i :: TitleIndex(lines, title) == Some(t) && t < i < Min(t + 10, |lines|) && AuthorLike(lines[i])
              ==> Authors(lines, title) != ""
  {
    if Authors(lines, title) != "" {
      var t := TitleIndex(lines, title).value;
      var i := FirstIndex(lines, AuthorLike, t + 1, Min(t + 10, |lines|)).value;
      assert lines[t] == title && forall k :: 0 <= k < t ==> lines[k] != title;
      assert AuthorLike(lines[i]) && forall k :: t < k < i ==> !AuthorLike(lines[k]);
      assert lines[i] == Authors(lines, title);
    }
  }

  // ---------------------------------------------------------------------
  // Affiliations (script.js:332-339)

  const InstitutionKeywords: seq<string> :=
    ["university", "hospital", "institute", "center", "department", "school", "college", "clinic", "laboratory"]

  predicate AffiliationLine(l: string) {
    ContainsAnyIgnoringCase(l, InstitutionKeywords) && |l| > 20
  }

  /** The first five affiliation lines. */
  function AffiliationLines(lines: seq<string>): seq<string> {
    Take(Filter(lines, AffiliationLine), 5)
  }

  /** The affiliation lines joined with "; ", or "" when there are none. */
  function Affiliations(lines: seq<string>): string {
    var a := AffiliationLines(lines);
    if |a| > 0 then Join("; ", a) else ""
  }

  /** At most five lines, each an affiliation line, the first ones in order;
      the text is empty exactly when no line is an affiliation line. */
  lemma AffiliationsSpec(lines: seq<string>)
    ensures |AffiliationLines(lines)| <= 5
    ensures AffiliationLines(lines) == Filter(lines, AffiliationLine)[..|AffiliationLines(lines)|]
    ensures forall i :: 0 <= i < |AffiliationLines(lines)| ==> AffiliationLine(AffiliationLines(lines)[i])
    ensures |Filter(lines, AffiliationLine)| <= 5 ==> AffiliationLines(lines) == Filter(lines, AffiliationLine)
    ensures |AffiliationLines(lines)| == Min(5, |Filter(lines, AffiliationLine)|)
    ensures AffiliationLines(lines) != [] ==> Affiliations(lines) == Join("; ", AffiliationLines(lines))
    ensures Affiliations(lines) == "" <==> forall i :: 0 <= i < |lines| ==> !AffiliationLine(lines[i])
  {
    FilterEmpty(lines, AffiliationLine);
    var a := AffiliationLines(lines);
    if a != [] {
      JoinEndsWithLast("; ", a);
    }
  }

  // ---------------------------------------------------------------------
  // Conference (script.js:341-348)

  const ConferenceKeywords: seq<string> :=
    ["presented at", "conference", "meeting", "symposium", "congress", "annual", "poster"]

  predicate ConferenceLine(l: string) {
    ContainsAnyIgnoringCase(l, ConferenceKeywords) && |l| > 20
  }

  /** The first conference line, or "" when there is none. */
  function Conference(lines: seq<string>): (r: string)
    ensures r != "" <==> exists i :: 0 <= i < |lines| && ConferenceLine(lines[i])
    ensures r != "" ==> exists i :: (0 <= i < |lines| && lines[i] == r && ConferenceLine(r) &&
              forall j :: 0 <= j < i ==> !ConferenceLine(lines[j]))
  {
    match FirstIndex(lines, ConferenceLine, 0, |lines|)
    case Some(i) => lines[i]
    case None => ""
  }

  // ---------------------------------------------------------------------
  // Disclosures (script.js:350-359)

  const DisclosureKeywords: seq<string> :=
    ["disclosure", "conflict of interest", "funding", "grant", "support"]

  predicate DisclosureLine(l: string) {
    ContainsAnyIgnoringCase(l, DisclosureKeywords)
  }

  /** The up to five lines from line d on. */
  function DisclosureWindow(lines: seq<string>, d: nat): seq<string>
    requires d < |lines|
  {
    lines[d..Min(d + 5, |lines|)]
  }

  /** The window from the first disclosure line on, each line followed by a
      space, the whole trimmed; "" when there is no disclosure line or it is
      the last line. */
  function Disclosures(lines: seq<string>): string {
    match FirstIndex(lines, DisclosureLine, 0, |lines|)
    case Some(d) =>
      if d < |lines| - 1 then Trim(Terminated(DisclosureWindow(lines, d), " ")) else ""
    case None => ""
  }

  method ExtractDisclosures(lines: seq<string>) returns (disclosures: string)
    ensures disclosures == Disclosures(lines)
  {
    disclosures := "";
    var disclosureIndex := FirstIndex(lines, DisclosureLine, 0, |lines|);
    if disclosureIndex.Some? && disclosureIndex.value < |lines| - 1 {
      var d := disclosureIndex.value;
      var disclosureText := "";
      var i := d;
      while i < Min(d + 5, |lines|)
        invariant d <= i <= Min(d + 5, |lines|)
        invariant disclosureText == Terminated(lines[d..i], " ")
      {
        assert lines[d..i + 1] == lines[d..i] + [lines[i]];
        TerminatedSnoc(lines[d..i], lines[i], " ");
        disclosureText := disclosureText + lines[i] + " ";
        i := i + 1;
      }
      assert lines[d..i] == DisclosureWindow(lines, d);
      disclosures := Trim(disclosureText);
    }
  }

  /** On clean lines the disclosures are empty exactly when no line but the
      last is a disclosure line. */
  lemma DisclosuresEmpty(lines: seq<string>)
    requires AllTrimmedNonEmpty(lines)
    ensures Disclosures(lines) == "" <==> forall d :: 0 <= d < |lines| - 1 ==> !DisclosureLine(lines[d])
  {
    FirstIndexBelow(lines, DisclosureLine, if |lines| == 0 then 0 else |lines| - 1);
    DisclosuresFound(lines);
  }

  /** The disclosures are non-empty exactly when the first disclosure line
      is not the last line. */
  lemma DisclosuresFound(lines: seq<string>)
    requires AllTrimmedNonEmpty(lines)
    ensures Disclosures(lines) != "" <==>
      (FirstIndex(lines, DisclosureLine, 0, |lines|).Some? && FirstIndex(lines, DisclosureLine, 0, |lines|).value < |lines| - 1)
  {
    var r := FirstIndex(lines, DisclosureLine, 0, |lines|);
    if r.Some? && r.value < |lines| - 1 {
      var w := DisclosureWindow(lines, r.value);
      assert w != [];
      DisclosuresJoin(lines, r.value);
      JoinEndsWithLast(" ", w);
      assert |Join(" ", w)| > 0;
    } else {
      assert Disclosures(lines) == "";
    }
  }

  /** On clean lines the disclosures are the lines of the window that starts
      at the first disclosure line, joined with single spaces, when that line
      is not the last. */
  lemma DisclosuresJoin(lines: seq<string>, d: nat)
    requires AllTrimmedNonEmpty(lines)
    requires d < |lines| - 1 && DisclosureLine(lines[d])
    requires forall k :: 0 <= k < d ==> !DisclosureLine(lines[k])
    ensures Disclosures(lines) == Join(" ", DisclosureWindow(lines, d))
  {
    FirstIndexAt(lines, DisclosureLine, 0, |lines|, d);
    var w := DisclosureWindow(lines, d);
    assert AllTrimmedNonEmpty(w) by {
      assert forall i :: 0 <= i < |w| ==> w[i] == lines[d + i];
    }
    TrimTerminated(w, ' ');
  }
}
