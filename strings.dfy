/** The JavaScript string operations the poster pipeline relies on: `trim`,
    the regular-expression class `\s`, ASCII case mapping, `startsWith`,
    `includes` and `join`. */
module Strings {

  /** JavaScript's WhiteSpace and LineTerminator characters: the set that
      both `String.prototype.trim` and the regular-expression class `\s`
      use. */
  predicate IsSpace(c: char) {
    c == ' ' || c == '\t' || c == '\n' || c == '\r' || c == '\U{000B}' || c == '\U{000C}'
    || c == '\U{00A0}' || c == '\U{1680}' || ('\U{2000}' <= c <= '\U{200A}')
    || c == '\U{2028}' || c == '\U{2029}' || c == '\U{202F}' || c == '\U{205F}'
    || c == '\U{3000}' || c == '\U{FEFF}'
  }

  predicate IsUpperAscii(c: char) { 'A' <= c <= 'Z' }
  predicate IsLowerAscii(c: char) { 'a' <= c <= 'z' }
  predicate IsAsciiLetter(c: char) { IsUpperAscii(c) || IsLowerAscii(c) }
  /** The regular-expression class `\d`. */
  predicate IsDigit(c: char) { '0' <= c <= '9' }

  /** Every character is whitespace (`!s.trim()` in JavaScript). */
  predicate Blank(s: string) {
    forall i :: 0 <= i < |s| ==> IsSpace(s[i])
  }

  /** Neither end is whitespace: what `trim` leaves. */
  predicate IsTrimmed(s: string) {
    s == [] || (!IsSpace(s[0]) && !IsSpace(s[|s| - 1]))
  }

  /** Drops leading whitespace: the result is the longest suffix of s that
      does not start with whitespace, and everything dropped is whitespace. */
  function TrimStart(s: string): (r: string)
    ensures |r| <= |s| && r == s[|s| - |r|..]
    ensures forall i :: 0 <= i < |s| - |r| ==> IsSpace(s[i])
    ensures r == [] || !IsSpace(r[0])
  {
    if s != [] && IsSpace(s[0]) then TrimStart(s[1..]) else s
  }

  /** Drops trailing whitespace: the longest prefix of s that does not end
      with whitespace, and everything dropped is whitespace. */
  function TrimEnd(s: string): (r: string)
    ensures |r| <= |s| && r == s[..|r|]
    ensures forall i :: |r| <= i < |s| ==> IsSpace(s[i])
    ensures r == [] || !IsSpace(r[|r| - 1])
  {
    if s != [] && IsSpace(s[|s| - 1]) then TrimEnd(s[..|s| - 1]) else s
  }

  /** `String.prototype.trim`. */
  function Trim(s: string): (r: string)
  {
    TrimEnd(TrimStart(s))
  }

  /** Trimming yields a trimmed string. */
  lemma TrimIsTrimmed(s: string)
    ensures IsTrimmed(Trim(s))
  {
    var t := TrimStart(s);
    var r := TrimEnd(t);
    if r != [] {
      assert r[0] == t[0];
    }
  }

  /** `s.trim()` is empty exactly when s is blank. */
  lemma TrimEmptyIffBlank(s: string)
    ensures Trim(s) == [] <==> Blank(s)
  {
  }

  /** Trimming leaves an already trimmed string unchanged. */
  lemma TrimOfTrimmed(s: string)
    requires IsTrimmed(s)
    ensures Trim(s) == s
  {
    if s != [] {
      assert TrimStart(s) == s;
    }
  }

  /** Positions i up to j of s are all whitespace. */
  predicate SpacesIn(s: string, i: int, j: int) {
    forall k :: i <= k < j && 0 <= k < |s| ==> IsSpace(s[k])
  }

  /** TrimStart stops at the first non-space character. */
  lemma {:induction false} TrimStartAt(s: string, a: nat)
    requires a <= |s| && SpacesIn(s, 0, a) && (a == |s| || !IsSpace(s[a]))
    ensures TrimStart(s) == s[a..]
  {
    if a > 0 {
      TrimStartAt(s[1..], a - 1);
      assert s[1..][a - 1..] == s[a..];
    }
  }

  /** TrimEnd stops after the last non-space character. */
  lemma TrimEndAt(s: string, e: nat)
    requires e <= |s| && SpacesIn(s, e, |s|) && (e == 0 || !IsSpace(s[e - 1]))
    ensures TrimEnd(s) == s[..e]
  {
  }

  /** Trimming a string that is blank outside [a, e) and not blank at
      either end of it leaves exactly that part. */
  lemma TrimAt(line: string, a: nat, e: nat)
    requires a <= e <= |line| && SpacesIn(line, 0, a) && SpacesIn(line, e, |line|)
    requires a < e ==> !IsSpace(line[a]) && !IsSpace(line[e - 1])
    requires a == e ==> a == |line|
    ensures Trim(line) == line[a..e]
  {
    TrimStartAt(line, a);
    TrimEndOfSlice(line, a, e, |line|);
  }

  /** TrimEnd on a slice [a, k) stops after the last non-space before k. */
  lemma TrimEndOfSlice(line: string, a: nat, e: nat, k: nat)
    requires a <= e <= k <= |line| && SpacesIn(line, e, k)
    requires a < e ==> !IsSpace(line[e - 1])
    ensures TrimEnd(line[a..k]) == line[a..e]
  {
    var v := line[a..k];
    assert forall i :: 0 <= i < |v| ==> v[i] == line[a + i];
    TrimEndAt(v, e - a);
    assert v[..e - a] == line[a..e];
  }

  /** A string with a non-blank part is not blank, wherever that part is. */
  lemma NotBlankAppend(a: string, b: string)
    requires !Blank(a) || !Blank(b)
    ensures !Blank(a + b)
  {
    if !Blank(a) {
      var i :| 0 <= i < |a| && !IsSpace(a[i]);
      assert (a + b)[i] == a[i];
    } else {
      var i :| 0 <= i < |b| && !IsSpace(b[i]);
      assert (a + b)[|a| + i] == b[i];
    }
  }

  function LowerChar(c: char): (r: char)
    ensures IsUpperAscii(c) ==> IsLowerAscii(r)
    ensures !IsUpperAscii(c) ==> r == c
  {
    if IsUpperAscii(c) then (c as int + 32) as char else c
  }

  function UpperChar(c: char): (r: char)
    ensures IsLowerAscii(c) ==> IsUpperAscii(r)
    ensures !IsLowerAscii(c) ==> r == c
  {
    if IsLowerAscii(c) then (c as int - 32) as char else c
  }

  /** ASCII lower-casing; the length is preserved. */
  function Lower(s: string): (r: string)
    ensures |r| == |s|
  {
    seq(|s|, i requires 0 <= i < |s| => LowerChar(s[i]))
  }

  /** ASCII upper-casing; the length is preserved. */
  function Upper(s: string): (r: string)
    ensures |r| == |s|
  {
    seq(|s|, i requires 0 <= i < |s| => UpperChar(s[i]))
  }

  predicate StartsWith(s: string, prefix: string) {
    |prefix| <= |s| && s[..|prefix|] == prefix
  }

  predicate EndsWithChar(s: string, c: char) {
    s != [] && s[|s| - 1] == c
  }

  /** `s.includes(w)`: w occurs somewhere in s. */
  predicate Contains(s: string, w: string)
    decreases |s|
  {
    StartsWith(s, w) || (s != [] && Contains(s[1..], w))
  }

  /** A case-insensitive substring test against a lower-case keyword, the
      way a JavaScript `/keyword/i` test behaves on an ASCII keyword. */
  predicate ContainsIgnoringCase(s: string, w: string) {
    Contains(Lower(s), w)
  }

  /** `ls.join(sep)`. */
  function Join(sep: string, ls: seq<string>): string
  {
    if ls == [] then ""
    else if |ls| == 1 then ls[0]
    else Join(sep, ls[..|ls| - 1]) + sep + ls[|ls| - 1]
  }

  /** The string a loop builds with `acc += l + sep` over ls. */
  function Terminated(ls: seq<string>, sep: string): string
  {
    if ls == [] then "" else Terminated(ls[..|ls| - 1], sep) + ls[|ls| - 1] + sep
  }

  /** Lines that are all non-empty and trimmed. */
  predicate AllTrimmedNonEmpty(ls: seq<string>) {
    forall i :: 0 <= i < |ls| ==> ls[i] != [] && IsTrimmed(ls[i])
  }

  /** Joining non-empty trimmed lines gives a trimmed string, empty exactly
      when there are no lines. */
  lemma {:induction false} JoinTrimmed(sep: string, ls: seq<string>)
    requires AllTrimmedNonEmpty(ls)
    ensures IsTrimmed(Join(sep, ls))
    ensures Join(sep, ls) == [] <==> ls == []
    ensures ls != [] ==> |Join(sep, ls)| >= |ls[0]| && Join(sep, ls)[0] == ls[0][0]
  {
    if |ls| > 1 {
      var init := ls[..|ls| - 1];
      JoinTrimmed(sep, init);
      var j := Join(sep, init);
      var last := ls[|ls| - 1];
      assert Join(sep, ls) == j + sep + last;
      assert (j + sep + last)[0] == j[0];
      assert (j + sep + last)[|j + sep + last| - 1] == last[|last| - 1];
    }
  }

  /** A loop that appends `l + sep` for each line and then trims computes
      the join of the lines, provided the separator is one whitespace
      character and the lines are non-empty and trimmed. */
  lemma TrimTerminated(ls: seq<string>, c: char)
    requires IsSpace(c)
    requires AllTrimmedNonEmpty(ls)
    ensures Trim(Terminated(ls, [c])) == Join([c], ls)
  {
    if ls != [] {
      TerminatedIsJoin(ls, [c]);
      JoinTrimmed([c], ls);
      var j := Join([c], ls);
      var t := j + [c];
      assert TrimStart(t) == t by {
        assert t[0] == j[0];
      }
      assert t[..|t| - 1] == j;
      assert TrimEnd(t) == TrimEnd(j);
      TrimOfTrimmed(j);
      assert TrimStart(j) == j by {
        assert j[0] == ls[0][0];
      }
    }
  }

  lemma {:induction false} TerminatedIsJoin(ls: seq<string>, sep: string)
    requires ls != []
    ensures Terminated(ls, sep) == Join(sep, ls) + sep
  {
    if |ls| > 1 {
      TerminatedIsJoin(ls[..|ls| - 1], sep);
    } else {
      assert ls[..0] == [];
    }
  }

  /** Some keyword of ws occurs in s, ignoring ASCII case: a JavaScript
      `/w1|w2|.../i` test over lower-case keywords. */
  predicate ContainsAnyIgnoringCase(s: string, ws: seq<string>) {
    exists k :: 0 <= k < |ws| && ContainsIgnoringCase(s, ws[k])
  }

  /** A join ends with the last element, so it is non-empty when that is. */
  lemma JoinEndsWithLast(sep: string, ls: seq<string>)
    requires ls != []
    ensures |Join(sep, ls)| >= |ls[|ls| - 1]|
  {
  }

  /** Joining one more element at the front. */
  lemma {:induction false} JoinCons(sep: string, a: string, rest: seq<string>)
    requires rest != []
    ensures Join(sep, [a] + rest) == a + sep + Join(sep, rest)
    decreases |rest|
  {
    var l := [a] + rest;
    if |rest| == 1 {
      assert l[..|l| - 1] == [a];
    } else {
      var init := rest[..|rest| - 1];
      assert l[..|l| - 1] == [a] + init;
      JoinCons(sep, a, init);
    }
  }

  /** `s.split(c)`: the pieces between occurrences of c. */
  function SplitOn(s: string, c: char): (r: seq<string>)
    ensures |r| >= 1
    ensures forall i :: 0 <= i < |r| ==> c !in r[i]
    ensures Join([c], r) == s
    decreases |s|
  {
    if c !in s then [s]
    else
      var i := IndexOf(s, c);
      var rest := SplitOn(s[i + 1..], c);
      JoinCons([c], s[..i], rest);
      assert s == s[..i] + [c] + s[i + 1..];
      [s[..i]] + rest
  }

  /** The first position of c in s. */
  function IndexOf(s: string, c: char): (i: nat)
    requires c in s
    ensures i < |s| && s[i] == c && c !in s[..i]
  {
    if s[0] == c then 0 else 1 + IndexOf(s[1..], c)
  }

  /** Splitting gives more than one piece exactly when the separator occurs. */
  lemma SplitCount(s: string, c: char)
    ensures |SplitOn(s, c)| >= 2 <==> c in s
  {
  }

  /** Joining one list after another puts one separator between them. */
  lemma {:induction false} JoinAppend(sep: string, x: seq<string>, y: seq<string>)
    requires x != [] && y != []
    ensures Join(sep, x + y) == Join(sep, x) + sep + Join(sep, y)
    decreases |y|
  {
    var l := x + y;
    if |y| == 1 {
      assert l[..|l| - 1] == x;
    } else {
      var y' := y[..|y| - 1];
      assert l[..|l| - 1] == x + y';
      JoinAppend(sep, x, y');
    }
  }

  /** Splitting undoes joining pieces that do not contain the separator. */
  lemma {:induction false} SplitJoin(r: seq<string>, c: char)
    requires r != []
    requires forall i :: 0 <= i < |r| ==> c !in r[i]
    ensures SplitOn(Join([c], r), c) == r
    decreases |r|
  {
    if |r| > 1 {
      var a := r[0];
      var rest := r[1..];
      assert r == [a] + rest;
      JoinCons([c], a, rest);
      var j := Join([c], rest);
      var s := a + [c] + j;
      assert s[|a|] == c;
      var i := IndexOf(s, c);
      assert s[..i] == a;
      assert s[i + 1..] == j;
      SplitJoin(rest, c);
    }
  }

  /** Splitting at one occurrence of the separator splits the two sides
      apart. */
  lemma SplitAppend(a: string, b: string, c: char)
    ensures SplitOn(a + [c] + b, c) == SplitOn(a, c) + SplitOn(b, c)
  {
    SplitJoinBoth(SplitOn(a, c), SplitOn(b, c), c);
  }

  lemma SplitJoinBoth(x: seq<string>, y: seq<string>, c: char)
    requires x != [] && y != []
    requires forall i :: 0 <= i < |x| ==> c !in x[i]
    requires forall i :: 0 <= i < |y| ==> c !in y[i]
    ensures SplitOn(Join([c], x) + [c] + Join([c], y), c) == x + y
  {
    JoinAppend([c], x, y);
    forall i | 0 <= i < |x + y|
      ensures c !in (x + y)[i]
    {
      if i >= |x| {
        assert (x + y)[i] == y[i - |x|];
      }
    }
    SplitJoin(x + y, c);
  }

  /** A join holds a character only when the separator or a piece does. */
  lemma {:induction false} JoinAvoids(sep: string, ls: seq<string>, c: char)
    requires c !in sep
    requires forall i :: 0 <= i < |ls| ==> c !in ls[i]
    ensures c !in Join(sep, ls)
  {
    if |ls| > 1 {
      JoinAvoids(sep, ls[..|ls| - 1], c);
    }
  }

  /** Trimming adds no character. */
  lemma TrimAvoids(s: string, c: char)
    requires c !in s
    ensures c !in Trim(s)
  {
    var t := TrimStart(s);
    SliceAvoids(s, |s| - |t|, |s|, c);
    var r := TrimEnd(t);
    SliceAvoids(t, 0, |r|, c);
  }

  lemma SliceAvoids(s: string, i: nat, j: nat, c: char)
    requires i <= j <= |s| && c !in s
    ensures c !in s[i..j]
  {
    assert forall k :: 0 <= k < j - i ==> s[i..j][k] == s[i + k];
  }

  /** Appending one more line to the loop's text. */
  lemma TerminatedSnoc(ls: seq<string>, l: string, sep: string)
    ensures Terminated(ls + [l], sep) == Terminated(ls, sep) + l + sep
  {
    assert (ls + [l])[..|ls|] == ls;
  }
}
