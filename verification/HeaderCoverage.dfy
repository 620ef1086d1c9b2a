/**
 * Which headers of a diff the policy's scanner sees. The parser of src/agentic_lab/gateway/patch_apply.py
 * reads the lines of `str.splitlines`, which breaks at ten separators; the scanner of
 * src/agentic_lab/policy/patch.py matches its pattern only after line feeds.
 */
module HeaderCoverage {
  import opened Wrappers
  import opened Text
  import opened UnifiedDiff
  import opened PatchPolicy
  import DiffApply
  import DiffPrinter
  import Utf8
  import WorkspacePaths

  // ---- Positions in the text ---------------------------------------------------------------------------

  /** Where line `k` of `splitlines` starts. */
  function LineStart(s: string, k: nat): (o: nat)
    requires k < |SplitLines(s)|
    ensures o + |SplitLines(s)[k]| <= |s|
    decreases k
  {
    if k == 0 then FirstLine(s); 0
    else
      LaterLine(s, k);
      var m := FirstBreak(s) + BreakLength(s, FirstBreak(s));
      m + LineStart(s[m..], k - 1)
  }

  /** `s[o..end]` lies between line breaks or the ends of the text. */
  predicate Stands(s: string, o: nat, end: nat, line: string) {
    o <= end <= |s| && s[o..end] == line && (end < |s| ==> IsLineBreak(s[end])) && (o > 0 ==> IsLineBreak(s[o - 1]))
  }

  lemma {:induction false} LineStands(s: string, k: nat)
    requires k < |SplitLines(s)|
    ensures Stands(s, LineStart(s, k), LineStart(s, k) + |SplitLines(s)[k]|, SplitLines(s)[k])
    decreases k
  {
    hide IsLineBreak, BreakLength, Stands, SplitLines, LineStart;
    if k == 0 {
      FirstStands(s);
    } else {
      LaterLine(s, k);
      StartLater(s, k);
      var m := FirstBreak(s) + BreakLength(s, FirstBreak(s));
      var o, line := LineStart(s[m..], k - 1), SplitLines(s)[k];
      LineStands(s[m..], k - 1);
      StandsLater(s, m, o, o + |line|, line);
    }
  }

  lemma StartLater(s: string, k: nat)
    requires 0 < k < |SplitLines(s)|
    ensures FirstBreak(s) < |s|
    ensures var m := FirstBreak(s) + BreakLength(s, FirstBreak(s));
            k - 1 < |SplitLines(s[m..])| && LineStart(s, k) == m + LineStart(s[m..], k - 1)
  {
    LaterLine(s, k);
    hide SplitLines, FirstBreak, BreakLength;
  }

  lemma FirstStands(s: string)
    requires s != ""
    ensures SplitLines(s) != [] && LineStart(s, 0) == 0 && Stands(s, 0, |SplitLines(s)[0]|, SplitLines(s)[0])
  {
    FirstLine(s);
  }

  lemma StandsLater(s: string, m: nat, o: nat, end: nat, line: string)
    requires 0 < m <= |s| && IsLineBreak(s[m - 1]) && Stands(s[m..], o, end, line)
    ensures Stands(s, m + o, m + end, line)
  {
    hide IsLineBreak;
    var rest := s[m..];
    assert rest[o..end] == s[m + o..m + end];
    assert end < |rest| ==> rest[end] == s[m + end];
    assert o > 0 ==> rest[o - 1] == s[m + o - 1];
  }

  lemma FirstLine(s: string)
    requires s != ""
    ensures SplitLines(s)[0] == s[..FirstBreak(s)]
    ensures FirstBreak(s) < |s| ==> IsLineBreak(s[FirstBreak(s)])
  {
    assert FirstBreak(s) == |s| ==> s[..FirstBreak(s)] == s;
  }

  lemma LaterLine(s: string, k: nat)
    requires 0 < k < |SplitLines(s)|
    ensures FirstBreak(s) < |s|
    ensures var m := FirstBreak(s) + BreakLength(s, FirstBreak(s));
            && m <= |s| && k - 1 < |SplitLines(s[m..])| && SplitLines(s)[k] == SplitLines(s[m..])[k - 1]
            && IsLineBreak(s[m - 1])
  {
    hide IsLineBreak;
    assert IsLineBreak('\n') by { FeedIsBreak(); }
  }

  lemma FeedIsBreak()
    ensures IsLineBreak('\n')
  {
  }

  predicate AtFeed(s: string, o: nat)
    requires o <= |s|
  {
    o == 0 || s[o - 1] == '\n'
  }

  /** What the scanner records at this place: its pattern is anchored at the start and after line feeds. */
  function ScanAt(s: string, o: nat): Option<string>
    requires o <= |s|
  {
    if AtFeed(s, o) then ScannedPath(Before(s[o..], '\n')) else None
  }

  lemma {:induction false} FeedLineWithin(s: string, o: nat)
    requires o <= |s| && AtFeed(s, o)
    ensures Before(s[o..], '\n') in Split(s, '\n')
    decreases |s|
  {
    hide Split, IndexOf;
    SplitEquation(s, '\n');
    var n := IndexOf(s, '\n');
    if o == 0 {
      assert s[0..] == s && s[..n] == Before(s, '\n');
    } else {
      assert forall i | 0 <= i < n :: s[i] == s[..n][i];
      assert s[n + 1..][o - n - 1..] == s[o..];
      FeedLineWithin(s[n + 1..], o - n - 1);
    }
  }

  lemma SplitEquation(s: string, c: char)
    ensures var n := IndexOf(s, c); Split(s, c) == [s[..n]] + if n < |s| then Split(s[n + 1..], c) else []
  {
    assert s[..|s|] == s;
  }

  /** A path recorded at some place is a changed path. */
  lemma ScanAtIsScanned(s: string, o: nat, path: string)
    requires o <= |s| && ScanAt(s, o) == Some(path)
    ensures path in ScannedPaths(Split(s, '\n'))
  {
    hide ScannedPath, Split;
    FeedLineWithin(s, o);
    var lines := Split(s, '\n');
    var k :| 0 <= k < |lines| && lines[k] == Before(s[o..], '\n');
    assert ScannedPath(lines[k]) == Some(path);
  }

  // ---- When a header is seen ----------------------------------------------------------------------------

  predicate Blank(s: string) {
    forall i | 0 <= i < |s| :: IsSpace(s[i])
  }

  /**
   * The header in `s[o..end]` starts the text or follows a line feed, has no blank before or right after its
   * side prefix, and has a tab, or only blanks before the next tab, line feed or end of text.
   */
  predicate Visible(s: string, o: nat, end: nat)
    requires o + 4 <= end <= |s|
  {
    && AtFeed(s, o) && !Misaligned(s[o + 4..end])
    && ('\t' in s[o + 4..end] || Blank(Before(Before(s[end..], '\n'), '\t')))
  }

  lemma IndexPast(a: string, b: string, c: char)
    requires c !in a
    ensures IndexOf(a + b, c) == |a| + IndexOf(b, c)
  {
    var n, m := IndexOf(a + b, c), IndexOf(b, c);
    assert forall i | 0 <= i < |a| :: (a + b)[i] == a[i];
    assert forall i | 0 <= i < m :: (a + b)[|a| + i] == b[i] == b[..m][i];
    assert forall i | 0 <= i < n :: (a + b)[i] == (a + b)[..n][i];
    assert m < |b| ==> (a + b)[|a| + m] == c;
  }

  lemma BeforePast(a: string, b: string, c: char)
    ensures Before(a + b, c) == if c in a then Before(a, c) else a + Before(b, c)
  {
    if c !in a {
      IndexPast(a, b, c);
    } else {
      var n, m := IndexOf(a, c), IndexOf(a + b, c);
      assert a[..|a|] == a;
      assert (a + b)[n] == c && forall i | 0 <= i < n :: (a + b)[i] == a[..n][i];
      assert forall i | 0 <= i < m :: (a + b)[i] == (a + b)[..m][i];
    }
  }

  lemma {:induction false} StripRightBlank(a: string, t: string)
    requires Blank(t)
    ensures StripRight(a + t) == StripRight(a)
    decreases |t|
  {
    hide IsSpace;
    if t == "" {
      assert a + t == a;
    } else {
      assert (a + t)[..|a + t| - 1] == a + t[..|t| - 1];
      StripRightBlank(a, t[..|t| - 1]);
    }
  }

  lemma {:induction false} StripLeftPast(a: string, t: string)
    requires !Blank(a)
    ensures StripLeft(a + t) == StripLeft(a) + t
    decreases |a|
  {
    hide IsSpace;
    assert (a + t)[0] == a[0];
    if IsSpace(a[0]) {
      assert (a + t)[1..] == a[1..] + t;
      StripLeftPast(a[1..], t);
    }
  }

  lemma StripBlankTail(a: string, t: string)
    requires !Blank(a) && Blank(t)
    ensures Strip(a + t) == Strip(a)
  {
    hide Blank, StripLeft, StripRight;
    StripLeftPast(a, t);
    StripRightBlank(StripLeft(a), t);
  }

  /** Stripping keeps what stands between characters that are not blank. */
  lemma StripKeepsInside(a: string, t: string)
    requires !Blank(a) && !Blank(t)
    ensures t[0] in Strip(a + t)
  {
    hide *;
    var j := NotBlank(t);
    StripOfSides(a, t);
    var left := StripLeft(a) + t;
    assert left[|StripLeft(a)| + j] == t[j];
    var stripped := StripRight(left);
    assert stripped[|StripLeft(a)|] == left[|StripLeft(a)|] == t[0];
  }

  lemma StripOfSides(a: string, t: string)
    requires !Blank(a)
    ensures Strip(a + t) == StripRight(StripLeft(a) + t)
  {
    hide Blank, StripLeft, StripRight;
    StripLeftPast(a, t);
  }

  lemma NotBlank(s: string) returns (i: nat)
    requires !Blank(s)
    ensures i < |s| && !IsSpace(s[i])
  {
    i :| 0 <= i < |s| && !IsSpace(s[i]);
  }

  lemma {:induction false} StripOfBlank(a: string)
    requires Blank(a)
    ensures Strip(a) == "" && StripLeft(a) == ""
  {
    if a != "" {
      StripOfBlank(a[1..]);
    }
  }

  lemma PathOfValue(raw: string, path: string)
    requires HeaderPath(raw) == Ok(Some(path))
    ensures var value := HeaderValue(raw); path != "" && path == if HasSidePrefix(value) then value[2..] else value
  {
    hide Split, HeaderValue, HasSidePrefix;
  }

  /** A name the parser takes is not blank, also after its side prefix. */
  lemma NamedHeader(raw: string, path: string)
    requires HeaderPath(raw) == Ok(Some(path)) && '\t' !in raw
    ensures !Blank(raw) && (HasSidePrefix(raw) ==> |raw| > 2) && (HasSidePrefix(raw) ==> !Blank(raw[2..]))
  {
    hide *;
    PathOfValue(raw, path);
    ValueWithoutTab(raw);
    NothingBlank();
    PrefixChars(raw);
    if Blank(raw) {
      StripOfBlank(raw);
      NothingPrefixed();
    }
    assert |raw| == 2 ==> raw[2..] == "";
    if HasSidePrefix(raw) && Blank(raw[2..]) {
      PrefixOnly(raw);
    }
  }

  lemma ValueWithoutTab(raw: string)
    requires '\t' !in raw
    ensures HeaderValue(raw) == Strip(raw)
  {
    hide Strip, IndexOf;
    NoTab(raw);
  }

  lemma NothingPrefixed()
    ensures !HasSidePrefix("")
  {
  }

  lemma NothingBlank()
    ensures Blank("")
  {
  }

  /** The parser's path is a piece of the header. */
  lemma PathWithin(raw: string, path: string)
    requires HeaderPath(raw) == Ok(Some(path))
    ensures forall i | 0 <= i < |path| :: path[i] in raw
  {
    DiffPrinter.HeaderPathChecked(raw);
    var skip := DiffPrinter.HeaderValueWithin(raw);
    var value := HeaderValue(raw);
    hide HeaderPath, HeaderValue;
    forall i | 0 <= i < |path|
      ensures path[i] in raw
    {
      assert path[i] == value[|value| - |path| + i] == raw[skip + |value| - |path| + i];
    }
  }

  lemma PrefixOnly(raw: string)
    requires HasSidePrefix(raw) && Blank(raw[2..])
    ensures HasSidePrefix(Strip(raw)) && Strip(raw)[2..] == ""
  {
    assert !IsSpace('a') && !IsSpace('b') && !IsSpace('/');
    var prefix := raw[..2];
    hide IsSpace, Strip;
    PrefixChars(raw);
    assert prefix[0] == raw[0] && prefix[1] == raw[1] && raw == prefix + raw[2..];
    StripFixed(prefix);
    StripBlankTail(prefix, raw[2..]);
    PrefixChars(prefix);
  }

  lemma PrefixChars(s: string)
    ensures HasSidePrefix(s) <==> |s| >= 2 && s[0] in {'a', 'b'} && s[1] == '/'
  {
    if |s| >= 2 {
      assert s[..2] == [s[0], s[1]];
    }
  }

  /** The scanner on a header line that runs on after the parser's line break. */
  lemma HeaderRunsOn(marker: string, raw: string, tail: string, path: string)
    requires |marker| == 4 && IsHeaderLine(marker + raw + tail) && BreakFree(raw) && (tail != "" ==> IsLineBreak(tail[0]))
    requires HeaderPath(raw) == Ok(Some(path))
    ensures ScannedPath(marker + raw + tail) == Some(path)
       <==> !Misaligned(raw) && ('\t' in raw || Blank(Before(tail, '\t')))
  {
    hide *;
    var line := marker + raw + tail;
    assert line[4..] == raw + tail;
    if '\t' in raw {
      SameBeforeTab(raw, tail);
      HeaderAgreement(line, path);
    } else if Blank(Before(tail, '\t')) {
      BlankTail(raw, tail, path);
      HeaderAgreement(line, path);
    } else {
      TailShows(marker, raw, tail, path);
    }
  }

  lemma PathByValue(a: string, b: string)
    requires Before(a, '\t') == Before(b, '\t')
    ensures HeaderPath(a) == HeaderPath(b) && Misaligned(a) == Misaligned(b)
  {
    hide Split, Strip, IndexOf, Before, HasSidePrefix, IsSpace;
  }

  lemma SameBeforeTab(raw: string, tail: string)
    requires '\t' in raw
    ensures HeaderPath(raw + tail) == HeaderPath(raw) && Misaligned(raw + tail) == Misaligned(raw)
  {
    BeforePast(raw, tail, '\t');
    PathByValue(raw + tail, raw);
  }

  lemma BlankTail(raw: string, tail: string, path: string)
    requires '\t' !in raw && HeaderPath(raw) == Ok(Some(path)) && Blank(Before(tail, '\t')) && (tail != "" ==> IsLineBreak(tail[0]))
    ensures HeaderPath(raw + tail) == HeaderPath(raw) && Misaligned(raw + tail) == Misaligned(raw)
  {
    var t := Before(tail, '\t');
    assert t != "" ==> t[0] == tail[0];
    NoTab(raw);
    BeforePast(raw, tail, '\t');
    assert Before(raw + tail, '\t') == raw + t && Before(raw, '\t') == raw;
    hide HeaderPath, Misaligned, IsLineBreak, Blank, Before;
    NamedHeader(raw, path);
    StripBlankTail(raw, t);
    SameStripped(raw + tail, raw);
    PrefixAfterBreak(raw, t);
    MisalignedTail(raw, tail, t);
  }

  lemma NoTab(raw: string)
    requires '\t' !in raw
    ensures Before(raw, '\t') == raw
  {
    assert raw + "" == raw && Before("", '\t') == "";
    BeforePast(raw, "", '\t');
  }

  lemma SameStripped(a: string, b: string)
    requires Strip(Before(a, '\t')) == Strip(Before(b, '\t'))
    ensures HeaderPath(a) == HeaderPath(b)
  {
    hide Split, Strip, Before, HasSidePrefix;
  }

  lemma PrefixAfterBreak(raw: string, t: string)
    requires !Blank(raw) && (t != "" ==> IsLineBreak(t[0]))
    ensures HasSidePrefix(raw + t) == HasSidePrefix(raw) && raw != ""
  {
    assert !IsLineBreak('/') && !IsLineBreak('a') && !IsLineBreak('b');
    NothingBlank();
    hide IsLineBreak, Blank;
    PrefixStays(raw, t);
  }

  lemma MisalignedTail(raw: string, tail: string, t: string)
    requires raw != "" && Before(raw + tail, '\t') == raw + t && Before(raw, '\t') == raw && Strip(raw + t) == Strip(raw)
    requires HasSidePrefix(raw + t) == HasSidePrefix(raw) && (HasSidePrefix(raw) ==> |raw| > 2)
    ensures Misaligned(raw + tail) == Misaligned(raw)
  {
    hide Before, Strip, HasSidePrefix, IsSpace;
    assert (raw + t)[0] == raw[0] && (|raw| > 2 ==> (raw + t)[2] == raw[2]);
  }

  lemma PrefixStays(raw: string, t: string)
    requires t != "" ==> t[0] !in {'a', 'b', '/'}
    requires raw != ""
    ensures HasSidePrefix(raw + t) == HasSidePrefix(raw)
  {
    PrefixChars(raw);
    PrefixChars(raw + t);
    hide HasSidePrefix;
    assert (raw + t)[0] == raw[0];
    assert |raw| == 1 && t != "" ==> (raw + t)[1] == t[0];
    assert |raw| >= 2 ==> (raw + t)[1] == raw[1];
  }

  /** A tail that is not blank becomes part of the scanned path, with a line break in it. */
  lemma TailShows(marker: string, raw: string, tail: string, path: string)
    requires |marker| == 4 && IsHeaderLine(marker + raw + tail) && BreakFree(raw) && (tail != "" ==> IsLineBreak(tail[0]))
    requires '\t' !in raw && HeaderPath(raw) == Ok(Some(path)) && !Blank(Before(tail, '\t'))
    ensures ScannedPath(marker + raw + tail) != Some(path)
  {
    hide *;
    PrefixChars(raw);
    var line, t := marker + raw + tail, Before(tail, '\t');
    var c := if HasSidePrefix(raw) then raw[2..] else raw;
    assert line[4..] == raw + tail;
    TailStarts(raw, tail);
    NamedHeader(raw, path);
    PathWithin(raw, path);
    CapturedTail(raw, tail);
    StripKeepsInside(c, t);
    assert t[0] !in path;
    ScannedIsCaptured(line);
  }

  lemma TailStarts(raw: string, tail: string)
    requires BreakFree(raw) && (tail != "" ==> IsLineBreak(tail[0])) && !Blank(Before(tail, '\t'))
    ensures var t := Before(tail, '\t'); tail != "" && t != "" && t[0] == tail[0] && t[0] !in raw
  {
    hide IsLineBreak, IndexOf;
  }

  lemma ScannedIsCaptured(line: string)
    ensures ScannedPath(line).Some? ==> |line| >= 4 && ScannedPath(line) == Some(Strip(Captured(line[4..])))
  {
    hide Captured, Strip;
  }

  lemma CapturedTail(raw: string, tail: string)
    requires '\t' !in raw && !Blank(raw) && tail != "" && IsLineBreak(tail[0]) && Before(tail, '\t') != ""
    ensures Captured(raw + tail) == (if HasSidePrefix(raw) then raw[2..] else raw) + Before(tail, '\t')
  {
    PrefixAfterBreak(raw, tail);
    hide IsLineBreak, IndexOf, HasSidePrefix, Blank, Before;
    if HasSidePrefix(raw) {
      PrefixChars(raw);
      assert (raw + tail)[2..] == raw[2..] + tail;
      BeforePast(raw[2..], tail, '\t');
    } else {
      BeforePast(raw, tail, '\t');
    }
  }

  /** The scanner records the path of a header where the header stands if and only if the header is visible. */
  lemma HeaderScanned(s: string, k: nat, path: string)
    requires k < |SplitLines(s)| && IsHeaderLine(SplitLines(s)[k]) && HeaderPath(SplitLines(s)[k][4..]) == Ok(Some(path))
    ensures var o := LineStart(s, k);
            ScanAt(s, o) == Some(path) <==> Visible(s, o, o + |SplitLines(s)[k]|)
  {
    hide *;
    LineStands(s, k);
    LineIsBreakFree(s, k);
    HeaderStanding(s, LineStart(s, k), LineStart(s, k) + |SplitLines(s)[k]|, SplitLines(s)[k], path);
  }

  lemma LineIsBreakFree(s: string, k: nat)
    requires k < |SplitLines(s)|
    ensures BreakFree(SplitLines(s)[k])
  {
  }

  /** The two sides of the comparison, unfolded. */
  lemma StandingFacts(s: string, o: nat, end: nat, line: string)
    requires Stands(s, o, end, line) && IsHeaderLine(line)
    ensures |line| >= 4 && o <= end <= |s| && s[o..end] == line && s[o + 4..end] == line[4..] && (end < |s| ==> IsLineBreak(s[end]))
    ensures ScanAt(s, o) == if AtFeed(s, o) then ScannedPath(Before(s[o..], '\n')) else None
    ensures Visible(s, o, end)
       <==> AtFeed(s, o) && !Misaligned(line[4..]) && ('\t' in line[4..] || Blank(Before(Before(s[end..], '\n'), '\t')))
  {
    hide Misaligned, Before, ScannedPath, Blank, IsLineBreak;
    assert s[o + 4..end] == s[o..end][4..];
  }

  lemma HeaderStanding(s: string, o: nat, end: nat, line: string, path: string)
    requires Stands(s, o, end, line) && BreakFree(line) && IsHeaderLine(line) && HeaderPath(line[4..]) == Ok(Some(path))
    ensures ScanAt(s, o) == Some(path) <==> Visible(s, o, end)
  {
    hide *;
    StandingFacts(s, o, end, line);
    if AtFeed(s, o) {
      var tail := Before(s[end..], '\n');
      FeedLine(s, o, end, line);
      assert line + tail == line[..4] + line[4..] + tail;
      TailBreaks(s, end);
      HeaderKept(line, tail);
      SubBreakFree(line);
      HeaderRunsOn(line[..4], line[4..], tail, path);
    }
  }

  lemma SubBreakFree(line: string)
    requires |line| >= 4 && BreakFree(line)
    ensures BreakFree(line[4..])
  {
  }

  lemma FeedLine(s: string, o: nat, end: nat, line: string)
    requires o <= end <= |s| && s[o..end] == line && BreakFree(line)
    ensures Before(s[o..], '\n') == line + Before(s[end..], '\n')
  {
    assert s[o..] == line + s[end..];
    assert '\n' !in line by { FeedIsBreak(); }
    BeforePast(line, s[end..], '\n');
  }

  lemma TailBreaks(s: string, end: nat)
    requires end <= |s| && (end < |s| ==> IsLineBreak(s[end]))
    ensures var tail := Before(s[end..], '\n'); tail != "" ==> IsLineBreak(tail[0])
  {
    var tail := Before(s[end..], '\n');
    assert tail != "" ==> tail[0] == s[end..][0];
  }

  lemma HeaderKept(line: string, tail: string)
    requires IsHeaderLine(line)
    ensures IsHeaderLine(line + tail)
  {
    assert (line + tail)[..4] == line[..4];
  }

  // ---- The headers the parser consumes ----------------------------------------------------------------------

  /** The parser reads line `k` as a file header. */
  ghost predicate HeaderAt(lines: seq<string>, k: nat)
    decreases |lines|
  {
    if lines == [] then false
    else if !StartsWith(lines[0], "--- ") then k > 0 && HeaderAt(lines[1..], k - 1)
    else if |lines| < 2 || !StartsWith(lines[1], "+++ ") then false
    else if k < 2 then true
    else if ParseHunks(lines[2..]).Err? then false
    else
      var rest := ParseHunks(lines[2..]).value.1;
      k >= |lines| - |rest| && HeaderAt(rest, k - (|lines| - |rest|))
  }

  predicate SuffixOf(rest: seq<string>, lines: seq<string>) {
    |rest| <= |lines| && rest == lines[|lines| - |rest|..]
  }

  lemma SuffixOn(a: seq<string>, b: seq<string>, c: seq<string>)
    requires SuffixOf(a, b) && SuffixOf(b, c)
    ensures SuffixOf(a, c)
  {
  }

  lemma SuffixTail(lines: seq<string>, n: nat)
    requires n <= |lines|
    ensures SuffixOf(lines[n..], lines)
  {
  }

  lemma {:induction false} BodyRest(lines: seq<string>, oldLeft: nat, newLeft: nat)
    requires ParseBody(lines, oldLeft, newLeft).Ok?
    ensures SuffixOf(ParseBody(lines, oldLeft, newLeft).value.1, lines)
    decreases |lines|
  {
    hide SuffixOf, IsBodyLine;
    SuffixTail(lines, 0);
    assert lines[0..] == lines;
    if oldLeft != 0 || newLeft != 0 {
      var line := lines[0];
      SuffixTail(lines, 1);
      if line == NO_NEWLINE_MARKER {
        BodyRest(lines[1..], oldLeft, newLeft);
      } else {
        BodyRest(lines[1..], if IsOldLine(line) then oldLeft - 1 else oldLeft, if IsNewLine(line) then newLeft - 1 else newLeft);
      }
      SuffixOn(ParseBody(lines, oldLeft, newLeft).value.1, lines[1..], lines);
    }
  }

  lemma {:induction false} HunksRest(lines: seq<string>)
    requires ParseHunks(lines).Ok?
    ensures SuffixOf(ParseHunks(lines).value.1, lines)
    decreases |lines|
  {
    hide ParseHunkHeader, ParseBody, StartsWith, SuffixOf;
    SuffixTail(lines, 0);
    assert lines[0..] == lines;
    if lines != [] && !StartsWith(lines[0], "--- ") {
      SuffixTail(lines, 1);
      if !StartsWith(lines[0], "@@ ") {
        HunksRest(lines[1..]);
      } else {
        var header := ParseHunkHeader(lines[0]).value;
        var body := ParseBody(lines[1..], header.oldCount, header.newCount).value.1;
        BodyRest(lines[1..], header.oldCount, header.newCount);
        HunksRest(body);
        SuffixOn(ParseHunks(lines).value.1, body, lines[1..]);
      }
      SuffixOn(ParseHunks(lines).value.1, lines[1..], lines);
    }
  }

  ghost predicate HasHeader(lines: seq<string>, path: Option<string>) {
    exists k | 0 <= k < |lines| && HeaderAt(lines, k) && IsHeaderLine(lines[k]) :: HeaderPath(lines[k][4..]) == Ok(path)
  }

  lemma HeaderLater(lines: seq<string>, rest: seq<string>, path: Option<string>)
    requires |rest| < |lines| && rest == lines[|lines| - |rest|..] && HasHeader(rest, path)
    requires forall k | 0 <= k < |rest| && HeaderAt(rest, k) :: HeaderAt(lines, k + |lines| - |rest|)
    ensures HasHeader(lines, path)
  {
    hide HeaderAt, HeaderPath;
    var k :| 0 <= k < |rest| && HeaderAt(rest, k) && IsHeaderLine(rest[k]) && HeaderPath(rest[k][4..]) == Ok(path);
    assert lines[k + |lines| - |rest|] == rest[k];
  }

  /** Every old and new path of the parse comes from a header the parser consumed. */
  lemma {:induction false} ParsedPathsHaveHeaders(lines: seq<string>)
    requires ParseFiles(lines).Ok?
    ensures forall i | 0 <= i < |ParseFiles(lines).value| ::
              HasHeader(lines, ParseFiles(lines).value[i].oldPath) && HasHeader(lines, ParseFiles(lines).value[i].newPath)
    decreases |lines|
  {
    hide HeaderPath, ParseHunks, CheckFilePatch, HasHeader, HeaderAt;
    if lines != [] {
      if !StartsWith(lines[0], "--- ") {
        ParsedPathsHaveHeaders(lines[1..]);
        LaterHeaders(lines, lines[1..]);
      } else {
        HunksRest(lines[2..]);
        ParsedPathsHaveHeaders(ParseHunks(lines[2..]).value.1);
        OwnHeaders(lines);
        LaterHeaders(lines, ParseHunks(lines[2..]).value.1);
      }
    }
  }

  lemma LaterHeaders(lines: seq<string>, rest: seq<string>)
    requires lines != []
    requires if !StartsWith(lines[0], "--- ") then rest == lines[1..]
             else |lines| >= 2 && StartsWith(lines[1], "+++ ") && ParseHunks(lines[2..]).Ok? && rest == ParseHunks(lines[2..]).value.1
    ensures forall path | HasHeader(rest, path) :: HasHeader(lines, path)
  {
    hide HeaderPath, ParseHunks, HasHeader, StartsWith;
    if |lines| >= 2 && StartsWith(lines[0], "--- ") {
      HunksRest(lines[2..]);
    }
    forall path | HasHeader(rest, path)
      ensures HasHeader(lines, path)
    {
      HeaderLater(lines, rest, path);
    }
  }

  lemma OwnHeaders(lines: seq<string>)
    requires |lines| >= 2 && StartsWith(lines[0], "--- ") && StartsWith(lines[1], "+++ ")
    requires HeaderPath(lines[0][4..]).Ok? && HeaderPath(lines[1][4..]).Ok?
    ensures HasHeader(lines, HeaderPath(lines[0][4..]).value) && HasHeader(lines, HeaderPath(lines[1][4..]).value)
  {
    hide HeaderPath, ParseHunks;
    assert HeaderAt(lines, 0) && HeaderAt(lines, 1);
  }

  // ---- Coverage ------------------------------------------------------------------------------------------

  /** Every header the parser consumes and takes a path from is visible to the scanner. */
  ghost predicate Covered(diff: string) {
    forall k | 0 <= k < |SplitLines(diff)| && HeaderAt(SplitLines(diff), k) && IsHeaderLine(SplitLines(diff)[k])
               && HeaderPath(SplitLines(diff)[k][4..]).Ok? && HeaderPath(SplitLines(diff)[k][4..]).value.Some? ::
      Visible(diff, LineStart(diff, k), LineStart(diff, k) + |SplitLines(diff)[k]|)
  }

  ghost predicate PathOf(patch: TextFilePatch, path: string) {
    patch.oldPath == Some(path) || patch.newPath == Some(path)
  }

  /** The scanner covers the parser: every old or new path of the parse is a changed path. */
  lemma ScannerCoversParser(diff: string, i: nat, path: string)
    requires Covered(diff) && Parse(diff).Ok? && i < |Parse(diff).value| && PathOf(Parse(diff).value[i], path)
    ensures path in ScannedPaths(Split(diff, '\n'))
  {
    hide Parse, ParseFiles, HeaderPath, SplitLines, Split, HeaderAt, Visible, ScannedPath, LineStart;
    var lines := SplitLines(diff);
    ParseIsFiles(diff);
    ParsedPathsHaveHeaders(lines);
    assert HasHeader(lines, Some(path));
    var k :| 0 <= k < |lines| && HeaderAt(lines, k) && IsHeaderLine(lines[k]) && HeaderPath(lines[k][4..]) == Ok(Some(path));
    HeaderScanned(diff, k, path);
    ScanAtIsScanned(diff, LineStart(diff, k), path);
  }

  lemma ParseIsFiles(diff: string)
    requires Parse(diff).Ok?
    ensures ParseFiles(SplitLines(diff)) == Ok(Parse(diff).value)
  {
    hide ParseFiles, SplitLines;
  }

  /** Line breaks that end in a line feed: "\n" and "\r\n". */
  ghost predicate FeedBreaks(s: string) {
    forall i | 0 <= i < |s| && IsLineBreak(s[i]) :: s[i] == '\n' || (s[i] == '\r' && i + 1 < |s| && s[i + 1] == '\n')
  }

  /** In text with such breaks only, a header is visible exactly when it is not misaligned. */
  lemma FeedTextIsVisible(diff: string, k: nat)
    requires FeedBreaks(diff) && k < |SplitLines(diff)| && IsHeaderLine(SplitLines(diff)[k])
    ensures Visible(diff, LineStart(diff, k), LineStart(diff, k) + |SplitLines(diff)[k]|) <==> !Misaligned(SplitLines(diff)[k][4..])
  {
    hide Misaligned, LineStart, SplitLines, FeedBreaks, Blank, Before, IsLineBreak;
    var o, line := LineStart(diff, k), SplitLines(diff)[k];
    LineStands(diff, k);
    LineStartsAfterFeed(diff, k);
    assert diff[o + 4..o + |line|] == line[4..];
    FeedTail(diff, o + |line|);
  }

  lemma FeedTail(s: string, end: nat)
    requires FeedBreaks(s) && end <= |s| && (end < |s| ==> IsLineBreak(s[end]))
    ensures Blank(Before(Before(s[end..], '\n'), '\t'))
  {
    assert IsSpace('\r');
    hide IsSpace, IsLineBreak;
    var rest := s[end..];
    var tail := Before(rest, '\n');
    if end < |s| {
      assert rest[0] == s[end] && (|rest| > 1 ==> rest[1] == s[end + 1]);
      if rest[0] == '\n' {
        assert tail == "";
      } else {
        assert rest == ['\r'] + rest[1..];
        BeforePast(['\r'], rest[1..], '\n');
        assert tail == ['\r'];
      }
    }
    assert forall i | 0 <= i < |Before(tail, '\t')| :: Before(tail, '\t')[i] == tail[i];
  }

  /** A later line starts right after the break before it, and such a break ends in a line feed. */
  lemma {:induction false} LineStartsAfterFeed(s: string, k: nat)
    requires FeedBreaks(s) && k < |SplitLines(s)|
    ensures AtFeed(s, LineStart(s, k))
    decreases k
  {
    hide SplitLines, LineStart;
    FirstOfAll(s);
    if k > 0 {
      LaterLine(s, k);
      StartLater(s, k);
      var n := FirstBreak(s);
      var m := n + BreakLength(s, n);
      assert s[m - 1] == '\n';
      FeedBreaksLater(s, m);
      LineStartsAfterFeed(s[m..], k - 1);
      var o := LineStart(s[m..], k - 1);
      assert o > 0 ==> s[m..][o - 1] == s[m + o - 1];
    }
  }

  lemma FirstOfAll(s: string)
    requires SplitLines(s) != []
    ensures LineStart(s, 0) == 0
  {
  }

  lemma FeedBreaksLater(s: string, m: nat)
    requires FeedBreaks(s) && m <= |s|
    ensures FeedBreaks(s[m..])
  {
    hide IsLineBreak;
    assert forall i | 0 <= i < |s| - m :: s[m..][i] == s[m + i];
  }

  /**
   * After an ALLOW verdict on a covered diff, every path the applier reads, removes or writes matches an
   * allowed pattern, matches no protected one, and is not refused for any other reason.
   */
  lemma AllowCoversApplier(library: Library, policy: Policy, diff: string, originals: map<string, Utf8.Bytes>, i: nat, path: string)
    requires Allows(library, policy, diff) && Covered(diff)
    requires DiffApply.Apply(diff, originals).Ok? && i < |DiffApply.Apply(diff, originals).value|
    requires var item := DiffApply.Apply(diff, originals).value[i];
             item.oldPath == Some(path) || item.newPath == Some(path)
    ensures RefusedPath(library, policy, path).None?
    ensures AnyMatch(library, path, policy.allowedSourcePaths) && !AnyMatch(library, path, policy.protectedPaths)
  {
    AppliedPaths(Parse(diff).value, originals);
    hide Covered, Parse, RefusedPath;
    ScannerCoversParser(diff, i, path);
    AllowedPathMatches(library, policy, path);
  }

  // ---- Headers the two readers take differently ---------------------------------------------------------------

  predicate IsLetter(name: string) {
    |name| == 1 && 'a' <= name[0] <= 'z'
  }

  lemma LetterIsPrintable(name: string)
    requires IsLetter(name)
    ensures PrintablePath(name) && WorkspacePaths.Canonical(name) && WorkspacePaths.PlaceOf(name) == Some(name)
  {
    assert !IsSpace(name[0]) && !IsLineBreak(name[0]) && '/' !in name && '\t' !in name && '\0' !in name;
    WorkspacePaths.SplitOne(name);
    WorkspacePaths.PlacesAreCanonical(name);
    assert forall part | part in Split(name, '/') :: part == name;
    hide IsSpace, Split, WorkspacePaths.PlaceOf;
  }

  lemma MarkedLine(marker: string, raw: string)
    requires marker in {"--- ", "+++ "}
    ensures var line := marker + raw; IsHeaderLine(line) && StartsWith(line, marker) && line[4..] == raw
  {
    assert (marker + raw)[..4] == marker;
  }

  lemma LetterAligned(marker: string, prefix: string, name: string)
    requires marker in {"--- ", "+++ "} && prefix in {"a/", "b/"} && IsLetter(name)
    ensures !Misaligned(prefix + name) && BreakFree(marker + (prefix + name)) && DiffPrinter.PrintPath(prefix, Some(name)) == prefix + name
  {
    var raw := prefix + name;
    assert raw == [prefix[0], prefix[1], name[0]];
    assert !IsSpace(raw[0]) && !IsSpace(raw[2]);
    NoTab(raw);
    hide IsSpace, Before, Strip;
  }

  /** A letter after a side prefix is read alike by both. */
  lemma LetterHeader(marker: string, prefix: string, name: string)
    requires marker in {"--- ", "+++ "} && prefix in {"a/", "b/"} && IsLetter(name)
    ensures var line := marker + (prefix + name);
            && IsHeaderLine(line) && BreakFree(line) && StartsWith(line, marker) && line[4..] == prefix + name
            && HeaderPath(prefix + name) == Ok(Some(name)) && ScannedPath(line) == Some(name)
  {
    hide *;
    MarkedLine(marker, prefix + name);
    LetterAligned(marker, prefix, name);
    LetterIsPrintable(name);
    DiffPrinter.ParsePrintedPath(prefix, Some(name));
    HeaderAgreement(marker + (prefix + name), name);
  }

  lemma SplitBreak(line: string, c: char, rest: string)
    requires BreakFree(line) && c in {'\n', '\U{0C}'}
    ensures SplitLines(line + ([c] + rest)) == [line] + SplitLines(rest)
  {
    var s := line + ([c] + rest);
    FirstBreakAfter(line, [c] + rest);
    assert s[..|line|] == line && s[|line|] == c && s[|line| + 1..] == rest;
  }

  /** A section without hunks. */
  lemma OneSection(oldLine: string, newLine: string, oldPath: string, newPath: string, rest: seq<string>, later: seq<string>)
    requires StartsWith(oldLine, "--- ") && StartsWith(newLine, "+++ ") && oldPath != newPath
    requires HeaderPath(oldLine[4..]) == Ok(Some(oldPath)) && HeaderPath(newLine[4..]) == Ok(Some(newPath))
    requires ParseHunks(rest) == Ok(([], later)) && ParseFiles(later).Ok?
    ensures ParseFiles([oldLine] + ([newLine] + rest)) == Ok([TextFilePatch(Some(oldPath), Some(newPath), [])] + ParseFiles(later).value)
  {
    hide StartsWith, HeaderPath, ParseHunks;
    var lines := [oldLine] + ([newLine] + rest);
    assert lines[2..] == rest;
  }

  lemma NoHunks(lines: seq<string>)
    requires lines == [] || StartsWith(lines[0], "--- ")
    ensures ParseHunks(lines) == Ok(([], lines)) && ParseHunks([""] + lines) == Ok(([], lines))
  {
    assert ([""] + lines)[1..] == lines;
    assert ParseHunks([""] + lines) == ParseHunks(lines);
  }

  lemma ParseOfLines(diff: string, lines: seq<string>, files: seq<TextFilePatch>)
    requires SplitLines(diff) == lines && ParseFiles(lines) == Ok(files) && files != []
    ensures Parse(diff) == Ok(files)
  {
    hide SplitLines, ParseFiles;
  }

  /**
   * Two sections, the second behind form feeds: the parser reads both, the scanner sees the paths of the
   * first only, so the verdict says nothing about the files the second renames.
   */
  lemma UnseenHeadersExample()
    ensures var diff := "--- a/m" + ("\n" + ("+++ b/n" + ("\n" + ("" + ("\U{0C}" + ("--- a/p" + ("\U{0C}" + "+++ b/q")))))));
            && Parse(diff) == Ok([TextFilePatch(Some("m"), Some("n"), []), TextFilePatch(Some("p"), Some("q"), [])])
            && ScannedPaths(Split(diff, '\n')) == {"m", "n"}
  {
    var last := "--- a/p" + ("\U{0C}" + "+++ b/q");
    var middle := "" + ("\U{0C}" + last);
    hide *;
    ExampleHeaders();
    SplitSingle("+++ b/q");
    SplitBreak("--- a/p", '\U{0C}', "+++ b/q");
    SplitBreak("", '\U{0C}', last);
    SplitBreak("+++ b/n", '\n', middle);
    SplitBreak("--- a/m", '\n', "+++ b/n" + ("\n" + middle));
    TwoSections();
    var diff := "--- a/m" + ("\n" + ("+++ b/n" + ("\n" + middle)));
    ParseOfLines(diff, SplitLines(diff), [TextFilePatch(Some("m"), Some("n"), []), TextFilePatch(Some("p"), Some("q"), [])]);
    SectionsScanned(middle);
  }

  lemma ExampleHeaders()
    ensures BreakFree("--- a/m") && StartsWith("--- a/m", "--- ") && HeaderPath("--- a/m"[4..]) == Ok(Some("m")) && ScannedPath("--- a/m") == Some("m")
    ensures BreakFree("+++ b/n") && StartsWith("+++ b/n", "+++ ") && HeaderPath("+++ b/n"[4..]) == Ok(Some("n")) && ScannedPath("+++ b/n") == Some("n")
    ensures BreakFree("--- a/p") && StartsWith("--- a/p", "--- ") && HeaderPath("--- a/p"[4..]) == Ok(Some("p"))
    ensures BreakFree("+++ b/q") && StartsWith("+++ b/q", "+++ ") && HeaderPath("+++ b/q"[4..]) == Ok(Some("q"))
    ensures BreakFree("")
  {
    NoBreaks();
    Letters();
    hide *;
    LetterHeader("--- ", "a/", "m");
    LetterHeader("+++ ", "b/", "n");
    LetterHeader("--- ", "a/", "p");
    LetterHeader("+++ ", "b/", "q");
    assert "--- " + ("a/" + "m") == "--- a/m" && "+++ " + ("b/" + "n") == "+++ b/n";
    assert "--- " + ("a/" + "p") == "--- a/p" && "+++ " + ("b/" + "q") == "+++ b/q";
  }

  lemma NoBreaks()
    ensures BreakFree("")
  {
  }

  lemma Letters()
    ensures IsLetter("m") && IsLetter("n") && IsLetter("p") && IsLetter("q") && IsLetter("x") && IsLetter("y")
  {
  }

  lemma NoFiles()
    ensures ParseFiles([]) == Ok([])
  {
  }

  lemma TwoSections()
    ensures ParseFiles(["--- a/m"] + (["+++ b/n"] + ([""] + (["--- a/p"] + ["+++ b/q"]))))
         == Ok([TextFilePatch(Some("m"), Some("n"), []), TextFilePatch(Some("p"), Some("q"), [])])
  {
    hide *;
    ExampleHeaders();
    var second := ["--- a/p"] + ["+++ b/q"];
    NoHunks([]);
    NoHunks(second);
    NoFiles();
    assert ["+++ b/q"] + [] == ["+++ b/q"];
    OneSection("--- a/p", "+++ b/q", "p", "q", [], []);
    OneSection("--- a/m", "+++ b/n", "m", "n", [""] + second, second);
    var m, p := TextFilePatch(Some("m"), Some("n"), []), TextFilePatch(Some("p"), Some("q"), []);
    assert [p] + [] == [p] && [m] + [p] == [m, p];
  }

  lemma NotScanned(line: string)
    requires line != "" && line[0] == '\U{0C}'
    ensures ScannedPath(line) == None
  {
    hide Captured, Strip;
    assert |line| >= 4 ==> line[..4][0] == line[0];
  }

  lemma SectionsScanned(middle: string)
    requires '\n' !in middle && middle != "" && middle[0] == '\U{0C}'
    ensures ScannedPaths(Split("--- a/m" + ("\n" + ("+++ b/n" + ("\n" + middle))), '\n')) == {"m", "n"}
  {
    hide *;
    ExampleHeaders();
    NotScanned(middle);
    SplitAround("--- a/m", "+++ b/n" + ("\n" + middle));
    SplitAround("+++ b/n", middle);
    SplitWhole(middle);
    ScannedNothing();
    ScanMore([], "--- a/m");
    ScanMore(["--- a/m"], "+++ b/n");
    ScanMore(["--- a/m", "+++ b/n"], middle);
    assert [] + ["--- a/m"] == ["--- a/m"];
    assert ["--- a/m"] + ["+++ b/n"] == ["--- a/m", "+++ b/n"];
    assert ["--- a/m"] + (["+++ b/n"] + [middle]) == ["--- a/m", "+++ b/n"] + [middle];
  }

  lemma ScannedNothing()
    ensures ScannedPaths([]) == {}
  {
  }

  lemma SplitWhole(s: string)
    requires '\n' !in s
    ensures Split(s, '\n') == [s]
  {
    IndexPast(s, "", '\n');
    assert s + "" == s && s[..|s|] == s;
  }

  lemma SplitAround(line: string, rest: string)
    requires '\n' !in line
    ensures Split(line + ("\n" + rest), '\n') == [line] + Split(rest, '\n')
  {
    var s := line + ("\n" + rest);
    IndexPast(line, "\n" + rest, '\n');
    assert s[..|line|] == line && s[|line| + 1..] == rest;
  }

  /** A blank after the side prefix: the parser reads the path with it, the scanner without. */
  lemma MisalignedExample()
    ensures HeaderPath("--- a/ x"[4..]) == Ok(Some(" x")) && ScannedPath("--- a/ x") == Some("x")
  {
    hide *;
    assert "--- a/ x"[4..] == "a/" + " x";
    BlankName();
    WorkspacePaths.SplitOne(" x");
    DiffPrinter.HeaderPathOfPrefixed("a/", " x");
    ScannedBlankName("--- a/ x");
  }

  lemma BlankName()
    ensures HeaderValue("a/" + " x") == "a/" + " x" && Strip(" x") == "x"
  {
    hide *;
    LettersAreNotBlank();
    assert "a/" + " x" == "a/ x";
    DiffPrinter.HeaderValueOf("a/ x");
    StripBlankStart("x");
    assert " " + "x" == " x";
  }

  lemma LettersAreNotBlank()
    ensures !IsSpace('a') && !IsSpace('x') && IsSpace(' ')
  {
  }

  lemma StripBlankStart(s: string)
    requires s != "" && !IsSpace(s[0]) && !IsSpace(s[|s| - 1])
    ensures Strip(" " + s) == s
  {
    hide StripRight;
    BlankDropped(s);
    hide IsSpace, StripLeft;
    assert StripRight(s) == s by { RightKept(s); }
  }

  lemma BlankDropped(s: string)
    requires s != "" && !IsSpace(s[0])
    ensures StripLeft(" " + s) == s
  {
    assert IsSpace(' ') && (" " + s)[1..] == s;
    hide IsSpace;
    assert StripLeft(" " + s) == StripLeft(s);
  }

  lemma RightKept(s: string)
    requires s != "" && !IsSpace(s[|s| - 1])
    ensures StripRight(s) == s
  {
  }

  lemma ScannedBlankName(line: string)
    requires line == "--- a/ x" && Strip(" x") == "x"
    ensures ScannedPath(line) == Some("x")
  {
    hide Strip;
    assert line[..4] == "--- " && line[4..] == "a/ x" && "a/ x"[..2] == "a/" && "a/ x"[2..] == " x";
    NoTab(" x");
  }
}
