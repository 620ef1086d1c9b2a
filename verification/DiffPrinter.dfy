/**
 * A printer for parsed patches, and the proof that it and the parser undo each other. The printer
 * is the independent definition of the format; the repository has none.
 */
module DiffPrinter {
  import opened Wrappers
  import opened Text
  import opened UnifiedDiff

  function PrintPath(prefix: string, path: Option<string>): string {
    match path
    case None => "/dev/null"
    case Some(p) => prefix + p
  }

  function PrintRange(start: nat, count: nat): string {
    PrintNat(start) + "," + PrintNat(count)
  }

  function PrintHunkHeader(h: TextHunk): string {
    "@@ -" + PrintRange(h.oldStart, h.oldCount) + " +" + PrintRange(h.newStart, h.newCount) + " @@"
  }

  function PrintHunks(hunks: seq<TextHunk>): seq<string> {
    if hunks == [] then []
    else [PrintHunkHeader(hunks[0])] + hunks[0].lines + PrintHunks(hunks[1..])
  }

  function PrintFiles(files: seq<TextFilePatch>): seq<string> {
    if files == [] then []
    else
      ["--- " + PrintPath("a/", files[0].oldPath), "+++ " + PrintPath("b/", files[0].newPath)]
      + PrintHunks(files[0].hunks) + PrintFiles(files[1..])
  }

  function Print(files: seq<TextFilePatch>): string {
    Join(PrintFiles(files)) + "\n"
  }

  // ---- Reading back what was printed ------------------------------------------------------------

  lemma HeaderValueOf(raw: string)
    requires raw != "" && '\t' !in raw && !IsSpace(raw[0]) && !IsSpace(raw[|raw| - 1])
    ensures HeaderValue(raw) == raw
  {
    hide IsSpace;
    assert IndexOf(raw, '\t') == |raw|;
    assert Before(raw, '\t') == raw;
    StripFixed(raw);
  }

  lemma HeaderPathOfPrefixed(prefix: string, path: string)
    requires prefix == "a/" || prefix == "b/"
    requires path != "" && path[0] != '/' && '\0' !in path && ".." !in Split(path, '/')
    requires HeaderValue(prefix + path) == prefix + path
    ensures HeaderPath(prefix + path) == Ok(Some(path))
  {
    hide Split, HeaderValue;
    var raw := prefix + path;
    assert raw[0] != '/' && "/dev/null"[0] == '/';
    assert raw[..2] == prefix && raw[2..] == path;
  }

  lemma ParsePrintedPath(prefix: string, path: Option<string>)
    requires prefix == "a/" || prefix == "b/"
    requires path.Some? ==> PrintablePath(path.value)
    ensures HeaderPath(PrintPath(prefix, path)) == Ok(path)
  {
    assert !IsSpace('/') && !IsSpace('l') && !IsSpace('a') && !IsSpace('b');
    hide Split, IsSpace, BreakFree, HeaderValue;
    if path.Some? {
      var raw := prefix + path.value;
      assert raw[0] == prefix[0] && raw[|raw| - 1] == path.value[|path.value| - 1];
      HeaderValueOf(raw);
      HeaderPathOfPrefixed(prefix, path.value);
    } else {
      HeaderValueOf("/dev/null");
    }
  }

  lemma ParsePrintedRange(start: nat, count: nat, rest: string)
    requires rest != "" && !IsDigit(rest[0])
    ensures ParseRange(PrintRange(start, count) + rest) == Some((start, count, rest))
  {
    var tail := PrintNat(count) + rest;
    var s := PrintNat(start) + ("," + tail);
    assert PrintRange(start, count) + rest == s;
    DigitRunAfter(PrintNat(start), "," + tail);
    assert ("," + tail)[..1] == "," && ("," + tail)[1..] == tail;
    DigitRunAfter(PrintNat(count), rest);
  }

  lemma PrintedRangeBreakFree(start: nat, count: nat)
    ensures BreakFree(PrintRange(start, count))
  {
    hide PrintNat, ParseNat;
    assert !IsLineBreak(',');
    assert forall c: char | IsDigit(c) :: !IsLineBreak(c);
  }

  lemma ParsePrintedHunkHeader(h: TextHunk)
    ensures ParseHunkHeader(PrintHunkHeader(h)) == Some(h.(lines := []))
    ensures StartsWith(PrintHunkHeader(h), "@@ ") && !StartsWith(PrintHunkHeader(h), "--- ")
  {
    hide PrintNat, ParseNat, PrintRange, ParseRange, IsLineBreak;
    var newRange := PrintRange(h.newStart, h.newCount);
    var oldRange := PrintRange(h.oldStart, h.oldCount);
    var tail := " +" + (newRange + " @@");
    var s := "@@ -" + (oldRange + tail);
    assert PrintHunkHeader(h) == s;
    assert s[..4] == "@@ -" && s[4..] == oldRange + tail;
    ParsePrintedRange(h.oldStart, h.oldCount, tail);
    assert tail[..2] == " +" && tail[2..] == newRange + " @@";
    ParsePrintedRange(h.newStart, h.newCount, " @@");
    assert s[..3] == "@@ " && s[..4][0] == '@';
  }

  lemma PrintedHunkHeaderBreakFree(h: TextHunk)
    ensures BreakFree(PrintHunkHeader(h))
  {
    assert !IsLineBreak('@') && !IsLineBreak(' ') && !IsLineBreak('-') && !IsLineBreak('+');
    hide PrintRange, IsLineBreak;
    PrintedRangeBreakFree(h.oldStart, h.oldCount);
    PrintedRangeBreakFree(h.newStart, h.newCount);
  }

  lemma {:induction false} ParsePrintedBody(body: seq<string>, rest: seq<string>)
    requires forall i | 0 <= i < |body| :: IsBodyLine(body[i])
    ensures ParseBody(body + rest, |OldLines(body)|, |NewLines(body)|) == Ok((body, rest))
  {
    if body == [] {
      assert body + rest == rest;
    } else {
      assert body[0] != NO_NEWLINE_MARKER;
      assert (body + rest)[1..] == body[1..] + rest;
      ParsePrintedBody(body[1..], rest);
      assert body == [body[0]] + body[1..];
    }
  }

  lemma ParseHunksStep(line: string, hunk: TextHunk, tail: seq<string>, rest: seq<string>)
    requires StartsWith(line, "@@ ") && !StartsWith(line, "--- ")
    requires ParseHunkHeader(line) == Some(hunk.(lines := []))
    requires ParseBody(tail, hunk.oldCount, hunk.newCount) == Ok((hunk.lines, rest))
    requires ParseHunks(rest).Ok?
    ensures ParseHunks([line] + tail) == Ok(([hunk] + ParseHunks(rest).value.0, ParseHunks(rest).value.1))
  {
    hide ParseHunkHeader, ParseBody, StartsWith;
    assert ([line] + tail)[1..] == tail;
  }

  lemma Regroup<T>(a: seq<T>, b: seq<T>, c: seq<T>, d: seq<T>)
    ensures a + b + c + d == a + (b + (c + d))
  {
  }

  /** The body lines are consumed by count, so lines that look like file headers do no harm. */
  lemma {:induction false} ParsePrintedHunks(hunks: seq<TextHunk>, rest: seq<string>)
    requires forall i | 0 <= i < |hunks| :: WellFormedHunk(hunks[i])
    requires rest != [] ==> StartsWith(rest[0], "--- ")
    ensures ParseHunks(PrintHunks(hunks) + rest) == Ok((hunks, rest))
  {
    hide PrintHunkHeader, ParseHunkHeader, ParseBody, BreakFree, OldLines, NewLines, StartsWith;
    if hunks == [] {
      assert PrintHunks(hunks) + rest == rest;
    } else {
      hide ParseHunks;
      var h := hunks[0];
      var tail := PrintHunks(hunks[1..]) + rest;
      assert WellFormedHunk(h);
      ParsePrintedHunkHeader(h);
      ParsePrintedBody(h.lines, tail);
      ParsePrintedHunks(hunks[1..], rest);
      ParseHunksStep(PrintHunkHeader(h), h, h.lines + tail, tail);
      Regroup([PrintHunkHeader(h)], h.lines, PrintHunks(hunks[1..]), rest);
      assert hunks == [h] + hunks[1..];
    }
  }

  lemma {:induction false} ParsePrintedFiles(files: seq<TextFilePatch>)
    requires forall i | 0 <= i < |files| :: WellFormedFile(files[i])
    ensures ParseFiles(PrintFiles(files)) == Ok(files)
  {
    hide ParseHunks, PrintHunks, HeaderPath, PrintPath, IsLineBreak;
    if files != [] {
      var f := files[0];
      assert WellFormedFile(f);
      var oldLine, newLine := "--- " + PrintPath("a/", f.oldPath), "+++ " + PrintPath("b/", f.newPath);
      var rest := PrintFiles(files[1..]);
      var lines := PrintFiles(files);
      assert lines == [oldLine, newLine] + (PrintHunks(f.hunks) + rest);
      assert lines[2..] == PrintHunks(f.hunks) + rest;
      assert oldLine[..4] == "--- " && oldLine[4..] == PrintPath("a/", f.oldPath);
      assert newLine[..4] == "+++ " && newLine[4..] == PrintPath("b/", f.newPath);
      ParsePrintedPath("a/", f.oldPath);
      ParsePrintedPath("b/", f.newPath);
      if rest != [] {
        var next := "--- " + PrintPath("a/", files[1..][0].oldPath);
        assert rest[0] == next && next[..4] == "--- ";
      }
      ParsePrintedHunks(f.hunks, rest);
      ParsePrintedFiles(files[1..]);
      assert files == [f] + files[1..];
    }
  }

  lemma PrintedPathBreakFree(keyword: string, prefix: string, path: Option<string>)
    requires BreakFree(keyword) && BreakFree(prefix)
    requires path.Some? ==> BreakFree(path.value)
    ensures BreakFree(keyword + PrintPath(prefix, path))
  {
    assert BreakFree("/dev/null");
    hide IsLineBreak;
  }

  lemma {:induction false} PrintedLinesBreakFree(files: seq<TextFilePatch>)
    requires forall i | 0 <= i < |files| :: WellFormedFile(files[i])
    ensures BreakFreeLines(PrintFiles(files))
  {
    if files != [] {
      assert BreakFree("--- ") && BreakFree("+++ ") && BreakFree("a/") && BreakFree("b/");
      var f := files[0];
      assert WellFormedFile(f);
      hide PrintHunks, PrintPath, BreakFree, WellFormedFile, PrintablePath;
      PrintedPathBreakFree("--- ", "a/", f.oldPath);
      PrintedPathBreakFree("+++ ", "b/", f.newPath);
      PrintedHunksBreakFree(f.hunks);
      PrintedLinesBreakFree(files[1..]);
      var header := ["--- " + PrintPath("a/", f.oldPath), "+++ " + PrintPath("b/", f.newPath)];
      BreakFreeConcat(header, PrintHunks(f.hunks));
      BreakFreeConcat(header + PrintHunks(f.hunks), PrintFiles(files[1..]));
    }
  }

  lemma BreakFreeConcat(a: seq<string>, b: seq<string>)
    requires BreakFreeLines(a) && BreakFreeLines(b)
    ensures BreakFreeLines(a + b)
  {
    hide BreakFree;
  }

  lemma {:induction false} PrintedHunksBreakFree(hunks: seq<TextHunk>)
    requires forall i | 0 <= i < |hunks| :: WellFormedHunk(hunks[i])
    ensures BreakFreeLines(PrintHunks(hunks))
  {
    if hunks != [] {
      assert WellFormedHunk(hunks[0]);
      PrintedHunkHeaderBreakFree(hunks[0]);
      PrintedHunksBreakFree(hunks[1..]);
    }
  }

  // ---- What the parser accepts is well formed ---------------------------------------------------

  lemma SubBreakFree(s: string, i: nat, j: nat)
    requires BreakFree(s) && i <= j <= |s|
    ensures BreakFree(s[i..j])
  {
    assert forall k | 0 <= k < j - i :: s[i..j][k] == s[i + k];
  }

  lemma ParsedPathPrintable(raw: string)
    requires BreakFree(raw) && HeaderPath(raw).Ok? && HeaderPath(raw).value.Some?
    ensures PrintablePath(HeaderPath(raw).value.value)
  {
    hide Split, IsSpace, BreakFree, HeaderValue;
    var path := HeaderPath(raw).value.value;
    var value := HeaderValue(raw);
    HeaderPathChecked(raw);
    var skip := HeaderValueWithin(raw);
    hide HeaderPath;
    SubBreakFree(raw, skip, skip + |value|);
    SubBreakFree(value, |value| - |path|, |value|);
    assert path == value[|value| - |path|..|value|];
    assert path[|path| - 1] == value[|value| - 1];
    assert forall k | 0 <= k < |path| :: path[k] == value[|value| - |path| + k];
  }

  lemma HeaderPathChecked(raw: string)
    requires HeaderPath(raw).Ok? && HeaderPath(raw).value.Some?
    ensures var path, value := HeaderPath(raw).value.value, HeaderValue(raw);
            && 0 < |path| <= |value| && path == value[|value| - |path|..]
            && path[0] != '/' && '\0' !in path && ".." !in Split(path, '/')
  {
    hide Split, HeaderValue;
  }

  /** The stripped header text is a tab-free piece of the raw text that ends in no blank. */
  lemma HeaderValueWithin(raw: string) returns (skip: nat)
    ensures var value := HeaderValue(raw);
            && skip + |value| <= |raw| && value == raw[skip..skip + |value|] && '\t' !in value
            && (value != "" ==> !IsSpace(value[|value| - 1]))
  {
    hide IsSpace, StripLeft, StripRight, IndexOf;
    var before := Before(raw, '\t');
    var left := StripLeft(before);
    var value := HeaderValue(raw);
    skip := |before| - |left|;
    assert value == left[..|value|] == before[skip..skip + |value|] == raw[skip..skip + |value|];
    assert forall k | 0 <= k < |value| :: value[k] == before[skip + k];
  }

  lemma {:induction false} ParsedBodyWellFormed(lines: seq<string>, oldLeft: nat, newLeft: nat)
    requires BreakFreeLines(lines) && ParseBody(lines, oldLeft, newLeft).Ok?
    ensures var (body, rest) := ParseBody(lines, oldLeft, newLeft).value;
            && (forall i | 0 <= i < |body| :: IsBodyLine(body[i]) && BreakFree(body[i]))
            && |OldLines(body)| == oldLeft && |NewLines(body)| == newLeft
            && BreakFreeLines(rest)
    decreases |lines|
  {
    if oldLeft != 0 || newLeft != 0 {
      var line := lines[0];
      if line == NO_NEWLINE_MARKER {
        ParsedBodyWellFormed(lines[1..], oldLeft, newLeft);
      } else {
        var oldLeft' := if IsOldLine(line) then oldLeft - 1 else oldLeft;
        var newLeft' := if IsNewLine(line) then newLeft - 1 else newLeft;
        ParsedBodyWellFormed(lines[1..], oldLeft', newLeft');
        var (tail, _) := ParseBody(lines[1..], oldLeft', newLeft').value;
        assert ([line] + tail)[1..] == tail;
      }
    }
  }

  lemma {:induction false} ParsedHunksWellFormed(lines: seq<string>)
    requires BreakFreeLines(lines) && ParseHunks(lines).Ok?
    ensures var (hunks, rest) := ParseHunks(lines).value;
            (forall i | 0 <= i < |hunks| :: WellFormedHunk(hunks[i])) && BreakFreeLines(rest)
    decreases |lines|
  {
    if lines != [] && !StartsWith(lines[0], "--- ") {
      if !StartsWith(lines[0], "@@ ") {
        ParsedHunksWellFormed(lines[1..]);
      } else {
        var header := ParseHunkHeader(lines[0]).value;
        ParsedBodyWellFormed(lines[1..], header.oldCount, header.newCount);
        var (body, rest) := ParseBody(lines[1..], header.oldCount, header.newCount).value;
        assert WellFormedHunk(header.(lines := body));
        ParsedHunksWellFormed(rest);
      }
    }
  }

  lemma {:induction false} ParsedFilesWellFormed(lines: seq<string>)
    requires BreakFreeLines(lines) && ParseFiles(lines).Ok?
    ensures forall i | 0 <= i < |ParseFiles(lines).value| :: WellFormedFile(ParseFiles(lines).value[i])
    decreases |lines|
  {
    hide ParseHunks, HeaderPath, PrintablePath, WellFormedHunk, IsLineBreak;
    if lines != [] {
      if !StartsWith(lines[0], "--- ") {
        ParsedFilesWellFormed(lines[1..]);
      } else {
        var oldRaw, newRaw := lines[0][4..], lines[1][4..];
        SubBreakFree(lines[0], 4, |lines[0]|);
        SubBreakFree(lines[1], 4, |lines[1]|);
        var oldPath, newPath := HeaderPath(oldRaw).value, HeaderPath(newRaw).value;
        if oldPath.Some? { ParsedPathPrintable(oldRaw); }
        if newPath.Some? { ParsedPathPrintable(newRaw); }
        ParsedHunksWellFormed(lines[2..]);
        var (hunks, rest) := ParseHunks(lines[2..]).value;
        assert WellFormedFile(TextFilePatch(oldPath, newPath, hunks));
        ParsedFilesWellFormed(rest);
      }
    }
  }

  // ---- Main results -----------------------------------------------------------------------------

  /** Everything the parser returns is well formed: its hunk counts are its bodies' tallies. */
  lemma ParsedIsWellFormed(diff: string)
    requires Parse(diff).Ok?
    ensures WellFormed(Parse(diff).value)
  {
    ParsedFilesWellFormed(SplitLines(diff));
  }

  /** Parsing what was printed gives the same patches exactly for well-formed lists. */
  lemma ParsePrint(files: seq<TextFilePatch>)
    ensures Parse(Print(files)) == Ok(files) <==> WellFormed(files)
  {
    if WellFormed(files) {
      PrintedLinesBreakFree(files);
      SplitTerminated(PrintFiles(files));
      ParsePrintedFiles(files);
    }
    if Parse(Print(files)) == Ok(files) {
      ParsedIsWellFormed(Print(files));
    }
  }

  /** Printing is a normal form: any accepted diff and its reprint parse to the same patches. */
  lemma PrintNormalizes(diff: string)
    requires Parse(diff).Ok?
    ensures Parse(Print(Parse(diff).value)) == Parse(diff)
  {
    ParsedIsWellFormed(diff);
    ParsePrint(Parse(diff).value);
  }
}
