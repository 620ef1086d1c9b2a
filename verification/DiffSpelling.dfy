/**
 * What a diff that parses looks like: a relation between lines and patches that knows nothing of the parser.
 * Counts of one may be left out, text may follow the closing `@@`, "no newline" markers may stand inside a
 * body, and lines that start no hunk and no file may stand between hunks and before files.
 */
module DiffSpelling {
  import opened Wrappers
  import opened Text
  import opened UnifiedDiff

  // ---- The spelling of each part ------------------------------------------------------------------------

  predicate SpellsNumber(s: string, n: nat) {
    s != "" && AllDigits(s) && ParseNat(s) == n
  }

  predicate SpellsPair(s: string, i: nat, start: nat, count: nat) {
    i < |s| && s[i] == ',' && SpellsNumber(s[..i], start) && SpellsNumber(s[i + 1..], count)
  }

  /** `start,count`, or `start` alone for a count of one. */
  ghost predicate SpellsRange(s: string, start: nat, count: nat) {
    (count == 1 && SpellsNumber(s, start)) || exists i :: SpellsPair(s, i, start, count)
  }

  /** `@@ -range +range @@`, and then anything. */
  ghost predicate SpellsHunkHeader(line: string, h: TextHunk) {
    exists oldRange, newRange ::
      && SpellsRange(oldRange, h.oldStart, h.oldCount) && SpellsRange(newRange, h.newStart, h.newCount)
      && StartsWith(line, "@@ -" + oldRange + " +" + newRange + " @@")
  }

  /** The lines without the "no newline" markers. */
  function Unmarked(lines: seq<string>): seq<string> {
    if lines == [] then []
    else (if lines[0] == NO_NEWLINE_MARKER then [] else [lines[0]]) + Unmarked(lines[1..])
  }

  /** The body with markers in it, none of them last, and as many lines on each side as the counts say. */
  ghost predicate SpellsBody(lines: seq<string>, body: seq<string>, oldCount: nat, newCount: nat) {
    && Unmarked(lines) == body && (lines != [] ==> lines[|lines| - 1] != NO_NEWLINE_MARKER)
    && (forall i | 0 <= i < |body| :: IsBodyLine(body[i]))
    && |OldLines(body)| == oldCount && |NewLines(body)| == newCount
  }

  ghost predicate SpellsHunk(lines: seq<string>, h: TextHunk) {
    lines != [] && SpellsHunkHeader(lines[0], h) && SpellsBody(lines[1..], h.lines, h.oldCount, h.newCount)
  }

  /** Hunks, and between them lines that look like the start of neither a hunk nor a file. */
  ghost predicate SpellsHunks(lines: seq<string>, hunks: seq<TextHunk>)
    decreases |lines|
  {
    if lines == [] then hunks == []
    else
      || (!StartsWith(lines[0], "--- ") && !StartsWith(lines[0], "@@ ") && SpellsHunks(lines[1..], hunks))
      || (hunks != [] && exists j | 0 < j <= |lines| :: SpellsHunk(lines[..j], hunks[0]) && SpellsHunks(lines[j..], hunks[1..]))
  }

  /** A side prefix and the path, or a path that has no such prefix. */
  ghost predicate SpellsName(name: string, path: Option<string>) {
    match path
    case None => name == "/dev/null"
    case Some(p) =>
      && p != "" && p[0] != '/' && ".." !in Split(p, '/') && '\0' !in p
      && (name == "a/" + p || name == "b/" + p || (name == p && !HasSidePrefix(p)))
  }

  /** The name from `i` to `j`, after blanks other than tabs, and before blanks up to a tab or the end. */
  ghost predicate SpellsPathAt(raw: string, i: nat, j: nat, path: Option<string>) {
    && i < j <= |raw| && SpellsName(raw[i..j], path) && '\t' !in raw[..j]
    && (forall k | 0 <= k < i :: IsSpace(raw[k])) && !IsSpace(raw[i]) && !IsSpace(raw[j - 1])
    && (forall k | j <= k < |raw| && '\t' !in raw[j..k] :: IsSpace(raw[k]))
  }

  ghost predicate SpellsPath(raw: string, path: Option<string>) {
    exists i, j :: SpellsPathAt(raw, i, j, path)
  }

  /** One file: its two headers and its hunks. It has a path, and a hunk or two different paths. */
  ghost predicate SpellsFile(lines: seq<string>, patch: TextFilePatch) {
    && |lines| >= 2 && StartsWith(lines[0], "--- ") && StartsWith(lines[1], "+++ ")
    && SpellsPath(lines[0][4..], patch.oldPath) && SpellsPath(lines[1][4..], patch.newPath)
    && SpellsHunks(lines[2..], patch.hunks)
    && (patch.oldPath.Some? || patch.newPath.Some?) && (patch.hunks != [] || patch.oldPath != patch.newPath)
  }

  /** Files, each up to the next `--- ` line outside its bodies, after lines that start no file. */
  ghost predicate SpellsFiles(lines: seq<string>, files: seq<TextFilePatch>)
    decreases |lines|
  {
    if lines == [] then files == []
    else
      || (!StartsWith(lines[0], "--- ") && SpellsFiles(lines[1..], files))
      || (files != [] && exists j | 0 < j <= |lines| ::
            && SpellsFile(lines[..j], files[0]) && (j < |lines| ==> StartsWith(lines[j], "--- "))
            && SpellsFiles(lines[j..], files[1..]))
  }

  // ---- Numbers and hunk headers ---------------------------------------------------------------------------

  lemma NumberRead(digits: string, rest: string, n: nat)
    requires SpellsNumber(digits, n) && (rest != "" ==> !IsDigit(rest[0]))
    ensures ParseNumber(digits + rest) == Some((n, rest))
  {
    DigitRunAfter(digits, rest);
  }

  lemma NumberSpelled(s: string)
    requires ParseNumber(s).Some?
    ensures var (n, rest) := ParseNumber(s).value;
            && |rest| < |s| && rest == s[|s| - |rest|..] && SpellsNumber(s[..|s| - |rest|], n)
            && (rest != "" ==> !IsDigit(rest[0]))
  {
  }

  lemma RangeRead(range: string, rest: string, start: nat, count: nat)
    requires SpellsRange(range, start, count) && (rest != "" ==> !IsDigit(rest[0]) && rest[0] != ',')
    ensures ParseRange(range + rest) == Some((start, count, rest))
  {
    hide SpellsNumber, IsDigit, ParseNumber;
    assert !IsDigit(',') by { CommaIsNoDigit(); }
    if exists i :: SpellsPair(range, i, start, count) {
      var i: nat :| SpellsPair(range, i, start, count);
      var tail := "," + (range[i + 1..] + rest);
      assert range + rest == range[..i] + tail;
      NumberRead(range[..i], tail, start);
      NumberRead(range[i + 1..], rest, count);
      assert tail[..1] == "," && tail[1..] == range[i + 1..] + rest;
    } else {
      NumberRead(range, rest, start);
      assert rest != "" ==> rest[..1][0] == rest[0];
    }
  }

  lemma CommaIsNoDigit()
    ensures !IsDigit(',') && !IsDigit(' ')
  {
  }

  lemma RangeSpelled(s: string)
    requires ParseRange(s).Some?
    ensures var (start, count, rest) := ParseRange(s).value;
            |rest| < |s| && rest == s[|s| - |rest|..] && SpellsRange(s[..|s| - |rest|], start, count)
  {
    hide SpellsNumber, IsDigit, ParseNumber;
    NumberSpelled(s);
    var (start, rest) := ParseNumber(s).value;
    if StartsWith(rest, ",") {
      NumberSpelled(rest[1..]);
      var (count, rest') := ParseNumber(rest[1..]).value;
      var range, i := s[..|s| - |rest'|], |s| - |rest|;
      assert range[..i] == s[..i] && range[i] == rest[..1][0];
      assert range[i + 1..] == rest[1..][..|rest[1..]| - |rest'|];
      assert SpellsPair(range, i, start, count);
    }
  }

  /** The header pattern matches exactly the lines that spell a hunk header, and reads them. */
  lemma HunkHeaderMeaning(line: string, h: TextHunk)
    ensures ParseHunkHeader(line) == Some(h.(lines := [])) <==> SpellsHunkHeader(line, h)
  {
    hide SpellsRange, ParseRange, IsDigit;
    CommaIsNoDigit();
    if SpellsHunkHeader(line, h) {
      var oldRange, newRange :| SpellsRange(oldRange, h.oldStart, h.oldCount) && SpellsRange(newRange, h.newStart, h.newCount)
                                && StartsWith(line, "@@ -" + oldRange + " +" + newRange + " @@");
      var tail := line[|"@@ -" + oldRange + " +" + newRange + " @@"|..];
      HeaderRead(line, h, oldRange, newRange, tail);
    }
    if ParseHunkHeader(line) == Some(h.(lines := [])) {
      HeaderSpelled(line, h);
    }
  }

  lemma HeaderRead(line: string, h: TextHunk, oldRange: string, newRange: string, tail: string)
    requires SpellsRange(oldRange, h.oldStart, h.oldCount) && SpellsRange(newRange, h.newStart, h.newCount)
    requires line == "@@ -" + oldRange + " +" + newRange + " @@" + tail
    ensures ParseHunkHeader(line) == Some(h.(lines := []))
  {
    hide SpellsRange, ParseRange, IsDigit;
    CommaIsNoDigit();
    var end := " @@" + tail;
    var rest := " +" + (newRange + end);
    assert line[..4] == "@@ -" && line[4..] == oldRange + rest;
    assert rest[..2] == " +" && rest[2..] == newRange + end && end[..3] == " @@";
    RangeRead(oldRange, rest, h.oldStart, h.oldCount);
    RangeRead(newRange, end, h.newStart, h.newCount);
  }

  lemma HeaderSpelled(line: string, h: TextHunk)
    requires ParseHunkHeader(line) == Some(h.(lines := []))
    ensures SpellsHunkHeader(line, h)
  {
    hide SpellsRange, ParseRange, IsDigit;
    RangeSpelled(line[4..]);
    var rest := ParseRange(line[4..]).value.2;
    RangeSpelled(rest[2..]);
    var end := ParseRange(rest[2..]).value.2;
    hide ParseHunkHeader;
    var oldRange, newRange := line[4..][..|line[4..]| - |rest|], rest[2..][..|rest[2..]| - |end|];
    HeaderParts(line, oldRange, rest, newRange, end);
  }

  lemma HeaderParts(line: string, oldRange: string, rest: string, newRange: string, end: string)
    requires StartsWith(line, "@@ -") && line[4..] == oldRange + rest
    requires StartsWith(rest, " +") && rest[2..] == newRange + end && StartsWith(end, " @@")
    ensures StartsWith(line, "@@ -" + oldRange + " +" + newRange + " @@")
  {
    var printed := "@@ -" + oldRange + " +" + newRange + " @@";
    assert line == "@@ -" + line[4..] && rest == " +" + rest[2..] && end == " @@" + end[3..];
    assert line == printed + end[3..];
  }

  /** A missing count is one, on either side, whatever follows the header. */
  lemma OmittedCounts(a: nat, m: nat, b: nat, n: nat, tail: string)
    ensures ParseHunkHeader("@@ -" + PrintNat(a) + " +" + PrintNat(b) + " @@" + tail) == Some(TextHunk(a, 1, b, 1, []))
    ensures ParseHunkHeader("@@ -" + (PrintNat(a) + "," + PrintNat(m)) + " +" + PrintNat(b) + " @@" + tail) == Some(TextHunk(a, m, b, 1, []))
    ensures ParseHunkHeader("@@ -" + PrintNat(a) + " +" + (PrintNat(b) + "," + PrintNat(n)) + " @@" + tail) == Some(TextHunk(a, 1, b, n, []))
    ensures ParseHunkHeader("@@ -" + (PrintNat(a) + "," + PrintNat(m)) + " +" + (PrintNat(b) + "," + PrintNat(n)) + " @@" + tail)
         == Some(TextHunk(a, m, b, n, []))
  {
    hide *;
    BothForms(a, m);
    BothForms(b, n);
    var x, xm, y, yn := PrintNat(a), PrintNat(a) + "," + PrintNat(m), PrintNat(b), PrintNat(b) + "," + PrintNat(n);
    HeaderRead("@@ -" + x + " +" + y + " @@" + tail, TextHunk(a, 1, b, 1, []), x, y, tail);
    HeaderRead("@@ -" + xm + " +" + y + " @@" + tail, TextHunk(a, m, b, 1, []), xm, y, tail);
    HeaderRead("@@ -" + x + " +" + yn + " @@" + tail, TextHunk(a, 1, b, n, []), x, yn, tail);
    HeaderRead("@@ -" + xm + " +" + yn + " @@" + tail, TextHunk(a, m, b, n, []), xm, yn, tail);
  }

  lemma BothForms(start: nat, count: nat)
    ensures SpellsRange(PrintNat(start), start, 1) && SpellsRange(PrintNat(start) + "," + PrintNat(count), start, count)
  {
    hide PrintNat, ParseNat;
    var s, i := PrintNat(start) + "," + PrintNat(count), |PrintNat(start)|;
    assert s[..i] == PrintNat(start) && s[i + 1..] == PrintNat(count);
    assert SpellsPair(s, i, start, count);
  }

  // ---- Bodies and hunks ---------------------------------------------------------------------------------------

  /** Markers cost nothing, and the body ends where both counts are used up. */
  lemma {:induction false} BodyRead(lines: seq<string>, body: seq<string>, oldCount: nat, newCount: nat, rest: seq<string>)
    requires SpellsBody(lines, body, oldCount, newCount)
    ensures ParseBody(lines + rest, oldCount, newCount) == Ok((body, rest))
    decreases |lines|
  {
    if lines == [] {
      assert lines + rest == rest;
    } else {
      var line, tail := lines[0], lines[1..];
      assert (lines + rest)[0] == line && (lines + rest)[1..] == tail + rest;
      assert tail != [] ==> tail[|tail| - 1] == lines[|lines| - 1];
      if line == NO_NEWLINE_MARKER {
        BodyRead(tail, body, oldCount, newCount, rest);
        CountsLeft(lines, body, oldCount, newCount);
      } else {
        assert body == [line] + Unmarked(tail) && body[0] == line && body[1..] == Unmarked(tail);
        BodyRead(tail, body[1..], if IsOldLine(line) then oldCount - 1 else oldCount, if IsNewLine(line) then newCount - 1 else newCount, rest);
      }
    }
  }

  lemma {:induction false} CountsLeft(lines: seq<string>, body: seq<string>, oldCount: nat, newCount: nat)
    requires SpellsBody(lines, body, oldCount, newCount) && lines != []
    ensures oldCount + newCount > 0
    decreases |lines|
  {
    var tail := lines[1..];
    assert tail != [] ==> tail[|tail| - 1] == lines[|lines| - 1];
    if lines[0] == NO_NEWLINE_MARKER {
      CountsLeft(tail, body, oldCount, newCount);
    } else {
      assert body[0] == lines[0];
    }
  }

  lemma {:induction false} BodySpelled(lines: seq<string>, oldCount: nat, newCount: nat)
    requires ParseBody(lines, oldCount, newCount).Ok?
    ensures var (body, rest) := ParseBody(lines, oldCount, newCount).value;
            && rest == lines[|lines| - |rest|..] && SpellsBody(lines[..|lines| - |rest|], body, oldCount, newCount)
            && (oldCount + newCount > 0 ==> |rest| < |lines|)
    decreases |lines|
  {
    if oldCount != 0 || newCount != 0 {
      var line := lines[0];
      var skip := line == NO_NEWLINE_MARKER;
      var oldLeft := if !skip && IsOldLine(line) then oldCount - 1 else oldCount;
      var newLeft := if !skip && IsNewLine(line) then newCount - 1 else newCount;
      BodySpelled(lines[1..], oldLeft, newLeft);
      var (tail, rest) := ParseBody(lines[1..], oldLeft, newLeft).value;
      assert ParseBody(lines, oldCount, newCount) == Ok((if skip then tail else [line] + tail, rest));
      hide ParseBody;
      BodyLineMore(lines, |lines| - |rest|, tail, oldLeft, newLeft);
    } else {
      assert lines[..0] == [];
    }
  }

  lemma BodyLineMore(lines: seq<string>, n: nat, body: seq<string>, oldLeft: nat, newLeft: nat)
    requires 0 < n <= |lines| && SpellsBody(lines[1..][..n - 1], body, oldLeft, newLeft)
    requires if lines[0] == NO_NEWLINE_MARKER then n > 1 else IsBodyLine(lines[0])
    ensures if lines[0] == NO_NEWLINE_MARKER then SpellsBody(lines[..n], body, oldLeft, newLeft)
            else SpellsBody(lines[..n], [lines[0]] + body, oldLeft + (if IsOldLine(lines[0]) then 1 else 0), newLeft + (if IsNewLine(lines[0]) then 1 else 0))
  {
    var mine := lines[..n];
    assert mine[0] == lines[0] && mine[1..] == lines[1..][..n - 1];
    assert n > 1 ==> mine[1..][n - 2] == mine[n - 1];
    assert ([lines[0]] + body)[1..] == body;
  }

  lemma HeaderIsNoFile(line: string, h: TextHunk)
    requires SpellsHunkHeader(line, h)
    ensures StartsWith(line, "@@ ") && !StartsWith(line, "--- ")
  {
    hide SpellsRange;
    assert line[..4] == "@@ -" && line[..3] == line[..4][..3] && line[..4][0] == '@';
  }

  /** Hunks are read as they are spelled, up to the next file. */
  lemma {:induction false} HunksRead(lines: seq<string>, hunks: seq<TextHunk>, rest: seq<string>)
    requires SpellsHunks(lines, hunks) && (rest != [] ==> StartsWith(rest[0], "--- "))
    ensures ParseHunks(lines + rest) == Ok((hunks, rest))
    decreases |lines|
  {
    hide SpellsHunk, ParseHunkHeader, ParseBody, StartsWith;
    if lines == [] {
      assert lines + rest == rest;
    } else if !StartsWith(lines[0], "--- ") && !StartsWith(lines[0], "@@ ") && SpellsHunks(lines[1..], hunks) {
      HunksRead(lines[1..], hunks, rest);
      assert (lines + rest)[1..] == lines[1..] + rest;
    } else {
      var j :| 0 < j <= |lines| && SpellsHunk(lines[..j], hunks[0]) && SpellsHunks(lines[j..], hunks[1..]);
      HunksRead(lines[j..], hunks[1..], rest);
      HunkRead(lines[..j], hunks[0], lines[j..] + rest);
      assert lines + rest == lines[..j] + (lines[j..] + rest);
      assert hunks == [hunks[0]] + hunks[1..];
    }
  }

  lemma HunkRead(lines: seq<string>, h: TextHunk, rest: seq<string>)
    requires SpellsHunk(lines, h) && ParseHunks(rest).Ok?
    ensures ParseHunks(lines + rest) == Ok(([h] + ParseHunks(rest).value.0, ParseHunks(rest).value.1))
  {
    hide SpellsHunkHeader, SpellsBody, ParseHunkHeader, ParseBody, StartsWith;
    HunkHeaderMeaning(lines[0], h);
    HeaderIsNoFile(lines[0], h);
    BodyRead(lines[1..], h.lines, h.oldCount, h.newCount, rest);
    assert (lines + rest)[0] == lines[0] && (lines + rest)[1..] == lines[1..] + rest;
  }

  lemma {:induction false} HunksSpelled(lines: seq<string>)
    requires ParseHunks(lines).Ok?
    ensures var (hunks, rest) := ParseHunks(lines).value;
            && rest == lines[|lines| - |rest|..] && SpellsHunks(lines[..|lines| - |rest|], hunks)
            && (rest != [] ==> StartsWith(rest[0], "--- "))
    decreases |lines|
  {
    hide SpellsHunks, SpellsHunk, ParseHunkHeader, ParseBody, StartsWith;
    if lines == [] || StartsWith(lines[0], "--- ") {
      NoHunksSpelled(lines);
    } else if !StartsWith(lines[0], "@@ ") {
      HunksSpelled(lines[1..]);
      FillerMore(lines, |lines| - |ParseHunks(lines).value.1|, ParseHunks(lines).value.0);
    } else {
      var header := ParseHunkHeader(lines[0]).value;
      var (body, rest) := ParseBody(lines[1..], header.oldCount, header.newCount).value;
      HunksSpelled(rest);
      FirstHunkSpelled(lines, header, body, rest);
      var (hunks, end) := ParseHunks(rest).value;
      assert ParseHunks(lines) == Ok(([header.(lines := body)] + hunks, end));
      hide ParseHunks;
      OneHunkMore(lines, |lines| - |rest|, |lines| - |end|, header.(lines := body), hunks);
      assert end == rest[|rest| - |end|..] == lines[|lines| - |end|..];
    }
  }

  lemma NoHunksSpelled(lines: seq<string>)
    ensures lines[|lines|..] == [] && lines[0..] == lines && SpellsHunks(lines[..0], [])
  {
  }

  lemma FillerMore(lines: seq<string>, n: nat, hunks: seq<TextHunk>)
    requires 0 < n <= |lines| && !StartsWith(lines[0], "--- ") && !StartsWith(lines[0], "@@ ")
    requires SpellsHunks(lines[1..][..n - 1], hunks)
    ensures SpellsHunks(lines[..n], hunks)
  {
    hide SpellsHunk, StartsWith;
    assert lines[..n][0] == lines[0] && lines[..n][1..] == lines[1..][..n - 1];
  }

  lemma OneHunkMore(lines: seq<string>, j: nat, n: nat, h: TextHunk, hunks: seq<TextHunk>)
    requires 0 < j <= n <= |lines| && SpellsHunk(lines[..j], h) && SpellsHunks(lines[j..][..n - j], hunks)
    ensures SpellsHunks(lines[..n], [h] + hunks)
  {
    hide SpellsHunk, StartsWith;
    assert lines[..n][..j] == lines[..j] && lines[..n][j..] == lines[j..][..n - j];
    assert ([h] + hunks)[0] == h && ([h] + hunks)[1..] == hunks;
  }

  lemma FirstHunkSpelled(lines: seq<string>, header: TextHunk, body: seq<string>, rest: seq<string>)
    requires lines != [] && ParseHunkHeader(lines[0]) == Some(header)
    requires ParseBody(lines[1..], header.oldCount, header.newCount) == Ok((body, rest))
    ensures |rest| < |lines| && rest == lines[|lines| - |rest|..] && SpellsHunk(lines[..|lines| - |rest|], header.(lines := body))
  {
    HeaderHasNoLines(lines[0]);
    HunkHeaderMeaning(lines[0], header.(lines := body));
    BodySpelled(lines[1..], header.oldCount, header.newCount);
    hide SpellsHunkHeader, SpellsBody, ParseBody, ParseHunkHeader;
    var n := |lines| - |rest|;
    assert lines[..n][0] == lines[0] && lines[..n][1..] == lines[1..][..n - 1];
    assert rest == lines[1..][n - 1..] == lines[n..];
  }

  lemma HeaderHasNoLines(line: string)
    requires ParseHunkHeader(line).Some?
    ensures ParseHunkHeader(line).value.lines == []
  {
    hide ParseRange;
  }

  // ---- Paths ------------------------------------------------------------------------------------------------

  lemma {:induction false} LeftStripped(s: string, i: nat)
    requires i < |s| && !IsSpace(s[i]) && forall k | 0 <= k < i :: IsSpace(s[k])
    ensures StripLeft(s) == s[i..]
  {
    hide IsSpace;
    if i > 0 {
      LeftStripped(s[1..], i - 1);
    }
  }

  lemma {:induction false} RightStripped(s: string, j: nat)
    requires 0 < j <= |s| && !IsSpace(s[j - 1]) && forall k | j <= k < |s| :: IsSpace(s[k])
    ensures StripRight(s) == s[..j]
    decreases |s|
  {
    hide IsSpace;
    if j < |s| {
      RightStripped(s[..|s| - 1], j);
      assert s[..|s| - 1][..j] == s[..j];
    } else {
      assert s[..j] == s;
    }
  }

  /** Stripping finds what stands between blanks. */
  lemma StripMiddle(s: string, i: nat, j: nat)
    requires i < j <= |s| && !IsSpace(s[i]) && !IsSpace(s[j - 1])
    requires (forall k | 0 <= k < i :: IsSpace(s[k])) && forall k | j <= k < |s| :: IsSpace(s[k])
    ensures Strip(s) == s[i..j]
  {
    hide IsSpace, StripLeft, StripRight;
    LeftStripped(s, i);
    assert forall k | j - i <= k < |s[i..]| :: s[i..][k] == s[i + k];
    RightStripped(s[i..], j - i);
  }

  lemma PathRead(raw: string, i: nat, j: nat, path: Option<string>)
    requires SpellsPathAt(raw, i, j, path)
    ensures HeaderPath(raw) == Ok(path)
  {
    ValueRead(raw, i, j, path);
    hide IsSpace, Split, HeaderValue;
    NameRead(raw[i..j], path);
  }

  lemma ValueRead(raw: string, i: nat, j: nat, path: Option<string>)
    requires SpellsPathAt(raw, i, j, path)
    ensures HeaderValue(raw) == raw[i..j]
  {
    hide IsSpace, SpellsName, IndexOf, Strip;
    NoTabBefore(raw, j);
    var before := raw[..IndexOf(raw, '\t')];
    forall k | j <= k < |before|
      ensures IsSpace(before[k])
    {
      assert raw[j..k] == before[j..k];
    }
    StripMiddle(before, i, j);
    assert before[i..j] == raw[i..j];
  }

  lemma NoTabBefore(raw: string, j: nat)
    requires j <= |raw| && '\t' !in raw[..j]
    ensures j <= IndexOf(raw, '\t')
  {
    var m := IndexOf(raw, '\t');
    assert m < |raw| ==> raw[m] == '\t';
    assert forall k | 0 <= k < j :: raw[k] == raw[..j][k];
  }

  lemma NameRead(name: string, path: Option<string>)
    requires SpellsName(name, path)
    ensures match path
            case None => name == "/dev/null"
            case Some(p) => name != "/dev/null" && p == if HasSidePrefix(name) then name[2..] else name
  {
    if path.Some? {
      assert "/dev/null"[0] == '/';
      assert name == "a/" + path.value ==> name[..2] == "a/" && name[2..] == path.value;
      assert name == "b/" + path.value ==> name[..2] == "b/" && name[2..] == path.value;
    }
  }

  lemma PathSpelled(raw: string)
    requires HeaderPath(raw).Ok?
    ensures SpellsPath(raw, HeaderPath(raw).value)
  {
    var path := HeaderPath(raw).value;
    var i, j := ValuePlace(raw);
    ValueSpells(raw, raw[i..j]);
    hide SpellsName, HeaderPath, HeaderValue, IsSpace;
    assert SpellsPathAt(raw, i, j, path);
  }

  lemma ValueSpells(raw: string, value: string)
    requires HeaderPath(raw).Ok? && value == HeaderValue(raw)
    ensures SpellsName(value, HeaderPath(raw).value)
  {
    hide HeaderValue, Split;
    if HasSidePrefix(value) {
      assert value == value[..2] + value[2..];
    }
  }

  /** Where in the raw header the stripped text stands. */
  lemma ValuePlace(raw: string) returns (i: nat, j: nat)
    requires HeaderPath(raw).Ok?
    ensures i < j <= |raw| && HeaderValue(raw) == raw[i..j] && '\t' !in raw[..j]
    ensures (forall k | 0 <= k < i :: IsSpace(raw[k])) && !IsSpace(raw[i]) && !IsSpace(raw[j - 1])
    ensures forall k | j <= k < |raw| && '\t' !in raw[j..k] :: IsSpace(raw[k])
  {
    NotStrippedAway(raw);
    hide HeaderPath, IsSpace, IndexOf, Strip;
    var m := IndexOf(raw, '\t');
    i, j := StrippedPlace(raw[..m]);
    assert raw[..m][i..j] == raw[i..j] && raw[..j] == raw[..m][..j];
    assert forall k | 0 <= k < m :: raw[..m][k] == raw[k];
    BlankToTab(raw, j, m);
  }

  lemma BlankToTab(raw: string, j: nat, m: nat)
    requires j <= m <= |raw| && (m < |raw| ==> raw[m] == '\t') && forall k | j <= k < m :: IsSpace(raw[k])
    ensures forall k | j <= k < |raw| && '\t' !in raw[j..k] :: IsSpace(raw[k])
  {
    TabIsSpace();
    hide IsSpace;
    forall k | m < k <= |raw|
      ensures '\t' in raw[j..k]
    {
      assert raw[j..k][m - j] == raw[m];
    }
  }

  lemma NotStrippedAway(raw: string)
    requires HeaderPath(raw).Ok?
    ensures HeaderValue(raw) != ""
  {
    hide Split, HeaderValue;
  }

  lemma StrippedPlace(s: string) returns (i: nat, j: nat)
    requires Strip(s) != ""
    ensures i < j <= |s| && Strip(s) == s[i..j] && !IsSpace(s[i]) && !IsSpace(s[j - 1])
    ensures (forall k | 0 <= k < i :: IsSpace(s[k])) && forall k | j <= k < |s| :: IsSpace(s[k])
  {
    hide IsSpace, StripLeft, StripRight;
    var left := StripLeft(s);
    i := |s| - |left|;
    j := i + |StripRight(left)|;
    assert s[i..][..j - i] == s[i..j];
    forall k | j <= k < |s|
      ensures IsSpace(s[k])
    {
      assert left[k - i] == s[k];
    }
  }

  lemma TabIsSpace()
    ensures IsSpace('\t')
  {
  }

  /** A header's path is read exactly as it is spelled. */
  lemma PathMeaning(raw: string, path: Option<string>)
    ensures HeaderPath(raw) == Ok(path) <==> SpellsPath(raw, path)
  {
    hide HeaderPath, SpellsPathAt;
    if HeaderPath(raw) == Ok(path) {
      PathSpelled(raw);
    }
    if SpellsPath(raw, path) {
      var i, j :| SpellsPathAt(raw, i, j, path);
      PathRead(raw, i, j, path);
    }
  }

  // ---- Files ------------------------------------------------------------------------------------------------

  lemma {:induction false} FilesRead(lines: seq<string>, files: seq<TextFilePatch>)
    requires SpellsFiles(lines, files)
    ensures ParseFiles(lines) == Ok(files)
    decreases |lines|
  {
    hide SpellsFile, HeaderPath, ParseHunks, StartsWith, CheckFilePatch;
    if lines == [] {
    } else if !StartsWith(lines[0], "--- ") && SpellsFiles(lines[1..], files) {
      FilesRead(lines[1..], files);
    } else {
      var j :| 0 < j <= |lines| && SpellsFile(lines[..j], files[0]) && (j < |lines| ==> StartsWith(lines[j], "--- ")) && SpellsFiles(lines[j..], files[1..]);
      FilesRead(lines[j..], files[1..]);
      FileRead(lines, j, files[0]);
      assert files == [files[0]] + files[1..];
    }
  }

  lemma FileRead(lines: seq<string>, j: nat, patch: TextFilePatch)
    requires j <= |lines| && SpellsFile(lines[..j], patch) && (j < |lines| ==> StartsWith(lines[j], "--- "))
    requires ParseFiles(lines[j..]).Ok?
    ensures ParseFiles(lines) == Ok([patch] + ParseFiles(lines[j..]).value)
  {
    hide HeaderPath, ParseHunks, SpellsPath, SpellsHunks;
    var mine, rest := lines[..j], lines[j..];
    assert mine[0] == lines[0] && mine[1] == lines[1];
    PathMeaning(lines[0][4..], patch.oldPath);
    PathMeaning(lines[1][4..], patch.newPath);
    hide StartsWith;
    HunksRead(mine[2..], patch.hunks, rest);
    assert lines[2..] == mine[2..] + rest;
  }

  lemma {:induction false} FilesSpelled(lines: seq<string>)
    requires ParseFiles(lines).Ok?
    ensures SpellsFiles(lines, ParseFiles(lines).value)
    decreases |lines|
  {
    hide HeaderPath, ParseHunks, SpellsFile, StartsWith, CheckFilePatch;
    if lines != [] {
      if !StartsWith(lines[0], "--- ") {
        FilesSpelled(lines[1..]);
      } else {
        hide ParseFiles, SpellsFiles;
        var patch := FirstFile(lines);
        var rest := ParseHunks(lines[2..]).value.1;
        FilesSpelled(rest);
        var j := FileEnd(lines, patch);
        OneFileMore(lines, j, patch, ParseFiles(rest).value);
      }
    }
  }

  lemma FileEnd(lines: seq<string>, patch: TextFilePatch) returns (j: nat)
    requires |lines| >= 2 && StartsWith(lines[0], "--- ") && StartsWith(lines[1], "+++ ") && ParseHunks(lines[2..]).Ok?
    requires HeaderPath(lines[0][4..]) == Ok(patch.oldPath) && HeaderPath(lines[1][4..]) == Ok(patch.newPath)
    requires patch.hunks == ParseHunks(lines[2..]).value.0
    requires (patch.oldPath.Some? || patch.newPath.Some?) && (patch.hunks != [] || patch.oldPath != patch.newPath)
    ensures 0 < j <= |lines| && ParseHunks(lines[2..]).value.1 == lines[j..] && SpellsFile(lines[..j], patch)
    ensures j < |lines| ==> StartsWith(lines[j], "--- ")
  {
    hide HeaderPath, ParseHunks, SpellsFile, SpellsHunks;
    HunksSpelled(lines[2..]);
    var rest := ParseHunks(lines[2..]).value.1;
    j := |lines| - |rest|;
    assert lines[2..][..|lines[2..]| - |rest|] == lines[2..j] && rest == lines[j..];
    HeadersSpelled(lines, j, patch);
  }

  lemma OneFileMore(lines: seq<string>, j: nat, patch: TextFilePatch, files: seq<TextFilePatch>)
    requires 0 < j <= |lines| && SpellsFile(lines[..j], patch) && SpellsFiles(lines[j..], files)
    requires j < |lines| ==> StartsWith(lines[j], "--- ")
    ensures SpellsFiles(lines, [patch] + files)
  {
    hide SpellsFile, StartsWith;
    assert ([patch] + files)[0] == patch && ([patch] + files)[1..] == files;
  }

  lemma HeadersSpelled(lines: seq<string>, j: nat, patch: TextFilePatch)
    requires 2 <= j <= |lines| && StartsWith(lines[0], "--- ") && StartsWith(lines[1], "+++ ") && SpellsHunks(lines[2..j], patch.hunks)
    requires HeaderPath(lines[0][4..]) == Ok(patch.oldPath) && HeaderPath(lines[1][4..]) == Ok(patch.newPath)
    requires (patch.oldPath.Some? || patch.newPath.Some?) && (patch.hunks != [] || patch.oldPath != patch.newPath)
    ensures SpellsFile(lines[..j], patch)
  {
    hide HeaderPath, SpellsPath, SpellsHunks;
    PathMeaning(lines[0][4..], patch.oldPath);
    PathMeaning(lines[1][4..], patch.newPath);
    assert lines[..j][2..] == lines[2..j] && lines[..j][0] == lines[0] && lines[..j][1] == lines[1];
  }

  /** The equation of the parser at a file. */
  lemma FirstFile(lines: seq<string>) returns (patch: TextFilePatch)
    requires lines != [] && StartsWith(lines[0], "--- ") && ParseFiles(lines).Ok?
    ensures |lines| >= 2 && StartsWith(lines[1], "+++ ") && ParseHunks(lines[2..]).Ok?
    ensures HeaderPath(lines[0][4..]) == Ok(patch.oldPath) && HeaderPath(lines[1][4..]) == Ok(patch.newPath)
    ensures ParseHunks(lines[2..]).value.0 == patch.hunks && ParseFiles(ParseHunks(lines[2..]).value.1).Ok?
    ensures (patch.oldPath.Some? || patch.newPath.Some?) && (patch.hunks != [] || patch.oldPath != patch.newPath)
    ensures ParseFiles(lines).value == [patch] + ParseFiles(ParseHunks(lines[2..]).value.1).value
  {
    hide HeaderPath, ParseHunks;
    patch := TextFilePatch(HeaderPath(lines[0][4..]).value, HeaderPath(lines[1][4..]).value, ParseHunks(lines[2..]).value.0);
  }

  // ---- Lines ------------------------------------------------------------------------------------------------

  /** One line break: CR and LF together, or another separator, but not the CR before an LF. */
  predicate IsEnd(end: string, rest: string) {
    end == "\r\n" || (|end| == 1 && IsLineBreak(end[0]) && !(end == "\r" && StartsWith(rest, "\n")))
  }

  /** The text is the lines with a line break after each, which the last one may lack if it is not empty. */
  ghost predicate SpellsLines(s: string, lines: seq<string>)
    decreases |lines|
  {
    if lines == [] then s == ""
    else
      BreakFree(lines[0]) &&
      ((lines == [s] && s != "")
       || exists k | |lines[0]| < k <= |s| ::
            lines[0] <= s && IsEnd(s[|lines[0]|..k], s[k..]) && SpellsLines(s[k..], lines[1..]))
  }

  lemma EndLength(s: string, n: nat, k: nat)
    requires n < k <= |s|
    ensures IsEnd(s[n..k], s[k..]) <==> IsLineBreak(s[n]) && k == n + BreakLength(s, n)
  {
    var end, rest := s[n..k], s[k..];
    assert end[0] == s[n] && (|end| > 1 ==> end[1] == s[n + 1]);
    assert k < |s| ==> rest[..1][0] == s[k];
    if k == n + 2 && end[0] == '\r' && end[1] == '\n' {
      assert end == "\r\n";
    }
    if k == n + 1 && end[0] == '\r' {
      assert end == "\r";
      assert StartsWith(rest, "\n") <==> k < |s| && s[k] == '\n';
    }
  }

  lemma {:induction false} LinesSpelled(s: string)
    ensures SpellsLines(s, SplitLines(s))
    decreases |s|
  {
    hide IsLineBreak;
    var n := FirstBreak(s);
    if s == "" {
    } else if n < |s| {
      var m := n + BreakLength(s, n);
      EndLength(s, n, m);
      LinesSpelled(s[m..]);
      var lines := SplitLines(s);
      assert lines == [s[..n]] + SplitLines(s[m..]) && lines[1..] == SplitLines(s[m..]);
      hide SplitLines;
      assert s[|lines[0]|..m] == s[n..m] && lines[0] <= s;
    } else {
      assert s[..n] == s;
    }
  }

  lemma BreakAt(s: string, n: nat)
    requires n < |s| && BreakFree(s[..n]) && IsLineBreak(s[n])
    ensures FirstBreak(s) == n
  {
    hide IsLineBreak, BreakFree, FirstBreak;
    assert s == s[..n] + s[n..];
    FirstBreakAfter(s[..n], s[n..]);
  }

  lemma SplitStep(s: string, n: nat)
    requires n < |s| && BreakFree(s[..n]) && IsLineBreak(s[n])
    ensures SplitLines(s) == [s[..n]] + SplitLines(s[n + BreakLength(s, n)..])
  {
    BreakAt(s, n);
    hide IsLineBreak, BreakFree, FirstBreak, BreakLength;
  }

  lemma {:induction false} LinesRead(s: string, lines: seq<string>)
    requires SpellsLines(s, lines)
    ensures SplitLines(s) == lines
    decreases |lines|
  {
    hide IsLineBreak, SplitLines, BreakFree, IsEnd;
    if lines == [] {
      NoText();
    } else if lines == [s] && s != "" {
      SplitSingle(s);
    } else {
      var k :| |lines[0]| < k <= |s| && lines[0] <= s && IsEnd(s[|lines[0]|..k], s[k..]) && SpellsLines(s[k..], lines[1..]);
      LinesRead(s[k..], lines[1..]);
      FirstRead(s, lines, k);
    }
  }

  lemma NoText()
    ensures SplitLines("") == []
  {
  }

  lemma FirstRead(s: string, lines: seq<string>, k: nat)
    requires lines != [] && |lines[0]| < k <= |s| && lines[0] <= s && BreakFree(lines[0])
    requires IsEnd(s[|lines[0]|..k], s[k..]) && SplitLines(s[k..]) == lines[1..]
    ensures SplitLines(s) == lines
  {
    hide IsLineBreak, SplitLines, BreakFree, IsEnd;
    EndLength(s, |lines[0]|, k);
    assert s[..|lines[0]|] == lines[0];
    SplitStep(s, |lines[0]|);
    assert lines == [lines[0]] + lines[1..];
  }

  /** Splitting gives exactly the lines the text spells. */
  lemma SplitMeaning(s: string, lines: seq<string>)
    ensures SplitLines(s) == lines <==> SpellsLines(s, lines)
  {
    LinesSpelled(s);
    if SpellsLines(s, lines) {
      LinesRead(s, lines);
    }
  }

  // ---- Main result --------------------------------------------------------------------------------------------

  /** A diff parses to a list of patches if and only if the list is not empty and its lines spell it. */
  lemma ParseMeaning(diff: string, files: seq<TextFilePatch>)
    ensures Parse(diff) == Ok(files) <==> files != [] && SpellsFiles(SplitLines(diff), files)
  {
    hide ParseFiles, SpellsFiles, SplitLines;
    if SpellsFiles(SplitLines(diff), files) {
      FilesRead(SplitLines(diff), files);
    }
    if Parse(diff) == Ok(files) {
      FilesSpelled(SplitLines(diff));
    }
  }

  /** A diff is refused as having no files exactly if no line of it looks like the start of one. */
  lemma NoFilesMeaning(diff: string)
    ensures Parse(diff) == Err(NoFiles) <==> forall line | line in SplitLines(diff) :: !StartsWith(line, "--- ")
  {
    hide SplitLines, StartsWith;
    NothingFound(SplitLines(diff));
  }

  lemma {:induction false} NothingFound(lines: seq<string>)
    ensures ParseFiles(lines) == Ok([]) <==> forall line | line in lines :: !StartsWith(line, "--- ")
    ensures ParseFiles(lines) != Err(NoFiles)
    decreases |lines|
  {
    hide HeaderPath, ParseHunks;
    if lines != [] {
      assert lines == [lines[0]] + lines[1..];
      if !StartsWith(lines[0], "--- ") {
        NothingFound(lines[1..]);
      } else if |lines| >= 2 && StartsWith(lines[1], "+++ ") {
        OtherErrors(lines[2..]);
        PathErrors(lines[0][4..]);
        PathErrors(lines[1][4..]);
        if ParseHunks(lines[2..]).Ok? {
          NothingFound(ParseHunks(lines[2..]).value.1);
        }
      }
    }
  }

  lemma PathErrors(raw: string)
    ensures HeaderPath(raw) != Err(NoFiles)
  {
    hide Split, HeaderValue;
  }

  lemma {:induction false} OtherErrors(lines: seq<string>)
    ensures ParseHunks(lines) != Err(NoFiles)
    ensures forall oldCount: nat, newCount: nat :: ParseBody(lines, oldCount, newCount) != Err(NoFiles)
    decreases |lines|
  {
    hide ParseHunkHeader, StartsWith;
    if lines != [] {
      OtherErrors(lines[1..]);
      if ParseHunkHeader(lines[0]).Some? {
        var header := ParseHunkHeader(lines[0]).value;
        var body := ParseBody(lines[1..], header.oldCount, header.newCount);
        if body.Ok? {
          OtherErrors(body.value.1);
        }
      }
    }
  }

  /** A body line stands on the sides its marker says. */
  lemma BodyLineSides(text: string, body: seq<string>)
    ensures OldLines([" " + text] + body) == [text] + OldLines(body) && NewLines([" " + text] + body) == [text] + NewLines(body)
    ensures OldLines(["-" + text] + body) == [text] + OldLines(body) && NewLines(["-" + text] + body) == NewLines(body)
    ensures OldLines(["+" + text] + body) == OldLines(body) && NewLines(["+" + text] + body) == [text] + NewLines(body)
  {
    assert (" " + text)[1..] == ("-" + text)[1..] == ("+" + text)[1..] == text;
    assert ([" " + text] + body)[1..] == (["-" + text] + body)[1..] == (["+" + text] + body)[1..] == body;
  }
}
