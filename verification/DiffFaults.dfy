/**
 * Which error a diff is refused with: the first fault of its lines for the parser, and the first file or hunk
 * that does not fit for the applier. As in `DiffSpelling`, nothing here calls them but the theorems.
 */
module DiffFaults {
  import opened Wrappers
  import opened Text
  import opened Utf8
  import opened UnifiedDiff
  import opened DiffApply
  import opened DiffSpelling
  import DiffPrinter

  // ---- Faults of a body -----------------------------------------------------------------------------------

  /** The body still owes lines when it meets line `k`, which is no body line, one too many on a side, or not there. */
  ghost predicate BodyFaultAt(lines: seq<string>, k: nat, oldCount: nat, newCount: nat, e: DiffError) {
    k <= |lines| &&
    var body := Unmarked(lines[..k]);
    && (forall i | 0 <= i < |body| :: IsBodyLine(body[i]))
    && |OldLines(body)| <= oldCount && |NewLines(body)| <= newCount && |OldLines(body)| + |NewLines(body)| < oldCount + newCount
    && if k == |lines| then e == CountMismatch
       else
         && lines[k] != NO_NEWLINE_MARKER
         && if !IsBodyLine(lines[k]) then e == InvalidHunkLine
            else e == CountMismatch
                 && ((IsOldLine(lines[k]) && |OldLines(body)| == oldCount) || (IsNewLine(lines[k]) && |NewLines(body)| == newCount))
  }

  ghost predicate FaultyBody(lines: seq<string>, oldCount: nat, newCount: nat, e: DiffError) {
    exists k :: BodyFaultAt(lines, k, oldCount, newCount, e)
  }

  lemma {:induction false} BodyFaultFound(lines: seq<string>, oldCount: nat, newCount: nat) returns (k: nat)
    requires ParseBody(lines, oldCount, newCount).Err?
    ensures BodyFaultAt(lines, k, oldCount, newCount, ParseBody(lines, oldCount, newCount).error)
    decreases |lines|
  {
    k := 0;
    if lines != [] {
      var line := lines[0];
      var skip := line == NO_NEWLINE_MARKER;
      if skip || (IsBodyLine(line) && !(IsOldLine(line) && oldCount == 0) && !(IsNewLine(line) && newCount == 0)) {
        var oldLeft := if !skip && IsOldLine(line) then oldCount - 1 else oldCount;
        var newLeft := if !skip && IsNewLine(line) then newCount - 1 else newCount;
        var e := ParseBody(lines, oldCount, newCount).error;
        assert ParseBody(lines[1..], oldLeft, newLeft) == Err(e);
        var n := BodyFaultFound(lines[1..], oldLeft, newLeft);
        hide ParseBody;
        LaterFault(lines, n + 1, oldCount, newCount, e);
        k := n + 1;
      } else {
        assert lines[..0] == [];
      }
    }
  }

  /** A fault behind the first line. */
  lemma LaterFault(lines: seq<string>, k: nat, oldCount: nat, newCount: nat, e: DiffError)
    requires 0 < k <= |lines|
    ensures BodyFaultAt(lines, k, oldCount, newCount, e)
       <==> if lines[0] == NO_NEWLINE_MARKER then BodyFaultAt(lines[1..], k - 1, oldCount, newCount, e)
            else
              && IsBodyLine(lines[0]) && (IsOldLine(lines[0]) ==> oldCount > 0) && (IsNewLine(lines[0]) ==> newCount > 0)
              && BodyFaultAt(lines[1..], k - 1, if IsOldLine(lines[0]) then oldCount - 1 else oldCount, if IsNewLine(lines[0]) then newCount - 1 else newCount, e)
  {
    var mine, rest := lines[..k], lines[1..][..k - 1];
    assert mine[0] == lines[0] && mine[1..] == rest;
    assert k < |lines| ==> lines[1..][k - 1] == lines[k];
    var body, tail := Unmarked(mine), Unmarked(rest);
    if lines[0] != NO_NEWLINE_MARKER {
      BodyHead(lines[0], tail);
      assert body == [lines[0]] + tail;
    } else {
      assert body == [] + tail == tail;
    }
    hide Unmarked, OldLines, NewLines, IsBodyLine, IsOldLine, IsNewLine;
  }

  lemma BodyHead(line: string, tail: seq<string>)
    ensures var body := [line] + tail;
            && |OldLines(body)| == |OldLines(tail)| + (if IsOldLine(line) then 1 else 0)
            && |NewLines(body)| == |NewLines(tail)| + (if IsNewLine(line) then 1 else 0)
            && ((forall i | 0 <= i < |body| :: IsBodyLine(body[i])) <==> IsBodyLine(line) && forall i | 0 <= i < |tail| :: IsBodyLine(tail[i]))
  {
    var body := [line] + tail;
    assert body[0] == line && body[1..] == tail;
    assert forall i | 0 <= i < |tail| :: tail[i] == body[i + 1];
    assert forall i | 0 < i < |body| :: body[i] == tail[i - 1];
  }

  lemma {:induction false} BodyFaultRead(lines: seq<string>, k: nat, oldCount: nat, newCount: nat, e: DiffError)
    requires BodyFaultAt(lines, k, oldCount, newCount, e)
    ensures ParseBody(lines, oldCount, newCount) == Err(e)
    decreases k
  {
    if k > 0 {
      LaterFault(lines, k, oldCount, newCount, e);
      var line := lines[0];
      var skip := line == NO_NEWLINE_MARKER;
      BodyFaultRead(lines[1..], k - 1, if !skip && IsOldLine(line) then oldCount - 1 else oldCount, if !skip && IsNewLine(line) then newCount - 1 else newCount, e);
      Owes(lines, k, oldCount, newCount, e);
      hide BodyFaultAt;
    } else {
      assert lines[..0] == [];
    }
  }

  lemma Owes(lines: seq<string>, k: nat, oldCount: nat, newCount: nat, e: DiffError)
    requires BodyFaultAt(lines, k, oldCount, newCount, e)
    ensures oldCount + newCount > 0
  {
  }

  /** A body is refused with an error exactly if it has the fault. */
  lemma BodyFaults(lines: seq<string>, oldCount: nat, newCount: nat, e: DiffError)
    ensures ParseBody(lines, oldCount, newCount) == Err(e) <==> FaultyBody(lines, oldCount, newCount, e)
  {
    hide ParseBody, BodyFaultAt;
    if ParseBody(lines, oldCount, newCount) == Err(e) {
      var k := BodyFaultFound(lines, oldCount, newCount);
    }
    if FaultyBody(lines, oldCount, newCount, e) {
      var k: nat :| BodyFaultAt(lines, k, oldCount, newCount, e);
      BodyFaultRead(lines, k, oldCount, newCount, e);
    }
  }

  // ---- Faults of hunks ----------------------------------------------------------------------------------------

  ghost predicate IsHunk(lines: seq<string>) {
    exists h :: SpellsHunk(lines, h)
  }

  ghost predicate HasFaultyBody(lines: seq<string>, e: DiffError)
    requires lines != []
  {
    exists h :: SpellsHunkHeader(lines[0], h) && FaultyBody(lines[1..], h.oldCount, h.newCount, e)
  }

  /** After hunks without fault, a line that begins like a header and is none, or a header with a faulty body. */
  ghost predicate FaultyHunks(lines: seq<string>, e: DiffError)
    decreases |lines|
  {
    lines != [] && !StartsWith(lines[0], "--- ") &&
    if !StartsWith(lines[0], "@@ ") then FaultyHunks(lines[1..], e)
    else
      || (e == InvalidHunkHeader && forall h :: !SpellsHunkHeader(lines[0], h))
      || HasFaultyBody(lines, e)
      || exists j | 0 < j <= |lines| :: IsHunk(lines[..j]) && FaultyHunks(lines[j..], e)
  }

  lemma HeaderFault(line: string)
    ensures ParseHunkHeader(line).None? <==> forall h :: !SpellsHunkHeader(line, h)
  {
    hide ParseHunkHeader, SpellsHunkHeader;
    if ParseHunkHeader(line).Some? {
      var h := ParseHunkHeader(line).value;
      HeaderHasNoLines(line);
      HunkHeaderMeaning(line, h);
    }
    forall h | SpellsHunkHeader(line, h)
      ensures ParseHunkHeader(line).Some?
    {
      HunkHeaderMeaning(line, h);
    }
  }

  lemma BodyFaultMeaning(lines: seq<string>, e: DiffError)
    requires lines != []
    ensures HasFaultyBody(lines, e)
       <==> ParseHunkHeader(lines[0]).Some?
            && var h := ParseHunkHeader(lines[0]).value; ParseBody(lines[1..], h.oldCount, h.newCount) == Err(e)
  {
    hide ParseHunkHeader, SpellsHunkHeader, ParseBody, FaultyBody;
    if ParseHunkHeader(lines[0]).Some? {
      var h := ParseHunkHeader(lines[0]).value;
      HeaderHasNoLines(lines[0]);
      HunkHeaderMeaning(lines[0], h);
      BodyFaults(lines[1..], h.oldCount, h.newCount, e);
    }
    forall h | SpellsHunkHeader(lines[0], h)
      ensures ParseHunkHeader(lines[0]) == Some(h.(lines := []))
    {
      HunkHeaderMeaning(lines[0], h);
    }
  }

  /** After a hunk, what follows it decides the error. */
  lemma FaultBehindHunk(lines: seq<string>, h: TextHunk, rest: seq<string>)
    requires SpellsHunk(lines, h) && ParseHunks(rest).Err?
    ensures ParseHunks(lines + rest) == Err(ParseHunks(rest).error)
  {
    hide SpellsHunkHeader, SpellsBody, ParseHunkHeader, ParseBody, StartsWith;
    HunkHeaderMeaning(lines[0], h);
    HeaderIsNoFile(lines[0], h);
    BodyRead(lines[1..], h.lines, h.oldCount, h.newCount, rest);
    assert (lines + rest)[0] == lines[0] && (lines + rest)[1..] == lines[1..] + rest;
  }

  lemma {:induction false} HunksFaultFound(lines: seq<string>)
    requires ParseHunks(lines).Err?
    ensures FaultyHunks(lines, ParseHunks(lines).error)
    decreases |lines|
  {
    hide ParseHunkHeader, ParseBody, StartsWith, HasFaultyBody, SpellsHunkHeader, SpellsHunk;
    var e := ParseHunks(lines).error;
    if !StartsWith(lines[0], "@@ ") {
      HunksFaultFound(lines[1..]);
    } else {
      HeaderFault(lines[0]);
      BodyFaultMeaning(lines, e);
      if ParseHunkHeader(lines[0]).Some? {
        var header := ParseHunkHeader(lines[0]).value;
        if ParseBody(lines[1..], header.oldCount, header.newCount).Ok? {
          var (body, rest) := ParseBody(lines[1..], header.oldCount, header.newCount).value;
          assert ParseHunks(rest) == Err(e);
          FirstHunkSpelled(lines, header, body, rest);
          HunksFaultFound(rest);
          assert rest == lines[|lines| - |rest|..] && IsHunk(lines[..|lines| - |rest|]);
        }
      }
    }
  }

  lemma {:induction false} HunksFaultRead(lines: seq<string>, e: DiffError)
    requires FaultyHunks(lines, e)
    ensures ParseHunks(lines) == Err(e)
    decreases |lines|
  {
    hide ParseHunkHeader, ParseBody, StartsWith, HasFaultyBody, SpellsHunkHeader, SpellsHunk;
    if !StartsWith(lines[0], "@@ ") {
      HunksFaultRead(lines[1..], e);
    } else if e == InvalidHunkHeader && forall h :: !SpellsHunkHeader(lines[0], h) {
      HeaderFault(lines[0]);
    } else if HasFaultyBody(lines, e) {
      BodyFaultMeaning(lines, e);
    } else {
      var j :| 0 < j <= |lines| && IsHunk(lines[..j]) && FaultyHunks(lines[j..], e);
      var h :| SpellsHunk(lines[..j], h);
      HunksFaultRead(lines[j..], e);
      FaultBehindHunk(lines[..j], h, lines[j..]);
      assert lines[..j] + lines[j..] == lines;
    }
  }

  /** Hunks are refused with an error exactly if they have the fault. */
  lemma HunkFaults(lines: seq<string>, e: DiffError)
    ensures ParseHunks(lines) == Err(e) <==> FaultyHunks(lines, e)
  {
    hide ParseHunks, FaultyHunks;
    if ParseHunks(lines) == Err(e) {
      HunksFaultFound(lines);
    }
    if FaultyHunks(lines, e) {
      HunksFaultRead(lines, e);
    }
  }

  // ---- Faults of files ------------------------------------------------------------------------------------------

  ghost predicate HasPath(raw: string) {
    exists path :: SpellsPath(raw, path)
  }

  ghost predicate IsFile(lines: seq<string>) {
    exists patch :: SpellsFile(lines, patch)
  }

  /** Headers and hunks that are well spelled, but of no file, or of one that nothing happens to. */
  ghost predicate IsNoChange(lines: seq<string>, patch: TextFilePatch, e: DiffError) {
    && |lines| >= 2 && |lines[0]| >= 4 && |lines[1]| >= 4
    && SpellsPath(lines[0][4..], patch.oldPath) && SpellsPath(lines[1][4..], patch.newPath) && SpellsHunks(lines[2..], patch.hunks)
    && if patch.oldPath.None? && patch.newPath.None? then e == DevNullOnly
       else patch.hunks == [] && patch.oldPath == patch.newPath && e == NoHunks
  }

  ghost predicate HasNoChange(lines: seq<string>, e: DiffError) {
    exists patch :: IsNoChange(lines, patch, e)
  }

  predicate EndsFile(lines: seq<string>, j: nat) {
    j == |lines| || (j < |lines| && StartsWith(lines[j], "--- "))
  }

  /** After files without fault, a file that lacks its new header, has an unsafe path or a faulty hunk, or changes nothing. */
  ghost predicate FaultyFiles(lines: seq<string>, e: DiffError)
    decreases |lines|
  {
    lines != [] &&
    if !StartsWith(lines[0], "--- ") then FaultyFiles(lines[1..], e)
    else if |lines| < 2 || !StartsWith(lines[1], "+++ ") then e == MissingNewFileHeader
    else if !HasPath(lines[0][4..]) || !HasPath(lines[1][4..]) then e == UnsafePath
    else
      || FaultyHunks(lines[2..], e)
      || exists j | 0 < j <= |lines| :: EndsFile(lines, j) && (HasNoChange(lines[..j], e) || (IsFile(lines[..j]) && FaultyFiles(lines[j..], e)))
  }

  lemma HasPathMeaning(raw: string)
    ensures HasPath(raw) <==> HeaderPath(raw).Ok?
    ensures HeaderPath(raw).Err? ==> HeaderPath(raw) == Err(UnsafePath)
  {
    OnlyUnsafe(raw);
    hide SpellsPath, HeaderPath;
    if HeaderPath(raw).Ok? {
      PathMeaning(raw, HeaderPath(raw).value);
    }
    forall path | SpellsPath(raw, path)
      ensures HeaderPath(raw).Ok?
    {
      PathMeaning(raw, path);
    }
  }

  lemma OnlyUnsafe(raw: string)
    ensures HeaderPath(raw).Err? ==> HeaderPath(raw) == Err(UnsafePath)
  {
    hide Split, HeaderValue;
  }

  /** The hunks of the first file. */
  lemma FirstFilesHunks(lines: seq<string>, j: nat, hunks: seq<TextHunk>)
    requires 2 <= j <= |lines| && EndsFile(lines, j) && SpellsHunks(lines[..j][2..], hunks)
    ensures ParseHunks(lines[2..]) == Ok((hunks, lines[j..]))
  {
    hide StartsWith, SpellsHunks, ParseHunks;
    HunksRead(lines[..j][2..], hunks, lines[j..]);
    assert lines[2..] == lines[..j][2..] + lines[j..];
  }

  lemma NoChangeRead(lines: seq<string>, j: nat, e: DiffError)
    requires |lines| >= 2 && StartsWith(lines[0], "--- ") && StartsWith(lines[1], "+++ ") && 0 < j <= |lines| && EndsFile(lines, j)
    requires HasNoChange(lines[..j], e)
    ensures ParseFiles(lines) == Err(e)
  {
    hide SpellsPath, SpellsHunks, HeaderPath, ParseHunks, ParseFiles;
    var patch :| IsNoChange(lines[..j], patch, e);
    assert lines[..j][0] == lines[0] && lines[..j][1] == lines[1];
    PathMeaning(lines[0][4..], patch.oldPath);
    PathMeaning(lines[1][4..], patch.newPath);
    FirstFilesHunks(lines, j, patch.hunks);
    RefusedAtEnd(lines, patch, lines[j..], e);
  }

  /** The equation of the parser at a file that is no change. */
  lemma RefusedAtEnd(lines: seq<string>, patch: TextFilePatch, rest: seq<string>, e: DiffError)
    requires |lines| >= 2 && StartsWith(lines[0], "--- ") && StartsWith(lines[1], "+++ ")
    requires HeaderPath(lines[0][4..]) == Ok(patch.oldPath) && HeaderPath(lines[1][4..]) == Ok(patch.newPath)
    requires ParseHunks(lines[2..]) == Ok((patch.hunks, rest)) && CheckFilePatch(patch) == Some(e)
    ensures ParseFiles(lines) == Err(e)
  {
    hide HeaderPath, ParseHunks;
  }

  lemma FaultBehindFile(lines: seq<string>, j: nat, e: DiffError)
    requires 0 < j <= |lines| && EndsFile(lines, j) && IsFile(lines[..j]) && ParseFiles(lines[j..]) == Err(e)
    ensures ParseFiles(lines) == Err(e)
  {
    var patch :| SpellsFile(lines[..j], patch);
    assert lines[..j][0] == lines[0] && lines[..j][1] == lines[1];
    hide SpellsPath, SpellsHunks, HeaderPath, ParseHunks;
    PathMeaning(lines[0][4..], patch.oldPath);
    PathMeaning(lines[1][4..], patch.newPath);
    FirstFilesHunks(lines, j, patch.hunks);
  }

  lemma {:induction false} FilesFaultRead(lines: seq<string>, e: DiffError)
    requires FaultyFiles(lines, e)
    ensures ParseFiles(lines) == Err(e)
    decreases |lines|
  {
    hide HeaderPath, ParseHunks, FaultyHunks, HasNoChange, IsFile, HasPath;
    if !StartsWith(lines[0], "--- ") {
      FilesFaultRead(lines[1..], e);
    } else if |lines| >= 2 && StartsWith(lines[1], "+++ ") {
      HasPathMeaning(lines[0][4..]);
      HasPathMeaning(lines[1][4..]);
      if HasPath(lines[0][4..]) && HasPath(lines[1][4..]) {
        HunkFaults(lines[2..], e);
        if !FaultyHunks(lines[2..], e) {
          var j :| 0 < j <= |lines| && EndsFile(lines, j) && (HasNoChange(lines[..j], e) || (IsFile(lines[..j]) && FaultyFiles(lines[j..], e)));
          if HasNoChange(lines[..j], e) {
            NoChangeRead(lines, j, e);
          } else {
            FilesFaultRead(lines[j..], e);
            FaultBehindFile(lines, j, e);
          }
        }
      }
    }
  }

  lemma {:induction false} FilesFaultFound(lines: seq<string>)
    requires ParseFiles(lines).Err?
    ensures FaultyFiles(lines, ParseFiles(lines).error)
    decreases |lines|
  {
    hide HeaderPath, ParseHunks, FaultyHunks, HasNoChange, IsFile, HasPath;
    var e := ParseFiles(lines).error;
    if !StartsWith(lines[0], "--- ") {
      FilesFaultFound(lines[1..]);
    } else if |lines| >= 2 && StartsWith(lines[1], "+++ ") {
      HasPathMeaning(lines[0][4..]);
      HasPathMeaning(lines[1][4..]);
      if HeaderPath(lines[0][4..]).Ok? && HeaderPath(lines[1][4..]).Ok? {
        HunkFaults(lines[2..], e);
        if ParseHunks(lines[2..]).Ok? {
          var rest := ParseHunks(lines[2..]).value.1;
          var j := FaultAtEnd(lines);
          if ParseFiles(rest).Err? {
            FilesFaultFound(rest);
          }
        }
      }
    }
  }

  /** A file that parses up to its end is no change, or the fault is behind it. */
  lemma FaultAtEnd(lines: seq<string>) returns (j: nat)
    requires |lines| >= 2 && StartsWith(lines[0], "--- ") && StartsWith(lines[1], "+++ ") && ParseFiles(lines).Err?
    requires HeaderPath(lines[0][4..]).Ok? && HeaderPath(lines[1][4..]).Ok? && ParseHunks(lines[2..]).Ok?
    ensures 0 < j <= |lines| && EndsFile(lines, j) && ParseHunks(lines[2..]).value.1 == lines[j..]
    ensures var e := ParseFiles(lines).error; HasNoChange(lines[..j], e) || (IsFile(lines[..j]) && ParseFiles(lines[j..]) == Err(e))
  {
    hide HeaderPath, ParseHunks, SpellsPath, SpellsHunks;
    var (hunks, rest) := ParseHunks(lines[2..]).value;
    var patch := TextFilePatch(HeaderPath(lines[0][4..]).value, HeaderPath(lines[1][4..]).value, hunks);
    HunksSpelled(lines[2..]);
    j := |lines| - |rest|;
    assert rest == lines[2..][|lines[2..]| - |rest|..] == lines[j..] && lines[2..][..|lines[2..]| - |rest|] == lines[2..j] == lines[..j][2..];
    PathMeaning(lines[0][4..], patch.oldPath);
    PathMeaning(lines[1][4..], patch.newPath);
    assert lines[..j][0] == lines[0] && lines[..j][1] == lines[1];
    var e := ParseFiles(lines).error;
    if CheckFilePatch(patch).Some? {
      assert IsNoChange(lines[..j], patch, e);
    } else {
      assert SpellsFile(lines[..j], patch);
    }
  }

  /** A diff is refused with an error exactly if that is its first fault, or it has no file at all. */
  lemma ParseFaults(diff: string, e: DiffError)
    ensures Parse(diff) == Err(e)
       <==> FaultyFiles(SplitLines(diff), e) || (e == NoFiles && forall line | line in SplitLines(diff) :: !StartsWith(line, "--- "))
  {
    var lines := SplitLines(diff);
    NoFilesMeaning(diff);
    NothingFound(lines);
    hide ParseFiles, FaultyFiles, SplitLines, StartsWith;
    if ParseFiles(lines).Err? {
      FilesFaultFound(lines);
    }
    if FaultyFiles(lines, e) {
      FilesFaultRead(lines, e);
    }
  }

  // ---- Hunks and files that do not fit ------------------------------------------------------------------------

  /** How many lines stand before the hunk. */
  function Start(hunk: TextHunk): nat {
    if hunk.oldStart <= 1 then 0 else hunk.oldStart - 1
  }

  /** Where the old side before hunk `k` ends. */
  function EndBefore(hunks: seq<TextHunk>, from: nat, k: nat): nat
    requires k <= |hunks|
  {
    if k == 0 then from else Start(hunks[k - 1]) + |OldLines(hunks[k - 1].lines)|
  }

  /** The hunk's old side stands at its start, after the one before. */
  ghost predicate Fits(hunks: seq<TextHunk>, source: seq<string>, from: nat, k: nat)
    requires k < |hunks|
  {
    var start, oldSide := Start(hunks[k]), OldLines(hunks[k].lines);
    EndBefore(hunks, from, k) <= start && start + |oldSide| <= |source| && source[start..start + |oldSide|] == oldSide
  }

  /** Hunk `k` is the first that does not fit: it starts too early or behind the file, or its old side is not there. */
  ghost predicate HunkFaultAt(hunks: seq<TextHunk>, source: seq<string>, from: nat, k: nat, e: DiffError) {
    && k < |hunks| && (forall i | 0 <= i < k :: Fits(hunks, source, from, i))
    && if Start(hunks[k]) < EndBefore(hunks, from, k) || Start(hunks[k]) > |source| then e == InvalidRange
       else !Fits(hunks, source, from, k) && e == ContextMismatch
  }

  lemma FitsLater(hunks: seq<TextHunk>, source: seq<string>, from: nat, k: nat)
    requires 0 < k < |hunks|
    ensures var end := Start(hunks[0]) + |OldLines(hunks[0].lines)|;
            && EndBefore(hunks, from, k) == EndBefore(hunks[1..], end, k - 1)
            && (Fits(hunks, source, from, k) <==> Fits(hunks[1..], source, end, k - 1))
  {
    hide OldLines;
  }

  lemma FaultLater(hunks: seq<TextHunk>, source: seq<string>, from: nat, k: nat, e: DiffError)
    requires hunks != [] && Fits(hunks, source, from, 0) && 0 < k
    ensures HunkFaultAt(hunks, source, from, k, e) <==> HunkFaultAt(hunks[1..], source, Start(hunks[0]) + |OldLines(hunks[0].lines)|, k - 1, e)
  {
    hide OldLines;
    if k < |hunks| {
      var end := Start(hunks[0]) + |OldLines(hunks[0].lines)|;
      forall i | 0 < i <= k
        ensures EndBefore(hunks, from, i) == EndBefore(hunks[1..], end, i - 1) && (Fits(hunks, source, from, i) <==> Fits(hunks[1..], source, end, i - 1))
      {
        FitsLater(hunks, source, from, i);
      }
      hide Fits, EndBefore;
      assert hunks[1..][k - 1] == hunks[k];
      if HunkFaultAt(hunks[1..], source, end, k - 1, e) {
        forall i | 0 <= i < k
          ensures Fits(hunks, source, from, i)
        {
          assert i > 0 ==> Fits(hunks[1..], source, end, i - 1);
        }
      }
      if HunkFaultAt(hunks, source, from, k, e) {
        forall i | 0 <= i < k - 1
          ensures Fits(hunks[1..], source, end, i)
        {
          assert Fits(hunks, source, from, i + 1);
        }
      }
    }
  }

  ghost predicate MisfitHunks(hunks: seq<TextHunk>, source: seq<string>, from: nat, e: DiffError) {
    exists k :: HunkFaultAt(hunks, source, from, k, e)
  }

  lemma MisfitLater(hunks: seq<TextHunk>, source: seq<string>, from: nat, e: DiffError)
    requires hunks != [] && Fits(hunks, source, from, 0)
    ensures MisfitHunks(hunks, source, from, e) <==> MisfitHunks(hunks[1..], source, Start(hunks[0]) + |OldLines(hunks[0].lines)|, e)
  {
    var end := Start(hunks[0]) + |OldLines(hunks[0].lines)|;
    assert !HunkFaultAt(hunks, source, from, 0, e);
    if MisfitHunks(hunks, source, from, e) {
      var k: nat :| HunkFaultAt(hunks, source, from, k, e);
      FaultLater(hunks, source, from, k, e);
      assert HunkFaultAt(hunks[1..], source, end, k - 1, e);
    }
    if MisfitHunks(hunks[1..], source, end, e) {
      var k: nat :| HunkFaultAt(hunks[1..], source, end, k, e);
      FaultLater(hunks, source, from, k + 1, e);
      assert HunkFaultAt(hunks, source, from, k + 1, e);
    }
  }

  lemma MisfitFirst(hunks: seq<TextHunk>, source: seq<string>, from: nat, e: DiffError)
    requires hunks != [] && !Fits(hunks, source, from, 0)
    ensures MisfitHunks(hunks, source, from, e)
       <==> e == if Start(hunks[0]) < from || Start(hunks[0]) > |source| then InvalidRange else ContextMismatch
  {
    hide OldLines;
    assert HunkFaultAt(hunks, source, from, 0, e) <==> e == if Start(hunks[0]) < from || Start(hunks[0]) > |source| then InvalidRange else ContextMismatch;
    assert forall k | k > 0 :: !HunkFaultAt(hunks, source, from, k, e);
  }

  /** Hunks are refused with an error exactly if that is the fault of the first that does not fit. */
  lemma {:induction false} HunksMisfit(hunks: seq<TextHunk>, source: seq<string>, cursor: nat, e: DiffError)
    requires CountsMatch(hunks) && cursor <= |source|
    ensures ApplyHunks(hunks, source, cursor) == Err(e) <==> MisfitHunks(hunks, source, cursor, e)
  {
    if hunks != [] {
      CountsMatchTail(hunks);
      var hunk, end := hunks[0], Start(hunks[0]) + |OldLines(hunks[0].lines)|;
      assert Start(hunk) == Target(hunk);
      if Target(hunk) <= |source| {
        ApplyBodyMeaning(hunk.lines, source, Target(hunk));
      }
      hide ApplyBody, OldLines, NewLines, CountsMatch, MisfitHunks, Start, Target;
      if Fits(hunks, source, cursor, 0) {
        HunksMisfit(hunks[1..], source, end, e);
        MisfitLater(hunks, source, cursor, e);
      } else {
        MisfitFirst(hunks, source, cursor, e);
      }
    }
  }

  /** Why a file cannot be patched: no base file, one that is binary or not UTF-8, or hunks that do not fit it. */
  ghost predicate FileFault(patch: TextFilePatch, originals: map<string, Bytes>, e: DiffError) {
    match e
    case BaseUnavailable => patch.oldPath.Some? && patch.oldPath.value !in originals
    case BinaryContent => patch.oldPath.Some? && patch.oldPath.value in originals && 0 in originals[patch.oldPath.value]
    case NotUtf8 =>
      && patch.oldPath.Some? && patch.oldPath.value in originals && 0 !in originals[patch.oldPath.value]
      && forall text :: originals[patch.oldPath.value] != Encode(text)
    case _ => exists text :: IsBase(patch, originals, text) && MisfitHunks(patch.hunks, SplitLines(text), 0, e)
  }

  lemma FileFaults(patch: TextFilePatch, originals: map<string, Bytes>, e: DiffError)
    requires CountsMatch(patch.hunks)
    ensures ApplyFile(patch, originals) == Err(e) <==> FileFault(patch, originals, e)
  {
    BaseFaults(patch, originals);
    hide BaseText, ApplyHunks, CountsMatch, MisfitHunks, SplitLines, Encode, Render;
    if BaseText(patch, originals).Ok? {
      var text := BaseText(patch, originals).value.0;
      HunksMisfit(patch.hunks, SplitLines(text), 0, e);
      OtherFaults(patch.hunks, SplitLines(text), e);
    }
  }

  lemma OtherFaults(hunks: seq<TextHunk>, source: seq<string>, e: DiffError)
    ensures MisfitHunks(hunks, source, 0, e) ==> e in {InvalidRange, ContextMismatch}
  {
    hide Fits, EndBefore;
  }

  /** The base text, if there is one, is the only one. */
  lemma BaseFaults(patch: TextFilePatch, originals: map<string, Bytes>)
    ensures match BaseText(patch, originals)
            case Ok((text, _)) =>
              IsBase(patch, originals, text) && (forall other | IsBase(patch, originals, other) :: other == text)
              && forall e | e in {BaseUnavailable, BinaryContent, NotUtf8} :: !FileFault(patch, originals, e)
            case Err(error) =>
              error in {BaseUnavailable, BinaryContent, NotUtf8} && (forall e :: FileFault(patch, originals, e) <==> e == error)
  {
    hide Encode, Decode, MisfitHunks, SplitLines;
    if patch.oldPath.Some? && patch.oldPath.value in originals {
      var raw := originals[patch.oldPath.value];
      forall text
        ensures Decode(raw) == Some(text) <==> raw == Encode(text)
      {
        DecodeInvertsEncode(raw, text);
      }
    }
  }

  lemma {:induction false} FirstFileFault(patches: seq<TextFilePatch>, originals: map<string, Bytes>, e: DiffError)
    requires forall i | 0 <= i < |patches| :: CountsMatch(patches[i].hunks)
    ensures ApplyFiles(patches, originals) == Err(e)
       <==> exists i | 0 <= i < |patches| :: FileFault(patches[i], originals, e) && Faultless(patches[..i], originals)
  {
    hide ApplyFile, FileFault, CountsMatch;
    if patches != [] {
      FileFaults(patches[0], originals, e);
      if ApplyFile(patches[0], originals).Ok? {
        forall other
          ensures !FileFault(patches[0], originals, other)
        {
          FileFaults(patches[0], originals, other);
        }
        FirstFileFault(patches[1..], originals, e);
        assert forall i | 0 < i < |patches| :: patches[..i][1..] == patches[1..][..i - 1] && patches[..i][0] == patches[0];
        FaultShifts(patches, originals, e);
      } else {
        FileFaults(patches[0], originals, ApplyFile(patches[0], originals).error);
        assert Faultless(patches[..0], originals);
        forall i | 0 < i < |patches|
          ensures !Faultless(patches[..i], originals)
        {
          assert patches[..i][0] == patches[0];
        }
      }
    }
  }

  ghost predicate Faultless(patches: seq<TextFilePatch>, originals: map<string, Bytes>) {
    forall i, e | 0 <= i < |patches| :: !FileFault(patches[i], originals, e)
  }

  lemma FaultShifts(patches: seq<TextFilePatch>, originals: map<string, Bytes>, e: DiffError)
    requires patches != [] && forall other :: !FileFault(patches[0], originals, other)
    ensures (exists i | 0 <= i < |patches| :: FileFault(patches[i], originals, e) && Faultless(patches[..i], originals))
       <==> exists i | 0 <= i < |patches[1..]| :: FileFault(patches[1..][i], originals, e) && Faultless(patches[1..][..i], originals)
  {
    hide FileFault;
    forall i | 0 < i < |patches|
      ensures Faultless(patches[..i], originals) <==> Faultless(patches[1..][..i - 1], originals)
    {
      var all, rest := patches[..i], patches[1..][..i - 1];
      assert forall k | 0 <= k < i - 1 :: rest[k] == all[k + 1];
      assert forall k | 0 < k < i :: all[k] == rest[k - 1];
    }
    hide Faultless;
    if exists i | 0 <= i < |patches| :: FileFault(patches[i], originals, e) && Faultless(patches[..i], originals) {
      var i :| 0 <= i < |patches| && FileFault(patches[i], originals, e) && Faultless(patches[..i], originals);
      assert patches[1..][i - 1] == patches[i];
    }
    if exists i | 0 <= i < |patches[1..]| :: FileFault(patches[1..][i], originals, e) && Faultless(patches[1..][..i], originals) {
      var i :| 0 <= i < |patches[1..]| && FileFault(patches[1..][i], originals, e) && Faultless(patches[1..][..i], originals);
      assert patches[i + 1] == patches[1..][i] && patches[1..][..i + 1 - 1] == patches[1..][..i];
    }
  }

  /** The applier refuses a diff with an error exactly if the parser does, or that is the fault of the first file with one. */
  lemma ApplyFaults(diff: string, originals: map<string, Bytes>, e: DiffError)
    ensures Apply(diff, originals) == Err(e)
       <==> if Parse(diff).Err? then Parse(diff) == Err(e)
            else exists i | 0 <= i < |Parse(diff).value| ::
                   FileFault(Parse(diff).value[i], originals, e) && Faultless(Parse(diff).value[..i], originals)
  {
    hide Parse, ApplyFiles, FileFault, Faultless;
    if Parse(diff).Ok? {
      DiffPrinter.ParsedIsWellFormed(diff);
      var patches := Parse(diff).value;
      forall i | 0 <= i < |patches|
        ensures CountsMatch(patches[i].hunks)
      {
        assert WellFormedFile(patches[i]);
      }
      FirstFileFault(patches, originals, e);
    }
  }
}
