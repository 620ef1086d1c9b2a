/**
 * Unified diffs as `src/agentic_lab/gateway/patch_apply.py` reads them: the parsed values and
 * the grammar, as functions of the remaining lines.
 */
module UnifiedDiff {
  import opened Wrappers
  import opened Text

  datatype TextHunk = TextHunk(oldStart: nat, oldCount: nat, newStart: nat, newCount: nat, lines: seq<string>)

  datatype TextFilePatch = TextFilePatch(oldPath: Option<string>, newPath: Option<string>, hunks: seq<TextHunk>)

  /** One value per `ValueError` the parser and the applier raise. */
  datatype DiffError =
    | MissingNewFileHeader | InvalidHunkHeader | InvalidHunkLine | CountMismatch
    | DevNullOnly | NoHunks | NoFiles | UnsafePath
    | BaseUnavailable | BinaryContent | NotUtf8 | InvalidRange | ContextMismatch

  const NO_NEWLINE_MARKER := "\\ No newline at end of file"

  // ---- Body lines -----------------------------------------------------------------------------

  predicate IsBodyLine(line: string) {
    line != "" && line[0] in {' ', '+', '-'}
  }

  predicate IsOldLine(line: string) {
    line != "" && line[0] in {' ', '-'}
  }

  predicate IsNewLine(line: string) {
    line != "" && line[0] in {' ', '+'}
  }

  function OldLines(body: seq<string>): seq<string> {
    if body == [] then []
    else (if IsOldLine(body[0]) then [body[0][1..]] else []) + OldLines(body[1..])
  }

  function NewLines(body: seq<string>): seq<string> {
    if body == [] then []
    else (if IsNewLine(body[0]) then [body[0][1..]] else []) + NewLines(body[1..])
  }

  // ---- Header paths and hunk headers ----------------------------------------------------------

  /** The text `_header_path` works on: up to the first tab, stripped. */
  function HeaderValue(raw: string): string {
    Strip(Before(raw, '\t'))
  }

  predicate HasSidePrefix(value: string) {
    StartsWith(value, "a/") || StartsWith(value, "b/")
  }

  /** `_header_path`; `Ok(None)` is `/dev/null`. */
  function HeaderPath(raw: string): Result<Option<string>, DiffError> {
    var value := HeaderValue(raw);
    if value == "/dev/null" then Ok(None)
    else
      var path := if HasSidePrefix(value) then value[2..] else value;
      if path == "" || path[0] == '/' || ".." in Split(path, '/') || '\0' in path then Err(UnsafePath)
      else Ok(Some(path))
  }

  function ParseNumber(s: string): (r: Option<(nat, string)>) {
    var n := DigitRun(s);
    if n == 0 then None else Some((ParseNat(s[..n]), s[n..]))
  }

  /** `(\d+)(?:,(\d+))?`, the count defaulting to 1. */
  function ParseRange(s: string): Option<(nat, nat, string)> {
    var (start, rest) :- ParseNumber(s);
    if StartsWith(rest, ",") then
      var (count, rest') :- ParseNumber(rest[1..]);
      Some((start, count, rest'))
    else Some((start, 1, rest))
  }

  /** The `_HUNK` pattern; the resulting hunk has no body yet. */
  function ParseHunkHeader(line: string): Option<TextHunk> {
    if !StartsWith(line, "@@ -") then None
    else
      var (oldStart, oldCount, rest) :- ParseRange(line[4..]);
      if !StartsWith(rest, " +") then None
      else
        var (newStart, newCount, rest') :- ParseRange(rest[2..]);
        if !StartsWith(rest', " @@") then None
        else Some(TextHunk(oldStart, oldCount, newStart, newCount, []))
  }

  // ---- The grammar ----------------------------------------------------------------------------

  /** A hunk body that still owes `oldLeft` old and `newLeft` new lines; returns body and rest. */
  function ParseBody(lines: seq<string>, oldLeft: nat, newLeft: nat): (r: Result<(seq<string>, seq<string>), DiffError>)
    ensures r.Ok? ==> |r.value.1| <= |lines|
    decreases |lines|
  {
    if oldLeft == 0 && newLeft == 0 then Ok(([], lines))
    else if lines == [] then Err(CountMismatch)
    else
      var line := lines[0];
      if line == NO_NEWLINE_MARKER then ParseBody(lines[1..], oldLeft, newLeft)
      else if !IsBodyLine(line) then Err(InvalidHunkLine)
      else if (IsOldLine(line) && oldLeft == 0) || (IsNewLine(line) && newLeft == 0) then Err(CountMismatch)
      else
        var oldLeft' := if IsOldLine(line) then oldLeft - 1 else oldLeft;
        var newLeft' := if IsNewLine(line) then newLeft - 1 else newLeft;
        var (body, rest) :- ParseBody(lines[1..], oldLeft', newLeft');
        Ok(([line] + body, rest))
  }

  /** The hunks up to the next `--- ` line; other lines between hunks are skipped. */
  function ParseHunks(lines: seq<string>): (r: Result<(seq<TextHunk>, seq<string>), DiffError>)
    ensures r.Ok? ==> |r.value.1| <= |lines|
    decreases |lines|
  {
    if lines == [] || StartsWith(lines[0], "--- ") then Ok(([], lines))
    else if !StartsWith(lines[0], "@@ ") then ParseHunks(lines[1..])
    else
      match ParseHunkHeader(lines[0])
      case None => Err(InvalidHunkHeader)
      case Some(header) =>
        var (body, rest) :- ParseBody(lines[1..], header.oldCount, header.newCount);
        var (hunks, rest') :- ParseHunks(rest);
        Ok(([header.(lines := body)] + hunks, rest'))
  }

  function CheckFilePatch(patch: TextFilePatch): Option<DiffError> {
    if patch.oldPath.None? && patch.newPath.None? then Some(DevNullOnly)
    else if patch.hunks == [] && patch.oldPath == patch.newPath then Some(NoHunks)
    else None
  }

  function ParseFiles(lines: seq<string>): Result<seq<TextFilePatch>, DiffError>
    decreases |lines|
  {
    if lines == [] then Ok([])
    else if !StartsWith(lines[0], "--- ") then ParseFiles(lines[1..])
    else if |lines| < 2 || !StartsWith(lines[1], "+++ ") then Err(MissingNewFileHeader)
    else
      var oldPath :- HeaderPath(lines[0][4..]);
      var newPath :- HeaderPath(lines[1][4..]);
      var (hunks, rest) :- ParseHunks(lines[2..]);
      var patch := TextFilePatch(oldPath, newPath, hunks);
      match CheckFilePatch(patch)
      case Some(error) => Err(error)
      case None =>
        var files :- ParseFiles(rest);
        Ok([patch] + files)
  }

  function Parse(diff: string): Result<seq<TextFilePatch>, DiffError> {
    var files :- ParseFiles(SplitLines(diff));
    if files == [] then Err(NoFiles) else Ok(files)
  }

  // ---- Well-formed patches --------------------------------------------------------------------

  /** A path that survives being printed in, and read back from, a header line. */
  ghost predicate PrintablePath(path: string) {
    && path != "" && path[0] != '/' && !IsSpace(path[|path| - 1])
    && '\t' !in path && '\0' !in path && ".." !in Split(path, '/')
    && BreakFree(path)
  }

  ghost predicate WellFormedHunk(hunk: TextHunk) {
    && (forall i | 0 <= i < |hunk.lines| :: IsBodyLine(hunk.lines[i]) && BreakFree(hunk.lines[i]))
    && |OldLines(hunk.lines)| == hunk.oldCount
    && |NewLines(hunk.lines)| == hunk.newCount
  }

  ghost predicate WellFormedFile(patch: TextFilePatch) {
    && (patch.oldPath.Some? ==> PrintablePath(patch.oldPath.value))
    && (patch.newPath.Some? ==> PrintablePath(patch.newPath.value))
    && CheckFilePatch(patch).None?
    && forall i | 0 <= i < |patch.hunks| :: WellFormedHunk(patch.hunks[i])
  }

  ghost predicate WellFormed(files: seq<TextFilePatch>) {
    files != [] && forall i | 0 <= i < |files| :: WellFormedFile(files[i])
  }
}
