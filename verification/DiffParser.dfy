/** `parse_text_diff` of src/agentic_lab/gateway/patch_apply.py, as its three nested loops. */
module DiffParser {
  import opened Wrappers
  import opened Text
  import opened UnifiedDiff

  /** What the loops have collected so far, followed by what the rest of the lines will give. */
  function Prepend<T, R>(done: seq<T>, r: Result<(seq<T>, R), DiffError>): Result<(seq<T>, R), DiffError> {
    match r
    case Ok((more, rest)) => Ok((done + more, rest))
    case Err(e) => Err(e)
  }

  function PrependFiles(done: seq<TextFilePatch>, r: Result<seq<TextFilePatch>, DiffError>): Result<seq<TextFilePatch>, DiffError> {
    match r
    case Ok(more) => Ok(done + more)
    case Err(e) => Err(e)
  }

  lemma PrependMore<T, R>(done: seq<T>, item: T, r: Result<(seq<T>, R), DiffError>)
    ensures Prepend(done + [item], r) == Prepend(done, Prepend([item], r))
  {
    if r.Ok? {
      assert done + [item] + r.value.0 == done + ([item] + r.value.0);
    }
  }

  lemma PrependNothing(r: Result<seq<TextFilePatch>, DiffError>)
    ensures PrependFiles([], r) == r
  {
    if r.Ok? {
      assert [] + r.value == r.value;
    }
  }

  method ParseTextDiff(diff: string) returns (r: Result<seq<TextFilePatch>, DiffError>)
    ensures r == Parse(diff)
  {
    hide ParseHunks, HeaderPath, SplitLines, IsLineBreak;
    var lines := SplitLines(diff);
    var files: seq<TextFilePatch> := [];
    var index := 0;
    assert lines[0..] == lines;
    PrependNothing(ParseFiles(lines));
    while index < |lines|
      invariant 0 <= index <= |lines|
      invariant ParseFiles(lines) == PrependFiles(files, ParseFiles(lines[index..]))
    {
      assert lines[index..][1..] == lines[index + 1..];
      if !StartsWith(lines[index], "--- ") {
        index := index + 1;
        continue;
      }
      if index + 1 >= |lines| || !StartsWith(lines[index + 1], "+++ ") {
        return Err(MissingNewFileHeader);
      }
      var oldPath := HeaderPath(lines[index][4..]);
      if oldPath.Err? { return Err(oldPath.error); }
      var newPath := HeaderPath(lines[index + 1][4..]);
      if newPath.Err? { return Err(newPath.error); }
      assert lines[index..][2..] == lines[index + 2..];
      index := index + 2;
      var hunks, next := ParseFileHunks(lines, index);
      if hunks.Err? { return Err(hunks.error); }
      index := next;
      var patch := TextFilePatch(oldPath.value, newPath.value, hunks.value);
      if patch.oldPath.None? && patch.newPath.None? { return Err(DevNullOnly); }
      if patch.hunks == [] && patch.oldPath == patch.newPath { return Err(NoHunks); }
      ghost var rest := ParseFiles(lines[index..]);
      assert PrependFiles(files + [patch], rest) == PrependFiles(files, PrependFiles([patch], rest)) by {
        if rest.Ok? {
          assert files + [patch] + rest.value == files + ([patch] + rest.value);
        }
      }
      files := files + [patch];
    }
    assert files + [] == files;
    if files == [] { return Err(NoFiles); }
    return Ok(files);
  }

  /** The middle loop: hunks up to the next old-file header. */
  method ParseFileHunks(lines: seq<string>, first: nat)
    returns (r: Result<seq<TextHunk>, DiffError>, index: nat)
    requires first <= |lines|
    ensures first <= index <= |lines|
    ensures ParseHunks(lines[first..]) == if r.Ok? then Ok((r.value, lines[index..])) else Err(r.error)
  {
    hide ParseHunkHeader, ParseBody;
    var hunks: seq<TextHunk> := [];
    index := first;
    ghost var whole := ParseHunks(lines[first..]);
    assert whole.Ok? ==> [] + whole.value.0 == whole.value.0;
    while index < |lines| && !StartsWith(lines[index], "--- ")
      invariant first <= index <= |lines|
      invariant whole == Prepend(hunks, ParseHunks(lines[index..]))
    {
      assert lines[index..][1..] == lines[index + 1..];
      if StartsWith(lines[index], "diff --git ") {
        assert !StartsWith(lines[index], "@@ ") by { assert lines[index][..11][0] == 'd'; }
        index := index + 1;
        continue;
      }
      if !StartsWith(lines[index], "@@ ") {
        index := index + 1;
        continue;
      }
      var header := ParseHunkHeader(lines[index]);
      if header.None? { return Err(InvalidHunkHeader), index; }
      var body, next := ParseHunkBody(lines, index + 1, header.value);
      if body.Err? { return Err(body.error), index; }
      var hunk := header.value.(lines := body.value);
      assert ParseHunks(lines[index..]) == Prepend([hunk], ParseHunks(lines[next..]));
      PrependMore(hunks, hunk, ParseHunks(lines[next..]));
      index := next;
      hunks := hunks + [hunk];
    }
    assert hunks + [] == hunks;
    r := Ok(hunks);
  }

  /** The innermost loop: lines are taken until both counts of the header are reached. */
  method ParseHunkBody(lines: seq<string>, first: nat, header: TextHunk)
    returns (r: Result<seq<string>, DiffError>, index: nat)
    requires first <= |lines|
    ensures first <= index <= |lines|
    ensures ParseBody(lines[first..], header.oldCount, header.newCount)
         == if r.Ok? then Ok((r.value, lines[index..])) else Err(r.error)
  {
    var body: seq<string> := [];
    var oldSeen, newSeen := 0, 0;
    index := first;
    ghost var whole := ParseBody(lines[first..], header.oldCount, header.newCount);
    assert whole.Ok? ==> [] + whole.value.0 == whole.value.0;
    while index < |lines| && (oldSeen < header.oldCount || newSeen < header.newCount)
      invariant first <= index <= |lines| && oldSeen <= header.oldCount && newSeen <= header.newCount
      invariant ParseBody(lines[first..], header.oldCount, header.newCount)
             == Prepend(body, ParseBody(lines[index..], header.oldCount - oldSeen, header.newCount - newSeen))
    {
      var line := lines[index];
      assert lines[index..][1..] == lines[index + 1..];
      if line == NO_NEWLINE_MARKER {
        index := index + 1;
        continue;
      }
      if line == "" || line[0] !in {' ', '+', '-'} { return Err(InvalidHunkLine), index; }
      ghost var rest :=
        ParseBody(lines[index + 1..],
                  header.oldCount - oldSeen - (if IsOldLine(line) && oldSeen < header.oldCount then 1 else 0),
                  header.newCount - newSeen - (if IsNewLine(line) && newSeen < header.newCount then 1 else 0));
      PrependMore(body, line, rest);
      body := body + [line];
      if line[0] in {' ', '-'} { oldSeen := oldSeen + 1; }
      if line[0] in {' ', '+'} { newSeen := newSeen + 1; }
      if oldSeen > header.oldCount || newSeen > header.newCount { return Err(CountMismatch), index; }
      index := index + 1;
    }
    if oldSeen != header.oldCount || newSeen != header.newCount { return Err(CountMismatch), index; }
    assert body + [] == body;
    r := Ok(body);
  }
}
