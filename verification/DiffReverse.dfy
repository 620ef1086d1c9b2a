/**
 * Undoing a patch: swapping the sides of every hunk gives a patch that the applier of
 * src/agentic_lab/gateway/patch_apply.py takes back to the original lines and bytes.
 */
module DiffReverse {
  import opened Wrappers
  import opened Text
  import opened Utf8
  import opened UnifiedDiff
  import opened DiffApply

  function ReverseLine(line: string): string {
    if line == "" then line
    else if line[0] == '+' then "-" + line[1..]
    else if line[0] == '-' then "+" + line[1..]
    else line
  }

  function ReverseBody(body: seq<string>): seq<string> {
    if body == [] then [] else [ReverseLine(body[0])] + ReverseBody(body[1..])
  }

  function ReverseHunk(h: TextHunk): TextHunk {
    TextHunk(h.newStart, h.newCount, h.oldStart, h.oldCount, ReverseBody(h.lines))
  }

  function ReverseHunks(hunks: seq<TextHunk>): (reversed: seq<TextHunk>)
    ensures |reversed| == |hunks|
  {
    if hunks == [] then [] else [ReverseHunk(hunks[0])] + ReverseHunks(hunks[1..])
  }

  function ReverseFile(patch: TextFilePatch): TextFilePatch {
    TextFilePatch(patch.newPath, patch.oldPath, ReverseHunks(patch.hunks))
  }

  /** Every new start is the old start moved by the growth of the hunks before it. */
  ghost predicate Positioned(hunks: seq<TextHunk>) {
    forall k | 0 <= k < |hunks| :: Target(ReverseHunk(hunks[k])) == Target(hunks[k]) + NetGrowth(hunks[..k])
  }

  lemma {:induction false} ReversedBodySides(body: seq<string>)
    ensures OldLines(ReverseBody(body)) == NewLines(body) && NewLines(ReverseBody(body)) == OldLines(body)
  {
    if body != [] {
      ReversedBodySides(body[1..]);
      assert ReverseBody(body)[1..] == ReverseBody(body[1..]);
      assert body[0] != "" ==> ReverseLine(body[0])[1..] == body[0][1..];
    }
  }

  lemma {:induction false} ReversedSides(hunks: seq<TextHunk>)
    ensures OldSides(ReverseHunks(hunks)) == NewSides(hunks) && NewSides(ReverseHunks(hunks)) == OldSides(hunks)
    ensures CountsMatch(hunks) ==> CountsMatch(ReverseHunks(hunks))
  {
    hide OldLines, NewLines, ReverseBody;
    if hunks != [] {
      ReversedBodySides(hunks[0].lines);
      ReversedSides(hunks[1..]);
      assert ReverseHunks(hunks)[1..] == ReverseHunks(hunks[1..]);
      CountsMatchTail(hunks);
      CountsMatchTail(ReverseHunks(hunks));
    }
  }

  lemma {:induction false} SidesOfPrefix(hunks: seq<TextHunk>, k: nat)
    requires k <= |hunks|
    ensures OldSides(hunks[..k]) == OldSides(hunks)[..k] && NewSides(hunks[..k]) == NewSides(hunks)[..k]
  {
    hide OldLines, NewLines;
    if k > 0 {
      SidesOfPrefix(hunks[1..], k - 1);
      assert hunks[..k][1..] == hunks[1..][..k - 1];
    }
  }

  /** In the edited file a side starts later by the growth of the hunks before it. */
  lemma PositionsShift(hunks: seq<TextHunk>, gaps: seq<seq<string>>, k: nat)
    requires CountsMatch(hunks) && |gaps| == |hunks| + 1 && k < |hunks|
    ensures Position(gaps, NewSides(hunks), k) == Position(gaps, OldSides(hunks), k) + NetGrowth(hunks[..k])
  {
    SidesOfPrefix(hunks, k);
    InterleaveLengths(gaps[..k + 1], hunks[..k]);
  }

  lemma {:induction false} ReversedAt(hunks: seq<TextHunk>, k: nat)
    requires k < |hunks|
    ensures ReverseHunks(hunks)[k] == ReverseHunk(hunks[k])
  {
    if k > 0 {
      ReversedAt(hunks[1..], k - 1);
    }
  }

  /** The reversed hunks fit the edited file in the same gaps exactly when the starts are positioned. */
  lemma ReverseDecomposes(hunks: seq<TextHunk>, gaps: seq<seq<string>>)
    requires CountsMatch(hunks) && |gaps| == |hunks| + 1
    requires Decomposes(Interleave(gaps, OldSides(hunks)), hunks, gaps, 0)
    ensures Decomposes(Interleave(gaps, NewSides(hunks)), ReverseHunks(hunks), gaps, 0) <==> Positioned(hunks)
  {
    ReversedSides(hunks);
    hide Position, Interleave, Target, NetGrowth, OldSides, NewSides, ReverseHunks, ReverseHunk, CountsMatch;
    var reversed := ReverseHunks(hunks);
    forall k | 0 <= k < |hunks|
      ensures Position(gaps, OldSides(reversed), k) == Target(reversed[k])
         <==> Target(ReverseHunk(hunks[k])) == Target(hunks[k]) + NetGrowth(hunks[..k])
    {
      ReversedAt(hunks, k);
      PositionsShift(hunks, gaps, k);
      assert 0 + Position(gaps, OldSides(hunks), k) == Target(hunks[k]);
    }
  }

  lemma Pieces<T>(a: seq<T>, b: seq<T>, c: seq<T>)
    ensures var s := a + b + c;
            s[..|a|] == a && s[|a|..|a| + |b|] == b && s[|a| + |b|..] == c
  {
  }

  /** Applying a positioned patch and then its reverse gives back the original lines. */
  lemma ReverseUndoesLines(hunks: seq<TextHunk>, source: seq<string>)
    requires ApplyHunks(hunks, source, 0).Ok? && Positioned(hunks)
    ensures ApplyHunks(ReverseHunks(hunks), ApplyHunks(hunks, source, 0).value, 0) == Ok(source)
  {
    assert source[0..] == source;
    var gaps := ApplyDecomposes(hunks, source, 0);
    ReverseDecomposes(hunks, gaps);
    ReversedSides(hunks);
    ApplyMeaning(ReverseHunks(hunks), Interleave(gaps, NewSides(hunks)));
  }

  // ---- Bytes --------------------------------------------------------------------------------------

  lemma SliceKept<T>(s: seq<T>, more: seq<T>, i: nat, j: nat)
    requires i <= j <= |s|
    ensures (s + more)[i..j] == s[i..j]
  {
  }

  /** Lines after all hunks are carried along. */
  lemma {:induction false} ApplyWithMoreLines(hunks: seq<TextHunk>, source: seq<string>, cursor: nat, more: seq<string>)
    requires cursor <= |source| && ApplyHunks(hunks, source, cursor).Ok?
    ensures ApplyHunks(hunks, source + more, cursor) == Ok(ApplyHunks(hunks, source, cursor).value + more)
  {
    if hunks == [] {
      assert (source + more)[cursor..] == source[cursor..] + more;
    } else {
      ApplyFirst(hunks, source, cursor);
      ApplyFirst(hunks, source + more, cursor);
      hide ApplyHunks, OldLines, NewLines, Target;
      var target := Target(hunks[0]);
      var end := target + |OldLines(hunks[0].lines)|;
      SliceKept(source, more, target, end);
      SliceKept(source, more, cursor, target);
      ApplyWithMoreLines(hunks[1..], source, end, more);
      var head := source[cursor..target] + NewLines(hunks[0].lines);
      var tail := ApplyHunks(hunks[1..], source, end).value;
      assert head + (tail + more) == head + tail + more;
    }
  }

  lemma {:induction false} NewLinesBreakFree(body: seq<string>)
    requires forall i | 0 <= i < |body| :: BreakFree(body[i])
    ensures BreakFreeLines(NewLines(body))
  {
    if body != [] {
      NewLinesBreakFree(body[1..]);
      assert body[0] != "" ==> forall k | 0 <= k < |body[0]| - 1 :: body[0][1..][k] == body[0][k + 1];
    }
  }

  lemma {:induction false} AppliedLinesBreakFree(hunks: seq<TextHunk>, source: seq<string>, cursor: nat)
    requires forall i | 0 <= i < |hunks| :: WellFormedHunk(hunks[i])
    requires BreakFreeLines(source) && cursor <= |source| && ApplyHunks(hunks, source, cursor).Ok?
    ensures BreakFreeLines(ApplyHunks(hunks, source, cursor).value)
  {
    if hunks != [] {
      assert WellFormedHunk(hunks[0]);
      NewLinesBreakFree(hunks[0].lines);
      ApplyFirst(hunks, source, cursor);
      hide ApplyHunks, OldLines, NewLines, BreakFree, Target, WellFormedHunk;
      AppliedLinesBreakFree(hunks[1..], source, Target(hunks[0]) + |OldLines(hunks[0].lines)|);
    }
  }

  lemma EncodeInjective(s: string, t: string)
    ensures Encode(s) == Encode(t) <==> s == t
  {
    DecodeInvertsEncode(Encode(s), s);
    DecodeInvertsEncode(Encode(s), t);
  }

  lemma {:induction false} JoinWithBlank(lines: seq<string>)
    requires lines != []
    ensures Join(lines + [""]) == Join(lines) + "\n"
  {
    if |lines| == 1 {
      assert (lines + [""])[1..] == [""];
    } else {
      JoinWithBlank(lines[1..]);
      assert (lines + [""])[1..] == lines[1..] + [""];
    }
  }

  /** `ApplyFile` on one encoded file, spelled out. */
  lemma ApplyEncoded(patch: TextFilePatch, path: string, text: string)
    requires patch.oldPath == Some(path) && patch.newPath.Some? && 0 !in Encode(text)
    ensures var lines := ApplyHunks(patch.hunks, SplitLines(text), 0);
            ApplyFile(patch, map[path := Encode(text)])
            == if lines.Err? then Err(lines.error)
               else Ok(AppliedFile(patch.oldPath, patch.newPath, Some(Encode(Render(lines.value, EndsWithNewline(text))))))
  {
    hide Decode, Encode, ApplyHunks, Render, SplitLines;
    DecodeInvertsEncode(Encode(text), text);
  }

  /** What comes back when the reversed patch is applied to the written result. */
  lemma ReverseApplied(patch: TextFilePatch, path: string, source: seq<string>, result: seq<string>)
    requires patch.oldPath == Some(path) && patch.newPath.Some? && source != [] && BreakFreeLines(result)
    requires 0 !in Encode(Render(result, true)) && ApplyHunks(patch.hunks, result, 0) == Ok(source)
    ensures ApplyFile(patch, map[path := Encode(Render(result, true))])
            == Ok(AppliedFile(patch.oldPath, patch.newPath,
                              Some(Encode(Render(if result == [] then source + [""] else source, true)))))
  {
    hide ApplyFile, Encode, BreakFree;
    var text := Render(result, true);
    ApplyEncoded(patch, path, text);
    if result != [] {
      SplitTerminated(result);
    } else {
      SplitTerminated([""]);
      assert SplitLines(text) == [""] == [] + [""];
      ApplyWithMoreLines(patch.hunks, [], 0, [""]);
    }
  }

  ghost predicate HasNul(lines: seq<string>) {
    exists line | line in lines :: '\0' in line
  }

  /** Some added line holds a NUL character. */
  ghost predicate AddsNul(hunks: seq<TextHunk>) {
    exists hunk | hunk in hunks :: BodyAddsNul(hunk.lines)
  }

  ghost predicate BodyAddsNul(body: seq<string>) {
    exists line | line in body :: line != "" && line[0] == '+' && '\0' in line
  }

  lemma HasNulSum(a: seq<string>, b: seq<string>)
    ensures HasNul(a + b) <==> HasNul(a) || HasNul(b)
  {
    if HasNul(a) {
      var line :| line in a && '\0' in line;
      assert line in a + b;
    }
    if HasNul(b) {
      var line :| line in b && '\0' in line;
      assert line in a + b;
    }
  }

  lemma {:induction false} EncodeNul(s: string)
    ensures 0 in Encode(s) <==> '\0' in s
  {
    if s != "" {
      EncodeNul(s[1..]);
      assert 0 in EncodeChar(s[0]) <==> s[0] == '\0';
      assert s == [s[0]] + s[1..];
    }
  }

  lemma {:induction false} RenderNul(lines: seq<string>)
    ensures '\0' in Render(lines, true) <==> HasNul(lines)
  {
    if |lines| <= 1 {
      assert lines != [] ==> lines == [lines[0]];
    } else {
      RenderNul(lines[1..]);
      assert lines == [lines[0]] + lines[1..];
      HasNulSum([lines[0]], lines[1..]);
      OneLineNul(lines[0]);
      assert Render(lines, true) == lines[0] + "\n" + Render(lines[1..], true);
    }
  }

  lemma OneLineNul(line: string)
    ensures HasNul([line]) <==> '\0' in line
  {
  }

  /** A body whose old side is free of NUL brings one in exactly through an added line. */
  lemma {:induction false} BodyNul(body: seq<string>)
    requires !HasNul(OldLines(body)) && forall i | 0 <= i < |body| :: IsBodyLine(body[i])
    ensures HasNul(NewLines(body)) <==> BodyAddsNul(body)
  {
    if body != [] {
      var line, rest := body[0], body[1..];
      assert body == [line] + rest;
      assert line == [line[0]] + line[1..];
      OneLineNul(line[1..]);
      if IsOldLine(line) {
        assert OldLines(body) == [line[1..]] + OldLines(rest);
        HasNulSum([line[1..]], OldLines(rest));
      } else {
        assert OldLines(body) == OldLines(rest);
      }
      BodyNul(rest);
      if IsNewLine(line) {
        assert NewLines(body) == [line[1..]] + NewLines(rest);
        HasNulSum([line[1..]], NewLines(rest));
      } else {
        assert NewLines(body) == NewLines(rest);
      }
      BodyAddsMore(line, rest);
    }
  }

  lemma BodyAddsMore(line: string, rest: seq<string>)
    ensures BodyAddsNul([line] + rest) <==> (line != "" && line[0] == '+' && '\0' in line) || BodyAddsNul(rest)
  {
    if BodyAddsNul(rest) {
      var l :| l in rest && l != "" && l[0] == '+' && '\0' in l;
      assert l in [line] + rest;
    }
    assert line in [line] + rest;
  }

  lemma AddsMore(hunk: TextHunk, rest: seq<TextHunk>)
    ensures AddsNul([hunk] + rest) <==> BodyAddsNul(hunk.lines) || AddsNul(rest)
  {
    hide BodyAddsNul;
    if AddsNul(rest) {
      var h :| h in rest && BodyAddsNul(h.lines);
      assert h in [hunk] + rest;
    }
    assert hunk in [hunk] + rest;
  }

  lemma {:induction false} InterleavedNul(gaps: seq<seq<string>>, hunks: seq<TextHunk>)
    requires |gaps| == |hunks| + 1 && !HasNul(Interleave(gaps, OldSides(hunks)))
    requires forall i | 0 <= i < |hunks| :: WellFormedHunk(hunks[i])
    ensures HasNul(Interleave(gaps, NewSides(hunks))) <==> AddsNul(hunks)
  {
    hide HasNul, BodyAddsNul, AddsNul, OldLines, NewLines;
    if hunks == [] {
      NothingAdded();
    } else {
      var hunk, rest := hunks[0], hunks[1..];
      var oldTail, newTail := Interleave(gaps[1..], OldSides(rest)), Interleave(gaps[1..], NewSides(rest));
      assert OldSides(hunks)[1..] == OldSides(rest) && NewSides(hunks)[1..] == NewSides(rest);
      InterleaveFirst(gaps, OldSides(hunks));
      InterleaveFirst(gaps, NewSides(hunks));
      hide Interleave, OldSides, NewSides;
      HasNulSum(gaps[0] + OldLines(hunk.lines), oldTail);
      HasNulSum(gaps[0], OldLines(hunk.lines));
      HasNulSum(gaps[0] + NewLines(hunk.lines), newTail);
      HasNulSum(gaps[0], NewLines(hunk.lines));
      assert WellFormedHunk(hunk);
      BodyNul(hunk.lines);
      InterleavedNul(gaps[1..], rest);
      AddsMore(hunk, rest);
      assert hunks == [hunk] + rest;
    }
  }

  lemma NothingAdded()
    ensures !AddsNul([])
  {
  }

  /** A file free of NUL gets one exactly through an added line. */
  lemma EditedNul(hunks: seq<TextHunk>, source: seq<string>)
    requires ApplyHunks(hunks, source, 0).Ok? && !HasNul(source) && forall i | 0 <= i < |hunks| :: WellFormedHunk(hunks[i])
    ensures 0 in Encode(Render(ApplyHunks(hunks, source, 0).value, true)) <==> AddsNul(hunks)
  {
    var result := ApplyHunks(hunks, source, 0).value;
    hide HasNul, AddsNul, Encode, Render, WellFormedHunk, Interleave, OldSides, NewSides, ApplyHunks;
    var gaps := ApplyDecomposes(hunks, source, 0);
    assert source[0..] == source;
    InterleavedNul(gaps, hunks);
    EncodeNul(Render(result, true));
    RenderNul(result);
  }

  /**
   * Editing or renaming a newline-terminated, line-feed file and then applying the reversed patch
   * restores its bytes, exactly when the edit keeps a line and adds none with a NUL character. (An
   * emptied file is written as one blank line, and a file with a NUL byte is refused as binary.)
   */
  lemma ReverseRestoresBytes(patch: TextFilePatch, oldPath: string, newPath: string, text: string)
    requires WellFormedFile(patch) && patch.oldPath == Some(oldPath) && patch.newPath == Some(newPath)
    requires Positioned(patch.hunks)
    requires LfOnly(text) && EndsWithNewline(text)
    requires ApplyFile(patch, map[oldPath := Encode(text)]).Ok?
    ensures var edited := ApplyFile(patch, map[oldPath := Encode(text)]).value.content;
            edited.Some? &&
            (ApplyFile(ReverseFile(patch), map[newPath := edited.value])
             == Ok(AppliedFile(Some(newPath), Some(oldPath), Some(Encode(text))))
             <==> |SplitLines(text)| + NetGrowth(patch.hunks) != 0 && !AddsNul(patch.hunks))
  {
    var source := SplitLines(text);
    assert 0 !in Encode(text);
    JoinSplit(text);
    assert Render(source, true) == text;
    ApplyEncoded(patch, oldPath, text);
    hide ApplyFile, Encode, SplitLines, LfOnly, WellFormedHunk, ApplyHunks, NetGrowth, BreakFree, Join, ReverseHunks, Positioned, AddsNul, HasNul;
    var result := ApplyHunks(patch.hunks, source, 0).value;
    var edited := Encode(Render(result, true));
    EncodeNul(text);
    RenderNul(source);
    EditedNul(patch.hunks, source);
    ApplyLineCount(patch.hunks, source);
    ReverseUndoesLines(patch.hunks, source);
    AppliedLinesBreakFree(patch.hunks, source, 0);
    if 0 in edited {
      BinaryRefused(ReverseFile(patch), newPath, edited);
    } else {
      ReverseApplied(ReverseFile(patch), newPath, source, result);
      JoinWithBlank(source);
      EncodeInjective(Render(source + [""], true), text);
    }
  }

  /** Creating a file and applying the reversed patch deletes it again, exactly when no added line has a NUL character. */
  lemma ReverseUndoesCreation(patch: TextFilePatch, path: string)
    requires WellFormedFile(patch) && patch.oldPath == None && patch.newPath == Some(path) && Positioned(patch.hunks)
    requires ApplyFile(patch, map[]).Ok?
    ensures var created := ApplyFile(patch, map[]).value.content;
            created.Some? &&
            (ApplyFile(ReverseFile(patch), map[path := created.value]) == Ok(AppliedFile(Some(path), None, None))
             <==> !AddsNul(patch.hunks))
  {
    var result := CreatedLines(patch, path);
    hide ApplyFile, Encode, SplitLines, WellFormedHunk, ApplyHunks, BreakFree, ReverseHunks, Positioned, AddsNul, HasNul;
    EditedNul(patch.hunks, []) by { assert !HasNul([]) by { NothingHasNul(); } }
    ReverseUndoesLines(patch.hunks, []);
    AppliedLinesBreakFree(patch.hunks, [], 0);
    if AddsNul(patch.hunks) {
      BinaryRefused(ReverseFile(patch), path, Encode(Render(result, true)));
    } else {
      DeletedAgain(ReverseFile(patch), path, result);
    }
  }

  lemma NothingHasNul()
    ensures !HasNul([])
  {
  }

  lemma CreatedLines(patch: TextFilePatch, path: string) returns (result: seq<string>)
    requires patch.oldPath == None && patch.newPath == Some(path) && ApplyFile(patch, map[]).Ok?
    ensures ApplyHunks(patch.hunks, [], 0) == Ok(result)
    ensures ApplyFile(patch, map[]) == Ok(AppliedFile(None, Some(path), Some(Encode(Render(result, true)))))
  {
    hide ApplyHunks, Encode, Render;
    assert SplitLines("") == [];
    result := ApplyHunks(patch.hunks, [], 0).value;
  }

  lemma DeletedAgain(patch: TextFilePatch, path: string, result: seq<string>)
    requires patch.oldPath == Some(path) && patch.newPath == None && BreakFreeLines(result)
    requires 0 !in Encode(Render(result, true)) && ApplyHunks(patch.hunks, result, 0).Ok?
    ensures ApplyFile(patch, map[path := Encode(Render(result, true))]) == Ok(AppliedFile(Some(path), None, None))
  {
    hide Encode, BreakFree, ApplyHunks, Decode, Render, SplitLines;
    var text := Render(result, true);
    DecodeInvertsEncode(Encode(text), text);
    RenderedSplits(result);
    if result == [] {
      ApplyWithMoreLines(patch.hunks, [], 0, [""]);
      assert [] + [""] == [""];
    }
  }

  lemma RenderedSplits(result: seq<string>)
    requires BreakFreeLines(result)
    ensures SplitLines(Render(result, true)) == if result == [] then [""] else result
  {
    hide SplitLines;
    if result == [] {
      SplitTerminated([""]);
    } else {
      SplitTerminated(result);
    }
  }

  /**
   * Deleting a newline-terminated, line-feed file and applying the reversed patch restores its bytes, exactly
   * when the hunks remove every line (a deletion ignores the lines its hunks leave), or the file was one blank
   * line and the hunks do nothing (a file made from no lines is one blank line).
   */
  lemma ReverseUndoesDeletion(patch: TextFilePatch, path: string, text: string)
    requires WellFormedFile(patch) && patch.oldPath == Some(path) && patch.newPath == None && Positioned(patch.hunks)
    requires LfOnly(text) && EndsWithNewline(text)
    requires ApplyFile(patch, map[path := Encode(text)]).Ok?
    ensures ApplyFile(patch, map[path := Encode(text)]) == Ok(AppliedFile(Some(path), None, None))
    ensures ApplyFile(ReverseFile(patch), map[]) == Ok(AppliedFile(None, Some(path), Some(Encode(text))))
       <==> |SplitLines(text)| + NetGrowth(patch.hunks) == 0 || (text == "\n" && Idle(ReverseHunks(patch.hunks)))
  {
    var source := SplitLines(text);
    DeletedLines(patch, path, text);
    JoinSplit(text);
    assert Render(source, true) == text;
    hide ApplyFile, Encode, SplitLines, LfOnly, WellFormedHunk, ApplyHunks, NetGrowth, BreakFree, Join, Positioned;
    ReverseUndoesLines(patch.hunks, source);
    ApplyLineCount(patch.hunks, source);
    hide ReverseHunks, Idle, Render;
    CreatedBack(ReverseFile(patch), path);
    ReverseNeedsAll(patch.hunks, source, text);
  }

  lemma DeletedLines(patch: TextFilePatch, path: string, text: string)
    requires patch.oldPath == Some(path) && patch.newPath == None && ApplyFile(patch, map[path := Encode(text)]).Ok?
    ensures ApplyHunks(patch.hunks, SplitLines(text), 0).Ok?
    ensures ApplyFile(patch, map[path := Encode(text)]) == Ok(AppliedFile(Some(path), None, None))
  {
    hide Decode, Encode, ApplyHunks, Render, SplitLines;
    DecodeInvertsEncode(Encode(text), text);
  }

  lemma CreatedBack(patch: TextFilePatch, path: string)
    requires patch.oldPath == None && patch.newPath == Some(path)
    ensures var lines := ApplyHunks(patch.hunks, [], 0);
            ApplyFile(patch, map[]) == if lines.Err? then Err(lines.error) else Ok(AppliedFile(None, Some(path), Some(Encode(Render(lines.value, true)))))
  {
    hide ApplyHunks, Encode, Render;
    assert SplitLines("") == [];
  }

  /** Hunks at the start of the file that neither remove nor add a line. */
  predicate Idle(hunks: seq<TextHunk>) {
    forall i | 0 <= i < |hunks| :: Target(hunks[i]) == 0 && hunks[i].oldCount == 0 && hunks[i].newCount == 0
  }

  lemma {:induction false} NothingFromNothing(hunks: seq<TextHunk>)
    requires CountsMatch(hunks)
    ensures ApplyHunks(hunks, [], 0) == Ok([]) <==> Idle(hunks)
  {
    hide ApplyHunks, OldLines, NewLines, Target, Idle;
    if hunks == [] {
      NothingIdle();
    } else {
      CountsMatchTail(hunks);
      hide CountsMatch;
      NothingFromNothing(hunks[1..]);
      FirstFromNothing(hunks);
      IdleFirst(hunks);
    }
  }

  lemma NothingIdle()
    ensures ApplyHunks([], [], 0) == Ok([]) && Idle([])
  {
  }

  lemma IdleFirst(hunks: seq<TextHunk>)
    requires hunks != []
    ensures Idle(hunks) <==> Target(hunks[0]) == 0 && hunks[0].oldCount == 0 && hunks[0].newCount == 0 && Idle(hunks[1..])
  {
    hide Target;
    assert hunks == [hunks[0]] + hunks[1..];
  }

  lemma NothingContinued(lines: seq<string>, r: Result<seq<string>, DiffError>)
    ensures Continue(lines, r) == Ok([]) <==> lines == [] && r == Ok([])
  {
    if r.Ok? && lines + r.value == [] {
      assert |lines + r.value| == 0;
    }
  }

  lemma FirstFromNothing(hunks: seq<TextHunk>)
    requires hunks != [] && |OldLines(hunks[0].lines)| == hunks[0].oldCount && |NewLines(hunks[0].lines)| == hunks[0].newCount
    ensures ApplyHunks(hunks, [], 0) == Ok([])
       <==> Target(hunks[0]) == 0 && hunks[0].oldCount == 0 && hunks[0].newCount == 0 && ApplyHunks(hunks[1..], [], 0) == Ok([])
  {
    ApplyFirst(hunks, [], 0);
    hide ApplyHunks, OldLines, NewLines, Target;
    if Target(hunks[0]) == 0 && hunks[0].oldCount == 0 {
      var nothing: seq<string> := [];
      assert nothing[0..0] == OldLines(hunks[0].lines) == nothing;
      NothingContinued(NewLines(hunks[0].lines), ApplyHunks(hunks[1..], [], 0));
      assert nothing[0..0] + NewLines(hunks[0].lines) == NewLines(hunks[0].lines);
    }
  }

  lemma {:induction false} ReversedWellFormed(hunks: seq<TextHunk>)
    requires forall i | 0 <= i < |hunks| :: WellFormedHunk(hunks[i])
    ensures forall i | 0 <= i < |hunks| :: WellFormedHunk(ReverseHunks(hunks)[i])
  {
    hide WellFormedHunk;
    if hunks != [] {
      assert WellFormedHunk(hunks[0]);
      HunkReversed(hunks[0]);
      ReversedWellFormed(hunks[1..]);
    }
  }

  lemma HunkReversed(hunk: TextHunk)
    requires WellFormedHunk(hunk)
    ensures WellFormedHunk(ReverseHunk(hunk))
  {
    ReversedBodySides(hunk.lines);
    hide OldLines, NewLines;
    BodyReversed(hunk.lines);
  }

  lemma {:induction false} BodyReversed(body: seq<string>)
    requires forall i | 0 <= i < |body| :: IsBodyLine(body[i]) && BreakFree(body[i])
    ensures |ReverseBody(body)| == |body|
    ensures forall i | 0 <= i < |body| :: IsBodyLine(ReverseBody(body)[i]) && BreakFree(ReverseBody(body)[i])
  {
    if body != [] {
      BodyReversed(body[1..]);
      var line := ReverseLine(body[0]);
      assert forall k | 1 <= k < |line| :: line[k] == body[0][k];
      assert !IsLineBreak('+') && !IsLineBreak('-');
    }
  }

  /** When the reversed hunks build the text from nothing. */
  lemma ReverseNeedsAll(hunks: seq<TextHunk>, source: seq<string>, text: string)
    requires ApplyHunks(hunks, source, 0).Ok? && Positioned(hunks) && Render(source, true) == text && source != []
    requires BreakFreeLines(source) && forall i | 0 <= i < |hunks| :: WellFormedHunk(hunks[i])
    ensures var back := ApplyHunks(ReverseHunks(hunks), [], 0);
            (back.Ok? && Encode(Render(back.value, true)) == Encode(text))
            <==> |source| + NetGrowth(hunks) == 0 || (text == "\n" && Idle(ReverseHunks(hunks)))
  {
    var result, reversed := ApplyHunks(hunks, source, 0).value, ReverseHunks(hunks);
    var back := ApplyHunks(reversed, [], 0);
    ReversedWellFormed(hunks);
    assert CountsMatch(reversed) by { hide ApplyHunks, Render, Encode, OldLines, NewLines; }
    BlankRendered();
    hide ApplyHunks, Encode, Render, NetGrowth, WellFormedHunk, BreakFree, ReverseHunks, Idle, CountsMatch, Positioned;
    ReverseUndoesLines(hunks, source);
    ApplyLineCount(hunks, source);
    ApplyLineCount(reversed, result);
    NothingFromNothing(reversed);
    if back.Ok? {
      EncodeInjective(Render(back.value, true), text);
      ApplyLineCount(reversed, []);
      AppliedLinesBreakFree(reversed, [], 0);
      if Render(back.value, true) == text {
        RenderInjective(back.value, source);
      }
    }
  }

  lemma BlankRendered()
    ensures Render([], true) == "\n"
  {
  }

  lemma RenderInjective(a: seq<string>, b: seq<string>)
    requires Render(a, true) == Render(b, true) && BreakFreeLines(a) && BreakFreeLines(b)
    ensures |a| == |b| || (|a| + |b| == 1)
  {
    hide Render, BreakFree;
    RenderedSplits(a);
    RenderedSplits(b);
  }

  /** Deleting the only line of a file and putting it back leaves a blank line behind it. */
  lemma EmptiedFileExample()
    ensures var patch := TextFilePatch(Some("f"), Some("f"), [TextHunk(1, 1, 0, 0, ["-a"])]);
            && ApplyFile(patch, map["f" := Encode("a\n")]) == Ok(AppliedFile(Some("f"), Some("f"), Some(Encode("\n"))))
            && ApplyFile(ReverseFile(patch), map["f" := Encode("\n")]) == Ok(AppliedFile(Some("f"), Some("f"), Some(Encode("a\n\n"))))
  {
    var hunk, back := TextHunk(1, 1, 0, 0, ["-a"]), TextHunk(0, 0, 1, 1, ["+a"]);
    var patch := TextFilePatch(Some("f"), Some("f"), [hunk]);
    hide ApplyFile, Encode, SplitLines, ApplyHunks, Render;
    EmptiedLines(hunk, back);
    EncodedPlain();
    EmptiedSplits();
    assert [hunk][1..] == [] && ReverseHunks([hunk]) == [back];
    assert ReverseFile(patch) == TextFilePatch(Some("f"), Some("f"), [back]);
    hide ReverseHunks;
    ApplyEncoded(patch, "f", "a\n");
    ApplyEncoded(ReverseFile(patch), "f", "\n");
  }

  lemma EmptiedLines(hunk: TextHunk, back: TextHunk)
    requires hunk == TextHunk(1, 1, 0, 0, ["-a"]) && back == TextHunk(0, 0, 1, 1, ["+a"])
    ensures ApplyHunks([hunk], ["a"], 0) == Ok([]) && ApplyHunks([back], [""], 0) == Ok(["a", ""])
    ensures ReverseHunk(hunk) == back
  {
    assert ["-a"][1..] == [] && ["+a"][1..] == [] && "-a"[1..] == "a" && "+a"[1..] == "a";
    assert OldLines(["-a"]) == ["a"] && NewLines(["-a"]) == [] && OldLines(["+a"]) == [] && NewLines(["+a"]) == ["a"];
    assert "+" + "a" == "+a" && ReverseLine("-a") == "+a" && ReverseBody([]) == [];
    assert ["+a"] + [] == ["+a"] && ReverseBody(["-a"]) == ["+a"];
    hide OldLines, NewLines;
    ApplyFirst([hunk], ["a"], 0);
    ApplyFirst([back], [""], 0);
    assert [hunk][1..] == [] && [back][1..] == [];
    assert ["a"][1..] == [] && [""][0..] == [""] && ["a"][0..0] + [] + [] == [] && [""][0..0] + ["a"] + [""] == ["a", ""];
    assert ApplyHunks([], ["a"], 1) == Ok([]) && ApplyHunks([], [""], 0) == Ok([""]);
  }

  lemma EmptiedSplits()
    ensures SplitLines("a\n") == ["a"] && SplitLines("\n") == [""]
    ensures Render([], true) == "\n" && Render(["a", ""], true) == "a\n\n"
  {
    assert ["a", ""][1..] == [""];
    assert !IsLineBreak('a');
    SplitTerminated(["a"]);
    SplitTerminated([""]);
    assert Join(["a"]) + "\n" == "a\n" && Join([""]) + "\n" == "\n";
  }

  lemma EncodedPlain()
    ensures 0 !in Encode("a\n") && 0 !in Encode("\n")
  {
    assert "a\n"[1..] == "\n" && "\n"[1..] == "";
    assert Encode("\n") == EncodeChar('\n') + Encode("");
  }

  lemma BinaryRefused(patch: TextFilePatch, path: string, raw: Bytes)
    requires patch.oldPath == Some(path) && 0 in raw
    ensures ApplyFile(patch, map[path := raw]) == Err(BinaryContent)
  {
  }

  // ---- Empty old ranges ---------------------------------------------------------------------------

  lemma {:induction false} Rotation(lines: seq<string>, line: string, i: nat)
    requires lines + [line] == [line] + lines && i < |lines|
    ensures lines[i] == line
  {
    assert (lines + [line])[i] == ([line] + lines)[i];
    if i > 0 {
      Rotation(lines, line, i - 1);
    }
  }

  /**
   * A hunk with an empty old range is inserted before the line its start names, while the `diff`
   * utility (IEEE Std 1003.1-2017, unified output format) puts it after that line. The two agree
   * exactly for a start of zero or when the inserted lines all repeat that line.
   */
  lemma EmptyRangePlacement(hunk: TextHunk, source: seq<string>)
    requires hunk.oldCount == 0 && CountsMatch([hunk]) && hunk.oldStart <= |source|
    ensures var inserted := NewLines(hunk.lines);
            ApplyHunks([hunk], source, 0) == Ok(source[..hunk.oldStart] + inserted + source[hunk.oldStart..])
            <==> hunk.oldStart == 0 || forall i | 0 <= i < |inserted| :: inserted[i] == source[hunk.oldStart - 1]
  {
    hide OldLines, NewLines;
    var inserted, target := NewLines(hunk.lines), Target(hunk);
    assert |OldLines([hunk][0].lines)| == 0 && |NewLines([hunk][0].lines)| == hunk.newCount;
    ApplyFirst([hunk], source, 0);
    assert [hunk][1..] == [];
    assert ApplyHunks([hunk], source, 0) == Ok(source[..target] + inserted + source[target..]);
    if hunk.oldStart > 0 {
      PlacementsAgree(source, target, inserted);
    }
  }

  lemma PlacementsAgree(source: seq<string>, at: nat, inserted: seq<string>)
    requires at < |source|
    ensures source[..at] + inserted + source[at..] == source[..at + 1] + inserted + source[at + 1..]
       <==> forall i | 0 <= i < |inserted| :: inserted[i] == source[at]
  {
    var line, head, tail := source[at], source[..at], source[at + 1..];
    var before, after := inserted + [line], [line] + inserted;
    assert head + inserted + source[at..] == head + before + tail;
    assert source[..at + 1] + inserted + tail == head + after + tail;
    Pieces(head, before, tail);
    Pieces(head, after, tail);
    if before == after {
      forall i | 0 <= i < |inserted|
        ensures inserted[i] == line
      {
        Rotation(inserted, line, i);
      }
    }
    if forall i | 0 <= i < |inserted| :: inserted[i] == line {
      assert before == after;
    }
  }

  /** For one: `@@ -1,0 +2 @@` / `+b` turns `a` into `b`, `a`. */
  lemma EmptyRangeExample()
    ensures ApplyHunks([TextHunk(1, 0, 2, 1, ["+b"])], ["a"], 0) == Ok(["b", "a"])
  {
    var hunk := TextHunk(1, 0, 2, 1, ["+b"]);
    assert OldLines(["+b"]) == [] && NewLines(["+b"]) == ["b"];
    ApplyFirst([hunk], ["a"], 0);
    assert ApplyHunks([hunk][1..], ["a"], 0) == Ok(["a"]);
    assert ["a"][0..0] + ["b"] + ["a"] == ["b", "a"];
  }
}
