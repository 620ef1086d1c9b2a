/**
 * `apply_text_diff` of src/agentic_lab/gateway/patch_apply.py: the cursor algorithm, its loops,
 * and its meaning as a decomposition of the file around the hunks.
 */
module DiffApply {
  import opened Wrappers
  import opened Text
  import opened Utf8
  import opened UnifiedDiff
  import DiffParser
  import DiffPrinter

  datatype AppliedFile = AppliedFile(oldPath: Option<string>, newPath: Option<string>, content: Option<Bytes>)

  // ---- The cursor algorithm -----------------------------------------------------------------

  /** `max(hunk.old_start - 1, 0)`: how many lines precede the hunk. */
  function Target(hunk: TextHunk): nat {
    if hunk.oldStart == 0 then 0 else hunk.oldStart - 1
  }

  /** Old lines are matched from `cursor` on; new lines are produced. */
  function ApplyBody(body: seq<string>, source: seq<string>, cursor: nat): (r: Result<(seq<string>, nat), DiffError>)
    requires cursor <= |source|
    ensures r.Ok? ==> cursor <= r.value.1 <= |source|
  {
    if body == [] then Ok(([], cursor))
    else if IsOldLine(body[0]) && (cursor >= |source| || source[cursor] != body[0][1..]) then Err(ContextMismatch)
    else
      var (produced, end) :- ApplyBody(body[1..], source, if IsOldLine(body[0]) then cursor + 1 else cursor);
      Ok(((if IsNewLine(body[0]) then [body[0][1..]] else []) + produced, end))
  }

  function ApplyHunks(hunks: seq<TextHunk>, source: seq<string>, cursor: nat): Result<seq<string>, DiffError>
    requires cursor <= |source|
  {
    if hunks == [] then Ok(source[cursor..])
    else
      var hunk, target := hunks[0], Target(hunks[0]);
      if target < cursor || target > |source| then Err(InvalidRange)
      else
        var (produced, end) :- ApplyBody(hunk.lines, source, target);
        if |OldLines(hunk.lines)| != hunk.oldCount || |NewLines(hunk.lines)| != hunk.newCount then Err(CountMismatch)
        else
          var rest :- ApplyHunks(hunks[1..], source, end);
          Ok(source[cursor..target] + produced + rest)
  }

  /** The base text of a file patch and whether it ends in a newline. */
  function BaseText(patch: TextFilePatch, originals: map<string, Bytes>): Result<(string, bool), DiffError> {
    if patch.oldPath.None? then Ok(("", true))
    else if patch.oldPath.value !in originals then Err(BaseUnavailable)
    else
      var raw := originals[patch.oldPath.value];
      if 0 in raw then Err(BinaryContent)
      else
        match Decode(raw)
        case None => Err(NotUtf8)
        case Some(text) => Ok((text, EndsWithNewline(text)))
  }

  /** `"\n".join(lines)`, newline-terminated on request. */
  function Render(lines: seq<string>, newline: bool): string {
    Join(lines) + (if newline then "\n" else "")
  }

  function ApplyFile(patch: TextFilePatch, originals: map<string, Bytes>): Result<AppliedFile, DiffError>
  {
    var (text, newline) :- BaseText(patch, originals);
    var lines :- ApplyHunks(patch.hunks, SplitLines(text), 0);
    Ok(AppliedFile(patch.oldPath, patch.newPath,
                   if patch.newPath.None? then None else Some(Encode(Render(lines, newline)))))
  }

  function ApplyFiles(patches: seq<TextFilePatch>, originals: map<string, Bytes>): (r: Result<seq<AppliedFile>, DiffError>)
  {
    if patches == [] then Ok([])
    else
      var first :- ApplyFile(patches[0], originals);
      var rest :- ApplyFiles(patches[1..], originals);
      Ok([first] + rest)
  }

  function Apply(diff: string, originals: map<string, Bytes>): (r: Result<seq<AppliedFile>, DiffError>)
  {
    var patches :- Parse(diff);
    ApplyFiles(patches, originals)
  }

  // ---- The loops ------------------------------------------------------------------------------

  method ApplyHunksInOrder(hunks: seq<TextHunk>, source: seq<string>) returns (r: Result<seq<string>, DiffError>)
    ensures r == ApplyHunks(hunks, source, 0)
  {
    hide ApplyBody, OldLines, NewLines;
    var result: seq<string> := [];
    var cursor := 0;
    ghost var whole := ApplyHunks(hunks, source, 0);
    assert hunks[0..] == hunks;
    assert whole.Ok? ==> [] + whole.value == whole.value;
    for k := 0 to |hunks|
      invariant cursor <= |source|
      invariant whole == Continue(result, ApplyHunks(hunks[k..], source, cursor))
    {
      var hunk := hunks[k];
      assert hunks[k..][0] == hunk && hunks[k..][1..] == hunks[k + 1..];
      var target := if hunk.oldStart - 1 > 0 then hunk.oldStart - 1 else 0;
      if target < cursor || target > |source| { return Err(InvalidRange); }
      var body, oldSeen, newSeen := ApplyHunkBody(hunk, source, target);
      if body.Err? { return Err(body.error); }
      if oldSeen != hunk.oldCount || newSeen != hunk.newCount { return Err(CountMismatch); }
      var (produced, end) := body.value;
      ghost var rest := ApplyHunks(hunks[k + 1..], source, end);
      ContinueMore(result, source[cursor..target] + produced, rest);
      result := result + (source[cursor..target] + produced);
      cursor := end;
    }
    result := result + source[cursor..];
    r := Ok(result);
  }

  /** The inner loop: one hunk's lines move the cursor and produce new lines. */
  method ApplyHunkBody(hunk: TextHunk, source: seq<string>, target: nat)
    returns (r: Result<(seq<string>, nat), DiffError>, oldSeen: nat, newSeen: nat)
    requires target <= |source|
    ensures r == ApplyBody(hunk.lines, source, target)
    ensures r.Ok? ==> oldSeen == |OldLines(hunk.lines)| && newSeen == |NewLines(hunk.lines)|
  {
    var cursor: nat, produced: seq<string> := target, [];
    oldSeen, newSeen := 0, 0;
    assert hunk.lines[0..] == hunk.lines;
    ghost var body := ApplyBody(hunk.lines, source, target);
    assert body.Ok? ==> [] + body.value.0 == body.value.0;
    for j := 0 to |hunk.lines|
      invariant cursor <= |source|
      invariant body == ContinueBody(produced, ApplyBody(hunk.lines[j..], source, cursor))
      invariant oldSeen + |OldLines(hunk.lines[j..])| == |OldLines(hunk.lines)|
      invariant newSeen + |NewLines(hunk.lines[j..])| == |NewLines(hunk.lines)|
    {
      var line := hunk.lines[j];
      assert hunk.lines[j..][0] == line && hunk.lines[j..][1..] == hunk.lines[j + 1..];
      if IsOldLine(line) {
        if cursor >= |source| || source[cursor] != line[1..] { return Err(ContextMismatch), oldSeen, newSeen; }
        cursor := cursor + 1;
        oldSeen := oldSeen + 1;
      }
      ghost var rest := ApplyBody(hunk.lines[j + 1..], source, cursor);
      if IsNewLine(line) {
        assert rest.Ok? ==> produced + ([line[1..]] + rest.value.0) == produced + [line[1..]] + rest.value.0;
        produced := produced + [line[1..]];
        newSeen := newSeen + 1;
      } else {
        assert rest.Ok? ==> [] + rest.value.0 == rest.value.0;
      }
    }
    assert produced + [] == produced;
    r := Ok((produced, cursor));
  }

  lemma ContinueMore(done: seq<string>, more: seq<string>, r: Result<seq<string>, DiffError>)
    ensures Continue(done + more, r) == Continue(done, Continue(more, r))
  {
    if r.Ok? {
      assert done + more + r.value == done + (more + r.value);
    }
  }

  function Continue(done: seq<string>, r: Result<seq<string>, DiffError>): Result<seq<string>, DiffError> {
    match r
    case Ok(more) => Ok(done + more)
    case Err(e) => Err(e)
  }

  function ContinueBody(done: seq<string>, r: Result<(seq<string>, nat), DiffError>): Result<(seq<string>, nat), DiffError> {
    match r
    case Ok((more, end)) => Ok((done + more, end))
    case Err(e) => Err(e)
  }

  method ApplyTextDiff(diff: string, originals: map<string, Bytes>) returns (r: Result<seq<AppliedFile>, DiffError>)
    ensures r == Apply(diff, originals)
  {
    hide Parse, BaseText, ApplyHunks, SplitLines, Render, Encode;
    var parsed := DiffParser.ParseTextDiff(diff);
    if parsed.Err? { return Err(parsed.error); }
    var patches := parsed.value;
    var applied: seq<AppliedFile> := [];
    ghost var whole := ApplyFiles(patches, originals);
    assert patches[0..] == patches;
    assert whole.Ok? ==> [] + whole.value == whole.value;
    for k := 0 to |patches|
      invariant whole == match ApplyFiles(patches[k..], originals)
                         case Ok(more) => Ok(applied + more)
                         case Err(e) => Err(e)
    {
      var patch := patches[k];
      assert patches[k..][0] == patch && patches[k..][1..] == patches[k + 1..];
      var base := BaseText(patch, originals);
      if base.Err? { return Err(base.error); }
      var lines := ApplyHunksInOrder(patch.hunks, SplitLines(base.value.0));
      if lines.Err? { return Err(lines.error); }
      var content := if patch.newPath.None? then None else Some(Encode(Render(lines.value, base.value.1)));
      ghost var rest := ApplyFiles(patches[k + 1..], originals);
      var file := AppliedFile(patch.oldPath, patch.newPath, content);
      assert rest.Ok? ==> applied + ([file] + rest.value) == applied + [file] + rest.value;
      applied := applied + [file];
    }
    assert patches[|patches|..] == [] && applied + [] == applied;
    r := Ok(applied);
  }

  // ---- Meaning: the file is cut into gaps and old sides -----------------------------------------

  function OldSides(hunks: seq<TextHunk>): (sides: seq<seq<string>>)
    ensures |sides| == |hunks|
  {
    if hunks == [] then [] else [OldLines(hunks[0].lines)] + OldSides(hunks[1..])
  }

  function NewSides(hunks: seq<TextHunk>): (sides: seq<seq<string>>)
    ensures |sides| == |hunks|
  {
    if hunks == [] then [] else [NewLines(hunks[0].lines)] + NewSides(hunks[1..])
  }

  /** `gaps[0] + sides[0] + gaps[1] + ... + sides[n - 1] + gaps[n]` */
  function Interleave(gaps: seq<seq<string>>, sides: seq<seq<string>>): seq<string>
    requires |gaps| == |sides| + 1
  {
    if sides == [] then gaps[0] else gaps[0] + sides[0] + Interleave(gaps[1..], sides[1..])
  }

  /** How many lines come before side `k`. */
  function Position(gaps: seq<seq<string>>, sides: seq<seq<string>>, k: nat): nat
    requires |gaps| == |sides| + 1 && k < |sides|
  {
    |Interleave(gaps[..k + 1], sides[..k])|
  }

  /** The file consists of the gaps and the hunks' old sides, each side at its hunk's target. */
  ghost predicate Decomposes(source: seq<string>, hunks: seq<TextHunk>, gaps: seq<seq<string>>, from: nat) {
    && |gaps| == |hunks| + 1
    && source == Interleave(gaps, OldSides(hunks))
    && forall k | 0 <= k < |hunks| :: from + Position(gaps, OldSides(hunks), k) == Target(hunks[k])
  }

  ghost predicate CountsMatch(hunks: seq<TextHunk>) {
    forall i | 0 <= i < |hunks| ::
      |OldLines(hunks[i].lines)| == hunks[i].oldCount && |NewLines(hunks[i].lines)| == hunks[i].newCount
  }

  lemma PositionStep(gaps: seq<seq<string>>, sides: seq<seq<string>>, k: nat)
    requires |gaps| == |sides| + 1 && k < |sides|
    ensures k == 0 ==> Position(gaps, sides, k) == |gaps[0]|
    ensures k > 0 ==> Position(gaps, sides, k) == |gaps[0]| + |sides[0]| + Position(gaps[1..], sides[1..], k - 1)
  {
    if k == 0 {
      assert sides[..0] == [];
    } else {
      assert gaps[..k + 1][1..] == gaps[1..][..k] && sides[..k][1..] == sides[1..][..k - 1];
    }
  }

  lemma {:induction false} ApplyBodyMeaning(body: seq<string>, source: seq<string>, cursor: nat)
    requires cursor <= |source|
    ensures var end := cursor + |OldLines(body)|;
            ApplyBody(body, source, cursor)
            == if end <= |source| && source[cursor..end] == OldLines(body) then Ok((NewLines(body), end)) else Err(ContextMismatch)
  {
    if body != [] {
      var oldSide, end := OldLines(body), cursor + |OldLines(body)|;
      if !IsOldLine(body[0]) {
        ApplyBodyMeaning(body[1..], source, cursor);
      } else if cursor < |source| && source[cursor] == body[0][1..] {
        ApplyBodyMeaning(body[1..], source, cursor + 1);
        assert oldSide[1..] == OldLines(body[1..]);
        if end <= |source| {
          SliceHead(source, cursor, end);
          assert oldSide == [oldSide[0]] + oldSide[1..];
        }
      } else if end <= |source| {
        SliceHead(source, cursor, end);
      }
    }
  }

  lemma SliceHead<T>(s: seq<T>, i: nat, j: nat)
    requires i < j <= |s|
    ensures s[i..j] == [s[i]] + s[i + 1..j]
  {
  }

  /** One step of a decomposition: the first gap, the first old side, and the rest. */
  ghost predicate DecomposesFirst(source: seq<string>, hunks: seq<TextHunk>, gaps: seq<seq<string>>, from: nat)
    requires hunks != [] && |gaps| == |hunks| + 1
  {
    var gap, oldSide := gaps[0], OldLines(hunks[0].lines);
    var end := |gap| + |oldSide|;
    && from + |gap| == Target(hunks[0])
    && end <= |source| && source[..|gap|] == gap && source[|gap|..end] == oldSide
    && Decomposes(source[end..], hunks[1..], gaps[1..], from + end)
  }

  lemma DecomposesStep(source: seq<string>, hunks: seq<TextHunk>, gaps: seq<seq<string>>, from: nat)
    requires hunks != [] && |gaps| == |hunks| + 1
    ensures Decomposes(source, hunks, gaps, from) <==> DecomposesFirst(source, hunks, gaps, from)
  {
    hide Interleave, OldLines, Target;
    var gap, oldSide := gaps[0], OldLines(hunks[0].lines);
    var end := |gap| + |oldSide|;
    var sides := OldSides(hunks);
    assert sides[1..] == OldSides(hunks[1..]);
    InterleaveFirst(gaps, sides);
    var tail := Interleave(gaps[1..], sides[1..]);
    if end <= |source| && source[..|gap|] == gap && source[|gap|..end] == oldSide {
      assert source == gap + oldSide + source[end..];
    }
    if source == gap + oldSide + tail {
      assert source[..|gap|] == gap && source[|gap|..end] == oldSide && source[end..] == tail;
    }
    forall k | 0 <= k < |hunks|
      ensures k == 0 ==> Position(gaps, sides, k) == |gap|
      ensures k > 0 ==> Position(gaps, sides, k) == end + Position(gaps[1..], sides[1..], k - 1)
    {
      PositionStep(gaps, sides, k);
    }
    assert forall k | 0 <= k < |hunks| - 1 :: hunks[1..][k] == hunks[k + 1];
    assert (forall k | 0 <= k < |hunks| :: from + Position(gaps, sides, k) == Target(hunks[k]))
      ==> forall k | 0 <= k < |hunks| - 1 :: from + end + Position(gaps[1..], sides[1..], k) == Target(hunks[1..][k]) by {
      if forall k | 0 <= k < |hunks| :: from + Position(gaps, sides, k) == Target(hunks[k]) {
        forall k | 0 <= k < |hunks| - 1
          ensures from + end + Position(gaps[1..], sides[1..], k) == Target(hunks[1..][k])
        {
          assert from + Position(gaps, sides, k + 1) == Target(hunks[k + 1]);
        }
      }
    }
  }

  lemma InterleaveFirst(gaps: seq<seq<string>>, sides: seq<seq<string>>)
    requires sides != [] && |gaps| == |sides| + 1
    ensures Interleave(gaps, sides) == gaps[0] + sides[0] + Interleave(gaps[1..], sides[1..])
  {
  }

  lemma CountsMatchTail(hunks: seq<TextHunk>)
    requires hunks != []
    ensures CountsMatch(hunks)
       <==> |OldLines(hunks[0].lines)| == hunks[0].oldCount && |NewLines(hunks[0].lines)| == hunks[0].newCount && CountsMatch(hunks[1..])
  {
    hide OldLines, NewLines;
    assert forall i | 0 < i < |hunks| :: hunks[i] == hunks[1..][i - 1];
  }

  /** What the applier does with the first hunk. */
  lemma ApplyFirst(hunks: seq<TextHunk>, source: seq<string>, cursor: nat)
    requires hunks != [] && cursor <= |source|
    ensures var oldSide, newSide, target := OldLines(hunks[0].lines), NewLines(hunks[0].lines), Target(hunks[0]);
            var end := target + |oldSide|;
            if cursor <= target && end <= |source| && source[target..end] == oldSide
               && |oldSide| == hunks[0].oldCount && |newSide| == hunks[0].newCount
            then ApplyHunks(hunks, source, cursor) == Continue(source[cursor..target] + newSide, ApplyHunks(hunks[1..], source, end))
            else ApplyHunks(hunks, source, cursor).Err?
  {
    hide ApplyBody, OldLines, NewLines;
    if cursor <= Target(hunks[0]) <= |source| {
      ApplyBodyMeaning(hunks[0].lines, source, Target(hunks[0]));
    }
  }

  /** Success yields the decomposition with the new sides put in. */
  lemma {:induction false} ApplyDecomposes(hunks: seq<TextHunk>, source: seq<string>, cursor: nat) returns (gaps: seq<seq<string>>)
    requires cursor <= |source| && ApplyHunks(hunks, source, cursor).Ok?
    ensures Decomposes(source[cursor..], hunks, gaps, cursor) && CountsMatch(hunks)
    ensures ApplyHunks(hunks, source, cursor).value == Interleave(gaps, NewSides(hunks))
  {
    if hunks == [] {
      gaps := [source[cursor..]];
    } else {
      ApplyFirst(hunks, source, cursor);
      hide ApplyHunks, OldLines, NewLines, Decomposes, CountsMatch, Interleave, NewSides, Target;
      var target := Target(hunks[0]);
      var end := target + |OldLines(hunks[0].lines)|;
      var rest := ApplyDecomposes(hunks[1..], source, end);
      var first := source[cursor..target];
      gaps := [first] + rest;
      assert gaps[0] == first && gaps[1..] == rest;
      NewSidesFirst(hunks);
      InterleaveFirst(gaps, NewSides(hunks));
      CountsMatchTail(hunks);
      DecomposesAlso(hunks, source, cursor, rest);
    }
  }

  lemma DecomposesAlso(hunks: seq<TextHunk>, source: seq<string>, cursor: nat, rest: seq<seq<string>>)
    requires hunks != [] && cursor <= Target(hunks[0])
    requires var end := Target(hunks[0]) + |OldLines(hunks[0].lines)|;
             && end <= |source| && source[Target(hunks[0])..end] == OldLines(hunks[0].lines)
             && Decomposes(source[end..], hunks[1..], rest, end)
    ensures Decomposes(source[cursor..], hunks, [source[cursor..Target(hunks[0])]] + rest, cursor)
  {
    assert |rest| == |hunks|;
    hide Decomposes, OldLines, Target;
    var target := Target(hunks[0]);
    var end := target + |OldLines(hunks[0].lines)|;
    var gaps := [source[cursor..target]] + rest;
    assert gaps[0] == source[cursor..target] && gaps[1..] == rest;
    SliceSlices(source, cursor, target, end);
    assert DecomposesFirst(source[cursor..], hunks, gaps, cursor);
    DecomposesStep(source[cursor..], hunks, gaps, cursor);
  }

  lemma NewSidesFirst(hunks: seq<TextHunk>)
    requires hunks != []
    ensures NewSides(hunks)[0] == NewLines(hunks[0].lines) && NewSides(hunks)[1..] == NewSides(hunks[1..])
  {
  }

  lemma SliceSlices<T>(s: seq<T>, i: nat, j: nat, k: nat)
    requires i <= j <= k <= |s|
    ensures s[i..][..j - i] == s[i..j] && s[i..][j - i..k - i] == s[j..k] && s[i..][k - i..] == s[k..]
  {
  }

  /** A decomposition makes the applier succeed, and fixes its result. */
  lemma {:induction false} DecomposedApplies(hunks: seq<TextHunk>, source: seq<string>, cursor: nat, gaps: seq<seq<string>>)
    requires cursor <= |source| && CountsMatch(hunks)
    requires Decomposes(source[cursor..], hunks, gaps, cursor)
    ensures ApplyHunks(hunks, source, cursor) == Ok(Interleave(gaps, NewSides(hunks)))
  {
    if hunks == [] {
      assert OldSides(hunks) == [] && NewSides(hunks) == [];
    } else {
      DecomposesStep(source[cursor..], hunks, gaps, cursor);
      ApplyFirst(hunks, source, cursor);
      hide ApplyHunks, OldLines, NewLines, Decomposes, CountsMatch, Interleave;
      var target := Target(hunks[0]);
      var end := target + |OldLines(hunks[0].lines)|;
      SliceSlices(source, cursor, target, end);
      CountsMatchTail(hunks);
      DecomposedApplies(hunks[1..], source, end, gaps[1..]);
      assert NewSides(hunks)[1..] == NewSides(hunks[1..]);
      InterleaveFirst(gaps, NewSides(hunks));
    }
  }

  /**
   * Applying hunks succeeds exactly when the file decomposes around their old sides at the
   * positions their starts fix; the result has the new sides in the same gaps.
   */
  lemma ApplyMeaning(hunks: seq<TextHunk>, source: seq<string>)
    requires CountsMatch(hunks)
    ensures ApplyHunks(hunks, source, 0).Ok? <==> exists gaps :: Decomposes(source, hunks, gaps, 0)
    ensures forall gaps | Decomposes(source, hunks, gaps, 0) ::
              ApplyHunks(hunks, source, 0) == Ok(Interleave(gaps, NewSides(hunks)))
  {
    assert source[0..] == source;
    if ApplyHunks(hunks, source, 0).Ok? {
      var gaps := ApplyDecomposes(hunks, source, 0);
      assert Decomposes(source, hunks, gaps, 0);
    }
    forall gaps | Decomposes(source, hunks, gaps, 0)
      ensures ApplyHunks(hunks, source, 0) == Ok(Interleave(gaps, NewSides(hunks)))
    {
      DecomposedApplies(hunks, source, 0, gaps);
    }
  }

  // ---- Consequences -----------------------------------------------------------------------------

  function NetGrowth(hunks: seq<TextHunk>): int {
    if hunks == [] then 0 else hunks[0].newCount - hunks[0].oldCount + NetGrowth(hunks[1..])
  }

  lemma {:induction false} InterleaveLengths(gaps: seq<seq<string>>, hunks: seq<TextHunk>)
    requires |gaps| == |hunks| + 1 && CountsMatch(hunks)
    ensures |Interleave(gaps, NewSides(hunks))| == |Interleave(gaps, OldSides(hunks))| + NetGrowth(hunks)
  {
    if hunks != [] {
      assert |OldLines(hunks[0].lines)| == hunks[0].oldCount && |NewLines(hunks[0].lines)| == hunks[0].newCount;
      InterleaveLengths(gaps[1..], hunks[1..]);
      assert OldSides(hunks)[1..] == OldSides(hunks[1..]) && NewSides(hunks)[1..] == NewSides(hunks[1..]);
    }
  }

  /** The line count changes by the sum of the hunks' new minus old counts. */
  lemma ApplyLineCount(hunks: seq<TextHunk>, source: seq<string>)
    requires ApplyHunks(hunks, source, 0).Ok?
    ensures |ApplyHunks(hunks, source, 0).value| == |source| + NetGrowth(hunks)
  {
    var gaps := ApplyDecomposes(hunks, source, 0);
    InterleaveLengths(gaps, hunks);
  }

  lemma {:induction false} NoCountMismatch(hunks: seq<TextHunk>, source: seq<string>, cursor: nat)
    requires CountsMatch(hunks) && cursor <= |source|
    ensures ApplyHunks(hunks, source, cursor) != Err(CountMismatch)
  {
    if hunks != [] {
      var target := Target(hunks[0]);
      if cursor <= target <= |source| {
        ApplyBodyMeaning(hunks[0].lines, source, target);
        var end := target + |OldLines(hunks[0].lines)|;
        if end <= |source| {
          NoCountMismatch(hunks[1..], source, end);
        }
        assert |OldLines(hunks[0].lines)| == hunks[0].oldCount && |NewLines(hunks[0].lines)| == hunks[0].newCount;
      }
    }
  }

  /** The applier's own count check never fires: the parser has already enforced the counts. */
  lemma SecondCountCheckIsDead(diff: string, originals: map<string, Bytes>)
    requires Parse(diff).Ok?
    ensures Apply(diff, originals) != Err(CountMismatch)
  {
    DiffPrinter.ParsedIsWellFormed(diff);
    FilesNeverMismatch(Parse(diff).value, originals);
  }

  lemma {:induction false} FilesNeverMismatch(patches: seq<TextFilePatch>, originals: map<string, Bytes>)
    requires forall i | 0 <= i < |patches| :: WellFormedFile(patches[i])
    ensures ApplyFiles(patches, originals) != Err(CountMismatch)
  {
    if patches != [] {
      assert WellFormedFile(patches[0]);
      var base := BaseText(patches[0], originals);
      if base.Ok? {
        NoCountMismatch(patches[0].hunks, SplitLines(base.value.0), 0);
      }
      FilesNeverMismatch(patches[1..], originals);
    }
  }

  // ---- What the applier writes ------------------------------------------------------------------

  /** The text a file patch starts from: nothing for a new file, else the decoded base file. */
  ghost predicate IsBase(patch: TextFilePatch, originals: map<string, Bytes>, text: string) {
    match patch.oldPath
    case None => text == ""
    case Some(path) => path in originals && originals[path] == Encode(text) && 0 !in originals[path]
  }

  lemma BaseIsText(patch: TextFilePatch, originals: map<string, Bytes>)
    requires BaseText(patch, originals).Ok?
    ensures var (text, newline) := BaseText(patch, originals).value;
            IsBase(patch, originals, text) && (newline <==> patch.oldPath.None? || EndsWithNewline(text))
  {
    if patch.oldPath.Some? {
      DecodeInvertsEncode(originals[patch.oldPath.value], BaseText(patch, originals).value.0);
    }
  }

  /**
   * Each file is written with the new sides of its hunks in the gaps its old sides leave in the base text, line
   * by line, and with a final newline exactly if it is new or its base had one.
   */
  lemma AppliedContents(diff: string, originals: map<string, Bytes>, i: nat) returns (text: string, gaps: seq<seq<string>>)
    requires Apply(diff, originals).Ok? && i < |Apply(diff, originals).value|
    ensures i < |Parse(diff).value|
    ensures var patch, item := Parse(diff).value[i], Apply(diff, originals).value[i];
            && item.oldPath == patch.oldPath && item.newPath == patch.newPath
            && IsBase(patch, originals, text) && Decomposes(SplitLines(text), patch.hunks, gaps, 0)
            && item.content == if patch.newPath.None? then None
                               else Some(Encode(Join(Interleave(gaps, NewSides(patch.hunks)))
                                                + if patch.oldPath.None? || EndsWithNewline(text) then "\n" else ""))
  {
    DiffPrinter.ParsedIsWellFormed(diff);
    hide Parse, ApplyFile, Decomposes, Encode, SplitLines, Interleave;
    var patches := Parse(diff).value;
    FileApplied(patches, originals, i);
    assert WellFormedFile(patches[i]);
    text, gaps := FileContents(patches[i], originals);
  }

  lemma {:induction false} FileApplied(patches: seq<TextFilePatch>, originals: map<string, Bytes>, i: nat)
    requires ApplyFiles(patches, originals).Ok? && i < |ApplyFiles(patches, originals).value|
    ensures i < |patches| && ApplyFile(patches[i], originals) == Ok(ApplyFiles(patches, originals).value[i])
  {
    hide ApplyFile;
    if i > 0 {
      FileApplied(patches[1..], originals, i - 1);
    }
  }

  lemma FileContents(patch: TextFilePatch, originals: map<string, Bytes>) returns (text: string, gaps: seq<seq<string>>)
    requires CountsMatch(patch.hunks) && ApplyFile(patch, originals).Ok?
    ensures var item := ApplyFile(patch, originals).value;
            && item.oldPath == patch.oldPath && item.newPath == patch.newPath
            && IsBase(patch, originals, text) && Decomposes(SplitLines(text), patch.hunks, gaps, 0)
            && item.content == if patch.newPath.None? then None
                               else Some(Encode(Join(Interleave(gaps, NewSides(patch.hunks)))
                                                + if patch.oldPath.None? || EndsWithNewline(text) then "\n" else ""))
  {
    hide BaseText, ApplyHunks, Decomposes, CountsMatch, Encode, SplitLines, Interleave, Join;
    BaseIsText(patch, originals);
    text := BaseText(patch, originals).value.0;
    assert SplitLines(text)[0..] == SplitLines(text);
    gaps := ApplyDecomposes(patch.hunks, SplitLines(text), 0);
  }
}
