/**
 * Reading a pinned snapshot in bounded windows, and the locators it issues for what it returned:
 * src/agentic_lab/tools/snapshot.py.
 */
module Snapshots {
  import opened Wrappers
  import opened Text
  import opened Utf8

  const MAX_READ_LINES := 200
  const MAX_READ_BYTES := 32_000
  const MAX_SEARCH_RESULTS := 50
  const MAX_MATCH_BYTES := 1_000

  datatype SourceLocator = SourceLocator(locator: string, pinnedSha: string, contentHash: string)

  datatype FileReadResult = FileReadResult(text: string, truncated: bool, locator: SourceLocator)

  datatype TextMatch = TextMatch(path: string, line: nat, text: string, locator: SourceLocator, truncated: bool)

  datatype ReadError = InvalidWindow | UnsafePath | FileNotFound

  /** `sha256` is any function of the bytes. */
  datatype Snapshot = Snapshot(pinnedSha: string, files: map<string, string>, sha256: Bytes -> string)

  predicate SafePath(path: string) {
    !(path != "" && path[0] == '/') && ".." !in Split(path, '/') && '\0' !in path
  }

  function Min(a: int, b: int): int {
    if a < b then a else b
  }

  /** `lines[start - 1 : end]` for a start of at least one. */
  function Window(lines: seq<string>, start: nat, end: nat): (selected: seq<string>)
    requires 1 <= start <= end
    ensures |selected| == if start <= |lines| then Min(end, |lines|) - start + 1 else 0
  {
    if start > |lines| then [] else lines[start - 1..Min(end, |lines|)]
  }

  function FormatLocator(path: string, start: nat, end: nat): string {
    path + "#L" + PrintNat(start) + "-L" + PrintNat(end)
  }

  function LocatorFor(s: Snapshot, path: string, start: nat, end: nat, excerpt: string): SourceLocator {
    SourceLocator(FormatLocator(path, start, end), s.pinnedSha, s.sha256(Encode(excerpt)))
  }

  /** The excerpt behind a search locator. */
  function Excerpt(s: Snapshot, path: string, start: nat, end: nat): string
    requires path in s.files && 1 <= start <= end
  {
    Truncate(Join(Window(SplitLines(s.files[path]), start, end)), MAX_READ_BYTES)
  }

  /** `_locator` without an excerpt, as `search_text` and `search_structure` call it. */
  function SearchLocator(s: Snapshot, path: string, start: nat, end: nat): SourceLocator
    requires path in s.files && 1 <= start <= end
  {
    LocatorFor(s, path, start, end, Excerpt(s, path, start, end))
  }

  function ReadFile(s: Snapshot, path: string, startLine: int, endLine: int): Result<FileReadResult, ReadError> {
    if !SafePath(path) then Err(UnsafePath)
    else if startLine < 1 || endLine < startLine || endLine - startLine >= MAX_READ_LINES then Err(InvalidWindow)
    else if path !in s.files then Err(FileNotFound)
    else
      var lines := SplitLines(s.files[path]);
      var fullText := Join(Window(lines, startLine, endLine));
      var text := Truncate(fullText, MAX_READ_BYTES);
      var actualEnd := Min(Min(endLine, |lines|), startLine + CountNewlines(text));
      Ok(FileReadResult(text, |lines| > endLine || text != fullText, LocatorFor(s, path, startLine, actualEnd, text)))
  }

  /** The last line `ReadFile` reports. */
  function ActualEnd(s: Snapshot, path: string, start: nat, end: nat): nat
    requires path in s.files && 1 <= start <= end
  {
    Min(Min(end, |SplitLines(s.files[path])|), start + CountNewlines(Excerpt(s, path, start, end)))
  }

  // ---- Re-reading what was reported ------------------------------------------------------------------

  /** Reading only the reported lines selects the text that survived the cut. */
  lemma CutIsStable(lines: seq<string>, start: nat, end: nat)
    requires BreakFreeLines(lines) && 1 <= start <= end && start <= |lines|
    ensures var text := Truncate(Join(Window(lines, start, end)), MAX_READ_BYTES);
            var last := start + CountNewlines(text);
            && last <= Min(end, |lines|)
            && Truncate(Join(Window(lines, start, last)), MAX_READ_BYTES) == text
  {
    hide Truncate, CountNewlines, Join, BreakFree, Encode;
    var selected := Window(lines, start, end);
    var full := Join(selected);
    var text := Truncate(full, MAX_READ_BYTES);
    assert BreakFreeLines(selected);
    PrefixWithinLines(selected, text);
    var n := CountNewlines(text) + 1;
    var kept := selected[..n];
    assert kept == Window(lines, start, start + n - 1);
    JoinPrefix(selected, n);
    TruncateBetween(full, Join(kept), MAX_READ_BYTES);
  }

  /**
   * Re-reading the range that `read_file` reported returns the identical text and locator exactly when
   * the window starts inside the file, even if the byte cut fell inside a line or a character. Past the
   * end the reported range is empty and reading it is refused.
   */
  lemma RereadIsStable(s: Snapshot, path: string, start: nat, end: nat)
    requires ReadFile(s, path, start, end).Ok?
    ensures 1 <= start <= end && path in s.files
    ensures var first := ReadFile(s, path, start, end).value;
            var last := ActualEnd(s, path, start, end);
            && first.locator == LocatorFor(s, path, start, last, first.text)
            && if start <= |SplitLines(s.files[path])|
               then ReadFile(s, path, start, last).Ok?
                    && ReadFile(s, path, start, last).value.text == first.text
                    && ReadFile(s, path, start, last).value.locator == first.locator
               else first.text == "" && ReadFile(s, path, start, last) == Err(InvalidWindow)
  {
    hide Truncate, CountNewlines, SplitLines, Join;
    var lines := SplitLines(s.files[path]);
    if start <= |lines| {
      CutIsStable(lines, start, end);
    } else {
      EmptyCut();
    }
  }

  // ---- What a read returns --------------------------------------------------------------------------------

  /** The longest prefix of `whole` that fits in `limit` bytes. */
  ghost predicate IsCut(text: string, whole: string, limit: nat) {
    text <= whole && |Encode(text)| <= limit && forall p | p <= whole && |Encode(p)| <= limit :: p <= text
  }

  /** The lines numbered `first` to `last`. */
  function Numbered(lines: seq<string>, first: nat, last: nat): seq<string>
    requires 1 <= first <= last <= |lines|
  {
    seq(last - first + 1, k requires 0 <= k <= last - first => lines[first - 1 + k])
  }

  lemma WindowIsNumbered(lines: seq<string>, start: nat, end: nat)
    requires 1 <= start <= end && start <= |lines|
    ensures Window(lines, start, end) == Numbered(lines, start, Min(end, |lines|))
  {
  }

  lemma CutIs(text: string, whole: string, limit: nat)
    ensures IsCut(text, whole, limit) <==> text == Truncate(whole, limit)
  {
    hide Truncate;
    if IsCut(text, whole, limit) {
      assert text <= Truncate(whole, limit) <= text;
    }
  }

  /** When a read is answered, and in which order it is refused. */
  lemma ReadAnswered(s: Snapshot, path: string, start: int, end: int)
    ensures ReadFile(s, path, start, end).Ok?
       <==> !StartsWith(path, "/") && ".." !in Split(path, '/') && '\0' !in path && 1 <= start <= end < start + 200 && path in s.files
    ensures ReadFile(s, path, start, end) == Err(UnsafePath) <==> StartsWith(path, "/") || ".." in Split(path, '/') || '\0' in path
    ensures ReadFile(s, path, start, end) == Err(FileNotFound)
       <==> !StartsWith(path, "/") && ".." !in Split(path, '/') && '\0' !in path && 1 <= start <= end < start + 200 && path !in s.files
  {
    assert path != "" ==> path[..1][0] == path[0];
    assert StartsWith(path, "/") <==> path != "" && path[0] == '/';
    hide Split, Truncate;
  }

  /**
   * A read that starts inside the file returns the longest prefix of at most 32,000 bytes of the numbered lines,
   * and says it is truncated exactly if it leaves out lines or text. Its hash is that of the text.
   */
  lemma ReadMeaning(s: Snapshot, path: string, start: nat, end: nat)
    requires ReadFile(s, path, start, end).Ok?
    ensures 1 <= start <= end && path in s.files
    ensures var lines, r := SplitLines(s.files[path]), ReadFile(s, path, start, end).value;
            && r.locator.pinnedSha == s.pinnedSha && r.locator.contentHash == s.sha256(Encode(r.text))
            && if start > |lines| then r.text == "" && !r.truncated
               else
                 var last := if end < |lines| then end else |lines|;
                 var whole := Join(Numbered(lines, start, last));
                 IsCut(r.text, whole, 32_000) && (r.truncated <==> last < |lines| || r.text != whole)
  {
    hide Truncate, SplitLines, Join, Numbered, CountNewlines, IsCut, Window;
    var lines, r := SplitLines(s.files[path]), ReadFile(s, path, start, end).value;
    if start <= |lines| {
      WindowIsNumbered(lines, start, end);
      CutIs(r.text, Join(Window(lines, start, end)), MAX_READ_BYTES);
    } else {
      EmptyCut();
      NoWindow(lines, start, end);
    }
  }

  lemma NoWindow(lines: seq<string>, start: nat, end: nat)
    requires |lines| < start <= end
    ensures Window(lines, start, end) == []
  {
  }

  /** The range a read reports ends at the first line by which the text is complete. */
  lemma ReportedRange(s: Snapshot, path: string, start: nat, end: nat) returns (last: nat)
    requires ReadFile(s, path, start, end).Ok? && start <= |SplitLines(s.files[path])|
    ensures var lines, r := SplitLines(s.files[path]), ReadFile(s, path, start, end).value;
            && 1 <= start <= last <= |lines| && last <= end
            && r.locator.locator == path + "#L" + PrintNat(start) + "-L" + PrintNat(last)
            && r.text <= Join(Numbered(lines, start, last))
            && forall n | start <= n < last :: !(r.text <= Join(Numbered(lines, start, n)))
  {
    hide Truncate, SplitLines, CountNewlines, Join, Numbered, Window, PrintNat;
    var lines, text := SplitLines(s.files[path]), ReadFile(s, path, start, end).value.text;
    last := ActualEnd(s, path, start, end);
    CutIsStable(lines, start, end);
    WindowIsNumbered(lines, start, last);
    forall n | start <= n < last
      ensures !(text <= Join(Numbered(lines, start, n)))
    {
      LinesReached(lines, start, n, text);
    }
  }

  lemma LinesReached(lines: seq<string>, start: nat, n: nat, text: string)
    requires BreakFreeLines(lines) && 1 <= start <= n <= |lines| && CountNewlines(text) > n - start
    ensures !(text <= Join(Numbered(lines, start, n)))
  {
    var selected := Numbered(lines, start, n);
    assert BreakFreeLines(selected);
    CountNewlinesJoined(selected);
    hide CountNewlines, Join, BreakFree;
    if text <= Join(selected) {
      assert Join(selected) == text + Join(selected)[|text|..];
      CountNewlinesConcat(text, Join(selected)[|text|..]);
    }
  }

  /** Two adjoining reads that are not cut hold together what one read of both ranges returns, up to its cut. */
  lemma ReadsJoin(s: Snapshot, path: string, start: nat, middle: nat, end: nat)
    requires ReadFile(s, path, start, end).Ok? && start <= middle < end && middle < |SplitLines(s.files[path])|
    ensures ReadFile(s, path, start, middle).Ok? && ReadFile(s, path, middle + 1, end).Ok?
    ensures var lines := SplitLines(s.files[path]);
            var first, second := ReadFile(s, path, start, middle).value.text, ReadFile(s, path, middle + 1, end).value.text;
            first == Join(Numbered(lines, start, middle)) && second == Join(Numbered(lines, middle + 1, if end < |lines| then end else |lines|))
            ==> IsCut(ReadFile(s, path, start, end).value.text, first + "\n" + second, 32_000)
  {
    hide Truncate, SplitLines, Join, CountNewlines, IsCut, Numbered, Window;
    var lines := SplitLines(s.files[path]);
    var last := if end < |lines| then end else |lines|;
    ReadMeaning(s, path, start, end);
    NumberedSplit(lines, start, middle, last);
    JoinBoth(Numbered(lines, start, middle), Numbered(lines, middle + 1, last));
  }

  lemma NumberedSplit(lines: seq<string>, start: nat, middle: nat, last: nat)
    requires 1 <= start <= middle < last <= |lines|
    ensures Numbered(lines, start, last) == Numbered(lines, start, middle) + Numbered(lines, middle + 1, last)
    ensures Numbered(lines, start, middle) != [] && Numbered(lines, middle + 1, last) != []
  {
  }

  /** A read past the end: the reported range L2-L1 cannot be read again. */
  lemma ReadPastEndExample(sha256: Bytes -> string)
    ensures var s := Snapshot("0", map["f" := "x"], sha256);
            && ReadFile(s, "f", 2, 2).Ok? && ReadFile(s, "f", 2, 2).value.text == ""
            && ReadFile(s, "f", 2, 2).value.locator == LocatorFor(s, "f", 2, 1, "")
            && ReadFile(s, "f", 2, 1) == Err(InvalidWindow)
  {
    assert BreakFree("x");
    SplitSingle("x");
    assert IndexOf("f", '/') == 1 && Split("f", '/') == ["f"];
    EmptyCut();
    hide SplitLines, Split, Truncate;
  }

  lemma EmptyCut()
    ensures Join([]) == "" && Truncate("", MAX_READ_BYTES) == "" && CountNewlines("") == 0
  {
  }

  // ---- Searching text --------------------------------------------------------------------------------------

  function MatchAt(s: Snapshot, path: string, number: nat): TextMatch
    requires path in s.files && 1 <= number <= |SplitLines(s.files[path])|
  {
    var line := SplitLines(s.files[path])[number - 1];
    TextMatch(path, number, Truncate(line, MAX_MATCH_BYTES), SearchLocator(s, path, number, number), |Encode(line)| > MAX_MATCH_BYTES)
  }

  /** The matches in one file from line `number` on. */
  function FileMatches(s: Snapshot, path: string, matches: string -> bool, number: nat): seq<TextMatch>
    requires path in s.files && 1 <= number
    decreases |SplitLines(s.files[path])| - number
  {
    var lines := SplitLines(s.files[path]);
    if number > |lines| then []
    else (if matches(lines[number - 1]) then [MatchAt(s, path, number)] else []) + FileMatches(s, path, matches, number + 1)
  }

  function AllMatches(s: Snapshot, paths: seq<string>, prefix: string, matches: string -> bool): seq<TextMatch>
    requires forall i | 0 <= i < |paths| :: paths[i] in s.files
  {
    if paths == [] then []
    else (if StartsWith(paths[0], prefix) then FileMatches(s, paths[0], matches, 1) else [])
         + AllMatches(s, paths[1..], prefix, matches)
  }

  function Take<T>(items: seq<T>, n: nat): seq<T> {
    if |items| <= n then items else items[..n]
  }

  lemma TakeMore<T>(found: seq<T>, more: seq<T>, later: seq<T>, limit: nat)
    ensures Take(found + more, limit) + later == found + more + later || |Take(found + more, limit)| == limit
    ensures |found + more| >= limit ==> Take(found + (more + later), limit) == Take(found + more, limit)
    ensures found + (more + later) == found + more + later
  {
  }

  /** The inner loop of `search_text`: the matches of one file are appended until the limit is reached. */
  method SearchFile(s: Snapshot, path: string, matches: string -> bool, found: seq<TextMatch>, limit: nat)
    returns (result: seq<TextMatch>)
    requires path in s.files && |found| < limit
    ensures result == Take(found + FileMatches(s, path, matches, 1), limit)
  {
    hide MatchAt, SplitLines;
    result := found;
    var lines := SplitLines(s.files[path]);
    ghost var all := found + FileMatches(s, path, matches, 1);
    for number := 1 to |lines| + 1
      invariant |result| < limit
      invariant all == result + FileMatches(s, path, matches, number)
    {
      ghost var rest := FileMatches(s, path, matches, number + 1);
      if matches(lines[number - 1]) {
        var item := MatchAt(s, path, number);
        assert result + ([item] + rest) == result + [item] + rest;
        result := result + [item];
        if |result| == limit {
          assert all[..limit] == result;
          return;
        }
      } else {
        assert [] + rest == rest;
      }
    }
    assert result + [] == result;
  }

  datatype SearchError = InvalidQuery | InvalidLimit | UnsafePrefix | InvalidPattern

  /**
   * `search_text`: `paths` is the iteration order of the file table, and `matcher` the compiled query, or
   * nothing for an invalid regular expression. It returns the first `limit` matches.
   */
  method SearchText(s: Snapshot, paths: seq<string>, query: string, prefix: string, matcher: Option<string -> bool>, limit: int)
    returns (r: Result<seq<TextMatch>, SearchError>)
    requires forall i | 0 <= i < |paths| :: paths[i] in s.files
    ensures r == if query == "" || |query| > 1_000 then Err(InvalidQuery)
                 else if !(1 <= limit <= MAX_SEARCH_RESULTS) then Err(InvalidLimit)
                 else if prefix != "" && !SafePath(prefix) then Err(UnsafePrefix)
                 else if matcher.None? then Err(InvalidPattern)
                 else Ok(Take(AllMatches(s, paths, prefix, matcher.value), limit))
  {
    hide FileMatches;
    if query == "" || |query| > 1_000 { return Err(InvalidQuery); }
    if !(1 <= limit <= MAX_SEARCH_RESULTS) { return Err(InvalidLimit); }
    if prefix != "" && !SafePath(prefix) { return Err(UnsafePrefix); }
    if matcher.None? { return Err(InvalidPattern); }
    var found: seq<TextMatch> := [];
    ghost var all := AllMatches(s, paths, prefix, matcher.value);
    assert paths[0..] == paths && [] + all == all;
    for k := 0 to |paths|
      invariant |found| < limit
      invariant all == found + AllMatches(s, paths[k..], prefix, matcher.value)
    {
      var path := paths[k];
      assert paths[k..][0] == path && paths[k..][1..] == paths[k + 1..];
      ghost var later := AllMatches(s, paths[k + 1..], prefix, matcher.value);
      if !StartsWith(path, prefix) {
        assert [] + later == later;
        continue;
      }
      TakeMore(found, FileMatches(s, path, matcher.value, 1), later, limit);
      found := SearchFile(s, path, matcher.value, found, limit);
      if |found| == limit { return Ok(found); }
    }
    assert paths[|paths|..] == [] && found + [] == found;
    r := Ok(found);
  }

  // ---- What a search returns --------------------------------------------------------------------------------

  /** What a match says of the line it reports: its start, whether more follows, and the hash of the line, each up to its limit. */
  ghost predicate Reports(s: Snapshot, m: TextMatch) {
    && m.path in s.files && 1 <= m.line <= |SplitLines(s.files[m.path])|
    && var line := SplitLines(s.files[m.path])[m.line - 1];
       && IsCut(m.text, line, 1_000) && (m.truncated <==> m.text != line)
       && exists excerpt | IsCut(excerpt, line, 32_000) ::
            m.locator == SourceLocator(m.path + "#L" + PrintNat(m.line) + "-L" + PrintNat(m.line), s.pinnedSha, s.sha256(Encode(excerpt)))
  }

  /** The line matches, in the `k`-th file, whose path has the prefix. */
  predicate MatchingLine(s: Snapshot, paths: seq<string>, prefix: string, matches: string -> bool, k: nat, line: nat) {
    && k < |paths| && prefix <= paths[k] && paths[k] in s.files && 1 <= line <= |SplitLines(s.files[paths[k]])|
    && matches(SplitLines(s.files[paths[k]])[line - 1])
  }

  lemma MatchReports(s: Snapshot, path: string, number: nat)
    requires path in s.files && 1 <= number <= |SplitLines(s.files[path])|
    ensures var m := MatchAt(s, path, number); m.path == path && m.line == number && Reports(s, m)
  {
    var line, m := SplitLines(s.files[path])[number - 1], MatchAt(s, path, number);
    assert Window(SplitLines(s.files[path]), number, number) == [line];
    hide Truncate, SplitLines, Window, PrintNat;
    CutIs(m.text, line, MAX_MATCH_BYTES);
    CutIs(Excerpt(s, path, number, number), line, MAX_READ_BYTES);
  }

  /** What is shown of the matches in one file from line `number` on. */
  ghost predicate AreFileMatches(s: Snapshot, path: string, matches: string -> bool, number: nat, found: seq<TextMatch>)
    requires path in s.files && 1 <= number
  {
    var lines := SplitLines(s.files[path]);
    && (forall m | m in found :: m.path == path && number <= m.line <= |lines| && matches(lines[m.line - 1]) && Reports(s, m))
    && (forall n | number <= n <= |lines| && matches(lines[n - 1]) :: MatchAt(s, path, n) in found)
    && forall i, j | 0 <= i < j < |found| :: found[i].line < found[j].line
  }

  /** The matches of one file are its matching lines, each reported once and in order. */
  lemma {:induction false} FileMatchesAre(s: Snapshot, path: string, matches: string -> bool, number: nat)
    requires path in s.files && 1 <= number
    ensures AreFileMatches(s, path, matches, number, FileMatches(s, path, matches, number))
    decreases |SplitLines(s.files[path])| - number
  {
    hide MatchAt, SplitLines, Reports;
    if number <= |SplitLines(s.files[path])| {
      FileMatchesAre(s, path, matches, number + 1);
      MatchReports(s, path, number);
      FirstLineMore(s, path, matches, number, FileMatches(s, path, matches, number + 1));
    }
  }

  lemma FirstLineMore(s: Snapshot, path: string, matches: string -> bool, number: nat, rest: seq<TextMatch>)
    requires path in s.files && 1 <= number <= |SplitLines(s.files[path])| && AreFileMatches(s, path, matches, number + 1, rest)
    requires MatchAt(s, path, number).path == path && MatchAt(s, path, number).line == number && Reports(s, MatchAt(s, path, number))
    ensures var first := if matches(SplitLines(s.files[path])[number - 1]) then [MatchAt(s, path, number)] else [];
            AreFileMatches(s, path, matches, number, first + rest)
  {
    hide MatchAt, SplitLines, Reports;
    var m, lines := MatchAt(s, path, number), SplitLines(s.files[path]);
    var found := (if matches(lines[number - 1]) then [m] else []) + rest;
    forall o | o in found
      ensures o.path == path && number <= o.line <= |lines| && matches(lines[o.line - 1]) && Reports(s, o)
    {
      assert o in rest || o == m;
    }
    forall n | number <= n <= |lines| && matches(lines[n - 1])
      ensures MatchAt(s, path, n) in found
    {
      assert n == number ==> found[0] == m;
    }
    forall i, j | 0 <= i < j < |found|
      ensures found[i].line < found[j].line
    {
      assert found[j] in rest && (found[i] in rest || found[i] == m);
    }
  }

  /** In the order of the files, and of the lines in one file. */
  ghost predicate Precedes(paths: seq<string>, m: TextMatch, other: TextMatch) {
    forall k, l | 0 <= k < |paths| && 0 <= l < |paths| && paths[k] == m.path && paths[l] == other.path ::
      k < l || (k == l && m.line < other.line)
  }

  ghost predicate Distinct(paths: seq<string>) {
    forall k, l | 0 <= k < l < |paths| :: paths[k] != paths[l]
  }

  /** What is shown of all matches in the files. */
  ghost predicate AreMatches(s: Snapshot, paths: seq<string>, prefix: string, matches: string -> bool, all: seq<TextMatch>) {
    && (forall m | m in all :: Reports(s, m) && IsMatch(s, paths, prefix, matches, m))
    && (forall k: nat, line: nat | MatchingLine(s, paths, prefix, matches, k, line) :: MatchAt(s, paths[k], line) in all)
    && forall i, j | 0 <= i < j < |all| :: Precedes(paths, all[i], all[j])
  }

  /** The match is for a matching line. */
  ghost predicate IsMatch(s: Snapshot, paths: seq<string>, prefix: string, matches: string -> bool, m: TextMatch) {
    exists k: nat :: MatchingLine(s, paths, prefix, matches, k, m.line) && paths[k] == m.path
  }

  /** Every match reports a matching line, every matching line is reported, and in order. */
  lemma {:induction false} AllMatchesAre(s: Snapshot, paths: seq<string>, prefix: string, matches: string -> bool)
    requires (forall i | 0 <= i < |paths| :: paths[i] in s.files) && Distinct(paths)
    ensures AreMatches(s, paths, prefix, matches, AllMatches(s, paths, prefix, matches))
  {
    if paths != [] {
      AllMatchesAre(s, paths[1..], prefix, matches);
      FileMatchesAre(s, paths[0], matches, 1);
      hide Reports, SplitLines, MatchAt;
      var first := if StartsWith(paths[0], prefix) then FileMatches(s, paths[0], matches, 1) else [];
      var rest := AllMatches(s, paths[1..], prefix, matches);
      assert AllMatches(s, paths, prefix, matches) == first + rest;
      hide AllMatches, FileMatches, Precedes, AreMatches;
      FirstFileMore(s, paths, prefix, matches, first, rest);
    }
  }

  lemma FirstFileMore(s: Snapshot, paths: seq<string>, prefix: string, matches: string -> bool, first: seq<TextMatch>, rest: seq<TextMatch>)
    requires paths != [] && paths[0] in s.files && Distinct(paths) && AreMatches(s, paths[1..], prefix, matches, rest)
    requires forall m | m in first :: Reports(s, m) && m.path == paths[0] && MatchingLine(s, paths, prefix, matches, 0, m.line)
    requires forall line: nat | MatchingLine(s, paths, prefix, matches, 0, line) :: MatchAt(s, paths[0], line) in first
    requires forall n, o | 0 <= n < o < |first| :: first[n].line < first[o].line
    ensures AreMatches(s, paths, prefix, matches, first + rest)
  {
    hide Reports, SplitLines, MatchAt, Precedes;
    var all := first + rest;
    forall m | m in all
      ensures Reports(s, m) && IsMatch(s, paths, prefix, matches, m)
    {
      if m in rest {
        LaterFile(s, paths, prefix, matches, m);
      }
    }
    forall k: nat, line: nat | MatchingLine(s, paths, prefix, matches, k, line)
      ensures MatchAt(s, paths[k], line) in all
    {
      if k > 0 {
        InLaterFile(s, paths, prefix, matches, k, line);
      }
    }
    forall i, j | 0 <= i < j < |all|
      ensures Precedes(paths, all[i], all[j])
    {
      OrderMore(s, paths, prefix, matches, first, rest, i, j);
    }
  }

  lemma InLaterFile(s: Snapshot, paths: seq<string>, prefix: string, matches: string -> bool, k: nat, line: nat)
    requires k > 0 && MatchingLine(s, paths, prefix, matches, k, line)
    ensures MatchingLine(s, paths[1..], prefix, matches, k - 1, line) && paths[1..][k - 1] == paths[k]
  {
    hide SplitLines;
  }

  lemma LaterFile(s: Snapshot, paths: seq<string>, prefix: string, matches: string -> bool, m: TextMatch)
    requires paths != [] && IsMatch(s, paths[1..], prefix, matches, m)
    ensures IsMatch(s, paths, prefix, matches, m) && exists k :: 0 < k < |paths| && paths[k] == m.path
  {
    hide SplitLines;
    var k: nat :| MatchingLine(s, paths[1..], prefix, matches, k, m.line) && paths[1..][k] == m.path;
    assert MatchingLine(s, paths, prefix, matches, k + 1, m.line) && paths[k + 1] == m.path;
  }

  lemma OrderMore(s: Snapshot, paths: seq<string>, prefix: string, matches: string -> bool, first: seq<TextMatch>, rest: seq<TextMatch>, i: nat, j: nat)
    requires paths != [] && Distinct(paths) && i < j < |first + rest|
    requires (forall m | m in first :: m.path == paths[0]) && forall n, o | 0 <= n < o < |first| :: first[n].line < first[o].line
    requires forall m | m in rest :: IsMatch(s, paths[1..], prefix, matches, m)
    requires forall n, o | 0 <= n < o < |rest| :: Precedes(paths[1..], rest[n], rest[o])
    ensures Precedes(paths, (first + rest)[i], (first + rest)[j])
  {
    hide MatchingLine, SplitLines;
    var m, other := (first + rest)[i], (first + rest)[j];
    forall k, l | 0 <= k < |paths| && 0 <= l < |paths| && paths[k] == m.path && paths[l] == other.path
      ensures k < l || (k == l && m.line < other.line)
    {
      if j < |first| {
        assert m in first && other in first;
      } else {
        assert other in rest;
        NotFirst(s, paths, prefix, matches, other);
        if i < |first| {
          assert m in first;
        } else {
          assert m in rest;
          NotFirst(s, paths, prefix, matches, m);
          assert Precedes(paths[1..], rest[i - |first|], rest[j - |first|]);
          assert paths[1..][k - 1] == paths[k] && paths[1..][l - 1] == paths[l];
        }
      }
    }
  }

  lemma NotFirst(s: Snapshot, paths: seq<string>, prefix: string, matches: string -> bool, m: TextMatch)
    requires paths != [] && Distinct(paths)
    requires IsMatch(s, paths[1..], prefix, matches, m)
    ensures m.path != paths[0]
  {
    LaterFile(s, paths, prefix, matches, m);
    hide MatchingLine, SplitLines;
  }

  ghost predicate Reported(found: seq<TextMatch>, path: string, line: nat) {
    exists m :: m in found && m.path == path && m.line == line
  }

  /** The match stands before the line of the `k`-th file. */
  ghost predicate Earlier(paths: seq<string>, m: TextMatch, k: nat, line: nat)
    requires k < |paths|
  {
    exists l | 0 <= l <= k :: paths[l] == m.path && (l == k ==> m.line < line)
  }

  /**
   * A search returns the first matches: at most `limit`, in order, each reporting a matching line of a file with
   * the prefix; a matching line is not reported only if there are `limit` matches before it.
   */
  lemma SearchReturns(s: Snapshot, paths: seq<string>, prefix: string, matches: string -> bool, limit: nat)
    requires (forall i | 0 <= i < |paths| :: paths[i] in s.files) && Distinct(paths)
    ensures var r := Take(AllMatches(s, paths, prefix, matches), limit);
            && |r| <= limit
            && (forall m | m in r :: Reports(s, m) && IsMatch(s, paths, prefix, matches, m))
            && (forall i, j | 0 <= i < j < |r| :: Precedes(paths, r[i], r[j]))
            && forall k: nat, line: nat | MatchingLine(s, paths, prefix, matches, k, line) ::
                 Reported(r, paths[k], line) || (|r| == limit && forall m | m in r :: Earlier(paths, m, k, line))
  {
    AllMatchesAre(s, paths, prefix, matches);
    hide AllMatches, Reports, SplitLines, MatchAt, Precedes, Reported, Earlier;
    var all := AllMatches(s, paths, prefix, matches);
    forall k: nat, line: nat | MatchingLine(s, paths, prefix, matches, k, line)
      ensures var r := Take(all, limit); Reported(r, paths[k], line) || (|r| == limit && forall m | m in r :: Earlier(paths, m, k, line))
    {
      hide Take;
      ReportedOrLate(s, paths, prefix, matches, all, limit, k, line);
    }
  }

  lemma ReportedOrLate(s: Snapshot, paths: seq<string>, prefix: string, matches: string -> bool, all: seq<TextMatch>, limit: nat, k: nat, line: nat)
    requires MatchingLine(s, paths, prefix, matches, k, line) && MatchAt(s, paths[k], line) in all
    requires forall m | m in all :: IsMatch(s, paths, prefix, matches, m)
    requires forall i, j | 0 <= i < j < |all| :: Precedes(paths, all[i], all[j])
    ensures var r := Take(all, limit); Reported(r, paths[k], line) || (|r| == limit && forall m | m in r :: Earlier(paths, m, k, line))
  {
    MatchReports(s, paths[k], line);
    hide MatchAt, SplitLines, Reports;
    var r, m := Take(all, limit), MatchAt(s, paths[k], line);
    var p :| 0 <= p < |all| && all[p] == m;
    if p < |r| {
      assert r[p] == m;
    } else {
      forall o | o in r
        ensures Earlier(paths, o, k, line)
      {
        var i :| 0 <= i < |r| && r[i] == o;
        assert all[i] == o && Precedes(paths, all[i], all[p]) && IsMatch(s, paths, prefix, matches, o);
        var l: nat :| MatchingLine(s, paths, prefix, matches, l, o.line) && paths[l] == o.path;
      }
    }
  }
}
