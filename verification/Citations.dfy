/**
 * What becomes of an issued locator: the registry's index and `canonical_locator`
 * (src/agentic_lab/tools/registry.py), the citation filter of src/agentic_lab/agents/scout.py and
 * `citation_resolution` (src/agentic_lab/evaluation/evaluators.py).
 */
module Citations {
  import opened Wrappers
  import opened Text
  import opened Utf8
  import opened Snapshots
  import opened ToolResults

  datatype Citation = Citation(claimId: string, sourceKind: string, locator: string, pinnedSha: string, excerptHash: string)

  datatype Claim = Claim(id: string, material: bool)

  // ---- Parsing a locator ------------------------------------------------------------------------------

  /** How many digits `s` ends with. */
  function TrailingDigits(s: string): (n: nat)
    ensures n <= |s| && (n < |s| ==> !IsDigit(s[|s| - n - 1]))
    ensures forall i | |s| - n <= i < |s| :: IsDigit(s[i])
  {
    if s == "" || !IsDigit(s[|s| - 1]) then 0 else 1 + TrailingDigits(s[..|s| - 1])
  }

  /** Removes digits preceded by `mark` from the end of `s`; gives the rest and the number. */
  function ParseSuffix(s: string, mark: string): Option<(string, nat)> {
    var n := TrailingDigits(s);
    var front := s[..|s| - n];
    if n == 0 || |front| < |mark| || front[|front| - |mark|..] != mark then None
    else Some((front[..|front| - |mark|], ParseNat(s[|s| - n..])))
  }

  /** `^(.+)#L(\d+)-L(\d+)$`, matched in full. */
  function ParseLocator(locator: string): Option<(string, nat, nat)> {
    var (rest, end) :- ParseSuffix(locator, "-L");
    var (path, start) :- ParseSuffix(rest, "#L");
    if path == "" || '\n' in path then None else Some((path, start, end))
  }

  lemma ParseSuffixOf(front: string, mark: string, digits: string)
    requires mark != "" && !IsDigit(mark[|mark| - 1]) && digits != "" && AllDigits(digits)
    ensures ParseSuffix(front + mark + digits, mark) == Some((front, ParseNat(digits)))
  {
    var s := front + mark + digits;
    var n := TrailingDigits(s);
    assert s[|front| + |mark| - 1] == mark[|mark| - 1];
    assert forall i | |front| + |mark| <= i < |s| :: s[i] == digits[i - |front| - |mark|];
    assert n == |digits|;
    assert s[..|s| - n] == front + mark && s[|s| - n..] == digits;
    assert (front + mark)[|front|..] == mark && (front + mark)[..|front|] == front;
  }

  /** An issued locator parses back to its path and lines exactly for a non-empty path on one line. */
  lemma ParseFormatted(path: string, start: nat, end: nat)
    ensures ParseLocator(FormatLocator(path, start, end))
         == if path != "" && '\n' !in path then Some((path, start, end)) else None
  {
    hide PrintNat, ParseNat, ParseSuffix;
    var inner := path + "#L" + PrintNat(start);
    assert FormatLocator(path, start, end) == inner + "-L" + PrintNat(end);
    ParseSuffixOf(inner, "-L", PrintNat(end));
    ParseSuffixOf(path, "#L", PrintNat(start));
  }

  // ---- The evaluator ------------------------------------------------------------------------------------

  const UNPARSED_KINDS := {"commit", "diff", "check_run", "tool_result"}

  /** A citation `citation_resolution` finds nothing wrong with. */
  predicate Resolves(s: Snapshot, c: Citation) {
    c.pinnedSha == s.pinnedSha &&
    match ParseLocator(c.locator)
    case None => c.sourceKind in UNPARSED_KINDS
    case Some((path, start, end)) =>
      var read := ReadFile(s, path, start, end);
      read.Ok? && read.value.text != "" && s.sha256(Encode(read.value.text)) == c.excerptHash
  }

  function Unresolved(s: Snapshot, citations: seq<Citation>): seq<string> {
    if citations == [] then []
    else Unresolved(s, citations[..|citations| - 1])
         + if Resolves(s, citations[|citations| - 1]) then [] else [citations[|citations| - 1].locator]
  }

  method CitationResolution(s: Snapshot, citations: seq<Citation>) returns (passed: bool, unresolved: seq<string>)
    ensures unresolved == Unresolved(s, citations)
    ensures passed <==> forall c | c in citations :: Resolves(s, c)
  {
    hide ParseLocator, ReadFile;
    unresolved := [];
    for k := 0 to |citations|
      invariant unresolved == Unresolved(s, citations[..k])
      invariant unresolved == [] <==> forall c | c in citations[..k] :: Resolves(s, c)
    {
      var c := citations[k];
      assert citations[..k + 1] == citations[..k] + [c];
      if c.pinnedSha != s.pinnedSha {
        unresolved := unresolved + [c.locator];
        continue;
      }
      var parsed := ParseLocator(c.locator);
      if parsed.None? {
        if c.sourceKind !in UNPARSED_KINDS {
          unresolved := unresolved + [c.locator];
        }
        continue;
      }
      var (path, start, end) := parsed.value;
      var read := ReadFile(s, path, start, end);
      if read.Err? {
        unresolved := unresolved + [c.locator];
        continue;
      }
      if read.value.text == "" || s.sha256(Encode(read.value.text)) != c.excerptHash {
        unresolved := unresolved + [c.locator];
      }
    }
    assert citations[..|citations|] == citations;
    passed := unresolved == [];
  }

  // ---- The index -----------------------------------------------------------------------------------------

  type Index = map<(string, string), set<string>>

  function Candidates(index: Index, pinnedSha: string, excerptHash: string): set<string> {
    if (pinnedSha, excerptHash) in index then index[(pinnedSha, excerptHash)] else {}
  }

  function Remembered(index: Index, discovered: seq<SourceLocator>): Index {
    if discovered == [] then index
    else
      var index' := Remembered(index, discovered[..|discovered| - 1]);
      var d := discovered[|discovered| - 1];
      index'[(d.pinnedSha, d.contentHash) := Candidates(index', d.pinnedSha, d.contentHash) + {d.locator}]
  }

  /** `canonical_locator`: the claimed locator, else the only candidate on its path, else the only candidate. */
  ghost function CanonicalLocator(index: Index, claimed: string, pinnedSha: string, excerptHash: string): Option<string> {
    var candidates := Candidates(index, pinnedSha, excerptHash);
    var onPath := set c | c in candidates && Before(c, '#') == Before(claimed, '#');
    if claimed in candidates then Some(claimed)
    else if |onPath| == 1 then var c :| c in onPath; Some(c)
    else if |candidates| == 1 then var c :| c in candidates; Some(c)
    else None
  }

  /** The index holds exactly the locators remembered for a SHA and hash. */
  lemma {:induction false} RememberedIsIssued(discovered: seq<SourceLocator>, pinnedSha: string, excerptHash: string, locator: string)
    ensures locator in Candidates(Remembered(map[], discovered), pinnedSha, excerptHash)
       <==> SourceLocator(locator, pinnedSha, excerptHash) in discovered
  {
    if discovered != [] {
      var last := |discovered| - 1;
      RememberedIsIssued(discovered[..last], pinnedSha, excerptHash, locator);
      assert discovered == discovered[..last] + [discovered[last]];
    }
  }

  /** Whatever `canonical_locator` returns was issued for that SHA and hash; an issued claim is returned as it is. */
  lemma CanonicalIsIssued(discovered: seq<SourceLocator>, claimed: string, pinnedSha: string, excerptHash: string)
    ensures var r := CanonicalLocator(Remembered(map[], discovered), claimed, pinnedSha, excerptHash);
            && (r.Some? ==> SourceLocator(r.value, pinnedSha, excerptHash) in discovered)
            && (SourceLocator(claimed, pinnedSha, excerptHash) in discovered ==> r == Some(claimed))
  {
    var index := Remembered(map[], discovered);
    var r := CanonicalLocator(index, claimed, pinnedSha, excerptHash);
    RememberedIsIssued(discovered, pinnedSha, excerptHash, claimed);
    if r.Some? {
      assert r.value in Candidates(index, pinnedSha, excerptHash) by {
        hide Remembered;
      }
      RememberedIsIssued(discovered, pinnedSha, excerptHash, r.value);
    }
  }

  lemma OnlyElement<T>(s: set<T>, x: T, y: T)
    requires |s| == 1 && x in s && y in s
    ensures x == y
  {
    assert |s - {x}| == 0;
  }

  class CitationIndex {
    var citationLocators: Index

    constructor ()
      ensures citationLocators == map[]
    {
      citationLocators := map[];
    }

    method RememberCitationLocators(value: Json)
      modifies this
      ensures citationLocators == Remembered(old(citationLocators), Found(value))
    {
      hide Found;
      var discovered := Visit(value, []);
      assert discovered == Found(value);
      for k := 0 to |discovered|
        invariant citationLocators == Remembered(old(citationLocators), discovered[..k])
      {
        var d := discovered[k];
        assert discovered[..k + 1][..k] == discovered[..k];
        var key := (d.pinnedSha, d.contentHash);
        if key !in citationLocators {
          assert {} + {d.locator} == {d.locator};
          citationLocators := citationLocators[key := {d.locator}];
        } else {
          citationLocators := citationLocators[key := citationLocators[key] + {d.locator}];
        }
      }
      assert discovered[..|discovered|] == discovered;
    }

    method Canonical(claimed: string, pinnedSha: string, excerptHash: string) returns (r: Option<string>)
      ensures r == CanonicalLocator(citationLocators, claimed, pinnedSha, excerptHash)
    {
      var candidates := Candidates(citationLocators, pinnedSha, excerptHash);
      if claimed in candidates { return Some(claimed); }
      var onPath := set c | c in candidates && Before(c, '#') == Before(claimed, '#');
      if |onPath| == 1 {
        var c :| c in onPath;
        ghost var d := CanonicalLocator(citationLocators, claimed, pinnedSha, excerptHash).value;
        OnlyElement(onPath, c, d);
        return Some(c);
      }
      if |candidates| == 1 {
        var c :| c in candidates;
        ghost var d := CanonicalLocator(citationLocators, claimed, pinnedSha, excerptHash).value;
        OnlyElement(candidates, c, d);
        return Some(c);
      }
      r := None;
    }
  }

  // ---- The scout's filter ----------------------------------------------------------------------------------

  /** Citations whose locator can be made canonical, with that locator. */
  ghost function Verified(index: Index, citations: seq<Citation>): seq<Citation> {
    if citations == [] then []
    else
      var c := citations[|citations| - 1];
      var canonical := CanonicalLocator(index, c.locator, c.pinnedSha, c.excerptHash);
      Verified(index, citations[..|citations| - 1])
      + if canonical.Some? then [c.(locator := canonical.value)] else []
  }

  predicate MaterialClaimsCited(claims: seq<Claim>, citations: seq<Citation>) {
    forall claim | claim in claims && claim.material :: exists i | 0 <= i < |citations| :: citations[i].claimId == claim.id
  }

  datatype ScoutError = UnsupportedMaterialClaims | MaterialClaimLacksToolEvidence | UnresolvedCitations

  /** What the end of `run_scout` makes of the citations, given the index of its tools if it has any. */
  ghost function ScoutVerdict(index: Option<Index>, s: Snapshot, claims: seq<Claim>, citations: seq<Citation>): Result<seq<Citation>, ScoutError> {
    if !MaterialClaimsCited(claims, citations) then Err(UnsupportedMaterialClaims)
    else if index.None? then Ok(citations)
    else
      var kept := Verified(index.value, citations);
      if !MaterialClaimsCited(claims, kept) then Err(MaterialClaimLacksToolEvidence)
      else if exists c | c in kept :: !Resolves(s, c) then Err(UnresolvedCitations)
      else Ok(kept)
  }

  /** With tools, filter the citations, then demand coverage and resolution of what is left. */
  method VerifyScoutCitations(tools: Option<CitationIndex>, s: Snapshot, claims: seq<Claim>, citations: seq<Citation>)
    returns (r: Result<seq<Citation>, ScoutError>)
    ensures r == ScoutVerdict(if tools.Some? then Some(tools.value.citationLocators) else None, s, claims, citations)
  {
    hide Resolves, CanonicalLocator;
    if !MaterialClaimsCited(claims, citations) { return Err(UnsupportedMaterialClaims); }
    if tools.None? { return Ok(citations); }
    var index := tools.value;
    var kept: seq<Citation> := [];
    for k := 0 to |citations|
      invariant kept == Verified(index.citationLocators, citations[..k])
    {
      assert citations[..k + 1][..k] == citations[..k];
      var canonical := index.Canonical(citations[k].locator, citations[k].pinnedSha, citations[k].excerptHash);
      if canonical.Some? {
        kept := kept + [citations[k].(locator := canonical.value)];
      }
    }
    assert citations[..|citations|] == citations;
    if !MaterialClaimsCited(claims, kept) { return Err(MaterialClaimLacksToolEvidence); }
    var passed, unresolved := CitationResolution(s, kept);
    if !passed { return Err(UnresolvedCitations); }
    r := Ok(kept);
  }

  // ---- Honest citations survive ------------------------------------------------------------------------------

  /** A tool result that carries a locator: a file read, or a search hit. */
  datatype Issue = Read(path: string, start: nat, end: nat) | Hit(path: string, start: nat, end: nat)

  ghost predicate IssuedBy(s: Snapshot, issue: Issue, l: SourceLocator) {
    match issue
    case Read(path, start, end) => ReadFile(s, path, start, end).Ok? && l == ReadFile(s, path, start, end).value.locator
    case Hit(path, start, end) => SafePath(path) && path in s.files && 1 <= start <= end && l == SearchLocator(s, path, start, end)
  }

  /** The text whose hash the issued locator carries. */
  ghost function IssuedText(s: Snapshot, issue: Issue, l: SourceLocator): string
    requires IssuedBy(s, issue, l)
  {
    match issue
    case Read(path, start, end) => ReadFile(s, path, start, end).value.text
    case Hit(path, start, end) => Excerpt(s, path, start, end)
  }

  /** When a path can be written into a locator and read out again. */
  predicate CitablePath(path: string) {
    path != "" && '\n' !in path
  }

  /**
   * A citation copied from a tool result is kept unchanged by the registry. It resolves exactly when its
   * path is a non-empty line, the excerpt is not empty and a search hit spans at most 200 lines.
   */
  lemma HonestCitationSurvives(s: Snapshot, discovered: seq<SourceLocator>, c: Citation, issue: Issue)
    requires c.sourceKind !in UNPARSED_KINDS
    requires var l := SourceLocator(c.locator, c.pinnedSha, c.excerptHash);
             l in discovered && IssuedBy(s, issue, l)
    ensures CanonicalLocator(Remembered(map[], discovered), c.locator, c.pinnedSha, c.excerptHash) == Some(c.locator)
    ensures Resolves(s, c)
       <==> CitablePath(issue.path)
            && IssuedText(s, issue, SourceLocator(c.locator, c.pinnedSha, c.excerptHash)) != ""
            && (issue.Hit? ==> issue.end - issue.start < MAX_READ_LINES)
  {
    CanonicalIsIssued(discovered, c.locator, c.pinnedSha, c.excerptHash);
    hide CanonicalLocator, Remembered, ParseLocator, FormatLocator, Truncate, Join, Window, SplitLines, CountNewlines, ActualEnd;
    match issue
    case Read(path, start, end) =>
      RereadIsStable(s, path, start, end);
      ParseFormatted(path, start, ActualEnd(s, path, start, end));
      hide ReadFile;
    case Hit(path, start, end) =>
      ParseFormatted(path, start, end);
  }

  /** Citations copied from tool results pass the filter unchanged, all of them and in order. */
  lemma {:induction false} CopiedCitationsKept(discovered: seq<SourceLocator>, citations: seq<Citation>)
    requires forall c | c in citations :: SourceLocator(c.locator, c.pinnedSha, c.excerptHash) in discovered
    ensures Verified(Remembered(map[], discovered), citations) == citations
    decreases |citations|
  {
    if citations != [] {
      var last := |citations| - 1;
      assert citations == citations[..last] + [citations[last]];
      CopiedCitationsKept(discovered, citations[..last]);
      CanonicalIsIssued(discovered, citations[last].locator, citations[last].pinnedSha, citations[last].excerptHash);
      hide CanonicalLocator, Remembered;
    }
  }

  /** Everything the filter keeps carries a locator that was issued for its SHA and hash. */
  lemma {:induction false} KeptCitationsWereIssued(discovered: seq<SourceLocator>, citations: seq<Citation>)
    ensures forall c | c in Verified(Remembered(map[], discovered), citations) ::
              SourceLocator(c.locator, c.pinnedSha, c.excerptHash) in discovered
    decreases |citations|
  {
    if citations != [] {
      var last := |citations| - 1;
      KeptCitationsWereIssued(discovered, citations[..last]);
      CanonicalIsIssued(discovered, citations[last].locator, citations[last].pinnedSha, citations[last].excerptHash);
      hide CanonicalLocator, Remembered;
    }
  }

  // ---- A whole run -------------------------------------------------------------------------------------------

  lemma {:induction false} RememberedTogether(index: Index, a: seq<SourceLocator>, b: seq<SourceLocator>)
    ensures Remembered(Remembered(index, a), b) == Remembered(index, a + b)
  {
    if b == [] {
      assert a + b == a;
    } else {
      var last := |b| - 1;
      assert (a + b)[..|a + b| - 1] == a + b[..last] && (a + b)[|a + b| - 1] == b[last];
      RememberedTogether(index, a, b[..last]);
    }
  }

  /** The index after `_remember_citation_locators` has seen every tool output, one call after another. */
  function IndexAfter(outputs: seq<Output>): Index {
    if outputs == [] then map[] else Remembered(IndexAfter(outputs[..|outputs| - 1]), Found(Dump(outputs[|outputs| - 1])))
  }

  function AllLocators(outputs: seq<Output>): seq<SourceLocator> {
    if outputs == [] then [] else AllLocators(outputs[..|outputs| - 1]) + Locators(outputs[|outputs| - 1])
  }

  lemma {:induction false} IndexAfterAll(outputs: seq<Output>)
    ensures IndexAfter(outputs) == Remembered(map[], AllLocators(outputs))
  {
    hide Found, Dump, Locators;
    if outputs != [] {
      var last := |outputs| - 1;
      IndexAfterAll(outputs[..last]);
      OutputIsFound(outputs[last]);
      RememberedTogether(map[], AllLocators(outputs[..last]), Locators(outputs[last]));
    }
  }

  function LocatorOf(c: Citation): SourceLocator {
    SourceLocator(c.locator, c.pinnedSha, c.excerptHash)
  }

  /** A source citation copied from an output, with the read or hit that issued its locator. */
  ghost predicate Copied(s: Snapshot, outputs: seq<Output>, c: Citation, issue: Issue) {
    c.sourceKind !in UNPARSED_KINDS && LocatorOf(c) in AllLocators(outputs) && IssuedBy(s, issue, LocatorOf(c))
  }

  /** What the citation needs to be found again: a one-line path, some text, and for a hit at most 200 lines. */
  ghost predicate Rereadable(s: Snapshot, c: Citation, issue: Issue) {
    && IssuedBy(s, issue, LocatorOf(c)) && CitablePath(issue.path)
    && IssuedText(s, issue, LocatorOf(c)) != ""
    && (issue.Hit? ==> issue.end - issue.start < MAX_READ_LINES)
  }

  /**
   * An artifact whose citations are copied from the outputs of any sequence of tool calls, and that cites its
   * material claims, passes the scout's checks unchanged if and only if every citation can be read again;
   * otherwise it is refused as unresolved.
   */
  lemma CopiedArtifactPasses(s: Snapshot, outputs: seq<Output>, claims: seq<Claim>, citations: seq<Citation>, issues: seq<Issue>)
    requires |issues| == |citations| && MaterialClaimsCited(claims, citations)
    requires forall i | 0 <= i < |citations| :: Copied(s, outputs, citations[i], issues[i])
    ensures ScoutVerdict(Some(IndexAfter(outputs)), s, claims, citations)
         == if forall i | 0 <= i < |citations| :: Rereadable(s, citations[i], issues[i]) then Ok(citations) else Err(UnresolvedCitations)
  {
    hide Resolves, Rereadable, MaterialClaimsCited, IssuedBy, Verified, AllLocators, IndexAfter, Remembered;
    var discovered := AllLocators(outputs);
    IndexAfterAll(outputs);
    forall c | c in citations
      ensures LocatorOf(c) in discovered
    {
      var i :| 0 <= i < |citations| && citations[i] == c;
      assert Copied(s, outputs, citations[i], issues[i]);
    }
    CopiedCitationsKept(discovered, citations);
    forall i | 0 <= i < |citations|
      ensures Resolves(s, citations[i]) <==> Rereadable(s, citations[i], issues[i])
    {
      assert Copied(s, outputs, citations[i], issues[i]);
      ResolvesIfRereadable(s, discovered, citations[i], issues[i]);
    }
  }

  lemma ResolvesIfRereadable(s: Snapshot, discovered: seq<SourceLocator>, c: Citation, issue: Issue)
    requires c.sourceKind !in UNPARSED_KINDS && LocatorOf(c) in discovered && IssuedBy(s, issue, LocatorOf(c))
    ensures Resolves(s, c) <==> Rereadable(s, c, issue)
  {
    hide Resolves, IssuedBy, IssuedText, CitablePath, CanonicalLocator, Remembered;
    HonestCitationSurvives(s, discovered, c, issue);
  }

  /** A match of a text search carries the locator of its line. */
  ghost predicate IsHit(s: Snapshot, m: TextMatch) {
    m.line >= 1 && IssuedBy(s, Hit(m.path, m.line, m.line), m.locator)
  }

  lemma MatchIsHit(s: Snapshot, path: string, number: nat)
    requires SafePath(path) && path in s.files && 1 <= number <= |SplitLines(s.files[path])|
    ensures IsHit(s, MatchAt(s, path, number))
  {
    hide SearchLocator, Truncate, Encode, SplitLines, SafePath;
  }

  lemma {:induction false} FileMatchesAreHits(s: Snapshot, path: string, matches: string -> bool, number: nat)
    requires SafePath(path) && path in s.files && 1 <= number
    ensures forall m | m in FileMatches(s, path, matches, number) :: IsHit(s, m)
    decreases |SplitLines(s.files[path])| - number
  {
    hide IsHit, MatchAt, SplitLines, SafePath;
    if number <= |SplitLines(s.files[path])| {
      MatchIsHit(s, path, number);
      FileMatchesAreHits(s, path, matches, number + 1);
    }
  }

  /** So every match a text search returns can be cited like a hit. */
  lemma {:induction false} SearchMatchesAreHits(s: Snapshot, paths: seq<string>, prefix: string, matches: string -> bool, limit: nat)
    requires forall i | 0 <= i < |paths| :: paths[i] in s.files && SafePath(paths[i])
    ensures forall m | m in AllMatches(s, paths, prefix, matches) :: IsHit(s, m)
    ensures forall m | m in Take(AllMatches(s, paths, prefix, matches), limit) :: IsHit(s, m)
  {
    hide IsHit, FileMatches, SafePath, StartsWith;
    if paths != [] {
      FileMatchesAreHits(s, paths[0], matches, 1);
      SearchMatchesAreHits(s, paths[1..], prefix, matches, limit);
    }
  }
}
