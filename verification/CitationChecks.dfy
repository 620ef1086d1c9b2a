/**
 * What the checks on a scout's citations come to, for arbitrary citations: which text a locator names, which
 * issued locator a citation stands for, and when src/agentic_lab/agents/scout.py refuses an artifact.
 */
module CitationChecks {
  import opened Wrappers
  import opened Text
  import opened Utf8
  import opened Snapshots
  import opened ToolResults
  import opened Citations

  // ---- What a locator names --------------------------------------------------------------------------------

  /** `path#Lstart-Lend` with a path on one line. */
  ghost predicate Locates(locator: string, path: string, start: nat, end: nat) {
    path != "" && '\n' !in path && exists a, b ::
      && a != "" && AllDigits(a) && ParseNat(a) == start && b != "" && AllDigits(b) && ParseNat(b) == end
      && locator == path + "#L" + a + "-L" + b
  }

  lemma SuffixSpelled(s: string, mark: string)
    requires ParseSuffix(s, mark).Some?
    ensures var (front, n) := ParseSuffix(s, mark).value;
            exists digits :: digits != "" && AllDigits(digits) && ParseNat(digits) == n && s == front + mark + digits
  {
    var n := TrailingDigits(s);
    var digits, front := s[|s| - n..], s[..|s| - n];
    assert front == front[..|front| - |mark|] + mark && s == front + digits;
  }

  /** The pattern matches exactly the locators of that form. */
  lemma LocatorMeaning(locator: string, path: string, start: nat, end: nat)
    ensures ParseLocator(locator) == Some((path, start, end)) <==> Locates(locator, path, start, end)
  {
    hide ParseSuffix, ParseNat, AllDigits;
    if ParseLocator(locator) == Some((path, start, end)) {
      SuffixSpelled(locator, "-L");
      var (rest, _) := ParseSuffix(locator, "-L").value;
      SuffixSpelled(rest, "#L");
    }
    if Locates(locator, path, start, end) {
      var a, b :| a != "" && AllDigits(a) && ParseNat(a) == start && b != "" && AllDigits(b) && ParseNat(b) == end
                  && locator == path + "#L" + a + "-L" + b;
      MarksAreNoDigits();
      ParseSuffixOf(path + "#L" + a, "-L", b);
      ParseSuffixOf(path, "#L", a);
    }
  }

  lemma MarksAreNoDigits()
    ensures !IsDigit('L')
  {
  }

  /** The lines hold some text, and what can be read of it has the hash. */
  ghost predicate Shows(s: Snapshot, path: string, start: nat, end: nat, hash: string) {
    && !StartsWith(path, "/") && ".." !in Split(path, '/') && '\0' !in path && path in s.files
    && 1 <= start <= end < start + 200 && start <= |SplitLines(s.files[path])|
    && var lines := SplitLines(s.files[path]);
       exists text ::
         text != "" && IsCut(text, Join(Numbered(lines, start, if end < |lines| then end else |lines|)), 32_000) && s.sha256(Encode(text)) == hash
  }

  /** The evaluator accepts a citation of the snapshot that shows its text, or names no lines and need not. */
  ghost predicate Supported(s: Snapshot, c: Citation) {
    && c.pinnedSha == s.pinnedSha
    && if exists path, start, end :: Locates(c.locator, path, start, end)
       then exists path, start, end :: Locates(c.locator, path, start, end) && Shows(s, path, start, end, c.excerptHash)
       else c.sourceKind in {"commit", "diff", "check_run", "tool_result"}
  }

  lemma ShownIsRead(s: Snapshot, path: string, start: nat, end: nat, hash: string)
    ensures Shows(s, path, start, end, hash)
       <==> var read := ReadFile(s, path, start, end); read.Ok? && read.value.text != "" && s.sha256(Encode(read.value.text)) == hash
  {
    ReadAnswered(s, path, start, end);
    hide Split, StartsWith, SplitLines, Truncate, IsCut, Join, Numbered, Encode;
    if ReadFile(s, path, start, end).Ok? {
      ReadMeaning(s, path, start, end);
      hide ReadFile;
      if start <= |SplitLines(s.files[path])| {
        var lines, read := SplitLines(s.files[path]), ReadFile(s, path, start, end).value.text;
        var whole := Join(Numbered(lines, start, if end < |lines| then end else |lines|));
        forall text | IsCut(text, whole, 32_000)
          ensures text == read
        {
          CutIs(text, whole, 32_000);
          CutIs(read, whole, 32_000);
        }
      }
    }
  }

  /** A citation resolves exactly if it is supported. */
  lemma ResolvesMeaning(s: Snapshot, c: Citation)
    ensures Resolves(s, c) <==> Supported(s, c)
  {
    hide ParseLocator, ReadFile, Locates, Shows, Encode;
    forall path, start: nat, end: nat
      ensures ParseLocator(c.locator) == Some((path, start, end)) <==> Locates(c.locator, path, start, end)
    {
      LocatorMeaning(c.locator, path, start, end);
    }
    if ParseLocator(c.locator).Some? {
      var (path, start, end) := ParseLocator(c.locator).value;
      assert Locates(c.locator, path, start, end);
      ShownIsRead(s, path, start, end, c.excerptHash);
    }
  }

  // ---- Which issued locator a citation stands for ------------------------------------------------------------

  predicate Issued(all: seq<SourceLocator>, c: Citation, l: string) {
    SourceLocator(l, c.pinnedSha, c.excerptHash) in all
  }

  predicate OnPath(c: Citation, l: string) {
    Before(l, '#') == Before(c.locator, '#')
  }

  /** Its own locator if that was issued for its SHA and hash; else the only such locator on its path, or the only such one at all. */
  ghost predicate StandsFor(all: seq<SourceLocator>, c: Citation, l: string) {
    && Issued(all, c, l)
    && (|| l == c.locator
        || (!Issued(all, c, c.locator)
            && ((OnPath(c, l) && forall o | Issued(all, c, o) && OnPath(c, o) :: o == l) || forall o | Issued(all, c, o) :: o == l)))
  }

  lemma OneElement<T>(s: set<T>, x: T)
    requires x in s
    ensures |s| == 1 <==> forall y | y in s :: y == x
  {
    if |s| == 1 {
      assert |s - {x}| == 0;
    }
    if forall y | y in s :: y == x {
      assert s == {x};
    }
  }

  /** The three ways to a canonical locator. */
  lemma CanonicalCases(index: Index, claimed: string, pinnedSha: string, excerptHash: string)
    ensures var candidates := Candidates(index, pinnedSha, excerptHash);
            var onPath := set o | o in candidates && Before(o, '#') == Before(claimed, '#');
            var r := CanonicalLocator(index, claimed, pinnedSha, excerptHash);
            if claimed in candidates then r == Some(claimed)
            else if |onPath| == 1 then r.Some? && r.value in onPath
            else if |candidates| == 1 then r.Some? && r.value in candidates
            else r == None
  {
    hide Candidates, Before;
  }

  /** The index makes a citation's locator canonical exactly as the citation stands for it. */
  lemma CanonicalMeaning(all: seq<SourceLocator>, c: Citation, l: string)
    ensures CanonicalLocator(Remembered(map[], all), c.locator, c.pinnedSha, c.excerptHash) == Some(l) <==> StandsFor(all, c, l)
  {
    var index := Remembered(map[], all);
    var candidates := Candidates(index, c.pinnedSha, c.excerptHash);
    var onPath := set o | o in candidates && Before(o, '#') == Before(c.locator, '#');
    forall o
      ensures o in candidates <==> Issued(all, c, o)
      ensures o in onPath <==> Issued(all, c, o) && OnPath(c, o)
    {
      RememberedIsIssued(all, c.pinnedSha, c.excerptHash, o);
    }
    CanonicalCases(index, c.locator, c.pinnedSha, c.excerptHash);
    hide Remembered, Before, Candidates, Issued, OnPath, CanonicalLocator;
    var r := CanonicalLocator(index, c.locator, c.pinnedSha, c.excerptHash);
    if r.Some? {
      OnlyOne(candidates, onPath, r.value);
    }
    OnlyOne(candidates, onPath, l);
  }

  lemma OnlyOne(candidates: set<string>, onPath: set<string>, l: string)
    ensures l in candidates ==> (|candidates| == 1 <==> forall o | o in candidates :: o == l)
    ensures l in onPath ==> (|onPath| == 1 <==> forall o | o in onPath :: o == l)
  {
    if l in candidates {
      OneElement(candidates, l);
    }
    if l in onPath {
      OneElement(onPath, l);
    }
  }

  // ---- When an artifact is refused -----------------------------------------------------------------------------

  /** A material claim that no citation is for. */
  predicate Uncited(claims: seq<Claim>, citations: seq<Citation>, claim: Claim) {
    claim in claims && claim.material && forall c | c in citations :: c.claimId != claim.id
  }

  /** A material claim none of whose citations stands for an issued locator. */
  ghost predicate Unbacked(all: seq<SourceLocator>, claims: seq<Claim>, citations: seq<Citation>, claim: Claim) {
    claim in claims && claim.material && forall c, l | c in citations && StandsFor(all, c, l) :: c.claimId != claim.id
  }

  /** A citation that stands for an issued locator and is not supported under it. */
  ghost predicate Misquotes(s: Snapshot, all: seq<SourceLocator>, citations: seq<Citation>, c: Citation, l: string) {
    c in citations && StandsFor(all, c, l) && !Supported(s, c.(locator := l))
  }

  /** `from[i]` is where the `i`-th kept citation comes from; all others stand for nothing. */
  ghost predicate Selects(all: seq<SourceLocator>, citations: seq<Citation>, kept: seq<Citation>, from: seq<nat>) {
    && |from| == |kept| && (forall i, j | 0 <= i < j < |from| :: from[i] < from[j])
    && (forall i | 0 <= i < |from| ::
          from[i] < |citations| && StandsFor(all, citations[from[i]], kept[i].locator) && kept[i] == citations[from[i]].(locator := kept[i].locator))
    && forall k, l | 0 <= k < |citations| && StandsFor(all, citations[k], l) :: k in from
  }

  /** The filter keeps exactly the citations that stand for an issued locator, with that locator and in order. */
  lemma {:induction false} KeptAre(all: seq<SourceLocator>, citations: seq<Citation>) returns (from: seq<nat>)
    ensures Selects(all, citations, Verified(Remembered(map[], all), citations), from)
    decreases |citations|
  {
    from := [];
    if citations != [] {
      var last := |citations| - 1;
      var c, index := citations[last], Remembered(map[], all);
      var before := KeptAre(all, citations[..last]);
      var canonical := CanonicalLocator(index, c.locator, c.pinnedSha, c.excerptHash);
      forall l
        ensures canonical == Some(l) <==> StandsFor(all, c, l)
      {
        CanonicalMeaning(all, c, l);
      }
      assert citations == citations[..last] + [c];
      from := if canonical.Some? then before + [last] else before;
      hide Remembered, CanonicalLocator, StandsFor;
      assert canonical.Some? ==> StandsFor(all, c, canonical.value);
      SelectsMore(all, citations, Verified(index, citations[..last]), before, canonical);
    }
  }

  lemma SelectsMore(all: seq<SourceLocator>, citations: seq<Citation>, kept: seq<Citation>, from: seq<nat>, canonical: Option<string>)
    requires citations != [] && Selects(all, citations[..|citations| - 1], kept, from)
    requires forall l :: canonical == Some(l) <==> StandsFor(all, citations[|citations| - 1], l)
    ensures var last := |citations| - 1;
            Selects(all, citations, kept + if canonical.Some? then [citations[last].(locator := canonical.value)] else [],
                    if canonical.Some? then from + [last] else from)
  {
    hide StandsFor;
    var last := |citations| - 1;
    var more := if canonical.Some? then from + [last] else from;
    forall k, l | 0 <= k < |citations| && StandsFor(all, citations[k], l)
      ensures k in more
    {
      if k < last {
        assert citations[..last][k] == citations[k] && k in from;
      } else {
        assert canonical == Some(l);
        assert more[|from|] == last;
      }
    }
  }

  /**
   * After any tool outputs, an artifact with arbitrary citations is refused for the first of three reasons that
   * applies: a material claim without citation, one without an issued locator, or a citation that misquotes. Else
   * the citations that stand for an issued locator are kept, in order, with that locator.
   */
  lemma VerdictMeaning(s: Snapshot, outputs: seq<Output>, claims: seq<Claim>, citations: seq<Citation>)
    ensures
      var all, verdict := AllLocators(outputs), ScoutVerdict(Some(IndexAfter(outputs)), s, claims, citations);
      var uncited := exists claim :: Uncited(claims, citations, claim);
      var unbacked := exists claim :: Unbacked(all, claims, citations, claim);
      var misquotes := exists c, l :: Misquotes(s, all, citations, c, l);
      && (verdict == Err(UnsupportedMaterialClaims) <==> uncited)
      && (verdict == Err(MaterialClaimLacksToolEvidence) <==> !uncited && unbacked)
      && (verdict == Err(UnresolvedCitations) <==> !uncited && !unbacked && misquotes)
      && (verdict.Ok? ==> exists from :: Selects(all, citations, verdict.value, from))
  {
    var all := AllLocators(outputs);
    IndexAfterAll(outputs);
    var kept := Verified(Remembered(map[], all), citations);
    var from := KeptAre(all, citations);
    hide Remembered, IndexAfter, AllLocators, Verified, StandsFor, Resolves, Supported, Selects;
    CoverageMeaning(claims, citations);
    KeptCoverage(all, claims, citations, kept, from);
    KeptQuotes(s, all, citations, kept, from);
  }

  lemma CoverageMeaning(claims: seq<Claim>, citations: seq<Citation>)
    ensures MaterialClaimsCited(claims, citations) <==> !exists claim :: Uncited(claims, citations, claim)
  {
    if !MaterialClaimsCited(claims, citations) {
      var claim :| claim in claims && claim.material && forall i | 0 <= i < |citations| :: citations[i].claimId != claim.id;
      assert Uncited(claims, citations, claim);
    }
  }

  lemma KeptCoverage(all: seq<SourceLocator>, claims: seq<Claim>, citations: seq<Citation>, kept: seq<Citation>, from: seq<nat>)
    requires Selects(all, citations, kept, from)
    ensures MaterialClaimsCited(claims, kept) <==> !exists claim :: Unbacked(all, claims, citations, claim)
  {
    hide StandsFor;
    CoverageMeaning(claims, kept);
    forall claim
      ensures Uncited(claims, kept, claim) <==> Unbacked(all, claims, citations, claim)
    {
      if Uncited(claims, kept, claim) {
        forall c, l | c in citations && StandsFor(all, c, l)
          ensures c.claimId != claim.id
        {
          var k :| 0 <= k < |citations| && citations[k] == c;
          var i :| 0 <= i < |from| && from[i] == k;
          assert kept[i] in kept;
        }
      }
      if Unbacked(all, claims, citations, claim) {
        forall c | c in kept
          ensures c.claimId != claim.id
        {
          var i :| 0 <= i < |kept| && kept[i] == c;
          assert StandsFor(all, citations[from[i]], kept[i].locator);
        }
      }
    }
  }

  lemma KeptQuotes(s: Snapshot, all: seq<SourceLocator>, citations: seq<Citation>, kept: seq<Citation>, from: seq<nat>)
    requires Selects(all, citations, kept, from)
    ensures (exists c | c in kept :: !Resolves(s, c)) <==> exists c, l :: Misquotes(s, all, citations, c, l)
  {
    hide StandsFor, Resolves, Supported;
    if exists c | c in kept :: !Resolves(s, c) {
      var c :| c in kept && !Resolves(s, c);
      var i :| 0 <= i < |kept| && kept[i] == c;
      ResolvesMeaning(s, c);
      assert Misquotes(s, all, citations, citations[from[i]], c.locator);
    }
    if exists c, l :: Misquotes(s, all, citations, c, l) {
      var c, l :| Misquotes(s, all, citations, c, l);
      var k :| 0 <= k < |citations| && citations[k] == c;
      var i :| 0 <= i < |from| && from[i] == k;
      OneStand(all, c, l, kept[i].locator);
      ResolvesMeaning(s, kept[i]);
      assert kept[i] in kept && !Resolves(s, kept[i]);
    }
  }

  /** A citation stands for at most one locator. */
  lemma OneStand(all: seq<SourceLocator>, c: Citation, l: string, o: string)
    requires StandsFor(all, c, l) && StandsFor(all, c, o)
    ensures l == o
  {
    CanonicalMeaning(all, c, l);
    CanonicalMeaning(all, c, o);
    hide StandsFor, CanonicalLocator, Remembered;
  }

  /**
   * In an accepted artifact every material claim has a citation that carries a locator issued for its SHA and
   * hash, and that is supported by the text it names.
   */
  lemma AcceptedIsSupported(s: Snapshot, outputs: seq<Output>, claims: seq<Claim>, citations: seq<Citation>, claim: Claim)
    requires ScoutVerdict(Some(IndexAfter(outputs)), s, claims, citations).Ok? && claim in claims && claim.material
    ensures exists c :: c in ScoutVerdict(Some(IndexAfter(outputs)), s, claims, citations).value
                        && c.claimId == claim.id && LocatorOf(c) in AllLocators(outputs) && Supported(s, c)
  {
    VerdictMeaning(s, outputs, claims, citations);
    hide ScoutVerdict, Supported, AllLocators, IndexAfter;
    var all, kept := AllLocators(outputs), ScoutVerdict(Some(IndexAfter(outputs)), s, claims, citations).value;
    assert !Unbacked(all, claims, citations, claim);
    var c, l :| c in citations && StandsFor(all, c, l) && c.claimId == claim.id;
    var from :| Selects(all, citations, kept, from);
    var k :| 0 <= k < |citations| && citations[k] == c;
    var i :| 0 <= i < |from| && from[i] == k;
    OneStand(all, c, l, kept[i].locator);
    assert !Misquotes(s, all, citations, c, l);
    assert kept[i] in kept && kept[i] == c.(locator := l);
  }

  /** Without tools only the first check is made. */
  lemma VerdictWithoutTools(s: Snapshot, claims: seq<Claim>, citations: seq<Citation>)
    ensures ScoutVerdict(None, s, claims, citations)
         == if exists claim :: Uncited(claims, citations, claim) then Err(UnsupportedMaterialClaims) else Ok(citations)
  {
    CoverageMeaning(claims, citations);
  }
}
