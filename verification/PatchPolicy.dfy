/**
 * `validate_unified_diff` and `_changed_paths` of src/agentic_lab/policy/patch.py: a second reader
 * of the diff, which must see every path the parser and the applier act on.
 */
module PatchPolicy {
  import opened Wrappers
  import opened Text
  import opened UnifiedDiff
  import Utf8
  import DiffApply

  /** The two library functions the policy uses and this model does not define. */
  datatype Library = Library(fnmatch: (string, string) -> bool, lower: string -> string)

  datatype Policy = Policy(allowedSourcePaths: seq<string>, protectedPaths: seq<string>, maxChangedFiles: nat, maxPatchBytes: nat)

  datatype Reason =
    | SourceOnlyPatch | PatchTooLarge | BinaryOrLinkChange | NoChangedSourcePath | TooManyChangedFiles
    | UnsafePath | ProtectedPath | TestOrDependencyPath | ManifestProtectedPath | PathNotAllowlisted

  datatype PolicyResult = PolicyResult(allow: bool, reason: Reason, changedPaths: set<string>)

  const FORBIDDEN_PATH_PARTS := [".github/", "migrations/", "alembic/", "infra/", "infrastructure/",
                                 "auth/", "authentication/", "authorization/", "secrets/"]
  const FORBIDDEN_NAMES := ["dockerfile", "compose.yaml", "compose.yml", "pyproject.toml", "package.json",
                            "cargo.toml", "go.mod", "requirements.txt", "poetry.lock", "package-lock.json",
                            "pnpm-lock.yaml", "yarn.lock"]
  const FORBIDDEN_SUFFIXES := [".lock", ".pem", ".key"]
  const TEST_MARKERS := ["/tests/", "/test_", "_test.py", ".test.", ".spec."]

  // ---- The scanner --------------------------------------------------------------------------------

  predicate IsHeaderLine(line: string) {
    StartsWith(line, "--- ") || StartsWith(line, "+++ ")
  }

  /** What `_DIFF_HEADER` captures after the marker: an optional side prefix is skipped if a name is left. */
  function Captured(rest: string): string {
    var name := Before(if HasSidePrefix(rest) then rest[2..] else rest, '\t');
    if name == "" then Before(rest, '\t') else name
  }

  /** The path a line of the diff contributes to `_changed_paths`. */
  function ScannedPath(line: string): Option<string> {
    if !IsHeaderLine(line) || Captured(line[4..]) == "" then None
    else
      var path := Strip(Captured(line[4..]));
      if path == "/dev/null" then None else Some(path)
  }

  function ScannedPaths(lines: seq<string>): set<string> {
    set i | 0 <= i < |lines| && ScannedPath(lines[i]).Some? :: ScannedPath(lines[i]).value
  }

  /** The pattern is matched at the start of every line-feed separated line. */
  method ChangedPaths(diff: string) returns (paths: set<string>)
    ensures paths == ScannedPaths(Split(diff, '\n'))
  {
    hide ScannedPath, Split;
    var lines := Split(diff, '\n');
    paths := {};
    for k := 0 to |lines|
      invariant paths == ScannedPaths(lines[..k])
    {
      assert lines[..k + 1] == lines[..k] + [lines[k]];
      ScanMore(lines[..k], lines[k]);
      var path := ScannedPath(lines[k]);
      if path.Some? {
        paths := paths + {path.value};
      }
    }
    assert lines[..|lines|] == lines;
  }

  lemma ScanMore(lines: seq<string>, line: string)
    ensures ScannedPaths(lines + [line])
         == ScannedPaths(lines) + if ScannedPath(line).Some? then {ScannedPath(line).value} else {}
  {
    hide ScannedPath;
    var more := lines + [line];
    assert forall i | 0 <= i < |lines| :: more[i] == lines[i];
    assert more[|lines|] == line;
    forall path | path in ScannedPaths(lines)
      ensures path in ScannedPaths(more)
    {
      var i :| 0 <= i < |lines| && ScannedPath(lines[i]) == Some(path);
      assert ScannedPath(more[i]) == Some(path);
    }
    if ScannedPath(line).Some? {
      assert ScannedPath(more[|lines|]) == Some(ScannedPath(line).value);
    }
  }

  // ---- The verdict --------------------------------------------------------------------------------

  predicate Contains(s: string, part: string) {
    exists i | 0 <= i <= |s| :: StartsWith(s[i..], part)
  }

  predicate EndsWith(s: string, suffix: string) {
    |suffix| <= |s| && s[|s| - |suffix|..] == suffix
  }

  predicate AnyContained(s: string, parts: seq<string>) {
    exists i | 0 <= i < |parts| :: Contains(s, parts[i])
  }

  predicate AnyMatch(library: Library, path: string, patterns: seq<string>) {
    exists i | 0 <= i < |patterns| :: library.fnmatch(path, patterns[i])
  }

  /** The body of the checking loop: why a path is refused, if it is. */
  function RefusedPath(library: Library, policy: Policy, path: string): Option<Reason> {
    var lowered := library.lower(path);
    var parts := Split(lowered, '/');
    var name := parts[|parts| - 1];
    if StartsWith(path, "../") || StartsWith(path, "/") || '\0' in path then Some(Reason.UnsafePath)
    else if AnyContained(lowered, FORBIDDEN_PATH_PARTS)
         || exists i | 0 <= i < |parts| - 1 :: StartsWith(parts[i], "auth")
    then Some(ProtectedPath)
    else if name in FORBIDDEN_NAMES
         || (exists i | 0 <= i < |FORBIDDEN_SUFFIXES| :: EndsWith(lowered, FORBIDDEN_SUFFIXES[i]))
         || StartsWith(lowered, "test_") || StartsWith(lowered, "tests/")
         || AnyContained(lowered, TEST_MARKERS)
    then Some(TestOrDependencyPath)
    else if AnyMatch(library, path, policy.protectedPaths) then Some(ManifestProtectedPath)
    else if StartsWith(name, "auth") || Contains(name, "_auth") || EndsWith(name, ".tf") then Some(ProtectedPath)
    else if !AnyMatch(library, path, policy.allowedSourcePaths) then Some(PathNotAllowlisted)
    else None
  }

  predicate IsBinaryNotice(line: string) {
    |line| > 20 && StartsWith(line, "Binary files ") && EndsWith(line, " differ")
  }

  predicate MentionsBinaryOrLink(diff: string) {
    || Contains(diff, "GIT binary patch")
    || (exists i | 0 <= i < |Split(diff, '\n')| :: IsBinaryNotice(Split(diff, '\n')[i]))
    || Contains(diff, "new file mode 120000")
    || Contains(diff, "Subproject commit")
  }

  /** When the verdict is ALLOW. */
  predicate Allows(library: Library, policy: Policy, diff: string) {
    var paths := ScannedPaths(Split(diff, '\n'));
    && |Utf8.Encode(diff)| <= policy.maxPatchBytes
    && !MentionsBinaryOrLink(diff)
    && paths != {} && |paths| <= policy.maxChangedFiles
    && forall path | path in paths :: RefusedPath(library, policy, path).None?
  }

  /**
   * The four checks on the whole diff come first and in this order; then the paths are checked one by one,
   * in an unspecified order here (the source sorts them first).
   */
  method ValidateUnifiedDiff(library: Library, policy: Policy, diff: string) returns (r: PolicyResult)
    ensures r.allow <==> Allows(library, policy, diff)
    ensures r.allow <==> r.reason == SourceOnlyPatch
    ensures var paths := ScannedPaths(Split(diff, '\n'));
            if |Utf8.Encode(diff)| > policy.maxPatchBytes then r == PolicyResult(false, PatchTooLarge, {})
            else if MentionsBinaryOrLink(diff) then r == PolicyResult(false, BinaryOrLinkChange, {})
            else if paths == {} then r == PolicyResult(false, NoChangedSourcePath, {})
            else if |paths| > policy.maxChangedFiles then r == PolicyResult(false, TooManyChangedFiles, paths)
            else if forall path | path in paths :: RefusedPath(library, policy, path).None? then r == PolicyResult(true, SourceOnlyPatch, paths)
            else !r.allow && r.changedPaths == paths && exists path | path in paths :: RefusedPath(library, policy, path) == Some(r.reason)
  {
    hide RefusedPath, MentionsBinaryOrLink, Split, ScannedPath;
    if |Utf8.Encode(diff)| > policy.maxPatchBytes { return PolicyResult(false, PatchTooLarge, {}); }
    if MentionsBinaryOrLink(diff) { return PolicyResult(false, BinaryOrLinkChange, {}); }
    var paths := ChangedPaths(diff);
    if paths == {} { return PolicyResult(false, NoChangedSourcePath, {}); }
    if |paths| > policy.maxChangedFiles { return PolicyResult(false, TooManyChangedFiles, paths); }
    var unchecked := paths;
    while unchecked != {}
      invariant unchecked <= paths
      invariant forall path | path in paths - unchecked :: RefusedPath(library, policy, path).None?
      decreases |unchecked|
    {
      var path :| path in unchecked;
      unchecked := unchecked - {path};
      var refused := RefusedPath(library, policy, path);
      if refused.Some? {
        RefusalReasons(library, policy, path);
        return PolicyResult(false, refused.value, paths);
      }
    }
    r := PolicyResult(true, SourceOnlyPatch, paths);
  }

  lemma RefusalReasons(library: Library, policy: Policy, path: string)
    requires RefusedPath(library, policy, path).Some?
    ensures RefusedPath(library, policy, path).value
            in {Reason.UnsafePath, ProtectedPath, TestOrDependencyPath, ManifestProtectedPath, PathNotAllowlisted}
  {
  }

  // ---- What is let through ----------------------------------------------------------------------------

  ghost predicate Holds(s: string, part: string) {
    exists i, j | 0 <= i <= j <= |s| :: s[i..j] == part
  }

  lemma ContainsMeaning(s: string, part: string)
    ensures Contains(s, part) <==> Holds(s, part)
  {
    if Contains(s, part) {
      var i :| 0 <= i <= |s| && StartsWith(s[i..], part);
      assert s[i..][..|part|] == s[i..i + |part|];
    }
    if Holds(s, part) {
      var i, j :| 0 <= i <= j <= |s| && s[i..j] == part;
      assert s[i..][..j - i] == s[i..j];
    }
  }

  /** A path in the repository, to a file that is no test, dependency list, key or part of access control or infrastructure. */
  ghost predicate IsPlainSource(library: Library, path: string) {
    var lowered := library.lower(path);
    var parts := Split(lowered, '/');
    var name := parts[|parts| - 1];
    && !("../" <= path) && !("/" <= path) && '\0' !in path
    && (forall part | part in {".github/", "migrations/", "alembic/", "infra/", "infrastructure/", "auth/", "authentication/", "authorization/",
                               "secrets/", "/tests/", "/test_", "_test.py", ".test.", ".spec."} :: !Holds(lowered, part))
    && (forall part | part in parts :: !("auth" <= part))
    && name !in {"dockerfile", "compose.yaml", "compose.yml", "pyproject.toml", "package.json", "cargo.toml", "go.mod",
                 "requirements.txt", "poetry.lock", "package-lock.json", "pnpm-lock.yaml", "yarn.lock"}
    && (forall suffix | suffix in {".lock", ".pem", ".key"} :: !EndsWith(lowered, suffix))
    && !("test_" <= lowered) && !("tests/" <= lowered) && !Holds(name, "_auth") && !EndsWith(name, ".tf")
  }

  /** Plain source that matches an allowed pattern and no protected one. */
  ghost predicate IsAllowedSource(library: Library, policy: Policy, path: string) {
    && IsPlainSource(library, path)
    && (exists pattern | pattern in policy.allowedSourcePaths :: library.fnmatch(path, pattern))
    && forall pattern | pattern in policy.protectedPaths :: !library.fnmatch(path, pattern)
  }

  lemma AnyContainedMeaning(s: string, parts: seq<string>)
    ensures AnyContained(s, parts) <==> exists part | part in parts :: Holds(s, part)
  {
    hide Contains, Holds;
    forall i | 0 <= i < |parts|
      ensures Contains(s, parts[i]) <==> Holds(s, parts[i])
    {
      ContainsMeaning(s, parts[i]);
    }
  }

  lemma AnyMatchMeaning(library: Library, path: string, patterns: seq<string>)
    ensures AnyMatch(library, path, patterns) <==> exists pattern | pattern in patterns :: library.fnmatch(path, pattern)
  {
  }

  lemma PrefixMeaning(s: string, prefix: string)
    ensures StartsWith(s, prefix) <==> prefix <= s
  {
  }

  /** The checking loop lets a path pass if and only if it is plain source, allowed and not protected. */
  lemma PassedMeaning(library: Library, policy: Policy, path: string)
    ensures RefusedPath(library, policy, path).None? <==> IsAllowedSource(library, policy, path)
  {
    var lowered := library.lower(path);
    var parts := Split(lowered, '/');
    var name := parts[|parts| - 1];
    AnyContainedMeaning(lowered, FORBIDDEN_PATH_PARTS);
    AnyContainedMeaning(lowered, TEST_MARKERS);
    AnyMatchMeaning(library, path, policy.allowedSourcePaths);
    AnyMatchMeaning(library, path, policy.protectedPaths);
    ContainsMeaning(name, "_auth");
    PrefixMeaning(path, "../");
    PrefixMeaning(path, "/");
    PrefixMeaning(lowered, "test_");
    PrefixMeaning(lowered, "tests/");
    ListsAre(lowered, name);
    AuthParts(parts);
    hide StartsWith, Contains, Holds, AnyContained, AnyMatch, EndsWith, Split;
  }

  lemma AuthParts(parts: seq<string>)
    requires parts != []
    ensures (forall part | part in parts :: !("auth" <= part))
       <==> !(exists i | 0 <= i < |parts| - 1 :: StartsWith(parts[i], "auth")) && !StartsWith(parts[|parts| - 1], "auth")
  {
    forall i | 0 <= i < |parts|
      ensures StartsWith(parts[i], "auth") <==> "auth" <= parts[i]
      ensures parts[i] in parts
    {
      PrefixMeaning(parts[i], "auth");
    }
    hide StartsWith;
    forall part | part in parts
      ensures exists i :: 0 <= i < |parts| && parts[i] == part
    {
    }
    if !(exists i | 0 <= i < |parts| - 1 :: StartsWith(parts[i], "auth")) && !StartsWith(parts[|parts| - 1], "auth") {
      assert forall i | 0 <= i < |parts| :: !StartsWith(parts[i], "auth");
    }
  }

  lemma ListsAre(lowered: string, name: string)
    ensures (exists part | part in FORBIDDEN_PATH_PARTS :: Holds(lowered, part)) || (exists part | part in TEST_MARKERS :: Holds(lowered, part))
       <==> exists part | part in {".github/", "migrations/", "alembic/", "infra/", "infrastructure/", "auth/", "authentication/", "authorization/",
                                   "secrets/", "/tests/", "/test_", "_test.py", ".test.", ".spec."} :: Holds(lowered, part)
    ensures name in FORBIDDEN_NAMES
       <==> name in {"dockerfile", "compose.yaml", "compose.yml", "pyproject.toml", "package.json", "cargo.toml", "go.mod",
                     "requirements.txt", "poetry.lock", "package-lock.json", "pnpm-lock.yaml", "yarn.lock"}
    ensures (exists i | 0 <= i < |FORBIDDEN_SUFFIXES| :: EndsWith(lowered, FORBIDDEN_SUFFIXES[i]))
       <==> exists suffix | suffix in {".lock", ".pem", ".key"} :: EndsWith(lowered, suffix)
  {
    hide Holds, EndsWith;
    assert FORBIDDEN_SUFFIXES[0] == ".lock" && FORBIDDEN_SUFFIXES[1] == ".pem" && FORBIDDEN_SUFFIXES[2] == ".key";
  }

  /** No binary patch, notice of a binary file, symbolic link or submodule. */
  ghost predicate IsTextual(diff: string) {
    && !Holds(diff, "GIT binary patch") && !Holds(diff, "new file mode 120000") && !Holds(diff, "Subproject commit")
    && forall line, files | line in Split(diff, '\n') && files != "" :: line != "Binary files " + files + " differ"
  }

  lemma NoticeMeaning(line: string)
    ensures IsBinaryNotice(line) <==> exists files :: files != "" && line == "Binary files " + files + " differ"
  {
    if IsBinaryNotice(line) {
      var files := line[13..|line| - 7];
      assert line == line[..13] + files + line[|line| - 7..];
    }
    if exists files :: files != "" && line == "Binary files " + files + " differ" {
      var files :| files != "" && line == "Binary files " + files + " differ";
      assert line[..13] == "Binary files " && line[|line| - 7..] == " differ";
    }
  }

  /**
   * ALLOW means: the diff is within the size limit and textual, names at least one file and no more than the
   * policy permits, and all of them are allowed source.
   */
  lemma AllowMeaning(library: Library, policy: Policy, diff: string)
    ensures Allows(library, policy, diff)
       <==> && |Utf8.Encode(diff)| <= policy.maxPatchBytes && IsTextual(diff)
            && 1 <= |ScannedPaths(Split(diff, '\n'))| <= policy.maxChangedFiles
            && forall path | path in ScannedPaths(Split(diff, '\n')) :: IsAllowedSource(library, policy, path)
  {
    TextualMeaning(diff);
    hide MentionsBinaryOrLink, IsTextual, RefusedPath, IsAllowedSource, ScannedPaths, Split;
    forall path
      ensures RefusedPath(library, policy, path).None? <==> IsAllowedSource(library, policy, path)
    {
      PassedMeaning(library, policy, path);
    }
  }

  lemma TextualMeaning(diff: string)
    ensures MentionsBinaryOrLink(diff) <==> !IsTextual(diff)
  {
    ContainsMeaning(diff, "GIT binary patch");
    ContainsMeaning(diff, "new file mode 120000");
    ContainsMeaning(diff, "Subproject commit");
    var lines := Split(diff, '\n');
    forall i | 0 <= i < |lines|
      ensures lines[i] in lines
      ensures IsBinaryNotice(lines[i]) <==> exists files :: files != "" && lines[i] == "Binary files " + files + " differ"
    {
      NoticeMeaning(lines[i]);
    }
    hide Contains, Holds, Split, IsBinaryNotice;
  }

  // ---- The scanner and the parser name the same paths -----------------------------------------------

  /** Blanks before or after the side prefix: the one shape of header the two readers take differently. */
  predicate Misaligned(raw: string) {
    var name := Before(raw, '\t');
    || (name != "" && IsSpace(name[0]) && HasSidePrefix(Strip(name)))
    || (HasSidePrefix(name) && |name| > 2 && IsSpace(name[2]))
  }

  lemma {:induction false} StripRightAfter(a: string, b: string)
    requires a != "" && !IsSpace(a[|a| - 1])
    ensures StripRight(a + b) == a + StripRight(b)
    decreases |b|
  {
    hide IsSpace;
    if b == "" {
      assert a + b == a;
    } else if IsSpace(b[|b| - 1]) {
      assert (a + b)[..|a + b| - 1] == a + b[..|b| - 1];
      StripRightAfter(a, b[..|b| - 1]);
    } else {
      assert (a + b)[|a + b| - 1] == b[|b| - 1];
    }
  }

  lemma StripStart(s: string)
    ensures Strip(s) != "" ==> !IsSpace(Strip(s)[0])
    ensures s != "" && !IsSpace(s[0]) ==> Strip(s) == StripRight(s) <= s
  {
    hide IsSpace;
    assert Strip(s) <= StripLeft(s);
  }

  /** Text that is not all blank is stripped alike on both sides and on the right only if it starts with no blank. */
  lemma StripLeftMatters(s: string)
    requires StripRight(s) != ""
    ensures Strip(s) == StripRight(s) <==> !IsSpace(s[0])
  {
    hide IsSpace, StripRight;
    StripStart(s);
    assert StripRight(s)[0] == s[0];
  }

  lemma BeforeTail(s: string, c: char)
    requires |s| >= 2 && s[0] != c && s[1] != c
    ensures Before(s, c) == s[..2] + Before(s[2..], c)
  {
    assert IndexOf(s, c) == 1 + IndexOf(s[1..], c);
    assert s[1..][1..] == s[2..] && IndexOf(s[1..], c) == 1 + IndexOf(s[2..], c);
  }

  /** Tabs do not hide or create a side prefix. */
  lemma PrefixBeforeTab(raw: string)
    ensures HasSidePrefix(raw) <==> HasSidePrefix(Before(raw, '\t'))
    ensures HasSidePrefix(raw) ==> Before(raw, '\t') == raw[..2] + Before(raw[2..], '\t')
  {
    if HasSidePrefix(raw) {
      assert raw[..2][0] == raw[0] && raw[..2][1] == raw[1];
      BeforeTail(raw, '\t');
    }
    assert |Before(raw, '\t')| >= 2 ==> Before(raw, '\t')[..2] == raw[..2];
  }

  lemma PrefixUnstripped(name: string)
    requires name != "" && !IsSpace(name[0]) && HasSidePrefix(Strip(name))
    ensures HasSidePrefix(name)
  {
    hide IsSpace, StripRight;
    StripStart(name);
    assert Strip(name)[..2] == name[..2];
  }

  /** A header name with a side prefix: the parser strips it on the right, the scanner strips what follows the prefix. */
  lemma PrefixedAgreement(prefix: string, rest: string, path: string)
    requires prefix == "a/" || prefix == "b/"
    requires path != "" && (var value := Strip(prefix + rest); path == if HasSidePrefix(value) then value[2..] else value)
    ensures Strip(rest) == path <==> !(rest != "" && IsSpace(rest[0]))
    ensures rest != ""
  {
    assert !IsSpace('a') && !IsSpace('b') && !IsSpace('/');
    hide IsSpace, StripRight;
    assert (prefix + rest)[0] == prefix[0];
    StripStart(prefix + rest);
    StripRightAfter(prefix, rest);
    assert (prefix + StripRight(rest))[..2] == prefix && (prefix + StripRight(rest))[2..] == StripRight(rest);
    StripLeftMatters(rest);
  }

  /** On a header line the scanner records the parser's path exactly when the header is not misaligned. */
  lemma HeaderAgreement(line: string, path: string)
    requires IsHeaderLine(line) && HeaderPath(line[4..]) == Ok(Some(path))
    ensures ScannedPath(line) == Some(path) <==> !Misaligned(line[4..])
  {
    var raw := line[4..];
    var name := Before(raw, '\t');
    PrefixBeforeTab(raw);
    if HasSidePrefix(raw) {
      PrefixedHeader(raw, path);
      assert ScannedPath(line) == if Strip(Captured(raw)) == "/dev/null" then None else Some(Strip(Captured(raw)));
    } else {
      hide IsSpace, Split, IndexOf, Strip;
      assert Captured(raw) == name;
      if name != "" && !IsSpace(name[0]) && HasSidePrefix(Strip(name)) {
        PrefixUnstripped(name);
        assert false;
      }
      assert HasSidePrefix(Strip(name)) ==> path == Strip(name)[2..];
    }
  }

  lemma PrefixedHeader(raw: string, path: string)
    requires HasSidePrefix(raw) && HeaderPath(raw) == Ok(Some(path))
    ensures Captured(raw) != ""
    ensures Strip(Captured(raw)) == path <==> !Misaligned(raw)
    ensures path != "/dev/null"
  {
    assert !IsSpace('a') && !IsSpace('b');
    assert "/dev/null"[0] == '/';
    hide IsSpace, Split, IndexOf, StripRight, StripLeft;
    var prefix, rest := raw[..2], Before(raw[2..], '\t');
    PrefixBeforeTab(raw);
    var name := Before(raw, '\t');
    assert name == prefix + rest;
    assert name[0] == prefix[0] && name[..2] == prefix && name[2..] == rest;
    PrefixedAgreement(prefix, rest, path);
  }

  // ---- What an applied or allowed path is -------------------------------------------------------------

  lemma {:induction false} AppliedPaths(patches: seq<TextFilePatch>, originals: map<string, Utf8.Bytes>)
    requires DiffApply.ApplyFiles(patches, originals).Ok?
    ensures var applied := DiffApply.ApplyFiles(patches, originals).value;
            |applied| == |patches| && forall i | 0 <= i < |patches| ::
              applied[i].oldPath == patches[i].oldPath && applied[i].newPath == patches[i].newPath
              && (applied[i].content.None? <==> applied[i].newPath.None?)
  {
    hide DiffApply.BaseText, DiffApply.ApplyHunks;
    if patches != [] {
      AppliedPaths(patches[1..], originals);
    }
  }

  lemma AllowedPathMatches(library: Library, policy: Policy, path: string)
    requires RefusedPath(library, policy, path).None?
    ensures AnyMatch(library, path, policy.allowedSourcePaths) && !AnyMatch(library, path, policy.protectedPaths)
  {
    hide AnyMatch, AnyContained, Contains, EndsWith;
  }
}
