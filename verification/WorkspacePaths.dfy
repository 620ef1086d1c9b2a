/**
 * How `_safe_artifact_path` of src/agentic_lab/executor/adapter.py places a repository path below the
 * workspace: `PurePosixPath` drops empty and `.` parts.
 */
module WorkspacePaths {
  import opened Wrappers
  import opened Text

  function JoinPath(parts: seq<string>): string {
    if parts == [] then "" else if |parts| == 1 then parts[0] else parts[0] + "/" + JoinPath(parts[1..])
  }

  predicate IsName(part: string) {
    part != "" && part != "."
  }

  function Names(parts: seq<string>): seq<string> {
    if parts == [] then [] else (if IsName(parts[0]) then [parts[0]] else []) + Names(parts[1..])
  }

  /** The file a path stands for; `None` is the root itself, whose parent is outside and refused. */
  function PlaceOf(path: string): Option<string> {
    var names := Names(Split(path, '/'));
    if names == [] then None else Some(JoinPath(names))
  }

  /** A path that is written as the place it stands for. */
  predicate Canonical(path: string) {
    forall part | part in Split(path, '/') :: IsName(part)
  }

  lemma {:induction false} SplitParts(s: string, c: char)
    ensures forall part | part in Split(s, c) :: c !in part
    decreases |s|
  {
    var n := IndexOf(s, c);
    if n < |s| {
      SplitParts(s[n + 1..], c);
    }
  }

  lemma {:induction false} JoinOfSplit(s: string)
    ensures JoinPath(Split(s, '/')) == s
    decreases |s|
  {
    var n := IndexOf(s, '/');
    if n < |s| {
      JoinOfSplit(s[n + 1..]);
      assert ([s[..n]] + Split(s[n + 1..], '/'))[1..] == Split(s[n + 1..], '/');
      assert s[..n] + "/" + s[n + 1..] == s;
    }
  }

  lemma {:induction false} SplitOfJoin(parts: seq<string>)
    requires parts != [] && forall part | part in parts :: '/' !in part
    ensures Split(JoinPath(parts), '/') == parts
    decreases |parts|
  {
    hide Split;
    if |parts| == 1 {
      SplitOne(parts[0]);
      assert parts == [parts[0]];
    } else {
      SplitOfJoin(parts[1..]);
      SplitFirst(parts[0], JoinPath(parts[1..]));
      assert parts == [parts[0]] + parts[1..];
    }
  }

  lemma SplitOne(part: string)
    requires '/' !in part
    ensures Split(part, '/') == [part]
  {
    IndexAfter(part, "");
    assert part + "" == part;
  }

  lemma SplitFirst(part: string, rest: string)
    requires '/' !in part
    ensures Split(part + "/" + rest, '/') == [part] + Split(rest, '/')
  {
    var s := part + "/" + rest;
    assert s == part + ("/" + rest);
    IndexAfter(part, "/" + rest);
    assert s[..|part|] == part && s[|part| + 1..] == rest;
  }

  lemma IndexAfter(part: string, rest: string)
    requires '/' !in part && (rest != "" ==> rest[0] == '/')
    ensures IndexOf(part + rest, '/') == |part|
  {
    var s := part + rest;
    var n := IndexOf(s, '/');
    assert forall i | 0 <= i < |part| :: s[i] == part[i];
    assert forall i | 0 <= i < n :: s[i] == s[..n][i];
    assert rest != "" ==> s[|part|] == rest[0];
  }

  lemma {:induction false} NamesOnly(parts: seq<string>)
    ensures forall name | name in Names(parts) :: IsName(name) && name in parts
    ensures Names(parts) == parts <==> forall part | part in parts :: IsName(part)
    ensures |Names(parts)| <= |parts|
  {
    if parts != [] {
      NamesOnly(parts[1..]);
      assert parts == [parts[0]] + parts[1..];
    }
  }

  /** A path stands for itself if and only if it is canonical, and every place is canonical. */
  lemma PlacesAreCanonical(path: string)
    ensures PlaceOf(path) == Some(path) <==> Canonical(path)
    ensures PlaceOf(path).Some? ==> Canonical(PlaceOf(path).value)
  {
    var parts := Split(path, '/');
    NamesOnly(parts);
    SplitParts(path, '/');
    JoinOfSplit(path);
    if Names(parts) != [] {
      SplitOfJoin(Names(parts));
    }
  }

  /** The directories a place lies in, below the root. */
  function Ancestors(place: string): set<string> {
    set i | 0 <= i < |place| && place[i] == '/' :: place[..i]
  }

  lemma AncestorsNest(a: string, place: string)
    requires a in Ancestors(place)
    ensures Ancestors(a) <= Ancestors(place) && |a| < |place|
  {
    forall b | b in Ancestors(a)
      ensures b in Ancestors(place)
    {
      var i :| 0 <= i < |a| && a[i] == '/' && a[..i] == b;
      assert place[i] == '/' && place[..i] == b;
    }
  }
}
