/**
 * The executor's workspace and what `_apply_workspace_diff` of src/agentic_lab/executor/adapter.py does to it.
 * The disk has files and directories; a round of the loop can find its old file gone or its new place taken.
 */
module Workspaces {
  import opened Wrappers
  import opened UnifiedDiff
  import opened DiffApply
  import opened Utf8
  import opened WorkspacePaths
  import DiffParser
  import PatchPolicy

  type Tree = map<string, Bytes>

  /** `Diff` carries the parser's and applier's errors; the others are about where files are. */
  datatype DeliveryError = Diff(error: DiffError) | EscapesRoot | BaseFileUnavailable | FileNotFound | IsADirectory | NotADirectory

  /** The workspace places a path below its root; Git takes it as it is written. */
  datatype Naming = Placed | Verbatim {
    function Of(path: string): Option<string> {
      if Placed? then PlaceOf(path) else Some(path)
    }
  }

  // ---- Base files -----------------------------------------------------------------------------------

  /** The old files of the patches, read from `files`. */
  function Originals(patches: seq<TextFilePatch>, files: Tree, naming: Naming): Result<Tree, DeliveryError> {
    if patches == [] then Ok(map[])
    else
      var rest :- Originals(patches[..|patches| - 1], files, naming);
      var path := patches[|patches| - 1].oldPath;
      if path.None? then Ok(rest)
      else
        match naming.Of(path.value)
        case None => Err(EscapesRoot)
        case Some(place) =>
          if place !in files then Err(BaseFileUnavailable) else Ok(rest[path.value := files[place]])
  }

  function AppliedFrom(diff: string, files: Tree, naming: Naming): Result<seq<AppliedFile>, DeliveryError> {
    match Parse(diff)
    case Err(e) => Err(Diff(e))
    case Ok(patches) =>
      var originals :- Originals(patches, files, naming);
      match Apply(diff, originals)
      case Err(e) => Err(Diff(e))
      case Ok(items) => Ok(items)
  }

  method ReadOriginals(patches: seq<TextFilePatch>, files: Tree, naming: Naming) returns (r: Result<Tree, DeliveryError>)
    ensures r == Originals(patches, files, naming)
  {
    var originals: Tree := map[];
    for k := 0 to |patches|
      invariant Originals(patches[..k], files, naming) == Ok(originals)
    {
      assert patches[..k + 1][..k] == patches[..k];
      var path := patches[k].oldPath;
      if path.Some? {
        var place := naming.Of(path.value);
        if place.None? || place.value !in files {
          r := Err(if place.None? then EscapesRoot else BaseFileUnavailable);
          OriginalsFail(patches, k + 1, files, naming, r.error);
          return;
        }
        originals := originals[path.value := files[place.value]];
      }
    }
    assert patches[..|patches|] == patches;
    r := Ok(originals);
  }

  lemma {:induction false} OriginalsFail(patches: seq<TextFilePatch>, k: nat, files: Tree, naming: Naming, error: DeliveryError)
    requires k <= |patches| && Originals(patches[..k], files, naming) == Err(error)
    ensures Originals(patches, files, naming) == Err(error)
    decreases |patches|
  {
    if k == |patches| {
      assert patches[..k] == patches;
    } else {
      assert patches[..|patches| - 1][..k] == patches[..k];
      OriginalsFail(patches[..|patches| - 1], k, files, naming, error);
    }
  }

  // ---- The workspace ----------------------------------------------------------------------------------

  function ContentOf(item: AppliedFile): Bytes {
    if item.content.Some? then item.content.value else []
  }

  /** The files below the workspace's root, and the directories. */
  datatype Disk = Disk(files: Tree, dirs: set<string>)

  /** A file lies in directories only, a directory too, and nothing is both. */
  ghost predicate ValidDisk(disk: Disk) {
    && (forall path | path in disk.files :: Canonical(path) && Ancestors(path) <= disk.dirs && path !in disk.dirs)
    && (forall path | path in disk.dirs :: Ancestors(path) <= disk.dirs)
  }

  /** A fresh checkout of a tree. */
  function Checkout(files: Tree): Disk {
    Disk(files, set path, a | path in files && a in Ancestors(path) :: a)
  }

  /** `mkdir(parents=True, exist_ok=True)` of the parent and `write_bytes`. */
  function Written(disk: Disk, place: string, content: Bytes): (Disk, Option<DeliveryError>) {
    if exists a | a in Ancestors(place) :: a in disk.files then (disk, Some(NotADirectory))
    else
      var made := disk.(dirs := disk.dirs + Ancestors(place));
      if place in made.dirs then (made, Some(IsADirectory)) else (made.(files := made.files[place := content]), None)
  }

  /** One round of the workspace loop: what is on disk after it, and the exception it ends in if any. */
  function WorkspaceItem(disk: Disk, item: AppliedFile): (Disk, Option<DeliveryError>) {
    var removes := item.oldPath.Some? && item.oldPath != item.newPath;
    var removed := if removes then PlaceOf(item.oldPath.value) else None;
    if removes && removed.None? then (disk, Some(EscapesRoot))
    else if removes && removed.value !in disk.files then
      (disk, Some(if removed.value in disk.dirs then IsADirectory else FileNotFound))
    else
      var kept := if removes then disk.(files := disk.files - {removed.value}) else disk;
      if item.newPath.None? then (kept, None)
      else
        match PlaceOf(item.newPath.value)
        case None => (kept, Some(EscapesRoot))
        case Some(place) => Written(kept, place, ContentOf(item))
  }

  /** The rounds up to the first exception. */
  function WorkspaceItems(disk: Disk, items: seq<AppliedFile>): (Disk, Option<DeliveryError>) {
    if items == [] then (disk, None)
    else
      var before := WorkspaceItems(disk, items[..|items| - 1]);
      if before.1.Some? then before else WorkspaceItem(before.0, items[|items| - 1])
  }

  function WorkspaceRun(disk: Disk, diff: string): (Disk, Option<DeliveryError>) {
    match AppliedFrom(diff, disk.files, Placed)
    case Err(e) => (disk, Some(e))
    case Ok(items) => WorkspaceItems(disk, items)
  }

  class Workspace {
    var files: Tree
    var dirs: set<string>

    function State(): Disk
      reads this
    {
      Disk(files, dirs)
    }

    constructor (disk: Disk)
      ensures State() == disk
    {
      files, dirs := disk.files, disk.dirs;
    }

    /** Files are removed and written one by one, so an exception can leave part of the patch applied. */
    method ApplyWorkspaceDiff(diff: string) returns (error: Option<DeliveryError>)
      modifies this
      ensures (State(), error) == WorkspaceRun(old(State()), diff)
    {
      hide WorkspaceItem, Parse, ApplyFiles, Apply;
      var parsed := DiffParser.ParseTextDiff(diff);
      if parsed.Err? { return Some(Diff(parsed.error)); }
      var originals := ReadOriginals(parsed.value, files, Placed);
      if originals.Err? { return Some(originals.error); }
      var applied := ApplyTextDiff(diff, originals.value);
      if applied.Err? { return Some(Diff(applied.error)); }
      var items := applied.value;
      for k := 0 to |items|
        invariant WorkspaceItems(old(State()), items[..k]) == (State(), None)
      {
        assert items[..k + 1][..k] == items[..k];
        error := WriteItem(items[k]);
        if error.Some? {
          ErrorStays(old(State()), items, k + 1);
          return;
        }
      }
      assert items[..|items|] == items;
      error := None;
    }

    method WriteItem(item: AppliedFile) returns (error: Option<DeliveryError>)
      modifies this
      ensures (State(), error) == WorkspaceItem(old(State()), item)
    {
      if item.oldPath.Some? && item.oldPath != item.newPath {
        var removed := PlaceOf(item.oldPath.value);
        if removed.None? { return Some(EscapesRoot); }
        if removed.value !in files { return Some(if removed.value in dirs then IsADirectory else FileNotFound); }
        files := files - {removed.value};
      }
      if item.newPath.None? {
        if item.oldPath.Some? {
          var removed := PlaceOf(item.oldPath.value);
          assert files - {removed.value} == files;
          files := files - {removed.value};
        }
        return None;
      }
      var place := PlaceOf(item.newPath.value);
      if place.None? { return Some(EscapesRoot); }
      if exists a | a in Ancestors(place.value) :: a in files { return Some(NotADirectory); }
      dirs := dirs + Ancestors(place.value);
      if place.value in dirs { return Some(IsADirectory); }
      files := files[place.value := ContentOf(item)];
      error := None;
    }
  }

  /** Nothing is ever both a file and a directory, and no directory is removed. */
  lemma {:induction false} DiskStaysValid(disk: Disk, items: seq<AppliedFile>)
    requires ValidDisk(disk)
    ensures ValidDisk(WorkspaceItems(disk, items).0) && disk.dirs <= WorkspaceItems(disk, items).0.dirs
  {
    hide WorkspaceItem, ValidDisk;
    if items != [] {
      var front := items[..|items| - 1];
      DiskStaysValid(disk, front);
      ItemStaysValid(WorkspaceItems(disk, front).0, items[|items| - 1]);
    }
  }

  lemma ItemStaysValid(disk: Disk, item: AppliedFile)
    requires ValidDisk(disk)
    ensures ValidDisk(WorkspaceItem(disk, item).0) && disk.dirs <= WorkspaceItem(disk, item).0.dirs
  {
    hide PlaceOf, Canonical, Ancestors, Written;
    var removes := item.oldPath.Some? && item.oldPath != item.newPath && PlaceOf(item.oldPath.value).Some?;
    var kept := if removes then disk.(files := disk.files - {PlaceOf(item.oldPath.value).value}) else disk;
    assert ValidDisk(kept);
    if item.newPath.Some? && PlaceOf(item.newPath.value).Some? {
      PlacesAreCanonical(item.newPath.value);
      WriteStaysValid(kept, PlaceOf(item.newPath.value).value, ContentOf(item));
    }
  }

  lemma WriteStaysValid(disk: Disk, place: string, content: Bytes)
    requires ValidDisk(disk) && Canonical(place)
    ensures ValidDisk(Written(disk, place, content).0) && disk.dirs <= Written(disk, place, content).0.dirs
  {
    hide Canonical, Ancestors;
    forall a | a in Ancestors(place)
      ensures Ancestors(a) <= Ancestors(place) && a != place
    {
      AncestorsNest(a, place);
    }
  }

  lemma {:induction false} ErrorStays(disk: Disk, items: seq<AppliedFile>, k: nat)
    requires k <= |items| && WorkspaceItems(disk, items[..k]).1.Some?
    ensures WorkspaceItems(disk, items) == WorkspaceItems(disk, items[..k])
    decreases |items|
  {
    hide WorkspaceItem;
    if k == |items| {
      assert items[..k] == items;
    } else {
      assert items[..|items| - 1][..k] == items[..k];
      ErrorStays(disk, items[..|items| - 1], k);
    }
  }

  // ---- When the workspace stops half-way ----------------------------------------------------------------

  predicate Removes(patch: TextFilePatch) {
    patch.oldPath.Some? && patch.oldPath != patch.newPath
  }

  predicate RemovesAt(patch: TextFilePatch, place: string) {
    Removes(patch) && PlaceOf(patch.oldPath.value) == Some(place)
  }

  predicate WritesAt(patch: TextFilePatch, place: string) {
    patch.newPath.Some? && PlaceOf(patch.newPath.value) == Some(place)
  }

  /** Sections i and j remove the same file, and no section from i to j writes it in between. */
  predicate RemovedTwice(patches: seq<TextFilePatch>, i: nat, j: nat)
    requires i < j < |patches|
  {
    && Removes(patches[j]) && PlaceOf(patches[j].oldPath.value).Some?
    && var place := PlaceOf(patches[j].oldPath.value).value;
       RemovesAt(patches[i], place) && forall k | i <= k < j :: !WritesAt(patches[k], place)
  }

  /** There is a file at the place when section `n` begins: an old one never removed, or a written one not removed since. */
  predicate FileBefore(files: Tree, patches: seq<TextFilePatch>, n: nat, place: string)
    requires n <= |patches|
  {
    || (place in files && forall i | 0 <= i < n :: !RemovesAt(patches[i], place))
    || (exists k | 0 <= k < n :: WritesAt(patches[k], place) && forall i | k < i < n :: !RemovesAt(patches[i], place))
  }

  predicate MakesDir(patch: TextFilePatch, place: string) {
    patch.newPath.Some? && PlaceOf(patch.newPath.value).Some? && place in Ancestors(PlaceOf(patch.newPath.value).value)
  }

  /** There is a directory at the place when section `n` begins: an old one, or one made for a file before. */
  predicate DirBefore(dirs: set<string>, patches: seq<TextFilePatch>, n: nat, place: string)
    requires n <= |patches|
  {
    place in dirs || exists i | 0 <= i < n :: MakesDir(patches[i], place)
  }

  /** The new path of section `n` names the root or a directory, or lies below a file that the section does not remove. */
  predicate Misplaced(disk: Disk, patches: seq<TextFilePatch>, n: nat)
    requires n < |patches|
  {
    patches[n].newPath.Some? &&
    match PlaceOf(patches[n].newPath.value)
    case None => true
    case Some(place) =>
      || DirBefore(disk.dirs, patches, n, place)
      || exists a | a in Ancestors(place) :: FileBefore(disk.files, patches, n, a) && !RemovesAt(patches[n], a)
  }

  /** What a caller can look for before the call: a file removed twice, or a new path where no file can be. */
  predicate Stops(disk: Disk, patches: seq<TextFilePatch>) {
    AnyRemovedTwice(patches) || AnyMisplaced(disk, patches)
  }

  predicate AnyRemovedTwice(patches: seq<TextFilePatch>) {
    exists i, j | 0 <= i < j < |patches| :: RemovedTwice(patches, i, j)
  }

  predicate AnyMisplaced(disk: Disk, patches: seq<TextFilePatch>) {
    exists n | 0 <= n < |patches| :: Misplaced(disk, patches, n)
  }

  /** The applied files have the sections' paths. */
  ghost predicate SamePaths(items: seq<AppliedFile>, patches: seq<TextFilePatch>) {
    |items| == |patches| && forall i | 0 <= i < |items| :: items[i].oldPath == patches[i].oldPath && items[i].newPath == patches[i].newPath
  }

  /** The same step by step. */
  predicate Present(files: Tree, patches: seq<TextFilePatch>, n: nat, place: string)
    requires n <= |patches|
  {
    if n == 0 then place in files
    else WritesAt(patches[n - 1], place) || (!RemovesAt(patches[n - 1], place) && Present(files, patches, n - 1, place))
  }

  lemma {:induction false} PresentIsFileBefore(files: Tree, patches: seq<TextFilePatch>, n: nat, place: string)
    requires n <= |patches|
    ensures Present(files, patches, n, place) <==> FileBefore(files, patches, n, place)
  {
    hide RemovesAt, WritesAt;
    if n > 0 {
      PresentIsFileBefore(files, patches, n - 1, place);
      if !WritesAt(patches[n - 1], place) && Present(files, patches, n, place) && !(place in files && forall i | 0 <= i < n - 1 :: !RemovesAt(patches[i], place)) {
        var k :| 0 <= k < n - 1 && WritesAt(patches[k], place) && forall i | k < i < n - 1 :: !RemovesAt(patches[i], place);
        assert forall i | k < i < n :: !RemovesAt(patches[i], place);
      }
    }
  }

  /** A file that was there at the start is gone exactly if it was removed and not written since. */
  lemma {:induction false} GoneMeaning(files: Tree, patches: seq<TextFilePatch>, n: nat, place: string)
    requires n <= |patches| && place in files
    ensures !Present(files, patches, n, place)
       <==> exists i | 0 <= i < n :: RemovesAt(patches[i], place) && forall k | i <= k < n :: !WritesAt(patches[k], place)
  {
    hide RemovesAt, WritesAt;
    if n > 0 {
      GoneMeaning(files, patches, n - 1, place);
      if !Present(files, patches, n, place) {
        if RemovesAt(patches[n - 1], place) {
          assert forall k | n - 1 <= k < n :: !WritesAt(patches[k], place);
        } else {
          var i :| 0 <= i < n - 1 && RemovesAt(patches[i], place) && forall k | i <= k < n - 1 :: !WritesAt(patches[k], place);
          assert forall k | i <= k < n :: !WritesAt(patches[k], place);
        }
      }
    }
  }

  /** As long as nothing stops the workspace, files and directories are where the sections say. */
  lemma {:induction false} DiskBefore(disk: Disk, items: seq<AppliedFile>, patches: seq<TextFilePatch>, n: nat, place: string)
    requires SamePaths(items, patches) && n <= |items| && WorkspaceItems(disk, items[..n]).1.None?
    ensures place in WorkspaceItems(disk, items[..n]).0.files <==> Present(disk.files, patches, n, place)
    ensures place in WorkspaceItems(disk, items[..n]).0.dirs <==> DirBefore(disk.dirs, patches, n, place)
  {
    hide PlaceOf, Ancestors;
    if n > 0 {
      assert items[..n][..n - 1] == items[..n - 1];
      DiskBefore(disk, items, patches, n - 1, place);
      hide WorkspaceItems, Present;
      ItemMoves(WorkspaceItems(disk, items[..n - 1]).0, items[n - 1], patches[n - 1], place);
    }
  }

  lemma ItemMoves(disk: Disk, item: AppliedFile, patch: TextFilePatch, place: string)
    requires item.oldPath == patch.oldPath && item.newPath == patch.newPath && WorkspaceItem(disk, item).1.None?
    ensures var disk' := WorkspaceItem(disk, item).0;
            && (place in disk'.files <==> WritesAt(patch, place) || (!RemovesAt(patch, place) && place in disk.files))
            && (place in disk'.dirs <==> place in disk.dirs || MakesDir(patch, place))
  {
    hide PlaceOf, Ancestors;
  }

  lemma {:induction false} OriginalsPresent(patches: seq<TextFilePatch>, files: Tree, naming: Naming, i: nat)
    requires Originals(patches, files, naming).Ok? && i < |patches| && patches[i].oldPath.Some?
    ensures naming.Of(patches[i].oldPath.value).Some? && naming.Of(patches[i].oldPath.value).value in files
  {
    hide PlaceOf;
    if i < |patches| - 1 {
      OriginalsPresent(patches[..|patches| - 1], files, naming, i);
    }
  }

  /** The file that section `n` removes is gone. */
  predicate FindsNothing(disk: Disk, patches: seq<TextFilePatch>, n: nat)
    requires n < |patches|
  {
    && Removes(patches[n]) && PlaceOf(patches[n].oldPath.value).Some?
    && !Present(disk.files, patches, n, PlaceOf(patches[n].oldPath.value).value)
  }

  /** Section `n` stops the workspace exactly when its old file is gone or its new one misplaced. */
  lemma StopsAt(disk: Disk, items: seq<AppliedFile>, patches: seq<TextFilePatch>, n: nat)
    requires SamePaths(items, patches) && n < |items| && Originals(patches, disk.files, Placed).Ok?
    requires WorkspaceItems(disk, items[..n]).1.None?
    ensures WorkspaceItems(disk, items[..n + 1]).1.Some? <==> FindsNothing(disk, patches, n) || Misplaced(disk, patches, n)
  {
    var now := WorkspaceItems(disk, items[..n]).0;
    assert items[..n + 1][..n] == items[..n];
    assert WorkspaceItems(disk, items[..n + 1]) == WorkspaceItem(now, items[n]);
    hide PlaceOf, Originals, WorkspaceItems, Ancestors, FileBefore, DirBefore, Present;
    if Removes(patches[n]) {
      OriginalsPresent(patches, disk.files, Placed, n);
    }
    forall place
      ensures place in now.files <==> Present(disk.files, patches, n, place)
      ensures place in now.files <==> FileBefore(disk.files, patches, n, place)
      ensures place in now.dirs <==> DirBefore(disk.dirs, patches, n, place)
    {
      DiskBefore(disk, items, patches, n, place);
      PresentIsFileBefore(disk.files, patches, n, place);
    }
    if patches[n].newPath.Some? && PlaceOf(patches[n].newPath.value).Some? {
      NotOwnAncestor(PlaceOf(patches[n].newPath.value).value);
    }
  }

  lemma NotOwnAncestor(place: string)
    ensures place !in Ancestors(place)
  {
    if place in Ancestors(place) {
      AncestorsNest(place, place);
    }
  }

  lemma {:induction false} StopsSomewhere(disk: Disk, items: seq<AppliedFile>, patches: seq<TextFilePatch>, n: nat)
    requires SamePaths(items, patches) && n <= |items| && Originals(patches, disk.files, Placed).Ok?
    ensures WorkspaceItems(disk, items[..n]).1.Some? <==> Stops(disk, patches[..n])
  {
    hide PlaceOf, Originals, WorkspaceItems, Stops, Misplaced, FindsNothing;
    if n == 0 {
      assert items[..0] == [] && patches[..0] == [];
      NothingStops(disk);
    } else {
      StopsSomewhere(disk, items, patches, n - 1);
      StopsMore(disk, patches, n);
      if WorkspaceItems(disk, items[..n - 1]).1.Some? {
        assert items[..n][..n - 1] == items[..n - 1];
        ErrorStays(disk, items[..n], n - 1);
      } else {
        StopsAt(disk, items, patches, n - 1);
      }
    }
  }

  lemma NothingStops(disk: Disk)
    ensures WorkspaceItems(disk, []) == (disk, None) && !Stops(disk, [])
  {
  }

  lemma MisplacedPrefix(disk: Disk, p: seq<TextFilePatch>, q: seq<TextFilePatch>, n: nat)
    requires n < |p| && n < |q| && p[..n + 1] == q[..n + 1]
    ensures Misplaced(disk, p, n) == Misplaced(disk, q, n)
  {
    hide RemovesAt, WritesAt, MakesDir, PlaceOf, Ancestors;
    assert forall i | 0 <= i <= n :: p[i] == p[..n + 1][i] == q[i];
    forall a
      ensures FileBefore(disk.files, p, n, a) == FileBefore(disk.files, q, n, a)
      ensures DirBefore(disk.dirs, p, n, a) == DirBefore(disk.dirs, q, n, a)
    {
    }
    hide FileBefore, DirBefore;
  }

  lemma StopsMore(disk: Disk, patches: seq<TextFilePatch>, n: nat)
    requires 0 < n <= |patches| && Originals(patches, disk.files, Placed).Ok?
    ensures Stops(disk, patches[..n])
       <==> Stops(disk, patches[..n - 1]) || FindsNothing(disk, patches, n - 1) || Misplaced(disk, patches, n - 1)
  {
    hide RemovedTwice, Misplaced, FindsNothing, Originals;
    TwiceMore(disk, patches, n);
    MisplacedMore(disk, patches, n);
  }

  lemma MisplacedMore(disk: Disk, patches: seq<TextFilePatch>, n: nat)
    requires 0 < n <= |patches|
    ensures AnyMisplaced(disk, patches[..n]) <==> AnyMisplaced(disk, patches[..n - 1]) || Misplaced(disk, patches, n - 1)
  {
    hide Misplaced;
    var all, front := patches[..n], patches[..n - 1];
    forall i | 0 <= i < n
      ensures Misplaced(disk, all, i) == Misplaced(disk, patches, i)
      ensures i < n - 1 ==> Misplaced(disk, front, i) == Misplaced(disk, patches, i)
    {
      assert all[..i + 1] == patches[..i + 1];
      MisplacedPrefix(disk, all, patches, i);
      if i < n - 1 {
        assert front[..i + 1] == patches[..i + 1];
        MisplacedPrefix(disk, front, patches, i);
      }
    }
  }

  lemma TwiceMore(disk: Disk, patches: seq<TextFilePatch>, n: nat)
    requires 0 < n <= |patches| && Originals(patches, disk.files, Placed).Ok?
    ensures AnyRemovedTwice(patches[..n]) <==> AnyRemovedTwice(patches[..n - 1]) || FindsNothing(disk, patches, n - 1)
  {
    hide RemovedTwice, FindsNothing, Originals;
    var all, front, last := patches[..n], patches[..n - 1], n - 1;
    forall i, j | 0 <= i < j < n - 1
      ensures RemovedTwice(all, i, j) <==> RemovedTwice(front, i, j)
    {
      TwicePrefix(all, front, i, j);
    }
    RemovedTwiceAt(disk, patches, n);
    if FindsNothing(disk, patches, n - 1) {
      var i :| 0 <= i < n - 1 && TwiceRemoved(all, i);
      assert RemovedTwice(all, i, last);
    }
    forall i, j | 0 <= i < j < n && RemovedTwice(all, i, j)
      ensures j < n - 1 || FindsNothing(disk, patches, n - 1)
    {
      if j == n - 1 {
        assert TwiceRemoved(all, i);
      }
    }
  }

  lemma TwicePrefix(all: seq<TextFilePatch>, front: seq<TextFilePatch>, i: nat, j: nat)
    requires i < j < |front| <= |all| && front == all[..|front|]
    ensures RemovedTwice(all, i, j) <==> RemovedTwice(front, i, j)
  {
    hide PlaceOf, RemovesAt, WritesAt;
    assert forall k | 0 <= k < |front| :: all[k] == front[k];
  }

  lemma RemovedTwiceAt(disk: Disk, patches: seq<TextFilePatch>, n: nat)
    requires 0 < n <= |patches| && Originals(patches, disk.files, Placed).Ok?
    ensures FindsNothing(disk, patches, n - 1) <==> exists i | 0 <= i < n - 1 :: TwiceRemoved(patches[..n], i)
    ensures forall i | 0 <= i < n - 1 :: TwiceRemoved(patches[..n], i) <==> RemovedTwice(patches[..n], i, n - 1)
  {
    hide PlaceOf, RemovesAt, WritesAt, Present, Originals;
    var all, last, j := patches[..n], patches[n - 1], n - 1;
    assert all[n - 1] == last && forall k | 0 <= k < n :: all[k] == patches[k];
    if Removes(last) && PlaceOf(last.oldPath.value).Some? {
      var place := PlaceOf(last.oldPath.value).value;
      OriginalsPresent(patches, disk.files, Placed, j);
      GoneMeaning(disk.files, patches, j, place);
      if !Present(disk.files, patches, j, place) {
        var i :| 0 <= i < j && RemovesAt(patches[i], place) && forall k | i <= k < j :: !WritesAt(patches[k], place);
        assert TwiceRemoved(all, i);
      }
      forall i | 0 <= i < j && TwiceRemoved(all, i)
        ensures !Present(disk.files, patches, j, place)
      {
        assert RemovesAt(patches[i], place) && forall k | i <= k < j :: !WritesAt(all[k], place);
        assert forall k | i <= k < j :: all[k] == patches[k];
      }
    }
  }

  /** The last section removes what section `i` removed. */
  predicate TwiceRemoved(patches: seq<TextFilePatch>, i: nat)
    requires i < |patches| - 1
  {
    RemovedTwice(patches, i, |patches| - 1)
  }

  /**
   * A diff that applies to the workspace's files stops half-way if and only if its sections remove a file
   * twice without writing it in between, or a new path is the root, a directory, or below a file.
   */
  lemma WorkspaceStops(disk: Disk, diff: string)
    requires AppliedFrom(diff, disk.files, Placed).Ok?
    ensures WorkspaceRun(disk, diff).1.Some? <==> Stops(disk, Parse(diff).value)
  {
    var patches, items := Parse(diff).value, AppliedFrom(diff, disk.files, Placed).value;
    PatchPolicy.AppliedPaths(patches, Originals(patches, disk.files, Placed).value);
    hide Parse, Apply, Originals, WorkspaceItems, Stops;
    StopsSomewhere(disk, items, patches, |items|);
    assert items[..|items|] == items && patches[..|patches|] == patches;
  }

  // ---- What is where afterwards ---------------------------------------------------------------------------

  ghost predicate SameAt(a: Tree, b: Tree, path: string) {
    && (path in a <==> path in b)
    && (path in a ==> a[path] == b[path])
  }

  /** One item writes its content, removes its old file, and leaves every other place alone. */
  lemma ItemLeaves(disk: Disk, item: AppliedFile, patch: TextFilePatch, place: string)
    requires item.oldPath == patch.oldPath && item.newPath == patch.newPath && (item.content.None? <==> item.newPath.None?)
    requires WorkspaceItem(disk, item).1.None?
    ensures var files := WorkspaceItem(disk, item).0.files;
            && (WritesAt(patch, place) ==> place in files && item.content == Some(files[place]))
            && (RemovesAt(patch, place) && !WritesAt(patch, place) ==> place !in files)
            && (!RemovesAt(patch, place) && !WritesAt(patch, place) ==> SameAt(disk.files, files, place))
  {
    hide PlaceOf, Ancestors;
  }

  /** No section from `k` to `n` writes or removes the place. */
  ghost predicate Untouched(patches: seq<TextFilePatch>, k: nat, n: nat, place: string)
    requires n <= |patches|
  {
    forall i | k <= i < n :: !WritesAt(patches[i], place) && !RemovesAt(patches[i], place)
  }

  lemma {:induction false} ItemsLeave(disk: Disk, items: seq<AppliedFile>, patches: seq<TextFilePatch>, n: nat, place: string)
    requires SamePaths(items, patches) && n <= |items| && WorkspaceItems(disk, items[..n]).1.None?
    requires forall i | 0 <= i < |items| :: items[i].content.None? <==> items[i].newPath.None?
    ensures var files := WorkspaceItems(disk, items[..n]).0.files;
            && (Untouched(patches, 0, n, place) ==> SameAt(disk.files, files, place))
            && forall k | 0 <= k < n && Untouched(patches, k + 1, n, place) ::
                 && (WritesAt(patches[k], place) ==> place in files && items[k].content == Some(files[place]))
                 && (RemovesAt(patches[k], place) && !WritesAt(patches[k], place) ==> place !in files)
  {
    hide WritesAt, RemovesAt;
    if n > 0 {
      var before := items[..n - 1];
      assert items[..n][..n - 1] == before;
      assert WorkspaceItems(disk, items[..n]) == WorkspaceItem(WorkspaceItems(disk, before).0, items[n - 1]);
      hide WorkspaceItem, WorkspaceItems;
      ItemsLeave(disk, items, patches, n - 1, place);
      ItemLeaves(WorkspaceItems(disk, before).0, items[n - 1], patches[n - 1], place);
      assert forall k | 0 <= k < n && Untouched(patches, k, n, place) :: Untouched(patches, k, n - 1, place);
    } else {
      assert items[..0] == [];
    }
  }

  /**
   * After a run that does not stop, a place holds the applied content of the last section that writes or
   * removes it, or no file if that section only removes it; a place that no section touches is as it was.
   */
  lemma WorkspaceHolds(disk: Disk, diff: string, place: string)
    requires WorkspaceRun(disk, diff).1.None?
    ensures Parse(diff).Ok? && Originals(Parse(diff).value, disk.files, Placed).Ok?
    ensures var patches, files := Parse(diff).value, WorkspaceRun(disk, diff).0.files;
            var applied := Apply(diff, Originals(patches, disk.files, Placed).value);
            && applied.Ok? && |applied.value| == |patches|
            && (Untouched(patches, 0, |patches|, place) ==> SameAt(disk.files, files, place))
            && forall k | 0 <= k < |patches| && Untouched(patches, k + 1, |patches|, place) ::
                 && (WritesAt(patches[k], place) ==> place in files && applied.value[k].content == Some(files[place]))
                 && (RemovesAt(patches[k], place) && !WritesAt(patches[k], place) ==> place !in files)
  {
    var patches, items := Parse(diff).value, AppliedFrom(diff, disk.files, Placed).value;
    PatchPolicy.AppliedPaths(patches, Originals(patches, disk.files, Placed).value);
    assert items[..|items|] == items;
    hide Parse, ApplyFiles, Originals, WorkspaceItems, Untouched, SameAt, WritesAt, RemovesAt;
    ItemsLeave(disk, items, patches, |patches|, place);
  }

  /** The section's old file, under the name the naming gives it, is among the files. */
  ghost predicate OldFileFound(patch: TextFilePatch, files: Tree, naming: Naming) {
    patch.oldPath.Some? ==> naming.Of(patch.oldPath.value).Some? && naming.Of(patch.oldPath.value).value in files
  }

  /** The base files are there if and only if every old file is, and are those and no others; else the first missing one decides the error. */
  lemma {:induction false} OriginalsMeaning(patches: seq<TextFilePatch>, files: Tree, naming: Naming)
    ensures Originals(patches, files, naming).Ok? <==> forall i | 0 <= i < |patches| :: OldFileFound(patches[i], files, naming)
    ensures Originals(patches, files, naming).Err? ==>
              exists i | 0 <= i < |patches| :: !OldFileFound(patches[i], files, naming) && (forall k | 0 <= k < i :: OldFileFound(patches[k], files, naming))
                && Originals(patches, files, naming).error == if naming.Of(patches[i].oldPath.value).None? then EscapesRoot else BaseFileUnavailable
    ensures Originals(patches, files, naming).Ok? ==>
              var originals := Originals(patches, files, naming).value;
              && (forall path :: path in originals <==> exists i | 0 <= i < |patches| :: patches[i].oldPath == Some(path))
              && forall path | path in originals ::
                   naming.Of(path).Some? && naming.Of(path).value in files && originals[path] == files[naming.Of(path).value]
  {
    hide PlaceOf;
    if patches != [] {
      var last := |patches| - 1;
      OriginalsMeaning(patches[..last], files, naming);
      assert forall i | 0 <= i < last :: patches[..last][i] == patches[i];
      if Originals(patches[..last], files, naming).Err? {
        var i :| 0 <= i < last && !OldFileFound(patches[..last][i], files, naming) && forall k | 0 <= k < i :: OldFileFound(patches[..last][k], files, naming);
        assert !OldFileFound(patches[i], files, naming) && forall k | 0 <= k < i :: patches[..last][k] == patches[k];
      }
      if Originals(patches, files, naming).Ok? {
        var originals := Originals(patches, files, naming).value;
        forall path
          ensures path in originals <==> exists i | 0 <= i < |patches| :: patches[i].oldPath == Some(path)
        {
          if patches[last].oldPath == Some(path) {
            assert path in originals;
          }
        }
      }
    }
  }

  lemma {:induction false} FirstStop(disk: Disk, items: seq<AppliedFile>) returns (m: nat)
    requires WorkspaceItems(disk, items).1.Some?
    ensures m < |items| && WorkspaceItems(disk, items[..m]).1.None?
    ensures WorkspaceItems(disk, items) == WorkspaceItems(disk, items[..m + 1]) == WorkspaceItem(WorkspaceItems(disk, items[..m]).0, items[m])
  {
    hide WorkspaceItem;
    var last := |items| - 1;
    if WorkspaceItems(disk, items[..last]).1.Some? {
      m := FirstStop(disk, items[..last]);
      assert items[..last][..m] == items[..m] && items[..last][..m + 1] == items[..m + 1];
    } else {
      m := last;
      assert items[..m + 1] == items;
    }
  }

  /** A round that fails may have removed its old file, and has done nothing else to files. */
  lemma FailedItemLeaves(disk: Disk, item: AppliedFile, patch: TextFilePatch, place: string)
    requires item.oldPath == patch.oldPath && item.newPath == patch.newPath && WorkspaceItem(disk, item).1.Some?
    ensures var files := WorkspaceItem(disk, item).0.files;
            if RemovesAt(patch, place) then place !in files else SameAt(disk.files, files, place)
  {
    hide PlaceOf, Ancestors;
  }

  /** The exception of a section whose old file is gone or whose new path is misplaced. */
  ghost predicate StopsWith(disk: Disk, patches: seq<TextFilePatch>, n: nat, e: DeliveryError)
    requires n < |patches|
  {
    if FindsNothing(disk, patches, n) then
      e == if DirBefore(disk.dirs, patches, n, PlaceOf(patches[n].oldPath.value).value) then IsADirectory else FileNotFound
    else
      patches[n].newPath.Some? &&
      match PlaceOf(patches[n].newPath.value)
      case None => e == EscapesRoot
      case Some(place) =>
        e == if exists a | a in Ancestors(place) :: FileBefore(disk.files, patches, n, a) && !RemovesAt(patches[n], a) then NotADirectory else IsADirectory
  }

  lemma StopReason(disk: Disk, items: seq<AppliedFile>, patches: seq<TextFilePatch>, n: nat)
    requires SamePaths(items, patches) && n < |items| && Originals(patches, disk.files, Placed).Ok?
    requires WorkspaceItems(disk, items[..n]).1.None? && WorkspaceItem(WorkspaceItems(disk, items[..n]).0, items[n]).1.Some?
    ensures StopsWith(disk, patches, n, WorkspaceItem(WorkspaceItems(disk, items[..n]).0, items[n]).1.value)
  {
    var now := WorkspaceItems(disk, items[..n]).0;
    hide PlaceOf, Originals, WorkspaceItems, Ancestors, FileBefore, DirBefore, Present;
    if Removes(patches[n]) {
      OriginalsPresent(patches, disk.files, Placed, n);
    }
    forall place
      ensures place in now.files <==> Present(disk.files, patches, n, place)
      ensures place in now.files <==> FileBefore(disk.files, patches, n, place)
      ensures place in now.dirs <==> DirBefore(disk.dirs, patches, n, place)
    {
      DiskBefore(disk, items, patches, n, place);
      PresentIsFileBefore(disk.files, patches, n, place);
    }
  }

  /**
   * A run that stops does so at the first section that finds its old file gone or is misplaced. That section has
   * removed its old file if it was there; all else is as the sections before it left it.
   */
  lemma StoppedHolds(disk: Disk, diff: string, place: string) returns (m: nat)
    requires AppliedFrom(diff, disk.files, Placed).Ok? && WorkspaceRun(disk, diff).1.Some?
    ensures var patches, files := Parse(diff).value, WorkspaceRun(disk, diff).0.files;
            var applied := Apply(diff, Originals(patches, disk.files, Placed).value).value;
            && m < |patches| == |applied| && (FindsNothing(disk, patches, m) || Misplaced(disk, patches, m))
            && StopsWith(disk, patches, m, WorkspaceRun(disk, diff).1.value)
            && (forall i | 0 <= i < m :: !FindsNothing(disk, patches, i) && !Misplaced(disk, patches, i))
            && (RemovesAt(patches[m], place) ==> place !in files)
            && (!RemovesAt(patches[m], place) ==>
                  && (Untouched(patches, 0, m, place) ==> SameAt(disk.files, files, place))
                  && forall k | 0 <= k < m && Untouched(patches, k + 1, m, place) ::
                       && (WritesAt(patches[k], place) ==> place in files && applied[k].content == Some(files[place]))
                       && (RemovesAt(patches[k], place) && !WritesAt(patches[k], place) ==> place !in files))
  {
    var patches, items := Parse(diff).value, AppliedFrom(diff, disk.files, Placed).value;
    PatchPolicy.AppliedPaths(patches, Originals(patches, disk.files, Placed).value);
    hide Parse, ApplyFiles, Originals, WorkspaceItems, WorkspaceItem, Untouched, SameAt, WritesAt, RemovesAt, FindsNothing, Misplaced, StopsWith;
    m := FirstStop(disk, items);
    forall i | 0 <= i <= m
      ensures WorkspaceItems(disk, items[..i]).1.None?
      ensures FindsNothing(disk, patches, i) || Misplaced(disk, patches, i) <==> i == m
    {
      NoErrorBefore(disk, items, i, m);
      StopsAt(disk, items, patches, i);
      if i < m {
        NoErrorBefore(disk, items, i + 1, m);
      }
    }
    var before := WorkspaceItems(disk, items[..m]).0;
    StopReason(disk, items, patches, m);
    ItemsLeave(disk, items, patches, m, place);
    FailedItemLeaves(before, items[m], patches[m], place);
    SameFromHere(before.files, WorkspaceRun(disk, diff).0.files, disk.files, place);
  }

  lemma SameFromHere(a: Tree, b: Tree, start: Tree, place: string)
    ensures SameAt(a, b, place) && SameAt(start, a, place) ==> SameAt(start, b, place)
    ensures SameAt(a, b, place) ==> (place in a <==> place in b) && (place in a ==> a[place] == b[place])
  {
  }

  lemma NoErrorBefore(disk: Disk, items: seq<AppliedFile>, i: nat, m: nat)
    requires i <= m <= |items| && WorkspaceItems(disk, items[..m]).1.None?
    ensures WorkspaceItems(disk, items[..i]).1.None?
  {
    hide WorkspaceItems;
    assert items[..m][..i] == items[..i];
    if WorkspaceItems(disk, items[..i]).1.Some? {
      ErrorStays(disk, items[..m], i);
    }
  }
}
