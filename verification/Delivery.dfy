/**
 * The two deliveries of one diff: into an executor workspace (`_apply_workspace_diff` of
 * src/agentic_lab/executor/adapter.py) and as Git tree entries (`apply_unified_diff` of
 * src/agentic_lab/gateway/github.py).
 */
module Delivery {
  import opened Wrappers
  import opened UnifiedDiff
  import opened DiffApply
  import opened Utf8
  import opened WorkspacePaths
  import opened Workspaces
  import DiffParser
  import DiffPrinter
  import HeaderCoverage
  import PatchPolicy
  import Text

  /** One entry of the tree request; `None` is the null SHA that removes the path. */
  datatype Entry = Entry(path: string, content: Option<Bytes>)

  // ---- The tree request ---------------------------------------------------------------------------------

  /** What one applied file adds to the request. */
  function ItemEntries(item: AppliedFile): seq<Entry> {
    (if item.oldPath.Some? && item.oldPath != item.newPath then [Entry(item.oldPath.value, None)] else [])
    + if item.newPath.None? then []
      else [Entry(item.newPath.value, Some(ContentOf(item)))]
  }

  function Entries(items: seq<AppliedFile>): seq<Entry> {
    if items == [] then [] else Entries(items[..|items| - 1]) + ItemEntries(items[|items| - 1])
  }

  function RequestedEntries(base: Tree, diff: string): Result<seq<Entry>, DeliveryError> {
    var items :- AppliedFrom(diff, base, Verbatim);
    Ok(Entries(items))
  }

  /** The entry-building loop of the writer, after its head check. */
  method BuildEntries(base: Tree, diff: string) returns (r: Result<seq<Entry>, DeliveryError>)
    ensures r == RequestedEntries(base, diff)
  {
    hide Parse, Apply, ApplyFiles;
    var parsed := DiffParser.ParseTextDiff(diff);
    if parsed.Err? { return Err(Diff(parsed.error)); }
    var originals := ReadOriginals(parsed.value, base, Verbatim);
    if originals.Err? { return Err(originals.error); }
    var applied := ApplyTextDiff(diff, originals.value);
    if applied.Err? { return Err(Diff(applied.error)); }
    var items := applied.value;
    var entries: seq<Entry> := [];
    for k := 0 to |items|
      invariant entries == Entries(items[..k])
    {
      var item := items[k];
      assert items[..k + 1][..k] == items[..k];
      ghost var before := entries;
      if item.oldPath.Some? && item.oldPath != item.newPath {
        entries := entries + [Entry(item.oldPath.value, None)];
      }
      if item.newPath.None? {
        if item.oldPath.Some? && !exists i | 0 <= i < |entries| :: entries[i].path == item.oldPath.value {
          entries := entries + [Entry(item.oldPath.value, None)];
        }
        assert item.oldPath.Some? ==> entries[|before|].path == item.oldPath.value;
        assert entries == before + ItemEntries(item);
        continue;
      }
      entries := entries + [Entry(item.newPath.value, Some(ContentOf(item)))];
      assert entries == before + ItemEntries(item);
    }
    assert items[..|items|] == items;
    r := Ok(entries);
  }

  /** What Git makes of a tree request: the entries take effect in order over the base tree. */
  function FoldEntries(tree: Tree, entries: seq<Entry>): Tree {
    if entries == [] then tree
    else
      var done := FoldEntries(tree, entries[..|entries| - 1]);
      var last := entries[|entries| - 1];
      if last.content.None? then done - {last.path} else done[last.path := last.content.value]
  }

  // ---- What was validated is what is pushed ---------------------------------------------------------------

  ghost predicate Touches(item: AppliedFile, path: string) {
    item.oldPath == Some(path) || item.newPath == Some(path)
  }

  /** Every path of the sections is written as the place it stands for. */
  predicate CanonicalPaths(patches: seq<TextFilePatch>) {
    forall i | 0 <= i < |patches| ::
      (patches[i].oldPath.Some? ==> Canonical(patches[i].oldPath.value)) && (patches[i].newPath.Some? ==> Canonical(patches[i].newPath.value))
  }

  lemma {:induction false} OriginalsAgree(patches: seq<TextFilePatch>, a: Tree, b: Tree)
    requires CanonicalPaths(patches)
    requires forall i, p | 0 <= i < |patches| && patches[i].oldPath == Some(p) :: SameAt(a, b, p)
    ensures Originals(patches, a, Placed) == Originals(patches, b, Verbatim)
  {
    hide Canonical, PlaceOf;
    if patches != [] {
      var last := |patches| - 1;
      assert forall i | 0 <= i < last :: patches[..last][i] == patches[i];
      OriginalsAgree(patches[..last], a, b);
      if patches[last].oldPath.Some? {
        assert SameAt(a, b, patches[last].oldPath.value);
        PlacesAreCanonical(patches[last].oldPath.value);
      }
    }
  }

  lemma {:induction false} FoldConcat(tree: Tree, first: seq<Entry>, second: seq<Entry>)
    ensures FoldEntries(tree, first + second) == FoldEntries(FoldEntries(tree, first), second)
  {
    if second == [] {
      assert first + second == first;
    } else {
      var last := |second| - 1;
      assert (first + second)[..|first + second| - 1] == first + second[..last];
      assert (first + second)[|first + second| - 1] == second[last];
      FoldConcat(tree, first, second[..last]);
    }
  }

  lemma RemovalAgrees(a: Tree, b: Tree, removed: string, path: string)
    requires SameAt(a, b, path) || path == removed
    ensures SameAt(a - {removed}, b - {removed}, path)
  {
  }

  lemma WriteAgrees(a: Tree, b: Tree, written: string, content: Bytes, path: string)
    requires SameAt(a, b, path) || path == written
    ensures SameAt(a[written := content], b[written := content], path)
  {
  }

  ghost predicate CanonicalItem(item: AppliedFile) {
    (item.oldPath.Some? ==> PlaceOf(item.oldPath.value) == item.oldPath) && (item.newPath.Some? ==> PlaceOf(item.newPath.value) == item.newPath)
  }

  /** One item moves the workspace and the folded tree alike, wherever they were alike or the item acts. */
  lemma ItemAgrees(disk: Disk, tree: Tree, item: AppliedFile, path: string)
    requires CanonicalItem(item) && WorkspaceItem(disk, item).1.None?
    requires SameAt(disk.files, tree, path) || Touches(item, path)
    ensures SameAt(WorkspaceItem(disk, item).0.files, FoldEntries(tree, ItemEntries(item)), path)
  {
    hide SameAt, FoldEntries, PlaceOf, Ancestors;
    var removal := if item.oldPath.Some? && item.oldPath != item.newPath then [Entry(item.oldPath.value, None)] else [];
    var write := if item.newPath.None? then [] else [Entry(item.newPath.value, Some(ContentOf(item)))];
    var tree' := FoldEntries(tree, removal);
    FoldConcat(tree, removal, write);
    FoldOne(tree, removal);
    FoldOne(tree', write);
    var files' := disk.files;
    if removal != [] {
      files' := disk.files - {item.oldPath.value};
      if item.newPath != Some(path) {
        RemovalAgrees(disk.files, tree, item.oldPath.value, path);
      }
    }
    if write != [] {
      WriteAgrees(files', tree', item.newPath.value, ContentOf(item), path);
    }
  }

  lemma FoldOne(tree: Tree, entries: seq<Entry>)
    requires |entries| <= 1
    ensures FoldEntries(tree, entries)
         == if entries == [] then tree
            else if entries[0].content.None? then tree - {entries[0].path}
            else tree[entries[0].path := entries[0].content.value]
  {
    if entries != [] {
      assert FoldEntries(tree, entries[..0]) == tree;
    }
  }

  lemma {:induction false} ItemsAgree(disk: Disk, tree: Tree, items: seq<AppliedFile>, path: string)
    requires (forall i | 0 <= i < |items| :: CanonicalItem(items[i])) && WorkspaceItems(disk, items).1.None?
    requires SameAt(disk.files, tree, path) || exists i | 0 <= i < |items| :: Touches(items[i], path)
    ensures SameAt(WorkspaceItems(disk, items).0.files, FoldEntries(tree, Entries(items)), path)
    decreases |items|
  {
    hide WorkspaceItem, ItemEntries, Touches, CanonicalItem, SameAt;
    if items != [] {
      var last := |items| - 1;
      var front := items[..last];
      FoldConcat(tree, Entries(front), ItemEntries(items[last]));
      if SameAt(disk.files, tree, path) || exists i | 0 <= i < last :: Touches(items[i], path) {
        if !SameAt(disk.files, tree, path) {
          var i :| 0 <= i < last && Touches(items[i], path);
          assert Touches(front[i], path);
        }
        ItemsAgree(disk, tree, front, path);
      }
      ItemAgrees(WorkspaceItems(disk, front).0, FoldEntries(tree, Entries(front)), items[last], path);
    }
  }

  lemma ItemsAreCanonical(items: seq<AppliedFile>, patches: seq<TextFilePatch>)
    requires SamePaths(items, patches) && CanonicalPaths(patches)
    ensures forall i | 0 <= i < |items| :: CanonicalItem(items[i])
  {
    hide Canonical, PlaceOf;
    forall i | 0 <= i < |items|
      ensures CanonicalItem(items[i])
    {
      if items[i].oldPath.Some? {
        PlacesAreCanonical(items[i].oldPath.value);
      }
      if items[i].newPath.Some? {
        PlacesAreCanonical(items[i].newPath.value);
      }
    }
  }

  /** Whether the workspace stops or not, the writer's entries for the same diff and files are the applied items', if the paths are canonical. */
  lemma RequestDespiteStop(files: Tree, diff: string)
    requires AppliedFrom(diff, files, Placed).Ok? && CanonicalPaths(Parse(diff).value)
    ensures RequestedEntries(files, diff) == Ok(Entries(AppliedFrom(diff, files, Placed).value))
  {
    hide Parse, Apply, Originals, Entries;
    OriginalsAgree(Parse(diff).value, files, files);
  }

  /**
   * If the workspace accepts a diff with canonical paths and the pinned tree holds the same old files, the
   * writer's entries folded over that tree agree with the workspace on every touched path and wherever the
   * two agreed before.
   */
  lemma ValidatedIsPushed(workspace: Disk, base: Tree, diff: string)
    requires WorkspaceRun(workspace, diff).1.None? && CanonicalPaths(Parse(diff).value)
    requires forall i, p | 0 <= i < |Parse(diff).value| && Parse(diff).value[i].oldPath == Some(p) :: SameAt(workspace.files, base, p)
    ensures RequestedEntries(base, diff).Ok?
    ensures var pushed := FoldEntries(base, RequestedEntries(base, diff).value);
            var items := AppliedFrom(diff, workspace.files, Placed).value;
            forall path | SameAt(workspace.files, base, path) || exists i | 0 <= i < |items| :: Touches(items[i], path) ::
              SameAt(WorkspaceRun(workspace, diff).0.files, pushed, path)
  {
    var files := workspace.files;
    var patches, items := Parse(diff).value, AppliedFrom(diff, files, Placed).value;
    PatchPolicy.AppliedPaths(patches, Originals(patches, files, Placed).value);
    hide Apply, Parse, Touches, Originals, WorkspaceItems, CanonicalPaths;
    OriginalsAgree(patches, files, base);
    ItemsAreCanonical(items, patches);
    assert AppliedFrom(diff, base, Verbatim) == Ok(items);
    forall path | SameAt(files, base, path) || exists i | 0 <= i < |items| :: Touches(items[i], path)
      ensures SameAt(WorkspaceRun(workspace, diff).0.files, FoldEntries(base, Entries(items)), path)
    {
      ItemsAgree(workspace, base, items, path);
    }
  }

  ghost predicate CanonicalTree(files: Tree) {
    forall path | path in files :: Canonical(path)
  }

  lemma {:induction false} WorkspaceIsCanonical(disk: Disk, items: seq<AppliedFile>)
    requires CanonicalTree(disk.files)
    ensures CanonicalTree(WorkspaceItems(disk, items).0.files)
  {
    hide Canonical, PlaceOf, Ancestors;
    if items != [] {
      WorkspaceIsCanonical(disk, items[..|items| - 1]);
      var item := items[|items| - 1];
      if item.newPath.Some? {
        PlacesAreCanonical(item.newPath.value);
      }
    }
  }

  /** A written path that no section reads stays in the folded tree. */
  lemma {:induction false} WrittenStays(tree: Tree, items: seq<AppliedFile>, path: string)
    requires forall i | 0 <= i < |items| :: items[i].oldPath != Some(path)
    ensures path in tree || (exists i | 0 <= i < |items| :: items[i].newPath == Some(path)) ==> path in FoldEntries(tree, Entries(items))
  {
    hide FoldEntries;
    if items == [] {
      FoldOne(tree, []);
    } else {
      var last := |items| - 1;
      var front, item := items[..last], items[last];
      WrittenStays(tree, front, path);
      assert forall i | 0 <= i < last :: front[i] == items[i];
      FoldConcat(tree, Entries(front), ItemEntries(item));
      WrittenByItem(FoldEntries(tree, Entries(front)), item, path);
    }
  }

  lemma WrittenByItem(tree: Tree, item: AppliedFile, path: string)
    requires item.oldPath != Some(path)
    ensures path in tree || item.newPath == Some(path) ==> path in FoldEntries(tree, ItemEntries(item))
  {
    hide FoldEntries;
    var removal := if item.oldPath.Some? && item.oldPath != item.newPath then [Entry(item.oldPath.value, None)] else [];
    var write := if item.newPath.None? then [] else [Entry(item.newPath.value, Some(ContentOf(item)))];
    FoldConcat(tree, removal, write);
    FoldOne(tree, removal);
    FoldOne(FoldEntries(tree, removal), write);
  }

  /** From the same files the two deliveries end in the same files if and only if every path of the diff is canonical. */
  lemma DeliveriesAgree(disk: Disk, diff: string)
    requires CanonicalTree(disk.files) && WorkspaceRun(disk, diff).1.None?
    ensures (RequestedEntries(disk.files, diff).Ok?
             && FoldEntries(disk.files, RequestedEntries(disk.files, diff).value) == WorkspaceRun(disk, diff).0.files)
       <==> CanonicalPaths(Parse(diff).value)
  {
    if CanonicalPaths(Parse(diff).value) {
      SameDelivery(disk, diff);
    } else if RequestedEntries(disk.files, diff).Ok? {
      UncanonicalDiffers(disk, diff);
    }
  }

  lemma SameDelivery(disk: Disk, diff: string)
    requires WorkspaceRun(disk, diff).1.None? && CanonicalPaths(Parse(diff).value)
    ensures RequestedEntries(disk.files, diff).Ok?
            && FoldEntries(disk.files, RequestedEntries(disk.files, diff).value) == WorkspaceRun(disk, diff).0.files
  {
    var base := disk.files;
    ValidatedIsPushed(disk, base, diff);
    hide WorkspaceRun, RequestedEntries, AppliedFrom, Touches;
    var workspace, pushed := WorkspaceRun(disk, diff).0.files, FoldEntries(base, RequestedEntries(base, diff).value);
    assert forall path :: SameAt(base, base, path);
    assert forall path :: SameAt(workspace, pushed, path);
    assert workspace.Keys == pushed.Keys by {
      forall path
        ensures path in workspace <==> path in pushed
      {
        assert SameAt(workspace, pushed, path);
      }
    }
    forall path | path in pushed
      ensures workspace[path] == pushed[path]
    {
      assert SameAt(workspace, pushed, path);
    }
  }

  lemma UncanonicalDiffers(disk: Disk, diff: string)
    requires CanonicalTree(disk.files) && WorkspaceRun(disk, diff).1.None? && RequestedEntries(disk.files, diff).Ok?
    requires !CanonicalPaths(Parse(diff).value)
    ensures FoldEntries(disk.files, RequestedEntries(disk.files, diff).value) != WorkspaceRun(disk, diff).0.files
  {
    var base := disk.files;
    var patches := Parse(diff).value;
    var items := AppliedFrom(diff, base, Verbatim).value;
    PatchPolicy.AppliedPaths(patches, Originals(patches, base, Verbatim).value);
    WorkspaceIsCanonical(disk, AppliedFrom(diff, base, Placed).value);
    hide Parse, Apply, Originals, WorkspaceItems, Canonical, FoldEntries;
    forall i | 0 <= i < |patches| && patches[i].oldPath.Some?
      ensures Canonical(patches[i].oldPath.value)
    {
      OriginalsPresent(patches, base, Verbatim, i);
    }
    var i :| 0 <= i < |patches| && patches[i].newPath.Some? && !Canonical(patches[i].newPath.value);
    WrittenStays(base, items, patches[i].newPath.value);
  }

  lemma {:induction false} EntryPaths(items: seq<AppliedFile>, k: nat) returns (i: nat)
    requires k < |Entries(items)|
    ensures i < |items| && Touches(items[i], Entries(items)[k].path)
  {
    var last := |items| - 1;
    if k < |Entries(items[..last])| {
      i := EntryPaths(items[..last], k);
    } else {
      i := last;
    }
  }

  /** After an ALLOW verdict on a covered diff every entry of the tree request is for an allowed, unprotected path. */
  lemma AllowCoversEntries(library: PatchPolicy.Library, policy: PatchPolicy.Policy, base: Tree, diff: string, k: nat)
    requires PatchPolicy.Allows(library, policy, diff) && HeaderCoverage.Covered(diff)
    requires RequestedEntries(base, diff).Ok? && k < |RequestedEntries(base, diff).value|
    ensures var path := RequestedEntries(base, diff).value[k].path;
            && PatchPolicy.RefusedPath(library, policy, path).None?
            && PatchPolicy.AnyMatch(library, path, policy.allowedSourcePaths)
            && !PatchPolicy.AnyMatch(library, path, policy.protectedPaths)
  {
    hide Apply, Parse, PatchPolicy.RefusedPath, PatchPolicy.Allows, PatchPolicy.AnyMatch, HeaderCoverage.Covered;
    var originals := Originals(Parse(diff).value, base, Verbatim).value;
    var items := AppliedFrom(diff, base, Verbatim).value;
    var i := EntryPaths(items, k);
    HeaderCoverage.AllowCoversApplier(library, policy, diff, originals, i, Entries(items)[k].path);
  }

  /** A file an entry does not name stays as it was. */
  lemma {:induction false} FoldElsewhere(tree: Tree, entries: seq<Entry>, path: string)
    requires forall k | 0 <= k < |entries| :: entries[k].path != path
    ensures SameAt(tree, FoldEntries(tree, entries), path)
  {
    if entries != [] {
      FoldElsewhere(tree, entries[..|entries| - 1], path);
    }
  }

  /** After an ALLOW verdict on a covered diff, every file that the push changes is at an allowed, unprotected path. */
  lemma ChangedFilesAreAllowed(library: PatchPolicy.Library, policy: PatchPolicy.Policy, base: Tree, diff: string, path: string)
    requires PatchPolicy.Allows(library, policy, diff) && HeaderCoverage.Covered(diff) && RequestedEntries(base, diff).Ok?
    requires !SameAt(base, FoldEntries(base, RequestedEntries(base, diff).value), path)
    ensures PatchPolicy.RefusedPath(library, policy, path).None?
    ensures PatchPolicy.AnyMatch(library, path, policy.allowedSourcePaths) && !PatchPolicy.AnyMatch(library, path, policy.protectedPaths)
    ensures PatchPolicy.IsAllowedSource(library, policy, path)
  {
    PatchPolicy.PassedMeaning(library, policy, path);
    hide PatchPolicy.RefusedPath, PatchPolicy.Allows, PatchPolicy.AnyMatch, PatchPolicy.IsAllowedSource, HeaderCoverage.Covered, RequestedEntries, SameAt;
    var entries := RequestedEntries(base, diff).value;
    if forall k | 0 <= k < |entries| :: entries[k].path != path {
      FoldElsewhere(base, entries, path);
    } else {
      var k :| 0 <= k < |entries| && entries[k].path == path;
      AllowCoversEntries(library, policy, base, diff, k);
    }
  }

  /** A file no canonical item touches stays as it was, also when the workspace stops half-way. */
  lemma {:induction false} WorkspaceElsewhere(disk: Disk, items: seq<AppliedFile>, path: string)
    requires forall i | 0 <= i < |items| :: CanonicalItem(items[i]) && !Touches(items[i], path)
    ensures SameAt(disk.files, WorkspaceItems(disk, items).0.files, path)
  {
    hide PlaceOf, Ancestors;
    if items != [] {
      WorkspaceElsewhere(disk, items[..|items| - 1], path);
      assert CanonicalItem(items[|items| - 1]) && !Touches(items[|items| - 1], path);
    }
  }

  /**
   * After an ALLOW verdict on a covered diff with canonical paths, every file that the workspace application
   * changes, even one that stops half-way, is at an allowed, unprotected path.
   */
  lemma WorkspaceChangesAreAllowed(library: PatchPolicy.Library, policy: PatchPolicy.Policy, disk: Disk, diff: string, path: string)
    requires PatchPolicy.Allows(library, policy, diff) && HeaderCoverage.Covered(diff)
    requires Parse(diff).Ok? ==> CanonicalPaths(Parse(diff).value)
    requires !SameAt(disk.files, WorkspaceRun(disk, diff).0.files, path)
    ensures PatchPolicy.RefusedPath(library, policy, path).None?
    ensures PatchPolicy.AnyMatch(library, path, policy.allowedSourcePaths) && !PatchPolicy.AnyMatch(library, path, policy.protectedPaths)
    ensures PatchPolicy.IsAllowedSource(library, policy, path)
  {
    PatchPolicy.PassedMeaning(library, policy, path);
    hide PatchPolicy.RefusedPath, PatchPolicy.Allows, PatchPolicy.AnyMatch, PatchPolicy.IsAllowedSource, HeaderCoverage.Covered, Parse, ApplyFiles, Originals, CanonicalPaths;
    hide WorkspaceItems, PlaceOf;
    if AppliedFrom(diff, disk.files, Placed).Ok? {
      var items := AppliedFrom(diff, disk.files, Placed).value;
      var originals := Originals(Parse(diff).value, disk.files, Placed).value;
      PatchPolicy.AppliedPaths(Parse(diff).value, originals);
      ItemsAreCanonical(items, Parse(diff).value);
      if forall i | 0 <= i < |items| :: !Touches(items[i], path) {
        WorkspaceElsewhere(disk, items, path);
      } else {
        var i :| 0 <= i < |items| && Touches(items[i], path);
        HeaderCoverage.AllowCoversApplier(library, policy, diff, originals, i, path);
      }
    }
  }

  // ---- What is requested and pushed ------------------------------------------------------------------------

  predicate Deletes(patch: TextFilePatch, path: string) {
    patch.oldPath == Some(path) && patch.oldPath != patch.newPath
  }

  /** The entry is what the section asks for: its applied content at its new path, or the removal of a path it leaves. */
  predicate AsksFor(patch: TextFilePatch, item: AppliedFile, entry: Entry) {
    if entry.content.None? then Deletes(patch, entry.path) else patch.newPath == Some(entry.path) && item.content == entry.content
  }

  /** An entry is requested if and only if some section asks for it. */
  lemma EntriesRequested(base: Tree, diff: string)
    requires RequestedEntries(base, diff).Ok?
    ensures Parse(diff).Ok? && Originals(Parse(diff).value, base, Verbatim).Ok?
    ensures var patches := Parse(diff).value;
            var applied := Apply(diff, Originals(patches, base, Verbatim).value);
            && applied.Ok? && |applied.value| == |patches|
            && forall entry :: entry in RequestedEntries(base, diff).value
                 <==> exists i | 0 <= i < |patches| :: AsksFor(patches[i], applied.value[i], entry)
  {
    var patches, items := Parse(diff).value, AppliedFrom(diff, base, Verbatim).value;
    PatchPolicy.AppliedPaths(patches, Originals(patches, base, Verbatim).value);
    hide Parse, ApplyFiles, Originals, Entries, AsksFor;
    forall entry
      ensures entry in Entries(items) <==> exists i | 0 <= i < |patches| :: AsksFor(patches[i], items[i], entry)
    {
      EntriesOf(items, patches, entry);
    }
  }

  lemma {:induction false} EntriesOf(items: seq<AppliedFile>, patches: seq<TextFilePatch>, entry: Entry)
    requires SamePaths(items, patches)
    requires forall i | 0 <= i < |items| :: items[i].content.None? <==> items[i].newPath.None?
    ensures entry in Entries(items) <==> exists i | 0 <= i < |patches| :: AsksFor(patches[i], items[i], entry)
  {
    hide AsksFor, ItemEntries;
    if items != [] {
      var last := |items| - 1;
      assert forall i | 0 <= i < last :: patches[..last][i] == patches[i] && items[..last][i] == items[i];
      EntriesOf(items[..last], patches[..last], entry);
      OneItemsEntries(items[last], patches[last], entry);
    }
  }

  lemma OneItemsEntries(item: AppliedFile, patch: TextFilePatch, entry: Entry)
    requires item.oldPath == patch.oldPath && item.newPath == patch.newPath && (item.content.None? <==> item.newPath.None?)
    ensures entry in ItemEntries(item) <==> AsksFor(patch, item, entry)
  {
    var removal := if item.oldPath.Some? && item.oldPath != item.newPath then [Entry(item.oldPath.value, None)] else [];
    var write := if item.newPath.None? then [] else [Entry(item.newPath.value, Some(ContentOf(item)))];
    assert ItemEntries(item) == removal + write;
  }

  lemma ItemPushes(tree: Tree, item: AppliedFile, patch: TextFilePatch, path: string)
    requires item.oldPath == patch.oldPath && item.newPath == patch.newPath && (item.content.None? <==> item.newPath.None?)
    ensures var pushed := FoldEntries(tree, ItemEntries(item));
            && (patch.newPath == Some(path) ==> path in pushed && item.content == Some(pushed[path]))
            && (Deletes(patch, path) ==> path !in pushed)
            && (!Deletes(patch, path) && patch.newPath != Some(path) ==> SameAt(tree, pushed, path))
  {
    hide FoldEntries;
    var removal := if item.oldPath.Some? && item.oldPath != item.newPath then [Entry(item.oldPath.value, None)] else [];
    var write := if item.newPath.None? then [] else [Entry(item.newPath.value, Some(ContentOf(item)))];
    FoldConcat(tree, removal, write);
    FoldOne(tree, removal);
    FoldOne(FoldEntries(tree, removal), write);
  }

  /** No section from `k` to `n` writes or removes the path. */
  ghost predicate Unpushed(patches: seq<TextFilePatch>, k: nat, n: nat, path: string)
    requires n <= |patches|
  {
    forall i | k <= i < n :: patches[i].newPath != Some(path) && !Deletes(patches[i], path)
  }

  lemma {:induction false} ItemsPush(tree: Tree, items: seq<AppliedFile>, patches: seq<TextFilePatch>, n: nat, path: string)
    requires SamePaths(items, patches) && n <= |items|
    requires forall i | 0 <= i < |items| :: items[i].content.None? <==> items[i].newPath.None?
    ensures var pushed := FoldEntries(tree, Entries(items[..n]));
            && (Unpushed(patches, 0, n, path) ==> SameAt(tree, pushed, path))
            && forall k | 0 <= k < n && Unpushed(patches, k + 1, n, path) ::
                 && (patches[k].newPath == Some(path) ==> path in pushed && items[k].content == Some(pushed[path]))
                 && (Deletes(patches[k], path) ==> path !in pushed)
  {
    hide Deletes, FoldEntries;
    if n > 0 {
      var before := items[..n - 1];
      assert items[..n][..n - 1] == before;
      assert Entries(items[..n]) == Entries(before) + ItemEntries(items[n - 1]);
      FoldConcat(tree, Entries(before), ItemEntries(items[n - 1]));
      hide Entries, ItemEntries;
      ItemsPush(tree, items, patches, n - 1, path);
      ItemPushes(FoldEntries(tree, Entries(before)), items[n - 1], patches[n - 1], path);
      assert forall k | 0 <= k < n && Unpushed(patches, k, n, path) :: Unpushed(patches, k, n - 1, path);
    } else {
      assert items[..0] == [];
      FoldOne(tree, []);
    }
  }

  /**
   * The pushed tree holds at a path the applied content of the last section that writes or removes it, or no
   * file if that section removes it; a path that no section touches is as it was.
   */
  lemma PushedHolds(base: Tree, diff: string, path: string)
    requires RequestedEntries(base, diff).Ok?
    ensures Parse(diff).Ok? && Originals(Parse(diff).value, base, Verbatim).Ok?
    ensures var patches, pushed := Parse(diff).value, FoldEntries(base, RequestedEntries(base, diff).value);
            var applied := Apply(diff, Originals(patches, base, Verbatim).value);
            && applied.Ok? && |applied.value| == |patches|
            && (Unpushed(patches, 0, |patches|, path) ==> SameAt(base, pushed, path))
            && forall k | 0 <= k < |patches| && Unpushed(patches, k + 1, |patches|, path) ::
                 && (patches[k].newPath == Some(path) ==> path in pushed && applied.value[k].content == Some(pushed[path]))
                 && (Deletes(patches[k], path) ==> path !in pushed)
  {
    var patches, items := Parse(diff).value, AppliedFrom(diff, base, Verbatim).value;
    PatchPolicy.AppliedPaths(patches, Originals(patches, base, Verbatim).value);
    assert items[..|items|] == items;
    hide Parse, ApplyFiles, Originals, Entries, FoldEntries, Unpushed, SameAt, Deletes;
    ItemsPush(base, items, patches, |patches|, path);
  }

  // ---- Where the two deliveries part -----------------------------------------------------------------------

  /** What a list of sections without hunks comes to, once its printed diff is parsed. */
  lemma PrintedApplies(patches: seq<TextFilePatch>, files: Tree, naming: Naming, originals: Tree, items: seq<AppliedFile>)
    requires WellFormed(patches) && Originals(patches, files, naming) == Ok(originals) && ApplyFiles(patches, originals) == Ok(items)
    ensures AppliedFrom(DiffPrinter.Print(patches), files, naming) == Ok(items)
  {
    hide Parse, ApplyFiles, Originals, WellFormed, DiffPrinter.Print;
    DiffPrinter.ParsePrint(patches);
  }

  /** The file is moved, so the second section finds nothing to remove; the tree request is made all the same. */
  lemma RemovedTwiceExample()
    ensures var diff := DiffPrinter.Print([TextFilePatch(Some("x"), Some("y"), []), TextFilePatch(Some("x"), None, [])]);
            && WorkspaceRun(Disk(map["x" := []], {}), diff) == (Disk(map["y" := []], {}), Some(FileNotFound))
            && RequestedEntries(map["x" := []], diff) == Ok([Entry("x", None), Entry("y", Some([])), Entry("x", None)])
  {
    var patches := [TextFilePatch(Some("x"), Some("y"), []), TextFilePatch(Some("x"), None, [])];
    var items := [AppliedFile(Some("x"), Some("y"), Some([])), AppliedFile(Some("x"), None, None)];
    var files: Tree := map["x" := []];
    hide PlaceOf, DiffPrinter.Print, PrintablePath, Parse, ApplyFile, Canonical, Ancestors;
    HeaderCoverage.Letters();
    HeaderCoverage.LetterIsPrintable("x");
    HeaderCoverage.LetterIsPrintable("y");
    assert WellFormed(patches);
    MoveAndDelete(files, patches, items);
    hide WellFormed, Originals, ApplyFiles;
    PrintedApplies(patches, files, Placed, files, items);
    PrintedApplies(patches, files, Verbatim, files, items);
    RunOf(Disk(files, {}), DiffPrinter.Print(patches), items);
    hide WorkspaceRun, RequestedEntries, AppliedFrom;
    TwoItems(Disk(files, {}), items[0], items[1]);
    assert items == [items[0], items[1]];
    assert (files - {"x"})["y" := []] == map["y" := []];
    assert Ancestors("y") == {} by { TopLevel("y"); }
    assert Disk(files, {}).dirs + Ancestors("y") == {};
    assert WorkspaceItem(Disk(files, {}), items[0]) == (Disk(map["y" := []], {}), None);
    assert ItemEntries(items[0]) + ItemEntries(items[1]) == [Entry("x", None), Entry("y", Some([])), Entry("x", None)];
  }

  lemma TopLevel(place: string)
    requires '/' !in place
    ensures Ancestors(place) == {}
  {
  }

  /** Renaming a/b to a: the file is removed, its directory stays, and nothing can be written in its place. */
  lemma OntoDirectoryExample()
    ensures var diff := DiffPrinter.Print([TextFilePatch(Some("a/b"), Some("a"), [])]);
            && Checkout(map["a/b" := []]) == Disk(map["a/b" := []], {"a"})
            && WorkspaceRun(Disk(map["a/b" := []], {"a"}), diff) == (Disk(map[], {"a"}), Some(IsADirectory))
            && RequestedEntries(map["a/b" := []], diff) == Ok([Entry("a/b", None), Entry("a", Some([]))])
  {
    var patches := [TextFilePatch(Some("a/b"), Some("a"), [])];
    var item := AppliedFile(Some("a/b"), Some("a"), Some([]));
    var files: Tree := map["a/b" := []];
    var disk := Disk(files, {"a"});
    hide *;
    CheckedOut();
    OntoDirectory();
    OneMove(patches, files, item);
    PrintedApplies(patches, files, Placed, files, [item]);
    PrintedApplies(patches, files, Verbatim, files, [item]);
    RunOf(disk, DiffPrinter.Print(patches), [item]);
    OneItem(disk, item);
  }

  lemma CheckedOut()
    ensures Checkout(map["a/b" := []]) == Disk(map["a/b" := []], {"a"})
  {
    OneAncestor("a/b");
    assert "a/b"[..1] == "a";
    hide Ancestors;
  }

  lemma OntoDirectory()
    ensures var item := AppliedFile(Some("a/b"), Some("a"), Some([]));
            && WorkspaceItem(Disk(map["a/b" := []], {"a"}), item) == (Disk(map[], {"a"}), Some(IsADirectory))
            && ItemEntries(item) == [Entry("a/b", None), Entry("a", Some([]))]
  {
    var files: Tree := map["a/b" := []];
    HeaderCoverage.Letters();
    HeaderCoverage.LetterIsPrintable("a");
    NestedName();
    TopLevel("a");
    hide PlaceOf, Ancestors, PrintablePath, Canonical;
    assert files - {"a/b"} == map[] && {"a"} + {} == {"a"};
  }

  lemma OneMoveWellFormed()
    ensures WellFormed([TextFilePatch(Some("a/b"), Some("a"), [])])
  {
    HeaderCoverage.Letters();
    HeaderCoverage.LetterIsPrintable("a");
    NestedName();
    hide PlaceOf, PrintablePath, Canonical;
  }

  lemma OneMove(patches: seq<TextFilePatch>, files: Tree, item: AppliedFile)
    requires patches == [TextFilePatch(Some("a/b"), Some("a"), [])] && files == map["a/b" := []]
    requires item == AppliedFile(Some("a/b"), Some("a"), Some([]))
    ensures WellFormed(patches) && Originals(patches, files, Placed) == Ok(files) == Originals(patches, files, Verbatim)
    ensures ApplyFiles(patches, files) == Ok([item])
  {
    hide WellFormed, PlaceOf, ApplyFile;
    OneMoveWellFormed();
    NestedName();
    EmptyFileMoved(patches[0], "a/b", files);
    assert patches[..0] == [] && patches[1..] == [] && [item] + [] == [item] && map["a/b" := []] == files;
  }

  lemma OneAncestor(place: string)
    requires |place| == 3 && place[0] != '/' && place[1] == '/' && place[2] != '/'
    ensures Ancestors(place) == {place[..1]}
  {
    assert forall i | 0 <= i < |place| && place[i] == '/' :: i == 1;
    assert place[..1] in Ancestors(place);
  }

  lemma NestedName()
    ensures PlaceOf("a/b") == Some("a/b") && PrintablePath("a/b")
  {
    hide *;
    assert "a/b" == "a" + "/" + "b";
    SplitFirst("a", "b");
    SplitOne("b");
    assert ["a"] + ["b"] == ["a", "b"];
    PlainPath("a/b", ["a", "b"]);
    PlainNames();
    NamesArePlaces("a/b", ["a", "b"]);
  }

  lemma PlainNames()
    ensures IsName("a") && IsName("b")
  {
  }

  lemma NamesArePlaces(path: string, parts: seq<string>)
    requires Text.Split(path, '/') == parts && forall part | part in parts :: IsName(part)
    ensures PlaceOf(path) == Some(path)
  {
    hide IsName, PlaceOf, Text.Split;
    PlacesAreCanonical(path);
  }

  /** A path of small letters and slashes. */
  lemma PlainPath(path: string, parts: seq<string>)
    requires path != "" && (forall i | 0 <= i < |path| :: 'a' <= path[i] <= 'z' || path[i] == '/') && path[0] != '/' && path[|path| - 1] != '/'
    requires Text.Split(path, '/') == parts && ".." !in parts
    ensures PrintablePath(path)
  {
    hide Text.Split;
    assert forall c: char | 'a' <= c <= 'z' || c == '/' :: !Text.IsSpace(c) && !Text.IsLineBreak(c);
    hide Text.IsSpace, Text.IsLineBreak;
  }

  /** What follows from the applied items alone. */
  lemma RunOf(disk: Disk, diff: string, items: seq<AppliedFile>)
    ensures AppliedFrom(diff, disk.files, Placed) == Ok(items) ==> WorkspaceRun(disk, diff) == WorkspaceItems(disk, items)
    ensures AppliedFrom(diff, disk.files, Verbatim) == Ok(items) ==> RequestedEntries(disk.files, diff) == Ok(Entries(items))
  {
    hide AppliedFrom;
  }

  lemma OneItem(disk: Disk, item: AppliedFile)
    ensures WorkspaceItems(disk, [item]) == WorkspaceItem(disk, item) && Entries([item]) == ItemEntries(item)
  {
    hide WorkspaceItem, ItemEntries;
    assert [item][..0] == [] && [] + ItemEntries(item) == ItemEntries(item);
  }

  lemma TwoItems(disk: Disk, first: AppliedFile, second: AppliedFile)
    ensures var before := WorkspaceItem(disk, first);
            WorkspaceItems(disk, [first, second]) == if before.1.Some? then before else WorkspaceItem(before.0, second)
    ensures Entries([first, second]) == ItemEntries(first) + ItemEntries(second)
  {
    hide WorkspaceItem, ItemEntries;
    OneItem(disk, first);
    assert [first, second][..1] == [first];
  }

  lemma MoveAndDelete(files: Tree, patches: seq<TextFilePatch>, items: seq<AppliedFile>)
    requires PlaceOf("x") == Some("x") && files == map["x" := []]
    requires patches == [TextFilePatch(Some("x"), Some("y"), []), TextFilePatch(Some("x"), None, [])]
    requires items == [AppliedFile(Some("x"), Some("y"), Some([])), AppliedFile(Some("x"), None, None)]
    ensures Originals(patches, files, Placed) == Ok(files) == Originals(patches, files, Verbatim) && ApplyFiles(patches, files) == Ok(items)
  {
    hide PlaceOf;
    EmptyFileMoved(patches[0], "x", files);
    EmptyFileMoved(patches[1], "x", files);
    hide ApplyFile;
    assert patches[..1] == [patches[0]] && [patches[0]][..0] == [];
    assert files["x" := []] == files && map["x" := []] == files;
    assert Originals([], files, Placed) == Ok(map[]) == Originals([], files, Verbatim);
    assert Originals([patches[0]], files, Placed) == Ok(files) == Originals([patches[0]], files, Verbatim);
    assert patches[1..] == [patches[1]] && [patches[1]][1..] == [];
    assert [items[1]] + [] == [items[1]] && [items[0]] + [items[1]] == items;
    assert ApplyFiles([patches[1]], files) == Ok([items[1]]);
  }

  /** An empty file that is renamed or deleted without hunks. */
  lemma EmptyFileMoved(patch: TextFilePatch, path: string, files: Tree)
    requires patch.oldPath == Some(path) && patch.hunks == [] && path in files && files[path] == []
    ensures ApplyFile(patch, files) == Ok(AppliedFile(Some(path), patch.newPath, if patch.newPath.None? then None else Some([])))
  {
  }

  /** A new file whose path has an empty part: the two deliveries write different files. */
  lemma UncanonicalExample()
    ensures var diff := DiffPrinter.Print([TextFilePatch(None, Some("s//x"), [])]);
            && WorkspaceRun(Disk(map[], {}), diff) == (Disk(map["s/x" := Encode("\n")], {"s"}), None)
            && RequestedEntries(map[], diff) == Ok([Entry("s//x", Some(Encode("\n")))])
  {
    var patches := [TextFilePatch(None, Some("s//x"), [])];
    var items := [AppliedFile(None, Some("s//x"), Some(Encode("\n")))];
    var disk := Disk(map[], {});
    hide PlaceOf, DiffPrinter.Print, PrintablePath, Parse, ApplyFile, Encode, Ancestors;
    EmptyPartPlace();
    NewFileAdded(patches[0], "s//x");
    assert WellFormed(patches);
    assert patches[..0] == [] && patches[1..] == [] && items == [items[0]] + [];
    assert Originals(patches, map[], Placed) == Ok(map[]) == Originals(patches, map[], Verbatim);
    assert ApplyFiles(patches, map[]) == Ok(items);
    hide WellFormed, Originals, ApplyFiles;
    PrintedApplies(patches, map[], Placed, map[], items);
    PrintedApplies(patches, map[], Verbatim, map[], items);
    RunOf(disk, DiffPrinter.Print(patches), items);
    hide AppliedFrom, WorkspaceRun, RequestedEntries;
    OneItem(disk, items[0]);
    assert items == [items[0]] && {} + {"s"} == {"s"};
    assert WorkspaceItem(disk, items[0]) == (Disk(map["s/x" := Encode("\n")], {"s"}), None);
    assert ItemEntries(items[0]) == [Entry("s//x", Some(Encode("\n")))];
  }

  lemma NewFileAdded(patch: TextFilePatch, path: string)
    requires patch == TextFilePatch(None, Some(path), [])
    ensures ApplyFile(patch, map[]) == Ok(AppliedFile(None, Some(path), Some(Encode("\n"))))
  {
    hide Encode;
    assert Render([], true) == "\n";
  }

  lemma EmptyPartPlace()
    ensures PlaceOf("s//x") == Some("s/x") && PrintablePath("s//x") && Ancestors("s/x") == {"s"}
  {
    assert "s//x" == "s" + "/" + "/x" && "/x" == "" + "/" + "x";
    hide *;
    SplitFirst("s", "/x");
    SplitFirst("", "x");
    SplitOne("x");
    assert ["s"] + ([""] + ["x"]) == ["s", "", "x"];
    EmptyPartName();
    PlaceOfNames("s//x", ["s", "", "x"]);
    PlainPath("s//x", ["s", "", "x"]);
    OneAncestor("s/x");
    assert "s/x"[..1] == "s";
  }

  lemma PlaceOfNames(path: string, parts: seq<string>)
    requires Text.Split(path, '/') == parts && Names(parts) != []
    ensures PlaceOf(path) == Some(JoinPath(Names(parts)))
  {
    hide Text.Split, Names, JoinPath;
  }

  lemma EmptyPartName()
    ensures Names(["s", "", "x"]) == ["s", "x"] && JoinPath(["s", "x"]) == "s/x"
  {
    assert ["s", "", "x"][1..] == ["", "x"] && ["", "x"][1..] == ["x"] && ["x"][1..] == [];
    assert Names(["x"]) == ["x"] + Names([]) && Names(["", "x"]) == [] + Names(["x"]);
    assert ["s", "x"][1..] == ["x"] && "s" + "/" + "x" == "s/x";
  }
}
