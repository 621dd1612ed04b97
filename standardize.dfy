/**
 * The standardize step's loops: `process`, the grouping pass, the loop
 * over a folder's sorted records with its collision search, and the
 * per-record writes, each proved to produce the state `StandardizeSpec`
 * defines.
 */
module Standardize {
  import opened Common
  import opened Paths
  import opened DateTimes
  import opened FileSystem
  import opened Config
  import opened Models
  import opened Counter
  import opened Collisions
  import opened Grouping
  import opened StandardizeNames
  import opened StandardizeSpec
  import opened StandardizeRecords
  import opened StandardizeFolders

  // ---------------------------------------------------------------------
  // Grouping by folder
  // ---------------------------------------------------------------------

  /**
   * `folder_groups`: one pass over the records; one that is marked for
   * deletion is skipped, any other is appended to its parent folder's list.
   */
  method GroupFolders(items: seq<FileItem>) returns (folders: seq<Path>, groups: map<Path, seq<nat>>)
    ensures KeptGroupedUpTo(FolderKeys(States(items)), |items|, folders, groups)
  {
    ghost var ks := FolderKeys(States(items));
    folders := [];
    groups := map[];
    for i := 0 to |items|
      invariant KeptGroupedUpTo(ks, i, folders, groups)
    {
      if items[i].action == Delete {
        KeptGroupedSkip(ks, i, folders, groups);
        continue;
      }
      KeptGroupedAdd(ks, i, folders, groups);
      var parent := Parent(items[i].currentPath);
      assert ks[i] == Some(parent);
      if parent !in groups {
        folders := folders + [parent];
        groups := groups[parent := []];
      }
      groups := groups[parent := groups[parent] + [i]];
    }
  }

  /**
   * `process`: group the records by folder, then process the folders in
   * the order they first appear.  Returns the same list; the records and
   * the filesystem end in the planned state.
   */
  method Process(ctx: Context, dates: FolderDates, items: seq<FileItem>, fs: Fs) returns (result: seq<FileItem>, fs': Fs)
    requires Distinct(items)
    modifies items
    ensures result == items
    ensures World(States(items), fs') == Standardized(ctx, dates, old(States(items)), fs)
  {
    ghost var olds := States(items);
    ghost var ks := FolderKeys(olds);
    var folders, groups := GroupFolders(items);
    KeptGroupedAll(ks, folders, groups);
    fs' := fs;
    for g := 0 to |folders|
      invariant World(States(items), fs') == PlanUpTo(ctx, dates, ks, folders, g, World(olds, fs))
    {
      assert folders[g] in groups;
      MembersFacts(ks, Some(folders[g]));
      ghost var w := World(States(items), fs');
      fs' := ProcessFolder(ctx, dates, items, folders[g], groups[folders[g]], fs');
      PlanUpToNext(ctx, dates, ks, folders, g, World(olds, fs), w, World(States(items), fs'));
    }
    result := items;
  }

  lemma PlanUpToNext(ctx: Context, dates: FolderDates, ks: seq<Option<Path>>, folders: seq<Path>,
                     g: nat, w0: World, w: World, w': World)
    requires g < |folders| && |ks| == |w.states|
    requires w == PlanUpTo(ctx, dates, ks, folders, g, w0)
    requires forall t :: 0 <= t < |Members(ks, Some(folders[g]))| ==> Members(ks, Some(folders[g]))[t] < |w.states|
    requires w' == FolderEffect(ctx, dates, folders[g], Members(ks, Some(folders[g])), w)
    ensures w' == PlanUpTo(ctx, dates, ks, folders, g + 1, w0)
  {
  }
}
