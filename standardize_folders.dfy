/**
 * The standardize step's work on one folder: a folder whose records are
 * all skipped, or the loop over its records in name order followed by the
 * removal of the emptied folder, proved against `StandardizeSpec`.
 */
module StandardizeFolders {
  import opened Common
  import opened Paths
  import opened DateTimes
  import opened FileSystem
  import opened Config
  import opened Models
  import opened Counter
  import opened Collisions
  import opened Grouping
  import opened StandardizeNames
  import opened StandardizeSpec
  import opened StandardizeRecords

  /** One iteration of the loop over folders. */
  method ProcessFolder(ctx: Context, dates: FolderDates, items: seq<FileItem>, folder: Path, members: seq<nat>, fs: Fs)
    returns (fs': Fs)
    requires Distinct(items) && forall t :: 0 <= t < |members| ==> members[t] < |items|
    modifies items
    ensures World(States(items), fs') == FolderEffect(ctx, dates, folder, members, World(old(States(items)), fs))
  {
    var dt := dates(Name(folder));
    var fallback := dt.None? && ctx.config.standardize.useFilenameFallback;
    if dt.None? && !fallback {
      SkipItems(items, members);
      return fs;
    }
    ghost var w := World(States(items), fs);
    var sorted := SortByName(NamedOf(States(items), members));
    SortedInRange(NamedOf(States(items), members), |items|);
    var source, namer := FolderSource(dt, fallback), FolderNamer(ctx.config);
    FolderBodyDrives(ctx, folder, source, namer);
    fs' := FlattenFolder(ctx, folder, source, namer, FolderBody(ctx, folder, source, namer), sorted, items, fs);
    FolderEffectRun(ctx, dates, folder, members, w, sorted, World(States(items), fs'));
    if !ctx.dryRun {
      fs' := Rmdir(fs', folder).fs;
    }
  }

  /** `FolderEffect` of a processed folder, once its loop has run. */
  lemma FolderEffectRun(ctx: Context, dates: FolderDates, folder: Path, members: seq<nat>, w: World,
                        sorted: seq<Named>, w': World)
    requires forall t :: 0 <= t < |members| ==> members[t] < |w.states|
    requires !SkipFolder(ctx, dates, folder) && sorted == SortByName(NamedOf(w.states, members))
    requires InRange(sorted, |w.states|)
    requires w' == FolderUpTo(ctx, folder, FolderSource(FolderDate(ctx, dates, folder), Fallback(ctx, dates, folder)),
                              FolderNamer(ctx.config), sorted, |sorted|, w)
    ensures FolderEffect(ctx, dates, folder, members, w) == if ctx.dryRun then w' else World(w'.states, Rmdir(w'.fs, folder).fs)
  {
  }

  /** The loop over a processed folder's records, in name order; `body` is the step for one record. */
  method FlattenFolder(ctx: Context, folder: Path, source: Source, namer: Namer, ghost body: Body,
                       sorted: seq<Named>, items: seq<FileItem>, fs: Fs) returns (fs': Fs)
    requires Drives(body, ctx, folder, source, namer) && Sized(body)
    requires Distinct(items) && InRange(sorted, |items|)
    modifies items
    ensures World(States(items), fs') == Steps(body, sorted, |sorted|, World(old(States(items)), fs))
  {
    ghost var w0 := World(States(items), fs);
    fs' := fs;
    for j := 0 to |sorted|
      invariant World(States(items), fs') == Steps(body, sorted, j, w0)
    {
      fs' := FlattenNext(ctx, folder, source, namer, body, sorted, j, items, fs', w0);
    }
  }
}
