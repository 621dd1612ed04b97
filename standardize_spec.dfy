/**
 * The standardize step: records that are not marked for deletion are
 * grouped by their folder, in the order the folders first appear.  A
 * folder whose name parses as a datetime (or, with the filename fallback,
 * each of whose files carries one in its name) is flattened: its records,
 * sorted by name, are renamed to the timestamp `dt + (i + 1) µs` and moved
 * into the folder's parent (never above the source root), with a numbered
 * name where that path is taken; the emptied folder is removed.  Any other
 * folder is skipped, its records only getting a destination.
 *
 * The step's effect is modelled on a `World`: the records' fields, by
 * position, together with the filesystem.
 */
module StandardizeSpec {
  import opened Common
  import opened Paths
  import opened DateTimes
  import opened FileSystem
  import opened Config
  import opened Models
  import opened Counter
  import opened Collisions
  import opened Grouping
  import opened StandardizeNames

  /** `_parse_folder_name`: a folder name to the datetime it spells (a `strptime` oracle). */
  type FolderDates = string -> Option<DateTimeValue>

  // ---------------------------------------------------------------------
  // Grouping by folder
  // ---------------------------------------------------------------------

  /** A record's folder, `None` for a record marked for deletion (which the grouping skips). */
  function FolderKey(st: ItemState): Option<Path>
  {
    if st.action == Delete then None else Some(Parent(st.current))
  }

  function FolderKeys(olds: seq<ItemState>): (ks: seq<Option<Path>>)
    ensures |ks| == |olds| && forall i :: 0 <= i < |olds| ==> ks[i] == FolderKey(olds[i])
  {
    seq(|olds|, i requires 0 <= i < |olds| => FolderKey(olds[i]))
  }

  // ---------------------------------------------------------------------
  // One record
  // ---------------------------------------------------------------------

  /** `dest_dir`: the folder's parent when that lies under the source root, the root otherwise. */
  function DestDir(root: Path, folder: Path): (d: Path)
    ensures IsRelativeTo(d, root)
    ensures d == Parent(folder) || d == root
  {
    if IsRelativeTo(Parent(folder), root) then Parent(folder) else root
  }

  /** `dt_source`: the folder's datetime, else (with the fallback) the one in the file's name. */
  function TimeSource(dt: Option<DateTimeValue>, fallback: bool, name: string): Option<DateTimeValue>
  {
    if dt.Some? then dt else if fallback then ParseFilenameTimestamp(name) else None
  }

  /** Where a record's datetime comes from, by its file name. */
  type Source = string -> Option<DateTimeValue>

  /** How a record is renamed, from its path and its datetime. */
  type Namer = (Path, DateTime) --> string

  ghost predicate Names(namer: Namer)
  {
    forall p: Path, u: DateTime :: Valid(u) ==> namer.requires(p, u)
  }

  /** `dt_source` in one folder: the folder's datetime, else (with the fallback) the one in the file's name. */
  function FolderSource(dt: Option<DateTimeValue>, fallback: bool): Source
  {
    (name: string) => TimeSource(dt, fallback, name)
  }

  /** `_generate_filename` under the step's configuration. */
  function FolderNamer(cfg: PipelineConfig): (namer: Namer)
    ensures Names(namer)
  {
    (p: Path, u: DateTime) requires Valid(u) => GenerateFilename(cfg, p, u)
  }

  /**
   * `new_path` after the collision loop: the new name in `dest_dir` or,
   * while that path exists and is not the file's own, `stem_1`, `stem_2`,
   * ... with the new name's suffix.
   */
  ghost function Target(ctx: Context, folder: Path, namer: Namer, current: Path, u: DateTime, fs: Fs): Path
    requires Names(namer) && Valid(u)
  {
    var dir := DestDir(ctx.sourceRoot, folder);
    var name := namer(current, u);
    StemSuffix(name);
    Child(dir, FreeName(Occupancy(fs, {}, Some(current)), dir, name, Stem(name) + "_", Suffix(name)))
  }

  /** The state of a record the step has moved to `target` and stamped with `u`. */
  function Flattened(target: Path, u: DateTime): ItemState
  {
    ItemState(target, target, ActionType.Move, Some(target), Some(u))
  }

  /**
   * The loop body for the record at position `pos`, the `j`-th of its
   * folder after the sort.  (A position past the records, which the loop
   * never visits, changes nothing.)
   */
  ghost function ItemStep(ctx: Context, folder: Path, source: Source, namer: Namer,
                          j: nat, pos: nat, w: World): (r: World)
    requires Names(namer)
    ensures |r.states| == |w.states|
  {
    if pos >= |w.states| then w
    else
      var st := w.states[pos];
      match source(Name(st.current))
      case None => w
      case Some(src) =>
        var u := AddMicros(src, j + 1);
        var target := Target(ctx, folder, namer, st.current, u, w.fs);
        if ctx.dryRun then
          World(w.states[pos := st.(destination := Some(target), metadataTs := Some(u))], w.fs)
        else
          var m := FileSystem.Move(w.fs, st.current, target);
          if m.ok then World(w.states[pos := Flattened(target, u)], m.fs) else w
  }

  // ---------------------------------------------------------------------
  // One folder
  // ---------------------------------------------------------------------

  predicate InRange(sorted: seq<Named>, n: nat)
  {
    forall t :: 0 <= t < |sorted| ==> sorted[t].index < n
  }

  /** A loop body over the records: the `j`-th step, at a position, on a world. */
  type Body = (nat, nat, World) -> World

  /** A body that keeps the number of records. */
  ghost predicate Sized(step: Body)
  {
    forall j: nat, pos: nat, w: World :: |step(j, pos, w).states| == |w.states|
  }

  /** `step` run for the entries `sorted[..j]`, one after the other. */
  ghost function Steps(step: Body, sorted: seq<Named>, j: nat, w: World): (r: World)
    requires j <= |sorted| && Sized(step)
    ensures |r.states| == |w.states|
  {
    if j == 0 then w else step(j - 1, sorted[j - 1].index, Steps(step, sorted, j - 1, w))
  }

  /** The loop body of one folder. */
  ghost function FolderBody(ctx: Context, folder: Path, source: Source, namer: Namer): (b: Body)
    requires Names(namer)
    ensures Sized(b)
  {
    (j: nat, pos: nat, w: World) => ItemStep(ctx, folder, source, namer, j, pos, w)
  }

  /**
   * `body` is the loop body of one folder: on every input it agrees with
   * `ItemStep`.  (The agreement is used only where an `ItemStep` is in view,
   * so that a loop over `body` is reasoned about without unfolding it.)
   */
  ghost predicate Drives(body: Body, ctx: Context, folder: Path, source: Source, namer: Namer)
  {
    Names(namer) &&
    forall j: nat, pos: nat, w: World {:trigger ItemStep(ctx, folder, source, namer, j, pos, w)} ::
      body(j, pos, w) == ItemStep(ctx, folder, source, namer, j, pos, w)
  }

  lemma FolderBodyDrives(ctx: Context, folder: Path, source: Source, namer: Namer)
    requires Names(namer)
    ensures Drives(FolderBody(ctx, folder, source, namer), ctx, folder, source, namer)
  {
  }

  /** The records `sorted[..j]` of one folder processed, one after the other. */
  ghost function FolderUpTo(ctx: Context, folder: Path, source: Source, namer: Namer,
                            sorted: seq<Named>, j: nat, w: World): (r: World)
    requires Names(namer) && j <= |sorted|
    ensures |r.states| == |w.states|
  {
    Steps(FolderBody(ctx, folder, source, namer), sorted, j, w)
  }

  /** What a skipped folder does to a record: it gets its current path as destination if it had none. */
  function Skipped(st: ItemState): (r: ItemState)
  {
    if st.destination.None? then st.(destination := Some(st.current)) else st
  }

  /** The records at `members[..k]` skipped. */
  function SkipUpTo(members: seq<nat>, k: nat, states: seq<ItemState>): (r: seq<ItemState>)
    requires k <= |members| && forall t :: 0 <= t < |members| ==> members[t] < |states|
    ensures |r| == |states|
  {
    if k == 0 then states
    else
      var prev := SkipUpTo(members, k - 1, states);
      prev[members[k - 1] := Skipped(prev[members[k - 1]])]
  }

  /** The list the sort sees: each record's name and its position. */
  function NamedOf(states: seq<ItemState>, members: seq<nat>): (r: seq<Named>)
    requires forall t :: 0 <= t < |members| ==> members[t] < |states|
    ensures |r| == |members|
    ensures forall t :: 0 <= t < |members| ==> r[t] == Named(Name(states[members[t]].current), members[t])
  {
    seq(|members|, t requires 0 <= t < |members| => Named(Name(states[members[t]].current), members[t]))
  }

  /** The datetime a folder's name gives, and whether the filename fallback applies to it. */
  function FolderDate(ctx: Context, dates: FolderDates, folder: Path): Option<DateTimeValue>
  {
    dates(Name(folder))
  }

  function Fallback(ctx: Context, dates: FolderDates, folder: Path): bool
  {
    FolderDate(ctx, dates, folder).None? && ctx.config.standardize.useFilenameFallback
  }

  /** The folder is skipped: no datetime in its name and no fallback. */
  predicate SkipFolder(ctx: Context, dates: FolderDates, folder: Path)
  {
    FolderDate(ctx, dates, folder).None? && !Fallback(ctx, dates, folder)
  }

  /** One iteration of the loop over folders: skip, or sort, flatten and remove the folder. */
  ghost function FolderEffect(ctx: Context, dates: FolderDates, folder: Path, members: seq<nat>, w: World): (r: World)
    requires forall t :: 0 <= t < |members| ==> members[t] < |w.states|
    ensures |r.states| == |w.states|
  {
    if SkipFolder(ctx, dates, folder) then World(SkipUpTo(members, |members|, w.states), w.fs)
    else
      var sorted := SortByName(NamedOf(w.states, members));
      var source := FolderSource(FolderDate(ctx, dates, folder), Fallback(ctx, dates, folder));
      var w' := FolderUpTo(ctx, folder, source, FolderNamer(ctx.config), sorted, |sorted|, w);
      if ctx.dryRun then w' else World(w'.states, Rmdir(w'.fs, folder).fs)
  }

  lemma SortedInRange(s: seq<Named>, n: nat)
    requires InRange(s, n)
    ensures InRange(SortByName(s), n)
  {
    forall t | 0 <= t < |SortByName(s)| ensures SortByName(s)[t].index < n {
      assert SortByName(s)[t] in multiset(SortByName(s));
    }
  }

  // ---------------------------------------------------------------------
  // The whole step
  // ---------------------------------------------------------------------

  /** A loop body over the folders: the `g`-th folder's effect on a world. */
  type Effect = (nat, World) -> World

  /** An effect that keeps the number of records. */
  ghost predicate Keeps(effect: Effect)
  {
    forall g: nat, w: World :: |effect(g, w).states| == |w.states|
  }

  /** `effect` run for the first `g` folders, one after the other. */
  ghost function Folds(effect: Effect, g: nat, w: World): (r: World)
    requires Keeps(effect)
    ensures |r.states| == |w.states|
  {
    if g == 0 then w else effect(g - 1, Folds(effect, g - 1, w))
  }

  /**
   * The effect of the `g`-th folder: its members are the positions keyed
   * by it.  (A folder past the list, which the loop never visits, changes
   * nothing.)
   */
  ghost function FolderAt(ctx: Context, dates: FolderDates, ks: seq<Option<Path>>, folders: seq<Path>,
                          g: nat, w: World): (r: World)
    ensures |r.states| == |w.states|
  {
    if g < |folders| && |ks| == |w.states| then
      MembersFacts(ks, Some(folders[g]));
      FolderEffect(ctx, dates, folders[g], Members(ks, Some(folders[g])), w)
    else w
  }

  ghost function PlanBody(ctx: Context, dates: FolderDates, ks: seq<Option<Path>>, folders: seq<Path>): (e: Effect)
    ensures Keeps(e)
  {
    (g: nat, w: World) => FolderAt(ctx, dates, ks, folders, g, w)
  }

  /** The folders `folders[..g]` processed, one after the other. */
  ghost function PlanUpTo(ctx: Context, dates: FolderDates, ks: seq<Option<Path>>, folders: seq<Path>,
                          g: nat, w: World): (r: World)
    ensures |r.states| == |w.states|
  {
    Folds(PlanBody(ctx, dates, ks, folders), g, w)
  }

  /** The step's effect on the records and the filesystem. */
  ghost function Standardized(ctx: Context, dates: FolderDates, olds: seq<ItemState>, fs: Fs): World
  {
    var ks := FolderKeys(olds);
    PlanUpTo(ctx, dates, ks, KeptOrder(ks), |KeptOrder(ks)|, World(olds, fs))
  }
}
