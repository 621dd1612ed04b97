/**
 * The standardize step's per-record work: the collision search for a
 * record's new path, the writes to one record, and one step of the loop
 * over a folder's sorted records, each proved against `StandardizeSpec`.
 */
module StandardizeRecords {
  import opened Common
  import opened Paths
  import opened DateTimes
  import opened FileSystem
  import opened Config
  import opened Models
  import opened Counter
  import opened Collisions
  import opened Grouping
  import opened StandardizeNames
  import opened StandardizeSpec

  // ---------------------------------------------------------------------
  // One record at a time
  // ---------------------------------------------------------------------

  /** `new_path` and its collision loop. */
  method NewPath(ctx: Context, folder: Path, namer: Namer, file: Path, u: DateTime, fs: Fs) returns (target: Path)
    requires Names(namer) && Valid(u)
    ensures target == Target(ctx, folder, namer, file, u, fs)
  {
    var name := namer(file, u);
    var dir := DestDir(ctx.sourceRoot, folder);
    StemSuffix(name);
    var free := FindFree(Occupancy(fs, {}, Some(file)), dir, name, Stem(name) + "_", Suffix(name));
    target := Child(dir, free);
  }

  /** After a successful move: both paths and the destination are the new path, the action is a move. */
  method Flatten(item: FileItem, target: Path, u: DateTime)
    modifies item
    ensures item.State() == Flattened(target, u)
  {
    item.currentPath := target;
    item.action := ActionType.Move;
    item.destinationPath := Some(target);
    item.originalPath := target;
    item.metadataTimestamp := Some(u);
  }

  /** In a dry run: only the destination and the timestamp are recorded. */
  method Stamp(item: FileItem, target: Path, u: DateTime)
    modifies item
    ensures item.State() == old(item.State()).(destination := Some(target), metadataTs := Some(u))
  {
    item.destinationPath := Some(target);
    item.metadataTimestamp := Some(u);
  }

  /**
   * One pass of the loop over a folder's sorted records, for `sorted[j]`:
   * pick the timestamp, generate the name, find a free path, then move the
   * file (or, in a dry run, only record the destination) and stamp it.
   */
  method ItemNext(ctx: Context, folder: Path, source: Source, namer: Namer, sorted: seq<Named>, j: nat,
                  items: seq<FileItem>, fs: Fs) returns (fs': Fs)
    requires Names(namer) && Distinct(items) && j < |sorted| && InRange(sorted, |items|)
    modifies items[sorted[j].index]
    ensures World(States(items), fs') == ItemStep(ctx, folder, source, namer, j, sorted[j].index, World(old(States(items)), fs))
  {
    ghost var before := States(items);
    var pos := sorted[j].index;
    var item := items[pos];
    var file := item.currentPath;
    var dtSource := source(Name(file));
    if dtSource.None? {
      return fs;
    }
    var u := AddMicros(dtSource.value, j + 1);
    var target := NewPath(ctx, folder, namer, file, u, fs);
    ItemStepAt(ctx, folder, source, namer, j, pos, World(before, fs), dtSource.value, u, target);
    if !ctx.dryRun {
      var m := FileSystem.Move(fs, file, target);
      if !m.ok {
        return fs;
      }
      WriteAt(items, pos, false, target, u);
      fs' := m.fs;
    } else {
      WriteAt(items, pos, true, target, u);
      fs' := fs;
    }
  }

  /** Records the outcome for `items[pos]`: stamped in a dry run, flattened after a move. */
  method WriteAt(items: seq<FileItem>, pos: nat, dry: bool, target: Path, u: DateTime)
    requires Distinct(items) && pos < |items|
    modifies items[pos]
    ensures var before := old(States(items));
            States(items) == before[pos := if dry then before[pos].(destination := Some(target), metadataTs := Some(u))
                                           else Flattened(target, u)]
  {
    ghost var before := States(items);
    var item := items[pos];
    if dry {
      Stamp(item, target, u);
    } else {
      Flatten(item, target, u);
    }
    assert States(items) == before[pos := item.State()];
  }

  /** `ItemStep` once the timestamp and the target are known. */
  lemma ItemStepAt(ctx: Context, folder: Path, source: Source, namer: Namer, j: nat, pos: nat, w: World,
                   src: DateTimeValue, u: DateTime, target: Path)
    requires Names(namer) && pos < |w.states|
    requires source(Name(w.states[pos].current)) == Some(src)
    requires u == AddMicros(src, j + 1) && target == Target(ctx, folder, namer, w.states[pos].current, u, w.fs)
    ensures var st := w.states[pos];
            var m := FileSystem.Move(w.fs, st.current, target);
            ItemStep(ctx, folder, source, namer, j, pos, w)
            == if ctx.dryRun then World(w.states[pos := st.(destination := Some(target), metadataTs := Some(u))], w.fs)
               else if m.ok then World(w.states[pos := Flattened(target, u)], m.fs) else w
  {
  }

  /** One pass of the skip loop: the record at `members[k]`. */
  method SkipNext(items: seq<FileItem>, members: seq<nat>, k: nat)
    requires Distinct(items) && k < |members| && forall t :: 0 <= t < |members| ==> members[t] < |items|
    modifies items[members[k]]
    ensures States(items) == old(States(items))[members[k] := Skipped(old(States(items))[members[k]])]
  {
    ghost var before := States(items);
    var item := items[members[k]];
    if item.destinationPath.None? {
      item.destinationPath := Some(item.currentPath);
    }
    assert States(items) == before[members[k] := Skipped(before[members[k]])];
  }

  /** A skipped folder: each record without a destination gets its current path. */
  method SkipItems(items: seq<FileItem>, members: seq<nat>)
    requires Distinct(items) && forall t :: 0 <= t < |members| ==> members[t] < |items|
    modifies items
    ensures States(items) == SkipUpTo(members, |members|, old(States(items)))
  {
    ghost var olds := States(items);
    for k := 0 to |members|
      invariant States(items) == SkipUpTo(members, k, olds)
    {
      SkipNext(items, members, k);
    }
  }

  /** `ItemNext` as one step of the fold of `body` over the sorted records from `w0`. */
  method FlattenNext(ctx: Context, folder: Path, source: Source, namer: Namer, ghost body: Body, sorted: seq<Named>,
                     j: nat, items: seq<FileItem>, fs: Fs, ghost w0: World) returns (fs': Fs)
    requires Drives(body, ctx, folder, source, namer) && Sized(body)
    requires Distinct(items) && j < |sorted| && InRange(sorted, |items|)
    requires World(States(items), fs) == Steps(body, sorted, j, w0)
    modifies items[sorted[j].index]
    ensures World(States(items), fs') == Steps(body, sorted, j + 1, w0)
  {
    fs' := ItemNext(ctx, folder, source, namer, sorted, j, items, fs);
  }
}
