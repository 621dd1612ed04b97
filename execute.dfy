/**
 * `Pipeline._execute_changes`: the execution phase over the planned
 * records.  A record marked for deletion whose original file exists is
 * moved into `source_root/.undo_trash`, keeping its path below the source
 * root (or just its name when it lies outside), with the first free
 * `<stem>_N<suffix>` on a collision, and its destination becomes that trash
 * path.  A rename or move moves the original file to the destination.  In
 * a dry run nothing changes.  A failing filesystem call ends only that
 * record's work.
 */
module Execute {
  import opened Common
  import opened Strings
  import opened Paths
  import opened FileSystem
  import opened Models
  import opened NumberedPaths

  // ---------------------------------------------------------------------
  // The trash path
  // ---------------------------------------------------------------------

  /** `source_root / ".undo_trash"`. */
  function TrashRoot(root: Path): Path
  {
    Child(root, ".undo_trash")
  }

  /** The trash path before collision handling: the path below the source root inside the trash, else the file name there. */
  function TrashBase(root: Path, original: Path): Path
  {
    match RelativeTo(original, root)
    case Some(rel) => TrashRoot(root) + rel
    case None => Child(TrashRoot(root), Name(original))
  }

  /** The trash path after collision handling: `base` if it does not exist, else the first free `<stem>_N<suffix>` beside it. */
  ghost function TrashPath(fs: Fs, base: Path): Path
  {
    var ps := Pieces(base);
    Beside(base, ps.0, ps.1, FirstUntaken(fs, None, base, ps.0, ps.1))
  }

  /** The collision loop, counting from 1 until a candidate does not exist. */
  method FindTrash(fs: Fs, base: Path) returns (path: Path)
    ensures path == TrashPath(fs, base)
  {
    var n := Name(base);
    var stem, suffix := Stem(n), Suffix(n);
    StemSuffix(n);
    ghost var p := stem + "_";
    assert Pieces(base) == (p, suffix);
    ghost var bound := FirstUntaken(fs, None, base, p, suffix);
    path := base;
    if !Exists(fs, base) {
      SearchStops(fs, None, base, p, suffix, 0);
      return;
    }
    SearchOn(fs, None, base, p, suffix, 0);
    var counter: nat := 1;
    while true
      invariant 1 <= counter <= bound
      invariant Searched(fs, None, base, p, suffix, counter)
      decreases bound - counter
    {
      var candidate := WithName(base, stem + "_" + NatStr(counter) + suffix);
      assert candidate == Beside(base, p, suffix, counter);
      if !Exists(fs, candidate) {
        SearchStops(fs, None, base, p, suffix, counter);
        path := candidate;
        return;
      }
      SearchOn(fs, None, base, p, suffix, counter);
      counter := counter + 1;
    }
  }

  // ---------------------------------------------------------------------
  // One record
  // ---------------------------------------------------------------------

  /** The filesystem after the two `mkdir` calls of a deletion: the trash root, then the trash path's folder. */
  function TrashDirs(root: Path, original: Path, fs: Fs): Fs
  {
    MakeDirs(MakeDirs(fs, TrashRoot(root)), Parent(TrashBase(root, original)))
  }

  /** The loop body on one record: its new state and the new filesystem. */
  ghost function Executed(ctx: Context, st: ItemState, fs: Fs): (ItemState, Fs)
  {
    if st.action == NoAction || ctx.dryRun then (st, fs)
    else if st.action == Delete then
      if !Exists(fs, st.original) then (st, fs)
      else
        var fs2 := TrashDirs(ctx.sourceRoot, st.original, fs);
        var trash := TrashPath(fs2, TrashBase(ctx.sourceRoot, st.original));
        var m := FileSystem.Move(fs2, st.original, trash);
        if m.ok then (st.(destination := Some(trash)), m.fs) else (st, m.fs)
    else if st.destination.None? then (st, fs)
    else
      (st, FileSystem.Move(MakeDirs(fs, Parent(st.destination.value)), st.original, st.destination.value).fs)
  }

  method ExecuteItem(ctx: Context, item: FileItem, fs: Fs) returns (fs': Fs)
    modifies item
    ensures (item.State(), fs') == Executed(ctx, old(item.State()), fs)
  {
    fs' := fs;
    if item.action == NoAction {
      return;
    }
    if item.action == Delete {
      if ctx.dryRun {
        return;
      }
      if Exists(fs', item.originalPath) {
        var trashRoot := TrashRoot(ctx.sourceRoot);
        fs' := MakeDirs(fs', trashRoot);
        var rel := RelativeTo(item.originalPath, ctx.sourceRoot);
        var trash := if rel.Some? then trashRoot + rel.value else Child(trashRoot, Name(item.originalPath));
        fs' := MakeDirs(fs', Parent(trash));
        trash := FindTrash(fs', trash);
        var m := FileSystem.Move(fs', item.originalPath, trash);
        fs' := m.fs;
        if m.ok {
          item.destinationPath := Some(trash);
        }
      }
    } else {
      if item.destinationPath.None? || ctx.dryRun {
        return;
      }
      var dst := item.destinationPath.value;
      fs' := MakeDirs(fs', Parent(dst));
      fs' := FileSystem.Move(fs', item.originalPath, dst).fs;
    }
  }

  // ---------------------------------------------------------------------
  // The whole list
  // ---------------------------------------------------------------------

  /** The first `k` records after their turns, each on the filesystem the ones before it left. */
  ghost function ExecutedUpTo(ctx: Context, olds: seq<ItemState>, k: nat, fs: Fs): (w: World)
    requires k <= |olds|
    ensures |w.states| == k
  {
    if k == 0 then World([], fs)
    else
      var w := ExecutedUpTo(ctx, olds, k - 1, fs);
      var e := Executed(ctx, olds[k - 1], w.fs);
      World(w.states + [e.0], e.1)
  }

  /** Every record of `w` after its turn. */
  ghost function ExecutedAll(ctx: Context, w: World): (r: World)
    ensures |r.states| == |w.states|
  {
    ExecutedUpTo(ctx, w.states, |w.states|, w.fs)
  }

  /** `_execute_changes`: every record in order, the filesystem threaded through. */
  method ExecuteChanges(ctx: Context, items: seq<FileItem>, fs: Fs) returns (fs': Fs)
    requires Distinct(items)
    modifies items
    ensures World(States(items), fs') == ExecutedAll(ctx, World(old(States(items)), fs))
  {
    ghost var olds := States(items);
    fs' := fs;
    for i := 0 to |items|
      invariant World(States(items), fs') == World(ExecutedUpTo(ctx, olds, i, fs).states + olds[i..], ExecutedUpTo(ctx, olds, i, fs).fs)
    {
      fs' := ExecuteNext(ctx, items, olds, i, fs, fs');
    }
  }

  method ExecuteNext(ctx: Context, items: seq<FileItem>, ghost olds: seq<ItemState>, i: nat, ghost fs0: Fs, fs: Fs)
    returns (fs': Fs)
    requires Distinct(items) && i < |items| == |olds|
    requires States(items) == ExecutedUpTo(ctx, olds, i, fs0).states + olds[i..] && fs == ExecutedUpTo(ctx, olds, i, fs0).fs
    modifies items[i]
    ensures States(items) == ExecutedUpTo(ctx, olds, i + 1, fs0).states + olds[i + 1..]
    ensures fs' == ExecutedUpTo(ctx, olds, i + 1, fs0).fs
  {
    ghost var before := States(items);
    ghost var w := ExecutedUpTo(ctx, olds, i, fs0);
    assert items[i].State() == olds[i];
    fs' := ExecuteItem(ctx, items[i], fs);
    assert States(items) == before[i := items[i].State()];
    assert (w.states + olds[i..])[i := items[i].State()] == (w.states + [items[i].State()]) + olds[i + 1..];
  }

  // ---------------------------------------------------------------------
  // What execution promises
  // ---------------------------------------------------------------------

  /** A record with no action is left alone, and so is the filesystem. */
  lemma NoActionUntouched(ctx: Context, st: ItemState, fs: Fs)
    requires st.action == NoAction
    ensures Executed(ctx, st, fs) == (st, fs)
  {
  }

  /** In a dry run no record and no path changes, over the whole list. */
  lemma {:induction false} DryRunUntouched(ctx: Context, olds: seq<ItemState>, k: nat, fs: Fs)
    requires ctx.dryRun && k <= |olds|
    ensures ExecutedUpTo(ctx, olds, k, fs) == World(olds[..k], fs)
  {
    if k > 0 {
      DryRunUntouched(ctx, olds, k - 1, fs);
      assert olds[..k - 1] + [olds[k - 1]] == olds[..k];
    }
  }

  /** Deleting a file that does not exist changes nothing; neither does a rename or move without a destination. */
  lemma SkippedUntouched(ctx: Context, st: ItemState, fs: Fs)
    requires (st.action == Delete && !Exists(fs, st.original))
             || ((st.action == Rename || st.action == Move) && st.destination.None?)
    ensures Executed(ctx, st, fs) == (st, fs)
  {
  }

  /**
   * Outside a dry run, deleting an existing file always moves it into the
   * trash: to its path below the source root inside `.undo_trash` (or its
   * name there) when that path is free, else to the first free
   * `<stem>_N<suffix>` beside it; the record's destination becomes that path.
   */
  lemma DeleteMovesToTrash(ctx: Context, st: ItemState, fs: Fs)
    requires !ctx.dryRun && st.action == Delete && st.original in fs.files
    ensures var base := TrashBase(ctx.sourceRoot, st.original);
            var fs2 := TrashDirs(ctx.sourceRoot, st.original, fs);
            var trash := TrashPath(fs2, base);
            var r := Executed(ctx, st, fs);
            && !Exists(fs2, trash)
            && (!Exists(fs2, base) ==> trash == base)
            && (Exists(fs2, base) ==> exists c: nat :: c >= 1 && trash == WithName(base, Stem(Name(base)) + "_" + NatStr(c) + Suffix(Name(base)))
                                        && forall k :: 1 <= k < c ==> Exists(fs2, Beside(base, Pieces(base).0, Pieces(base).1, k)))
            && r.0 == st.(destination := Some(trash))
            && r.1.files == fs.files - {st.original} + {trash}
  {
    var base := TrashBase(ctx.sourceRoot, st.original);
    var fs2 := TrashDirs(ctx.sourceRoot, st.original, fs);
    var ps := Pieces(base);
    var c := FirstUntaken(fs2, None, base, ps.0, ps.1);
    var trash := TrashPath(fs2, base);
    if Exists(fs2, base) {
      assert Blocked(fs2, None, base, ps.0, ps.1, 0);
      assert c >= 1;
      assert forall k :: 1 <= k < c ==> Exists(fs2, Beside(base, ps.0, ps.1, k)) by {
        forall k | 1 <= k < c ensures Exists(fs2, Beside(base, ps.0, ps.1, k)) {
          assert Blocked(fs2, None, base, ps.0, ps.1, k);
        }
      }
    }
    assert Parent(trash) == Parent(base);
    assert IsDir(fs2, Parent(base));
    assert MoveTarget(fs2, st.original, trash) == trash;
  }

  /** Outside a dry run, a rename or move with a destination moves the original file there, after creating its folder. */
  lemma RenameMoveMoves(ctx: Context, st: ItemState, fs: Fs)
    requires !ctx.dryRun && (st.action == Rename || st.action == Move) && st.destination.Some?
    ensures var dst := st.destination.value;
            Executed(ctx, st, fs) == (st, FileSystem.Move(MakeDirs(fs, Parent(dst)), st.original, dst).fs)
  {
  }

  /**
   * One failure does not stop the others: every record gets its turn, on
   * the filesystem the records before it left, whatever their outcome.
   */
  lemma {:induction false} EveryRecordExecuted(ctx: Context, olds: seq<ItemState>, k: nat, fs: Fs, j: nat)
    requires j < k <= |olds|
    ensures ExecutedUpTo(ctx, olds, k, fs).states[j] == Executed(ctx, olds[j], ExecutedUpTo(ctx, olds, j, fs).fs).0
  {
    if j < k - 1 {
      EveryRecordExecuted(ctx, olds, k - 1, fs, j);
    }
  }
}
