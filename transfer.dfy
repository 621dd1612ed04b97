/**
 * The transfer step's `process`: every record that is not marked for
 * deletion is planned to move under the target root, keeping its path
 * relative to the source root.  With `overwrite` off the destination is
 * the first of `new_path`, `<stem>_1<suffix>`, `<stem>_2<suffix>`, ... that
 * does not exist on disk or is the record's own current path.  Nothing is
 * moved here; the filesystem is read only, through `exists()`.
 */
module Transfer {
  import opened Common
  import opened Strings
  import opened Paths
  import opened FileSystem
  import opened Config
  import opened Models
  import opened Counter
  import opened NumberedPaths

  // ---------------------------------------------------------------------
  // The path a record is rebased from
  // ---------------------------------------------------------------------

  /** The planned destination when there is one, else the current path. */
  function Basis(st: ItemState): Path
  {
    if st.destination.Some? then st.destination.value else st.current
  }

  /**
   * The part below the source root: of the basis, else of the current
   * path; `None` when neither lies under the root.
   */
  function Rel(root: Path, st: ItemState): (r: Option<Path>)
    ensures r.Some? <==> IsRelativeTo(Basis(st), root) || IsRelativeTo(st.current, root)
    ensures r.Some? && IsRelativeTo(Basis(st), root) ==> root + r.value == Basis(st)
    ensures r.Some? && !IsRelativeTo(Basis(st), root) ==> root + r.value == st.current
  {
    var r := RelativeTo(Basis(st), root);
    if r.Some? then r else RelativeTo(st.current, root)
  }

  // ---------------------------------------------------------------------
  // The collision search
  // ---------------------------------------------------------------------

  /** `dest_file` after the search: `new_path` as it is when `overwrite` is on. */
  ghost function DestFile(fs: Fs, overwrite: bool, own: Path, newPath: Path): Path
  {
    var ps := Pieces(newPath);
    if overwrite then newPath else Beside(newPath, ps.0, ps.1, FirstUntaken(fs, Some(own), newPath, ps.0, ps.1))
  }

  /**
   * The `while dest_file.exists() and dest_file != item.current_path` loop,
   * with the counter starting at 1 as in the source.
   */
  method FindDest(fs: Fs, own: Path, newPath: Path, stem: string, suffix: string) returns (dest: Path)
    requires |Name(newPath)| <= |stem| + 1 + |suffix|
    ensures dest == Beside(newPath, stem + "_", suffix, FirstUntaken(fs, Some(own), newPath, stem + "_", suffix))
  {
    ghost var p := stem + "_";
    ghost var bound := FirstUntaken(fs, Some(own), newPath, p, suffix);
    var counter: nat := 1;
    dest := newPath;
    while Exists(fs, dest) && dest != own
      invariant 1 <= counter <= bound + 1 && dest == Beside(newPath, p, suffix, counter - 1)
      invariant Searched(fs, Some(own), newPath, p, suffix, counter - 1)
      decreases bound + 1 - counter
    {
      SearchOn(fs, Some(own), newPath, p, suffix, counter - 1);
      dest := WithName(newPath, stem + "_" + NatStr(counter) + suffix);
      counter := counter + 1;
    }
    SearchStops(fs, Some(own), newPath, p, suffix, counter - 1);
  }

  // ---------------------------------------------------------------------
  // One record and the whole list
  // ---------------------------------------------------------------------

  /**
   * The loop body on one record: skipped when marked for deletion or when
   * no relative part exists; otherwise MOVE to `dest_file`, through
   * `mark_move(dest_file.parent)` when the name is kept, by setting the
   * action and destination directly (leaving `current_path`) when it is not.
   */
  ghost function Transferred(ctx: Context, fs: Fs, st: ItemState): ItemState
  {
    if st.action == Delete then st
    else
      match Rel(ctx.sourceRoot, st)
      case None => st
      case Some(rel) =>
        var dest := DestFile(fs, ctx.config.transfer.overwrite, st.current, ctx.targetRoot + rel);
        if Name(dest) != Name(st.current) then st.(action := Move, destination := Some(dest))
        else Moved(st, Parent(dest))
  }

  ghost function TransferredAll(ctx: Context, fs: Fs, states: seq<ItemState>): (r: seq<ItemState>)
    ensures |r| == |states|
    ensures forall k :: 0 <= k < |states| ==> r[k] == Transferred(ctx, fs, states[k])
  {
    seq(|states|, k requires 0 <= k < |states| => Transferred(ctx, fs, states[k]))
  }

  method TransferItem(ctx: Context, fs: Fs, item: FileItem)
    modifies item
    ensures item.State() == Transferred(ctx, fs, old(item.State()))
  {
    if item.action == Delete {
      return;
    }
    var basis := if item.destinationPath.Some? then item.destinationPath.value else item.currentPath;
    var rel := RelativeTo(basis, ctx.sourceRoot);
    if rel.None? {
      rel := RelativeTo(item.currentPath, ctx.sourceRoot);
      if rel.None? {
        return;
      }
    }
    var newPath := ctx.targetRoot + rel.value;
    ghost var st := item.State();
    assert Rel(ctx.sourceRoot, st) == rel;
    var dest := newPath;
    if !ctx.config.transfer.overwrite {
      var n := Name(newPath);
      StemSuffix(n);
      dest := FindDest(fs, item.currentPath, newPath, Stem(n), Suffix(n));
    }
    assert dest == DestFile(fs, ctx.config.transfer.overwrite, st.current, newPath);
    if Name(dest) != item.Name() {
      item.action := Move;
      item.destinationPath := Some(dest);
    } else {
      item.MarkMove(Parent(dest));
    }
  }

  /** `process`: every record through the loop body, in order; the same list comes back. */
  method Process(ctx: Context, fs: Fs, items: seq<FileItem>) returns (result: seq<FileItem>)
    requires Distinct(items)
    modifies items
    ensures result == items
    ensures States(items) == TransferredAll(ctx, fs, old(States(items)))
  {
    ghost var olds := States(items);
    for i := 0 to |items|
      invariant States(items) == TransferredAll(ctx, fs, olds[..i]) + olds[i..]
    {
      TransferNext(ctx, fs, items, olds, i);
    }
    assert olds[..|items|] == olds;
    result := items;
  }

  method TransferNext(ctx: Context, fs: Fs, items: seq<FileItem>, ghost olds: seq<ItemState>, i: nat)
    requires Distinct(items) && i < |items| == |olds|
    requires States(items) == TransferredAll(ctx, fs, olds[..i]) + olds[i..]
    modifies items[i]
    ensures States(items) == TransferredAll(ctx, fs, olds[..i + 1]) + olds[i + 1..]
  {
    ghost var before := States(items);
    TransferItem(ctx, fs, items[i]);
    assert States(items) == before[i := items[i].State()];
    TransferredAllNext(ctx, fs, olds, i);
  }

  lemma TransferredAllNext(ctx: Context, fs: Fs, olds: seq<ItemState>, i: nat)
    requires i < |olds|
    ensures (TransferredAll(ctx, fs, olds[..i]) + olds[i..])[i := Transferred(ctx, fs, olds[i])]
            == TransferredAll(ctx, fs, olds[..i + 1]) + olds[i + 1..]
  {
  }

  // ---------------------------------------------------------------------
  // What the step promises
  // ---------------------------------------------------------------------

  /** A record marked for deletion, or one lying under the source root by neither path, is left as it was. */
  lemma SkippedUnchanged(ctx: Context, fs: Fs, st: ItemState)
    requires st.action == Delete || (!IsRelativeTo(Basis(st), ctx.sourceRoot) && !IsRelativeTo(st.current, ctx.sourceRoot))
    ensures Transferred(ctx, fs, st) == st
  {
  }

  /**
   * Any other record is planned as a MOVE to `dest_file`, which lies in the
   * folder `target_root / rel` names; the current path changes only where
   * the name is kept, and then becomes `dest_file`.
   */
  lemma TransferMoves(ctx: Context, fs: Fs, st: ItemState)
    requires st.action != Delete && Rel(ctx.sourceRoot, st).Some? && ctx.targetRoot != []
    ensures var newPath := ctx.targetRoot + Rel(ctx.sourceRoot, st).value;
            var dest := DestFile(fs, ctx.config.transfer.overwrite, st.current, newPath);
            var r := Transferred(ctx, fs, st);
            r.action == Move && r.destination == Some(dest) && r.original == st.original
            && Parent(dest) == Parent(newPath)
            && r.current == (if Name(dest) == Name(st.current) then dest else st.current)
  {
    var newPath := ctx.targetRoot + Rel(ctx.sourceRoot, st).value;
    var dest := DestFile(fs, ctx.config.transfer.overwrite, st.current, newPath);
    assert dest != [] by {
      if dest == newPath {
        assert |newPath| >= |ctx.targetRoot|;
      }
    }
  }

  /**
   * With `overwrite` off the destination does not exist or is the record's
   * own path; it is `new_path` when that one qualifies, and otherwise
   * `<stem>_<c><suffix>` beside it for the first `c` that qualifies.
   */
  lemma DestFree(fs: Fs, own: Path, newPath: Path)
    ensures var dest := DestFile(fs, false, own, newPath);
            (!Exists(fs, dest) || dest == own)
            && ((!Exists(fs, newPath) || newPath == own) ==> dest == newPath)
            && (Exists(fs, newPath) && newPath != own ==>
                  var ps := Pieces(newPath);
                  exists c: nat :: c >= 1 && dest == WithName(newPath, Stem(Name(newPath)) + "_" + NatStr(c) + Suffix(Name(newPath)))
                    && forall k :: 1 <= k < c ==> Blocked(fs, Some(own), newPath, ps.0, ps.1, k))
  {
    var ps := Pieces(newPath);
    var c := FirstUntaken(fs, Some(own), newPath, ps.0, ps.1);
    if Exists(fs, newPath) && newPath != own {
      assert Blocked(fs, Some(own), newPath, ps.0, ps.1, 0);
      assert c >= 1;
    }
  }

  /** With `overwrite` on there is no search: the destination is `target_root / rel`. */
  lemma OverwriteExact(fs: Fs, own: Path, newPath: Path)
    ensures DestFile(fs, true, own, newPath) == newPath
  {
  }

  /**
   * The relative folder structure is kept: a record planned into
   * `source_root / rel` whose target slot is free goes to `target_root / rel`.
   */
  lemma KeepsRelativePath(ctx: Context, fs: Fs, st: ItemState, rel: Path)
    requires st.action != Delete && ctx.targetRoot != []
    requires st.destination == Some(ctx.sourceRoot + rel) && Name(st.current) == Name(ctx.sourceRoot + rel)
    requires !Exists(fs, ctx.targetRoot + rel)
    ensures Transferred(ctx, fs, st).destination == Some(ctx.targetRoot + rel)
  {
    assert IsRelativeTo(Basis(st), ctx.sourceRoot);
    assert (ctx.sourceRoot + rel)[|ctx.sourceRoot|..] == rel;
    assert Rel(ctx.sourceRoot, st) == Some(rel);
    DestFree(fs, st.current, ctx.targetRoot + rel);
    TransferMoves(ctx, fs, st);
  }

  /**
   * Planning reads only the filesystem, not the other records' plans: two
   * records with the same relative part and a free target slot are both
   * planned to the same destination.
   */
  lemma PlansIgnoreEachOther(ctx: Context, fs: Fs, a: ItemState, b: ItemState)
    requires a.action != Delete && b.action != Delete && ctx.targetRoot != []
    requires Rel(ctx.sourceRoot, a).Some? && Rel(ctx.sourceRoot, a) == Rel(ctx.sourceRoot, b)
    requires !Exists(fs, ctx.targetRoot + Rel(ctx.sourceRoot, a).value)
    ensures Transferred(ctx, fs, a).destination == Transferred(ctx, fs, b).destination
  {
    var newPath := ctx.targetRoot + Rel(ctx.sourceRoot, a).value;
    DestFree(fs, a.current, newPath);
    DestFree(fs, b.current, newPath);
    TransferMoves(ctx, fs, a);
    TransferMoves(ctx, fs, b);
  }
}
