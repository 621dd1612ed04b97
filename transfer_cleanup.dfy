/**
 * The transfer step's `cleanup`: a bottom-up walk of the source root that,
 * in hidden-file mode, unlinks junk and hidden files, and removes every
 * folder left with nothing but ignorable entries — never the source root
 * itself.  The walk is `os.walk(source_root, topdown=False)`: its triples
 * (folder, sub-folder names, file names) are listed before the folder's
 * sub-trees are visited, so they are an input here, in the order the walk
 * yields them.  Every filesystem call whose exception the step swallows is
 * a no-op where it would raise.
 */
module TransferCleanup {
  import opened Common
  import opened Strings
  import opened Paths
  import opened FileSystem
  import opened Config
  import opened Models

  const JunkFiles: set<string> := {".DS_Store", "Thumbs.db", "desktop.ini"}
  const JunkDirs: set<string> := {".Spotlight-V100", ".Trashes"}
  const ProtectedHidden: set<string> := {".git"}

  /** `transfer.cleanup_hidden_files`, false when the attribute is absent. */
  function HiddenCleanup(cfg: PipelineConfig): bool
  {
    cfg.transfer.cleanupHiddenFiles == Some(true)
  }

  // ---------------------------------------------------------------------
  // Ignorable entries
  // ---------------------------------------------------------------------

  /** A file name the hidden-file pass unlinks: a junk file, a `._` file, or a hidden file other than `.git`. */
  predicate Unwanted(name: string)
  {
    name in JunkFiles || StartsWith(name, "._") || (StartsWith(name, ".") && name !in ProtectedHidden)
  }

  /** `_is_ignorable_entry`. */
  predicate Ignorable(name: string, isDir: bool, hidden: bool)
  {
    if !hidden then false
    else if isDir && name in JunkDirs then true
    else if !isDir && (name in JunkFiles || StartsWith(name, "._")) then true
    else StartsWith(name, ".") && name !in ProtectedHidden
  }

  /**
   * Nothing is ignorable with hidden-file cleanup off, `.git` never is, an
   * ignorable entry is hidden or one of the two junk files without a dot,
   * and a file is ignorable exactly when the hidden-file pass unlinks it.
   */
  lemma IgnorableSpec(name: string, isDir: bool, hidden: bool)
    ensures !hidden ==> !Ignorable(name, isDir, hidden)
    ensures !Ignorable(".git", isDir, hidden)
    ensures Ignorable(name, isDir, hidden) ==> StartsWith(name, ".") || (!isDir && name in {"Thumbs.db", "desktop.ini"})
    ensures Ignorable(name, false, hidden) <==> hidden && Unwanted(name)
  {
    assert !StartsWith(".git", "._") by { assert ".git"[..2][1] == 'g'; }
    if StartsWith(name, "._") {
      assert name[..1] == name[..2][..1];
    }
  }

  /** A directory entry as `iterdir()` yields it: its name and whether it is a directory. */
  datatype Entry = Entry(name: string, isDir: bool)

  /** The entries directly inside `d`. */
  function Entries(fs: Fs, d: Path): set<Entry>
  {
    (set f | f in fs.files && f != [] && Parent(f) == d :: Entry(Name(f), false))
    + (set e | e in fs.dirs && e != [] && Parent(e) == d :: Entry(Name(e), true))
  }

  /** What `_has_non_ignorable_entries` answers: true when `d` cannot be listed or lists an entry that is not ignorable. */
  predicate NonIgnorable(fs: Fs, d: Path, hidden: bool)
  {
    !IsDir(fs, d) || exists e :: e in Entries(fs, d) && !Ignorable(e.name, e.isDir, hidden)
  }

  /** `_has_non_ignorable_entries`: scan the listing, in whatever order it comes, and stop at the first entry that counts. */
  method HasNonIgnorableEntries(fs: Fs, d: Path, hidden: bool) returns (r: bool)
    ensures r == NonIgnorable(fs, d, hidden)
  {
    if !IsDir(fs, d) {
      return true;
    }
    var entries := Entries(fs, d);
    var rest := entries;
    while rest != {}
      invariant rest <= entries
      invariant forall e :: e in entries - rest ==> Ignorable(e.name, e.isDir, hidden)
      decreases |rest|
    {
      var e :| e in rest;
      if !Ignorable(e.name, e.isDir, hidden) {
        return true;
      }
      rest := rest - {e};
    }
    assert entries - rest == entries;
    return false;
  }

  /** With hidden-file cleanup off, a folder counts as removable exactly when it is an empty directory. */
  lemma NonIgnorableWhenOff(fs: Fs, d: Path)
    ensures NonIgnorable(fs, d, false) <==> !IsDir(fs, d) || !EmptyDir(fs, d)
  {
    if IsDir(fs, d) && !EmptyDir(fs, d) {
      if f :| f in fs.files && Parent(f) == d && f != [] {
        assert Entry(Name(f), false) in Entries(fs, d);
      } else {
        var e :| e in fs.dirs && Parent(e) == d && e != [];
        assert Entry(Name(e), true) in Entries(fs, d);
      }
    }
    if IsDir(fs, d) && EmptyDir(fs, d) {
      assert Entries(fs, d) == {};
    }
  }

  // ---------------------------------------------------------------------
  // The walk
  // ---------------------------------------------------------------------

  /** One triple of `os.walk`: the folder, the names of its sub-folders and of its files, as listed. */
  datatype WalkEntry = WalkEntry(dir: Path, dirnames: seq<string>, filenames: seq<string>)

  /** `p.unlink()`; a no-op where it raises. */
  function Unlink(fs: Fs, p: Path): Fs
  {
    if p in fs.files then fs.(files := fs.files - {p}) else fs
  }

  /** The hidden-file pass over the first `|names|` file names of `d`. */
  function UnlinkUnwanted(fs: Fs, d: Path, names: seq<string>): Fs
  {
    if names == [] then fs
    else
      var r := UnlinkUnwanted(fs, d, names[..|names| - 1]);
      var n := names[|names| - 1];
      if Unwanted(n) then Unlink(r, Child(d, n)) else r
  }

  /** One sub-folder: removed when it holds nothing that counts (and `rmdir` succeeds). */
  function RmdirChild(fs: Fs, d: Path, n: string, hidden: bool): Fs
  {
    var c := Child(d, n);
    if !NonIgnorable(fs, c, hidden) then Rmdir(fs, c).fs else fs
  }

  function RmdirChildren(fs: Fs, d: Path, names: seq<string>, hidden: bool): Fs
  {
    if names == [] then fs
    else RmdirChild(RmdirChildren(fs, d, names[..|names| - 1], hidden), d, names[|names| - 1], hidden)
  }

  /** One folder of the walk: its files, its sub-folders, then itself unless it is the source root. */
  function Visit(root: Path, hidden: bool, e: WalkEntry, fs: Fs): Fs
  {
    var fs1 := if hidden then UnlinkUnwanted(fs, e.dir, e.filenames) else fs;
    var fs2 := RmdirChildren(fs1, e.dir, e.dirnames, hidden);
    if e.dir != root && !NonIgnorable(fs2, e.dir, hidden) then Rmdir(fs2, e.dir).fs else fs2
  }

  function WalkUpTo(root: Path, hidden: bool, walk: seq<WalkEntry>, k: nat, fs: Fs): Fs
    requires k <= |walk|
  {
    if k == 0 then fs else Visit(root, hidden, walk[k - 1], WalkUpTo(root, hidden, walk, k - 1, fs))
  }

  /** `cleanup`: nothing when the source root does not exist, the whole walk otherwise. */
  function Cleaned(ctx: Context, walk: seq<WalkEntry>, fs: Fs): Fs
  {
    if !Exists(fs, ctx.sourceRoot) then fs
    else WalkUpTo(ctx.sourceRoot, HiddenCleanup(ctx.config), walk, |walk|, fs)
  }

  // ---------------------------------------------------------------------
  // The loops
  // ---------------------------------------------------------------------

  method UnlinkFiles(d: Path, names: seq<string>, fs: Fs) returns (fs': Fs)
    ensures fs' == UnlinkUnwanted(fs, d, names)
  {
    fs' := fs;
    for i := 0 to |names|
      invariant fs' == UnlinkUnwanted(fs, d, names[..i])
    {
      assert names[..i + 1][..i] == names[..i];
      var path := Child(d, names[i]);
      if Unwanted(names[i]) && path in fs'.files {
        fs' := fs'.(files := fs'.files - {path});
      }
    }
    assert names[..|names|] == names;
  }

  method RemoveChildren(d: Path, names: seq<string>, hidden: bool, fs: Fs) returns (fs': Fs)
    ensures fs' == RmdirChildren(fs, d, names, hidden)
  {
    fs' := fs;
    for i := 0 to |names|
      invariant fs' == RmdirChildren(fs, d, names[..i], hidden)
    {
      assert names[..i + 1][..i] == names[..i];
      var full := Child(d, names[i]);
      var busy := HasNonIgnorableEntries(fs', full, hidden);
      if !busy {
        fs' := Rmdir(fs', full).fs;
      }
    }
    assert names[..|names|] == names;
  }

  method VisitDir(root: Path, hidden: bool, e: WalkEntry, fs: Fs) returns (fs': Fs)
    ensures fs' == Visit(root, hidden, e, fs)
  {
    fs' := fs;
    if hidden {
      fs' := UnlinkFiles(e.dir, e.filenames, fs');
    }
    fs' := RemoveChildren(e.dir, e.dirnames, hidden, fs');
    if e.dir != root {
      var busy := HasNonIgnorableEntries(fs', e.dir, hidden);
      if !busy {
        fs' := Rmdir(fs', e.dir).fs;
      }
    }
  }

  /** `cleanup`, over the walk's triples in the order they come. */
  method Cleanup(ctx: Context, walk: seq<WalkEntry>, fs: Fs) returns (fs': Fs)
    ensures fs' == Cleaned(ctx, walk, fs)
  {
    fs' := fs;
    if !Exists(fs, ctx.sourceRoot) {
      return;
    }
    var hidden := HiddenCleanup(ctx.config);
    for k := 0 to |walk|
      invariant fs' == WalkUpTo(ctx.sourceRoot, hidden, walk, k, fs)
    {
      fs' := VisitDir(ctx.sourceRoot, hidden, walk[k], fs');
    }
  }

  // ---------------------------------------------------------------------
  // What cleanup promises
  // ---------------------------------------------------------------------

  /** Some file lies directly inside `d`. */
  predicate HoldsFile(fs: Fs, d: Path)
  {
    exists f :: f in fs.files && f != [] && Parent(f) == d
  }

  /**
   * `b` comes from `a` by removals only; every removed file has an unwanted
   * name (and hidden-file mode is on); and no folder of `a` that still holds
   * a file in `b` was removed.
   */
  predicate Tidied(hidden: bool, a: Fs, b: Fs)
  {
    b.files <= a.files && b.dirs <= a.dirs
    && (forall f :: f in a.files && f !in b.files ==> hidden && Unwanted(Name(f)))
    && (forall p :: p in a.dirs && HoldsFile(b, p) ==> p in b.dirs)
  }

  lemma TidiedTrans(hidden: bool, a: Fs, b: Fs, c: Fs)
    requires Tidied(hidden, a, b) && Tidied(hidden, b, c)
    ensures Tidied(hidden, a, c)
  {
    forall p | p in a.dirs && HoldsFile(c, p) ensures p in c.dirs {
      var f :| f in c.files && f != [] && Parent(f) == p;
      assert HoldsFile(b, p);
    }
  }

  lemma RmdirTidies(hidden: bool, fs: Fs, d: Path)
    ensures Tidied(hidden, fs, Rmdir(fs, d).fs)
  {
    var r := Rmdir(fs, d).fs;
    forall p | p in fs.dirs && HoldsFile(r, p) ensures p in r.dirs {
      if p == d {
        var f :| f in r.files && f != [] && Parent(f) == p;
        assert !EmptyDir(fs, d);
      }
    }
  }

  lemma {:induction false} UnlinkUnwantedTidies(fs: Fs, d: Path, names: seq<string>)
    ensures Tidied(true, fs, UnlinkUnwanted(fs, d, names))
    ensures UnlinkUnwanted(fs, d, names).dirs == fs.dirs
  {
    if names != [] {
      var r := UnlinkUnwanted(fs, d, names[..|names| - 1]);
      UnlinkUnwantedTidies(fs, d, names[..|names| - 1]);
      var n := names[|names| - 1];
      if Unwanted(n) {
        assert Name(Child(d, n)) == n;
        assert Tidied(true, r, Unlink(r, Child(d, n)));
        TidiedTrans(true, fs, r, Unlink(r, Child(d, n)));
      }
    }
  }

  lemma {:induction false} RmdirChildrenTidies(fs: Fs, d: Path, names: seq<string>, hidden: bool)
    ensures Tidied(hidden, fs, RmdirChildren(fs, d, names, hidden))
    ensures RmdirChildren(fs, d, names, hidden).files == fs.files
    ensures forall p :: p in fs.dirs && p !in RmdirChildren(fs, d, names, hidden).dirs ==> p != [] && Parent(p) == d
  {
    if names != [] {
      var r := RmdirChildren(fs, d, names[..|names| - 1], hidden);
      RmdirChildrenTidies(fs, d, names[..|names| - 1], hidden);
      RmdirTidies(hidden, r, Child(d, names[|names| - 1]));
      TidiedTrans(hidden, fs, r, RmdirChild(r, d, names[|names| - 1], hidden));
    }
  }

  /** One folder's visit removes only unwanted files and only the folder and its sub-folders. */
  lemma VisitTidies(root: Path, hidden: bool, e: WalkEntry, fs: Fs)
    ensures Tidied(hidden, fs, Visit(root, hidden, e, fs))
    ensures !hidden ==> Visit(root, hidden, e, fs).files == fs.files
    ensures forall p :: p in fs.dirs && p !in Visit(root, hidden, e, fs).dirs ==>
              (p == e.dir && p != root) || (p != [] && Parent(p) == e.dir)
  {
    var fs1 := if hidden then UnlinkUnwanted(fs, e.dir, e.filenames) else fs;
    if hidden {
      UnlinkUnwantedTidies(fs, e.dir, e.filenames);
    }
    var fs2 := RmdirChildren(fs1, e.dir, e.dirnames, hidden);
    RmdirChildrenTidies(fs1, e.dir, e.dirnames, hidden);
    TidiedTrans(hidden, fs, fs1, fs2);
    RmdirTidies(hidden, fs2, e.dir);
    TidiedTrans(hidden, fs, fs2, Rmdir(fs2, e.dir).fs);
  }

  lemma {:induction false} WalkTidies(root: Path, hidden: bool, walk: seq<WalkEntry>, k: nat, fs: Fs)
    requires k <= |walk|
    ensures Tidied(hidden, fs, WalkUpTo(root, hidden, walk, k, fs))
    ensures !hidden ==> WalkUpTo(root, hidden, walk, k, fs).files == fs.files
    ensures forall p :: p in fs.dirs && p !in WalkUpTo(root, hidden, walk, k, fs).dirs ==>
              exists i :: 0 <= i < k && ((p == walk[i].dir && p != root) || (p != [] && Parent(p) == walk[i].dir))
  {
    if k > 0 {
      var r := WalkUpTo(root, hidden, walk, k - 1, fs);
      WalkTidies(root, hidden, walk, k - 1, fs);
      VisitTidies(root, hidden, walk[k - 1], r);
      TidiedTrans(hidden, fs, r, Visit(root, hidden, walk[k - 1], r));
      forall p | p in fs.dirs && p !in WalkUpTo(root, hidden, walk, k, fs).dirs
        ensures exists i :: 0 <= i < k && ((p == walk[i].dir && p != root) || (p != [] && Parent(p) == walk[i].dir))
      {
        if p in r.dirs {
          assert (p == walk[k - 1].dir && p != root) || (p != [] && Parent(p) == walk[k - 1].dir);
        }
      }
    }
  }

  /**
   * `cleanup` only removes: files only in hidden-file mode and only those
   * with unwanted names, and no folder that still holds a file afterwards.
   * With hidden-file cleanup off every file stays, so every folder that
   * held a file stays too.
   */
  lemma CleanupTidies(ctx: Context, walk: seq<WalkEntry>, fs: Fs)
    ensures Tidied(HiddenCleanup(ctx.config), fs, Cleaned(ctx, walk, fs))
    ensures !HiddenCleanup(ctx.config) ==> Cleaned(ctx, walk, fs).files == fs.files
    ensures !HiddenCleanup(ctx.config) ==> forall d :: d in fs.dirs && HoldsFile(fs, d) ==> d in Cleaned(ctx, walk, fs).dirs
  {
    if Exists(fs, ctx.sourceRoot) {
      WalkTidies(ctx.sourceRoot, HiddenCleanup(ctx.config), walk, |walk|, fs);
    }
  }

  /** The walk lists only folders under the source root, as `os.walk(source_root)` does. */
  predicate WalkUnder(root: Path, walk: seq<WalkEntry>)
  {
    forall i :: 0 <= i < |walk| ==> IsRelativeTo(walk[i].dir, root)
  }

  /** The source root itself is never removed. */
  lemma CleanupKeepsRoot(ctx: Context, walk: seq<WalkEntry>, fs: Fs)
    requires WalkUnder(ctx.sourceRoot, walk)
    ensures ctx.sourceRoot in Cleaned(ctx, walk, fs).dirs <==> ctx.sourceRoot in fs.dirs
  {
    var root := ctx.sourceRoot;
    if Exists(fs, root) {
      var hidden := HiddenCleanup(ctx.config);
      WalkTidies(root, hidden, walk, |walk|, fs);
      forall i | 0 <= i < |walk|
        ensures root == [] || Parent(root) != walk[i].dir
      {
        assert IsRelativeTo(walk[i].dir, root);
      }
    }
  }

  /**
   * In hidden-file mode a folder other than the root whose listed files are
   * all unwanted and that has no sub-folder is gone after its visit.
   */
  lemma VisitClearsHidden(root: Path, e: WalkEntry, fs: Fs)
    requires e.dir != root && e.dir in fs.dirs
    requires forall f :: f in fs.files && f != [] && Parent(f) == e.dir ==> Name(f) in e.filenames && Unwanted(Name(f))
    requires forall p :: p in fs.dirs && p != [] ==> Parent(p) != e.dir
    ensures e.dir !in Visit(root, true, e, fs).dirs
  {
    var d := e.dir;
    var fs1 := UnlinkUnwanted(fs, d, e.filenames);
    UnlinkUnwantedGone(fs, d, e.filenames);
    UnlinkUnwantedTidies(fs, d, e.filenames);
    assert forall f :: f in fs1.files && f != [] ==> Parent(f) != d;
    var fs2 := RmdirChildren(fs1, d, e.dirnames, true);
    RmdirChildrenTidies(fs1, d, e.dirnames, true);
    assert d in fs2.dirs;
    assert EmptyDir(fs2, d);
    assert Entries(fs2, d) == {};
  }

  /** The hidden-file pass unlinks every listed file with an unwanted name. */
  lemma {:induction false} UnlinkUnwantedGone(fs: Fs, d: Path, names: seq<string>)
    ensures forall n :: n in names && Unwanted(n) ==> Child(d, n) !in UnlinkUnwanted(fs, d, names).files
  {
    if names != [] {
      var front := names[..|names| - 1];
      UnlinkUnwantedGone(fs, d, front);
      UnlinkUnwantedTidies(fs, d, names);
      UnlinkUnwantedTidies(fs, d, front);
      forall n | n in names && Unwanted(n) ensures Child(d, n) !in UnlinkUnwanted(fs, d, names).files {
        if n !in front {
          assert n == names[|names| - 1];
        }
      }
    }
  }
}
