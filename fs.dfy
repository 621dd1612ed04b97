/**
 * The filesystem as a value: a set of file paths and a set of directory
 * paths (the root `[]` always counts as a directory).  The effects the
 * organiser has on it — `exists()`, `mkdir(parents=True, exist_ok=True)`,
 * `shutil.move`, `rmdir` of an empty directory — are functions on that value.
 */
module FileSystem {
  import opened Paths

  datatype Fs = Fs(files: set<Path>, dirs: set<Path>)

  /** `Path.exists()`. */
  predicate Exists(fs: Fs, p: Path)
  {
    p in fs.files || p in fs.dirs
  }

  predicate IsDir(fs: Fs, p: Path)
  {
    p == [] || p in fs.dirs
  }

  /** Every proper prefix of `p`: its parent and all the parent's ancestors. */
  function Ancestors(p: Path): (r: set<Path>)
    ensures forall k :: 0 <= k < |p| ==> p[..k] in r
  {
    set k | 0 <= k < |p| :: p[..k]
  }

  /** `d.mkdir(parents=True, exist_ok=True)`. */
  function MakeDirs(fs: Fs, d: Path): (r: Fs)
    ensures r.files == fs.files && IsDir(r, d)
    ensures fs.dirs <= r.dirs
  {
    fs.(dirs := fs.dirs + {d} + Ancestors(d))
  }

  /** `shutil.move(src, dst)` for a file, with its result: `false` where it raises. */
  datatype MoveResult = MoveResult(fs: Fs, ok: bool)

  /** Where `shutil.move` puts `src`: inside `dst` when `dst` is a directory. */
  function MoveTarget(fs: Fs, src: Path, dst: Path): Path
  {
    if dst in fs.dirs then Child(dst, Name(src)) else dst
  }

  function Move(fs: Fs, src: Path, dst: Path): (r: MoveResult)
    ensures r.ok ==> src in fs.files && IsDir(fs, Parent(MoveTarget(fs, src, dst)))
    ensures r.ok ==> r.fs.files == fs.files - {src} + {MoveTarget(fs, src, dst)} && r.fs.dirs == fs.dirs
    ensures !r.ok ==> r.fs == fs
  {
    var target := MoveTarget(fs, src, dst);
    if src !in fs.files then MoveResult(fs, false)
    else if dst in fs.dirs && Exists(fs, target) then MoveResult(fs, false)
    else if target in fs.dirs || !IsDir(fs, Parent(target)) then MoveResult(fs, false)
    else MoveResult(Fs(fs.files - {src} + {target}, fs.dirs), true)
  }

  /** No file or directory lies directly inside `d` (`not any(d.iterdir())`). */
  predicate EmptyDir(fs: Fs, d: Path)
  {
    (forall f :: f in fs.files ==> Parent(f) != d || f == [])
    && (forall e :: e in fs.dirs ==> Parent(e) != d || e == [])
  }

  /** `d.rmdir()`; it raises unless `d` is an empty directory. */
  function Rmdir(fs: Fs, d: Path): (r: MoveResult)
    ensures r.ok <==> d in fs.dirs && EmptyDir(fs, d)
    ensures r.ok ==> r.fs == fs.(dirs := fs.dirs - {d})
    ensures !r.ok ==> r.fs == fs
  {
    if d in fs.dirs && EmptyDir(fs, d) then MoveResult(fs.(dirs := fs.dirs - {d}), true)
    else MoveResult(fs, false)
  }
}
