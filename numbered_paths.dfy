/**
 * The candidate paths of the organiser's "first free `stem_N.suffix`"
 * searches beside a path: the path itself, then the same folder with
 * `<stem>_1<suffix>`, `<stem>_2<suffix>`, ...  Finitely many paths exist
 * and the candidates are pairwise distinct, so a free one always exists.
 */
module NumberedPaths {
  import opened Common
  import opened Paths
  import opened FileSystem
  import opened Counter

  /**
   * Candidate `c` of the search beside `new_path`: `new_path` itself for 0,
   * `new_path.with_name(f"{stem}_{c}{suffix}")` after, where `p` is the
   * stem with its underscore and `s` the suffix.
   */
  function Beside(newPath: Path, p: string, s: string, c: nat): Path
  {
    if c == 0 then newPath else WithName(newPath, Numbered(p, c, s))
  }

  function BesideAll(newPath: Path, p: string, s: string): nat -> Path
  {
    (c: nat) => Beside(newPath, p, s, c)
  }

  /** A search goes on past a candidate that exists and is not the file's own path `own`. */
  predicate Blocked(fs: Fs, own: Option<Path>, newPath: Path, p: string, s: string, c: nat)
  {
    Exists(fs, Beside(newPath, p, s, c)) && Some(Beside(newPath, p, s, c)) != own
  }

  function Taken(fs: Fs, own: Option<Path>, newPath: Path, p: string, s: string): nat -> bool
  {
    (c: nat) => Blocked(fs, own, newPath, p, s, c)
  }

  /** The stem with its underscore and the suffix: their lengths add up to more than the name's. */
  function Pieces(newPath: Path): (r: (string, string))
    ensures |Name(newPath)| <= |r.0| + |r.1|
  {
    var n := Name(newPath);
    StemSuffix(n);
    (Stem(n) + "_", Suffix(n))
  }

  /** No two candidates coincide: the numbered names are longer than the plain one and differ in their number. */
  lemma BesideInjective(newPath: Path, p: string, s: string)
    requires |Name(newPath)| <= |p| + |s|
    ensures Injective(BesideAll(newPath, p, s), 0)
  {
    forall a: nat, b: nat | 0 <= a < b
      ensures Beside(newPath, p, s, a) != Beside(newPath, p, s, b)
    {
      assert Name(Beside(newPath, p, s, b)) == Numbered(p, b, s);
      if a != 0 && Numbered(p, a, s) == Numbered(p, b, s) {
        NumberedInjective(p, s, a, b);
      }
    }
  }

  /** The counter a search stops at: the first candidate that does not exist or is `own`. */
  ghost function FirstUntaken(fs: Fs, own: Option<Path>, newPath: Path, p: string, s: string): (c: nat)
    requires |Name(newPath)| <= |p| + |s|
    ensures !Blocked(fs, own, newPath, p, s, c)
    ensures forall k :: 0 <= k < c ==> Blocked(fs, own, newPath, p, s, k)
  {
    BesideInjective(newPath, p, s);
    var n := FreeBound(fs.files + fs.dirs, BesideAll(newPath, p, s), 0);
    assert !Taken(fs, own, newPath, p, s)(n);
    var taken := Taken(fs, own, newPath, p, s);
    var c := FirstFree(taken, 0);
    assert forall k :: 0 <= k < c ==> Blocked(fs, own, newPath, p, s, k) by {
      forall k | 0 <= k < c ensures Blocked(fs, own, newPath, p, s, k) {
        assert taken(k);
      }
    }
    c
  }

  /** Every candidate below `c` was passed over. */
  ghost predicate Searched(fs: Fs, own: Option<Path>, newPath: Path, p: string, s: string, c: nat)
  {
    forall k :: 0 <= k < c ==> Blocked(fs, own, newPath, p, s, k)
  }

  /** Passing over one more blocked candidate keeps the search below its stopping point. */
  lemma SearchOn(fs: Fs, own: Option<Path>, newPath: Path, p: string, s: string, c: nat)
    requires |Name(newPath)| <= |p| + |s|
    requires Searched(fs, own, newPath, p, s, c) && Blocked(fs, own, newPath, p, s, c)
    ensures Searched(fs, own, newPath, p, s, c + 1) && c < FirstUntaken(fs, own, newPath, p, s)
  {
  }

  /** A search that stops at the first unblocked candidate has found `FirstUntaken`. */
  lemma SearchStops(fs: Fs, own: Option<Path>, newPath: Path, p: string, s: string, c: nat)
    requires |Name(newPath)| <= |p| + |s|
    requires Searched(fs, own, newPath, p, s, c) && !Blocked(fs, own, newPath, p, s, c)
    ensures FirstUntaken(fs, own, newPath, p, s) == c
  {
  }

}
