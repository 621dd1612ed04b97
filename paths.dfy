/**
 * Paths as sequences of name segments from the filesystem root, with the
 * pure-path operations of Python's `pathlib` (name, parent, with_name,
 * relative_to, stem, suffix, suffixes) and `os.path.splitext`.
 */
module Paths {
  import opened Common
  import opened Strings

  /** `["home", "u", "a.jpg"]` stands for `/home/u/a.jpg`; `[]` is the root. */
  type Path = seq<string>

  function Name(p: Path): string
  {
    if p == [] then "" else p[|p| - 1]
  }

  /** The parent directory; the root is its own parent, as in `pathlib`. */
  function Parent(p: Path): (r: Path)
    ensures p != [] ==> r + [Name(p)] == p
  {
    if p == [] then [] else p[..|p| - 1]
  }

  /** `p / name`. */
  function Child(p: Path, name: string): (r: Path)
    ensures Name(r) == name && Parent(r) == p
  {
    p + [name]
  }

  /** `p.with_name(name)`: same directory, other final segment. */
  function WithName(p: Path, name: string): (r: Path)
    ensures Name(r) == name && Parent(r) == Parent(p)
  {
    Parent(p) + [name]
  }

  predicate IsRelativeTo(p: Path, root: Path)
  {
    |root| <= |p| && p[..|root|] == root
  }

  /** `p.relative_to(root)`, `None` where pathlib raises `ValueError`. */
  function RelativeTo(p: Path, root: Path): (r: Option<Path>)
    ensures r.Some? <==> IsRelativeTo(p, root)
    ensures r.Some? ==> root + r.value == p
  {
    if IsRelativeTo(p, root) then Some(p[|root|..]) else None
  }

  /** `str(rel)` for a relative path: segments joined by "/", "." for the empty path. */
  function RelStr(rel: Path): string
  {
    if rel == [] then "." else JoinSlash(rel)
  }

  function JoinSlash(rel: Path): string
    requires rel != []
  {
    if |rel| == 1 then rel[0] else JoinSlash(rel[..|rel| - 1]) + "/" + rel[|rel| - 1]
  }

  /** Index of the last occurrence of `c` in `s`, or -1 (`str.rfind`). */
  function RFind(s: string, c: char): (i: int)
    ensures -1 <= i < |s|
    ensures i >= 0 ==> s[i] == c
    ensures forall k :: i < k < |s| ==> s[k] != c
  {
    if s == [] then -1 else if s[|s| - 1] == c then |s| - 1 else RFind(s[..|s| - 1], c)
  }

  /** `PurePath.suffix`: from the last dot, unless that dot is first or last. */
  function Suffix(name: string): string
  {
    var i := RFind(name, '.');
    if 0 < i < |name| - 1 then name[i..] else ""
  }

  /** `PurePath.stem`: the name without its suffix. */
  function Stem(name: string): string
  {
    var i := RFind(name, '.');
    if 0 < i < |name| - 1 then name[..i] else name
  }

  lemma StemSuffix(name: string)
    ensures Stem(name) + Suffix(name) == name
    ensures Suffix(name) == "" || (Suffix(name)[0] == '.' && |Suffix(name)| >= 2)
    ensures forall k :: 0 <= k < |Suffix(name)| && k > 0 ==> Suffix(name)[k] != '.'
  {
  }

  /** A name whose suffix is empty has no dot after its first character, unless it ends in one. */
  lemma SuffixOfSegment(stem: string, ext: string)
    requires |stem| > 0 && |ext| >= 2 && ext[0] == '.'
    requires forall k :: 0 < k < |ext| ==> ext[k] != '.'
    ensures Suffix(stem + ext) == ext && Stem(stem + ext) == stem
  {
    var n := stem + ext;
    var i := RFind(n, '.');
    assert n[|stem|] == '.';
    assert i >= |stem|;
  }

  /** `PurePath.suffixes` is non-empty: no trailing dot and a dot after the leading dots. */
  predicate HasSuffixes(name: string)
  {
    !(|name| > 0 && name[|name| - 1] == '.')
    && exists k :: 0 < k < |name| && name[k] == '.' && name[k - 1] != '.' && NonDotBefore(name, k)
  }

  /** Some character before index `k` is not a dot. */
  predicate NonDotBefore(name: string, k: int)
    requires 0 <= k <= |name|
  {
    exists j :: 0 <= j < k && name[j] != '.'
  }

  /** When `suffixes` is non-empty its last element is `suffix`. */
  lemma LastSuffix(name: string)
    requires HasSuffixes(name)
    ensures Suffix(name) != "" && Suffix(name) == name[RFind(name, '.')..]
  {
    var k :| 0 < k < |name| && name[k] == '.' && name[k - 1] != '.' && NonDotBefore(name, k);
    var i := RFind(name, '.');
    assert i >= k;
  }

  /** The extension part of `os.path.splitext(name)`: from the last dot, if a non-dot precedes it. */
  function SplitExt(name: string): (ext: string)
    ensures ext == "" || ext[0] == '.'
  {
    var i := RFind(name, '.');
    if i > 0 && NonDotBefore(name, i) then name[i..] else ""
  }
}
