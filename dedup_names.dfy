/**
 * The pure parts of the deduplicate step: the two "copy" name patterns and
 * the grouping key they give, the score of a file, and the descending
 * stable sort that picks the winner of a group.
 */
module DedupNames {
  import opened Common
  import opened Strings
  import opened Paths

  /** The key files are grouped by: folder, base name and extension. */
  datatype GroupKey = GroupKey(parent: Path, base: string, ext: string)

  /** How many digits end `s` (the digit run a `\d+` before a fixed text must be). */
  function DigitSuffixLen(s: string): (k: nat)
    ensures k <= |s| && forall j :: |s| - k <= j < |s| ==> IsDigit(s[j])
    ensures k < |s| ==> !IsDigit(s[|s| - k - 1])
  {
    if s == [] || !IsDigit(s[|s| - 1]) then 0 else 1 + DigitSuffixLen(s[..|s| - 1])
  }

  /** `(\.[^.]+)$`: where the final extension starts, if the name ends in one. */
  function ExtStart(name: string): (r: Option<nat>)
    ensures r.Some? ==> r.value < |name| - 1 && name[r.value] == '.'
    ensures r.Some? ==> forall k :: r.value < k < |name| ==> name[k] != '.'
  {
    var i := RFind(name, '.');
    if 0 <= i < |name| - 1 then Some(i) else None
  }

  /** `^(.*) \((\d+)\)(\.[^.]+)$`: the base and the extension of `"base (N).ext"`. */
  function DuplicateMatch(name: string): Option<(string, string)>
  {
    match ExtStart(name)
    case None => None
    case Some(i) =>
      var t := name[..i];
      if t == [] || t[|t| - 1] != ')' then None
      else
        var u := t[..|t| - 1];
        var d := DigitSuffixLen(u);
        if d == 0 || |u| < d + 2 || u[|u| - d - 1] != '(' || u[|u| - d - 2] != ' ' then None
        else
          var base := u[..|u| - d - 2];
          if ContainsChar(base, '\n') then None else Some((base, name[i..]))
  }

  const CopyPrefix := "Copy of "

  /** `^Copy of (.*)(\.[^.]+)$`: the base and the extension of `"Copy of base.ext"`. */
  function CopyMatch(name: string): Option<(string, string)>
  {
    match ExtStart(name)
    case None => None
    case Some(i) =>
      if !StartsWith(name, CopyPrefix) || i < |CopyPrefix| then None
      else
        var base := name[|CopyPrefix|..i];
        if ContainsChar(base, '\n') then None else Some((base, name[i..]))
  }

  /** The base and extension a name is grouped under. */
  function BaseExt(name: string): (r: (string, string))
  {
    match DuplicateMatch(name)
    case Some(m) => m
    case None =>
      match CopyMatch(name)
      case Some(m) => m
      case None => (Stem(name), Suffix(name))
  }

  function KeyOf(p: Path): GroupKey
  {
    var (base, ext) := BaseExt(Name(p));
    GroupKey(Parent(p), base, ext)
  }

  /** An extension as `(\.[^.]+)` captures it: a dot and at least one further non-dot character. */
  predicate ExtShape(ext: string)
  {
    |ext| >= 2 && ext[0] == '.' && forall k :: 0 < k < |ext| ==> ext[k] != '.'
  }

  lemma {:induction false} DigitSuffixOfDigits(a: string, d: string)
    requires AllDigits(d) && (a == [] || !IsDigit(a[|a| - 1]))
    ensures DigitSuffixLen(a + d) == |d|
  {
    if d != [] {
      assert (a + d)[..|a + d| - 1] == a + d[..|d| - 1];
      DigitSuffixOfDigits(a, d[..|d| - 1]);
    } else {
      assert a + d == a;
    }
  }

  lemma ExtStartOf(stem: string, ext: string)
    requires ExtShape(ext)
    ensures ExtStart(stem + ext) == Some(|stem|)
  {
    var n := stem + ext;
    var i := RFind(n, '.');
    assert n[|stem|] == '.';
    assert forall k :: |stem| < k < |n| ==> n[k] == ext[k - |stem|];
  }

  /** `"base (N).ext"` is grouped under `(base, ext)`. */
  lemma DuplicateNameKey(base: string, n: nat, ext: string)
    requires ExtShape(ext) && !ContainsChar(base, '\n')
    ensures BaseExt(base + " (" + NatStr(n) + ")" + ext) == (base, ext)
  {
    var d := NatStr(n);
    var u := base + " (" + d;
    var t := u + ")";
    var name := t + ext;
    assert name == base + " (" + NatStr(n) + ")" + ext;
    ExtStartOf(t, ext);
    assert name[..|t|] == t;
    assert t[..|t| - 1] == u;
    assert base + " (" + d == (base + " (") + d;
    DigitSuffixOfDigits(base + " (", d);
    assert u[..|u| - |d| - 2] == base;
    assert name[|t|..] == ext;
  }

  /** `"Copy of base.ext"` is grouped under `(base, ext)` unless it is also a `"(N)"` name. */
  lemma CopyNameKey(base: string, ext: string)
    requires ExtShape(ext) && !ContainsChar(base, '\n')
    requires DuplicateMatch(CopyPrefix + base + ext).None?
    ensures BaseExt(CopyPrefix + base + ext) == (base, ext)
  {
    var s := CopyPrefix + base;
    var name := s + ext;
    ExtStartOf(s, ext);
    assert name[..|CopyPrefix|] == CopyPrefix;
    assert name[|CopyPrefix|..|s|] == base;
    assert name[|s|..] == ext;
  }

  /** Any other name is grouped under its `stem` and `suffix`. */
  lemma PlainNameKey(name: string)
    requires DuplicateMatch(name).None? && CopyMatch(name).None?
    ensures BaseExt(name) == (Stem(name), Suffix(name))
  {
  }

  // ---------------------------------------------------------------------
  // Scoring
  // ---------------------------------------------------------------------

  const ScoreExifPriority := true
  const ScoreSizePriority := true
  const DeleteDuplicates := true
  const RenameCanonical := true
  const Text := ""

  /** `BONUS_FORMAT.get(ext, 0)`. */
  function Bonus(lowerExt: string): nat
  {
    if lowerExt == ".raw" || lowerExt == ".tiff" then 10000 else 0
  }

  /**
   * What the scoring loop reads about a file: the EXIF capture time in
   * whole seconds (`None` when there is none), the modification time in
   * whole seconds, the size in bytes, and the content hash (`None` when
   * the file cannot be read).
   */
  datatype DedupEnv = DedupEnv(exifTime: Path -> Option<int>, mtime: Path -> int,
                               size: Path -> nat, hash: Path -> Option<string>)

  /** The date term of the score: the EXIF time when there is one, the modification time otherwise. */
  function DateTerm(env: DedupEnv, p: Path): int
  {
    if !ScoreExifPriority then 0
    else match env.exifTime(p)
      case Some(t) => t
      case None => env.mtime(p)
  }

  /** The hint from the name: −1 for a copy-style name, +1000 for the canonical one. */
  function NameHint(name: string, key: GroupKey): int
  {
    if DuplicateMatch(name).Some? || CopyMatch(name).Some? then -1
    else if name == key.base + key.ext then 1000
    else 0
  }

  function Score(env: DedupEnv, p: Path, key: GroupKey): int
  {
    DateTerm(env, p) + (if ScoreSizePriority then env.size(p) else 0)
    + Bonus(LowerStr(Suffix(Name(p)))) + NameHint(Name(p), key)
  }

  /**
   * Of two files with the same date, size and extension, the canonical
   * name outscores a copy-style name by 1001.
   */
  lemma CanonicalBeatsCopy(env: DedupEnv, p: Path, q: Path, key: GroupKey)
    requires Name(p) == key.base + key.ext && DuplicateMatch(Name(p)).None? && CopyMatch(Name(p)).None?
    requires DuplicateMatch(Name(q)).Some? || CopyMatch(Name(q)).Some?
    requires DateTerm(env, p) == DateTerm(env, q) && env.size(p) == env.size(q)
    requires LowerStr(Suffix(Name(p))) == LowerStr(Suffix(Name(q)))
    ensures Score(env, p, key) == Score(env, q, key) + 1001
  {
  }

  /** A `.raw` or `.tiff` file (in any case) outscores an otherwise equal file without the bonus by 10000. */
  lemma FormatBonus(env: DedupEnv, p: Path, q: Path, key: GroupKey)
    requires LowerStr(Suffix(Name(p))) in {".raw", ".tiff"} && LowerStr(Suffix(Name(q))) !in {".raw", ".tiff"}
    requires DateTerm(env, p) == DateTerm(env, q) && env.size(p) == env.size(q)
    requires NameHint(Name(p), key) == NameHint(Name(q), key)
    ensures Score(env, p, key) == Score(env, q, key) + 10000
  {
  }

  /** The canonical name the winner gets: `base + ext` (with `TEXT`, `base_TEXT + ext`). */
  function CanonicalName(key: GroupKey): string
  {
    if Text != "" then key.base + "_" + Text + key.ext else key.base + key.ext
  }

  // ---------------------------------------------------------------------
  // scored.sort(reverse=True, key=lambda x: x[0])
  // ---------------------------------------------------------------------

  /** One entry of `scored`: a score and the position of its record in the input list. */
  datatype Scored = Scored(score: int, index: nat)

  /** Insert `x` before the first entry that does not outscore it. */
  function Insert(x: Scored, t: seq<Scored>): (r: seq<Scored>)
    ensures |r| == |t| + 1 && multiset(r) == multiset(t) + multiset{x}
  {
    if t == [] || t[0].score <= x.score then [x] + t
    else
      assert t == [t[0]] + t[1..];
      [t[0]] + Insert(x, t[1..])
  }

  /** A stable sort by descending score: among equal scores the earlier entry stays first. */
  function SortDesc(s: seq<Scored>): (r: seq<Scored>)
    ensures |r| == |s| && multiset(r) == multiset(s)
  {
    if s == [] then []
    else
      assert s == [s[0]] + s[1..];
      Insert(s[0], SortDesc(s[1..]))
  }

  predicate Descending(s: seq<Scored>)
  {
    forall i, j :: 0 <= i < j < |s| ==> s[i].score >= s[j].score
  }

  lemma {:induction false} InsertDescending(x: Scored, t: seq<Scored>)
    requires Descending(t)
    ensures Descending(Insert(x, t))
    ensures Insert(x, t)[0] == (if t != [] && t[0].score > x.score then t[0] else x)
  {
    if t != [] && t[0].score > x.score {
      InsertDescending(x, t[1..]);
      var r := Insert(x, t[1..]);
      assert r[0].score <= t[0].score;
      assert Insert(x, t) == [t[0]] + r;
    }
  }

  lemma {:induction false} SortDescDescending(s: seq<Scored>)
    ensures Descending(SortDesc(s))
  {
    if s != [] {
      SortDescDescending(s[1..]);
      InsertDescending(s[0], SortDesc(s[1..]));
    }
  }

  /** The position of the first entry with the highest score. */
  function FirstMax(s: seq<Scored>): (i: nat)
    requires s != []
    ensures i < |s| && forall k :: 0 <= k < |s| ==> s[k].score <= s[i].score
    ensures forall k :: 0 <= k < i ==> s[k].score < s[i].score
  {
    if |s| == 1 then 0
    else
      var j := FirstMax(s[1..]);
      if s[0].score >= s[1 + j].score then 0 else j + 1
  }

  /** The winner: the sort puts the first highest-scoring entry first. */
  lemma {:induction false} SortDescHead(s: seq<Scored>)
    requires s != []
    ensures SortDesc(s)[0] == s[FirstMax(s)]
  {
    if |s| > 1 {
      SortDescHead(s[1..]);
      SortDescDescending(s[1..]);
      InsertDescending(s[0], SortDesc(s[1..]));
    }
  }
}
