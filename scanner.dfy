/**
 * The scanner: a top-down walk of the source directory that skips hidden
 * files, prunes hidden directories, filters by extension category and stops
 * at a caller-given limit or at 50000 files.  The directory tree is a value
 * whose entry order is the order in which the walk lists them.
 */
module Scanner {
  import opened Common
  import opened Strings
  import opened Paths
  import opened Models

  /** A directory entry: a file, or a directory with its entries in listing order. */
  datatype Node = File(name: string) | Dir(name: string, entries: seq<Node>)

  const Photos: set<string> := {".jpg", ".jpeg", ".png", ".heic", ".gif", ".webp", ".tiff", ".bmp", ".raw", ".svg"}
  const Video: set<string> := {".mp4", ".mov", ".avi", ".mkv", ".webm", ".flv", ".wmv"}
  const Audio: set<string> := {".mp3", ".wav", ".flac", ".aac", ".ogg", ".m4a"}
  const Docs: set<string> := {".pdf", ".doc", ".docx", ".txt", ".rtf", ".xls", ".xlsx", ".ppt", ".pptx", ".csv", ".md"}
  const Code: set<string> := {".py", ".ts", ".tsx", ".js", ".jsx", ".html", ".css", ".json", ".yaml", ".yml",
                              ".sh", ".sql", ".c", ".cpp", ".h", ".java", ".go", ".rs", ".php"}

  const NamedCategories: set<string> := {"photos", "video", "audio", "docs", "code"}

  const HardLimit: nat := 50000

  /** `EXTENSIONS.get(category, set())`. */
  function Extensions(category: string): (r: set<string>)
    ensures category !in NamedCategories ==> r == {}
  {
    if category == "photos" then Photos
    else if category == "video" then Video
    else if category == "audio" then Audio
    else if category == "docs" then Docs
    else if category == "code" then Code
    else {}
  }

  /** The allowed set the scan computes before walking. */
  function AllowedFor(category: string): set<string>
  {
    if category != "all" then Extensions(category) else {}
  }

  predicate InSomeCategory(ext: string)
  {
    ext in Photos || ext in Video || ext in Audio || ext in Docs || ext in Code
  }

  /** `_matches_category(ext, category, allowed_exts)`. */
  predicate MatchesCategory(ext: string, category: string, allowed: set<string>)
  {
    if category == "all" then true
    else if category == "others" then !InSomeCategory(ext)
    else ext in allowed
  }

  /** What the scan does with a category: all, none of the five sets, exactly one set, or nothing. */
  lemma CategorySemantics(ext: string, category: string)
    ensures category == "all" ==> MatchesCategory(ext, category, AllowedFor(category))
    ensures category == "others" ==>
      (MatchesCategory(ext, category, AllowedFor(category)) <==>
       ext !in Photos && ext !in Video && ext !in Audio && ext !in Docs && ext !in Code)
    ensures category in NamedCategories ==>
      (MatchesCategory(ext, category, AllowedFor(category)) <==> ext in Extensions(category))
    ensures category !in NamedCategories && category != "all" && category != "others" ==>
      !MatchesCategory(ext, category, AllowedFor(category))
  {
  }

  /**
   * The category test with the category and its extension sets settled
   * before the walk: every extension, those outside the `known` ones, or
   * those in `allowed`.
   */
  datatype Filter = KeepAll | KeepOthers(known: set<string>) | KeepIn(allowed: set<string>)

  function FilterFor(category: string): Filter
  {
    if category == "all" then KeepAll
    else if category == "others" then KeepOthers(Photos + Video + Audio + Docs + Code)
    else KeepIn(AllowedFor(category))
  }

  predicate Keeps(f: Filter, ext: string)
  {
    match f
    case KeepAll => true
    case KeepOthers(known) => ext !in known
    case KeepIn(allowed) => ext in allowed
  }

  /** The settled filter answers exactly as `_matches_category` does. */
  lemma FilterForMatches(ext: string, category: string)
    ensures Keeps(FilterFor(category), ext) <==> MatchesCategory(ext, category, AllowedFor(category))
  {
  }

  /** A file name the scan keeps: not hidden, and its lower-cased extension matches. */
  predicate Accepts(name: string, f: Filter)
  {
    !StartsWith(name, ".") && Keeps(f, LowerStr(SplitExt(name)))
  }

  /** One step of `os.walk`: a directory and the names of the files directly in it. */
  datatype Visit = Visit(dir: Path, files: seq<string>)

  function FileNames(entries: seq<Node>): (r: seq<string>)
  {
    if entries == [] then []
    else (if entries[0].File? then [entries[0].name] else []) + FileNames(entries[1..])
  }

  /** Top-down `os.walk(dir)` with hidden subdirectories pruned before descending. */
  function Walk(dir: Path, entries: seq<Node>): (r: seq<Visit>)
    ensures |r| >= 1 && r[0] == Visit(dir, FileNames(entries))
    decreases entries, 1
  {
    [Visit(dir, FileNames(entries))] + WalkChildren(dir, entries)
  }

  function WalkChildren(dir: Path, entries: seq<Node>): seq<Visit>
    decreases entries, 0
  {
    if entries == [] then []
    else
      var e := entries[0];
      (if e.Dir? && !StartsWith(e.name, ".") then Walk(Child(dir, e.name), e.entries) else [])
      + WalkChildren(dir, entries[1..])
  }

  /** The decision `scan` makes for each file name of the walk. */
  function Keep(category: string): string -> bool
  {
    (name: string) => Accepts(name, FilterFor(category))
  }

  /** The walk of the source root: nothing when it does not exist or is not a directory. */
  function WalkRoot(root: Path, top: Option<Node>): seq<Visit>
  {
    if top.Some? && top.value.Dir? then Walk(root, top.value.entries) else []
  }

  /** The accepted files of one visited directory, in listing order. */
  function AcceptedIn(dir: Path, names: seq<string>, keep: string -> bool): seq<Path>
  {
    if names == [] then []
    else AcceptedIn(dir, names[..|names| - 1], keep)
         + (if keep(names[|names| - 1]) then [Child(dir, names[|names| - 1])] else [])
  }

  /** Every accepted file of the walk, in walk order. */
  function Candidates(visits: seq<Visit>, keep: string -> bool): seq<Path>
  {
    if visits == [] then []
    else Candidates(visits[..|visits| - 1], keep)
         + AcceptedIn(visits[|visits| - 1].dir, visits[|visits| - 1].files, keep)
  }

  /** How many files `scan` returns at most: the user limit (at least one file is taken) and 50000. */
  function ScanBound(limit: Option<int>): (b: nat)
    ensures 1 <= b <= HardLimit
    ensures limit.Some? && limit.value >= 1 ==> b <= limit.value
  {
    if limit.Some? && limit.value < HardLimit then (if limit.value < 1 then 1 else limit.value) else HardLimit
  }

  function Take<T>(s: seq<T>, n: nat): (r: seq<T>)
    ensures |r| <= n && |r| <= |s| && r == s[..|r|]
    ensures |s| <= n ==> r == s
  {
    if n < |s| then s[..n] else s
  }

  /** The paths `scan` returns. */
  function ScanPaths(root: Path, top: Option<Node>, category: string, limit: Option<int>): seq<Path>
  {
    Take(Candidates(WalkRoot(root, top), Keep(category)), ScanBound(limit))
  }

  lemma AcceptedInStep(dir: Path, names: seq<string>, j: nat, keep: string -> bool)
    requires j < |names|
    ensures AcceptedIn(dir, names[..j + 1], keep)
            == AcceptedIn(dir, names[..j], keep)
               + (if keep(names[j]) then [Child(dir, names[j])] else [])
  {
    assert names[..j + 1][..j] == names[..j];
  }

  lemma CandidatesStep(visits: seq<Visit>, i: nat, keep: string -> bool)
    requires i < |visits|
    ensures Candidates(visits[..i + 1], keep)
            == Candidates(visits[..i], keep) + AcceptedIn(visits[i].dir, visits[i].files, keep)
  {
    assert visits[..i + 1][..i] == visits[..i];
  }

  predicate IsPrefix<T(==)>(a: seq<T>, b: seq<T>) { |a| <= |b| && b[..|a|] == a }

  lemma PrefixOfLonger<T>(a: seq<T>, x: seq<T>, b: seq<T>)
    requires IsPrefix(a + x, b)
    ensures IsPrefix(a, b)
  {
    assert (a + x)[..|a|] == a;
  }

  lemma {:induction false} AcceptedInPrefix(dir: Path, names: seq<string>, j: nat, keep: string -> bool)
    requires j <= |names|
    ensures IsPrefix(AcceptedIn(dir, names[..j], keep), AcceptedIn(dir, names, keep))
    decreases |names| - j
  {
    if j == |names| {
      assert names[..j] == names;
    } else {
      AcceptedInPrefix(dir, names, j + 1, keep);
      AcceptedInStep(dir, names, j, keep);
      PrefixOfLonger(AcceptedIn(dir, names[..j], keep),
                     if keep(names[j]) then [Child(dir, names[j])] else [],
                     AcceptedIn(dir, names, keep));
    }
  }

  lemma {:induction false} CandidatesMono(visits: seq<Visit>, i: nat, keep: string -> bool)
    requires i <= |visits|
    ensures IsPrefix(Candidates(visits[..i], keep), Candidates(visits, keep))
    decreases |visits| - i
  {
    if i == |visits| {
      assert visits[..i] == visits;
    } else {
      CandidatesMono(visits, i + 1, keep);
      CandidatesStep(visits, i, keep);
      PrefixOfLonger(Candidates(visits[..i], keep), AcceptedIn(visits[i].dir, visits[i].files, keep),
                     Candidates(visits, keep));
    }
  }

  /** What was collected before file `j` of visit `i` is a prefix of all candidates. */
  lemma CandidatesPrefix(visits: seq<Visit>, i: nat, j: nat, keep: string -> bool)
    requires i < |visits| && j <= |visits[i].files|
    ensures IsPrefix(Candidates(visits[..i], keep) + AcceptedIn(visits[i].dir, visits[i].files[..j], keep),
                     Candidates(visits, keep))
  {
    AcceptedInPrefix(visits[i].dir, visits[i].files, j, keep);
    CandidatesStep(visits, i, keep);
    CandidatesMono(visits, i + 1, keep);
  }

  /** The records `scan` creates for the paths collected so far: one distinct, freshly scanned record per path. */
  ghost predicate Records(items: seq<FileItem>, paths: seq<Path>)
    reads items
  {
    |items| == |paths| && Distinct(items) && forall k :: 0 <= k < |items| ==> items[k].State() == Scanned(paths[k])
  }

  lemma AddRecord(items: seq<FileItem>, paths: seq<Path>, item: FileItem, p: Path)
    requires Records(items, paths) && item !in items && item.State() == Scanned(p)
    ensures Records(items + [item], paths + [p])
  {
    var r := items + [item];
    assert forall k :: 0 <= k < |items| ==> r[k] == items[k];
  }

  /** Two record lists with no record in common make one. */
  lemma JoinRecords(a: seq<FileItem>, pa: seq<Path>, b: seq<FileItem>, pb: seq<Path>)
    requires Records(a, pa) && Records(b, pb)
    requires forall i, j :: 0 <= i < |a| && 0 <= j < |b| ==> a[i] != b[j]
    ensures Records(a + b, pa + pb)
  {
    var r, pr := a + b, pa + pb;
    assert forall k :: 0 <= k < |a| ==> r[k] == a[k] && pr[k] == pa[k];
    assert forall k :: |a| <= k < |r| ==> r[k] == b[k - |a|] && pr[k] == pb[k - |a|];
  }

  /**
   * The inner loop of `scan` for one visited directory: fresh records for
   * its accepted files, stopping once `room` of them exist.
   */
  method ScanDir(dir: Path, names: seq<string>, keep: string -> bool, room: nat)
    returns (added: seq<FileItem>, ghost paths: seq<Path>, full: bool)
    requires room >= 1
    ensures Records(added, paths) && forall k :: 0 <= k < |added| ==> fresh(added[k])
    ensures full ==> |added| == room && exists j :: 0 <= j <= |names| && paths == AcceptedIn(dir, names[..j], keep)
    ensures !full ==> |added| < room && paths == AcceptedIn(dir, names, keep)
  {
    added, paths := [], [];
    var j := 0;
    while j < |names|
      invariant 0 <= j <= |names| && |added| < room
      invariant paths == AcceptedIn(dir, names[..j], keep)
      invariant Records(added, paths) && forall k :: 0 <= k < |added| ==> fresh(added[k])
    {
      AcceptedInStep(dir, names, j, keep);
      if keep(names[j]) {
        var p := Child(dir, names[j]);
        var item := new FileItem(p, p);
        AddRecord(added, paths, item, p);
        added, paths := added + [item], paths + [p];
        if |added| >= room {
          return added, paths, true;
        }
      }
      j := j + 1;
    }
    assert names[..j] == names;
    full := false;
  }

  /** `Scanner.scan`: fresh records for the accepted files, in walk order, up to the bound. */
  method Scan(root: Path, top: Option<Node>, category: string, limit: Option<int>)
    returns (items: seq<FileItem>)
    ensures Records(items, ScanPaths(root, top, category, limit))
    ensures forall k :: 0 <= k < |items| ==> fresh(items[k])
  {
    items := ScanVisits(WalkRoot(root, top), Keep(category), ScanBound(limit));
  }

  /** The loops of `scan` over the visited directories, under the test `keep`. */
  method ScanVisits(visits: seq<Visit>, keep: string -> bool, bound: nat) returns (items: seq<FileItem>)
    requires bound >= 1
    ensures Records(items, Take(Candidates(visits, keep), bound))
    ensures forall k :: 0 <= k < |items| ==> fresh(items[k])
  {
    items := [];
    ghost var paths: seq<Path> := [];
    var i := 0;
    while i < |visits|
      invariant 0 <= i <= |visits|
      invariant paths == Candidates(visits[..i], keep)
      invariant Records(items, paths) && |items| < bound
      invariant forall k :: 0 <= k < |items| ==> fresh(items[k])
    {
      var added, full;
      ghost var more;
      added, more, full := ScanDir(visits[i].dir, visits[i].files, keep, bound - |items|);
      assert forall a, b :: 0 <= a < |items| && 0 <= b < |added| ==> items[a] != added[b];
      JoinRecords(items, paths, added, more);
      items, paths := items + added, paths + more;
      if full {
        ghost var j :| 0 <= j <= |visits[i].files| && more == AcceptedIn(visits[i].dir, visits[i].files[..j], keep);
        CandidatesPrefix(visits, i, j, keep);
        TakePrefix(paths, Candidates(visits, keep), bound);
        return;
      }
      CandidatesStep(visits, i, keep);
      i := i + 1;
    }
    assert visits[..i] == visits;
  }

  lemma TakePrefix<T>(p: seq<T>, c: seq<T>, n: nat)
    requires IsPrefix(p, c) && |p| == n
    ensures Take(c, n) == p
  {
  }

  /** The count at which a user limit stops a walk: the first accepted file always counts. */
  function Cap(limit: int): (c: nat)
    ensures c >= 1 && c >= limit
  {
    if limit < 1 then 1 else limit
  }

  /** The pair `scan_count` returns for `n` candidates: the count, and whether it stopped at the limit. */
  function CountOf(n: nat, limit: Option<int>): (r: (nat, bool))
    ensures limit.None? ==> !r.1
    ensures r.1 <==> limit.Some? && n >= Cap(limit.value)
    ensures r.0 <= n && (r.0 < n ==> r.1)
  {
    if limit.None? then (n, false)
    else if n >= Cap(limit.value) then (Cap(limit.value), true) else (n, false)
  }

  function CountResult(root: Path, top: Option<Node>, category: string, limit: Option<int>): (r: (nat, bool))
  {
    CountOf(|Candidates(WalkRoot(root, top), Keep(category))|, limit)
  }

  /** The inner loop of `scan_count` for one visited directory. */
  method CountDir(dir: Path, names: seq<string>, keep: string -> bool, limit: Option<int>, count0: nat)
    returns (count: nat, full: bool)
    requires limit.Some? ==> count0 < Cap(limit.value)
    ensures full ==> limit.Some? && count == Cap(limit.value)
    ensures full ==> exists j :: 0 <= j <= |names| && count == count0 + |AcceptedIn(dir, names[..j], keep)|
    ensures !full ==> count == count0 + |AcceptedIn(dir, names, keep)|
    ensures !full && limit.Some? ==> count < Cap(limit.value)
  {
    count := count0;
    var j := 0;
    while j < |names|
      invariant 0 <= j <= |names|
      invariant count == count0 + |AcceptedIn(dir, names[..j], keep)|
      invariant limit.Some? ==> count < Cap(limit.value)
    {
      AcceptedInStep(dir, names, j, keep);
      if keep(names[j]) {
        count := count + 1;
        if limit.Some? && count >= limit.value {
          full := true;
          return;
        }
      }
      j := j + 1;
    }
    assert names[..j] == names;
    full := false;
  }

  /** `Scanner.scan_count`: how many files a scan with this limit would find, without the 50000 cap. */
  method ScanCount(root: Path, top: Option<Node>, category: string, limit: Option<int>)
    returns (count: nat, truncated: bool)
    ensures (count, truncated) == CountResult(root, top, category, limit)
  {
    count, truncated := CountVisits(WalkRoot(root, top), Keep(category), limit);
  }

  /** The loops of `scan_count` over the visited directories, under the test `keep`. */
  method CountVisits(visits: seq<Visit>, keep: string -> bool, limit: Option<int>)
    returns (count: nat, truncated: bool)
    ensures (count, truncated) == CountOf(|Candidates(visits, keep)|, limit)
  {
    count := 0;
    var i := 0;
    while i < |visits|
      invariant 0 <= i <= |visits|
      invariant count == |Candidates(visits[..i], keep)|
      invariant limit.Some? ==> count < Cap(limit.value)
    {
      var full;
      count, full := CountDir(visits[i].dir, visits[i].files, keep, limit, count);
      if full {
        ghost var j :| 0 <= j <= |visits[i].files| &&
          count == |Candidates(visits[..i], keep)| + |AcceptedIn(visits[i].dir, visits[i].files[..j], keep)|;
        CandidatesPrefix(visits, i, j, keep);
        truncated := true;
        return;
      }
      CandidatesStep(visits, i, keep);
      i := i + 1;
    }
    assert visits[..i] == visits;
    truncated := false;
  }

  /** `q` lies at or below `dir` and no segment below `dir` is hidden. */
  predicate VisibleBelow(q: Path, dir: Path)
  {
    |dir| <= |q| && q[..|dir|] == dir && forall k :: |dir| <= k < |q| ==> !StartsWith(q[k], ".")
  }

  lemma {:induction false} WalkVisible(dir: Path, entries: seq<Node>)
    ensures forall v :: v in Walk(dir, entries) ==> VisibleBelow(v.dir, dir)
    decreases entries, 1
  {
    WalkChildrenVisible(dir, entries);
  }

  lemma {:induction false} WalkChildrenVisible(dir: Path, entries: seq<Node>)
    ensures forall v :: v in WalkChildren(dir, entries) ==> VisibleBelow(v.dir, dir)
    decreases entries, 0
  {
    if entries != [] {
      var e := entries[0];
      WalkChildrenVisible(dir, entries[1..]);
      if e.Dir? && !StartsWith(e.name, ".") {
        var c := Child(dir, e.name);
        WalkVisible(c, e.entries);
        forall v | v in Walk(c, e.entries) ensures VisibleBelow(v.dir, dir) {
          assert VisibleBelow(v.dir, c);
          assert v.dir[..|dir|] == c[..|dir|];
          assert v.dir[|dir|] == e.name;
        }
      }
    }
  }

  /** A path the scan may return: a not-hidden file whose folders below the root are not hidden either. */
  predicate Visible(p: Path, root: Path, keep: string -> bool)
  {
    |root| < |p| && VisibleBelow(p, root) && keep(p[|p| - 1])
  }

  lemma {:induction false} AcceptedInVisible(dir: Path, names: seq<string>, root: Path, keep: string -> bool)
    requires VisibleBelow(dir, root) && forall n :: keep(n) ==> !StartsWith(n, ".")
    ensures forall p :: p in AcceptedIn(dir, names, keep) ==> Visible(p, root, keep)
  {
    if names != [] {
      AcceptedInVisible(dir, names[..|names| - 1], root, keep);
    }
  }

  lemma {:induction false} CandidatesVisible(visits: seq<Visit>, root: Path, keep: string -> bool)
    requires forall v :: v in visits ==> VisibleBelow(v.dir, root)
    requires forall n :: keep(n) ==> !StartsWith(n, ".")
    ensures forall p :: p in Candidates(visits, keep) ==> Visible(p, root, keep)
  {
    if visits != [] {
      var last := visits[|visits| - 1];
      CandidatesVisible(visits[..|visits| - 1], root, keep);
      AcceptedInVisible(last.dir, last.files, root, keep);
    }
  }

  /**
   * Hidden files are skipped and hidden directories are never entered: every
   * scanned path lies strictly below the root, no segment below the root
   * starts with a dot, and its extension matches the category.
   */
  lemma ScanSkipsHidden(root: Path, top: Option<Node>, category: string, limit: Option<int>)
    ensures forall p :: p in ScanPaths(root, top, category, limit) ==>
      |root| < |p| && VisibleBelow(p, root) && Accepts(Name(p), FilterFor(category))
  {
    var keep := Keep(category);
    if top.Some? && top.value.Dir? {
      WalkVisible(root, top.value.entries);
    }
    assert forall n :: keep(n) ==> !StartsWith(n, ".") by {
      forall n ensures keep(n) ==> !StartsWith(n, ".") {
        assert keep(n) == Accepts(n, FilterFor(category));
      }
    }
    var c := Candidates(WalkRoot(root, top), keep);
    CandidatesVisible(WalkRoot(root, top), root, keep);
    forall p | p in ScanPaths(root, top, category, limit)
      ensures |root| < |p| && VisibleBelow(p, root) && Accepts(Name(p), FilterFor(category))
    {
      var r := ScanPaths(root, top, category, limit);
      var k :| 0 <= k < |r| && r[k] == p;
      assert r == c[..|r|];
      assert p in c;
      assert Visible(p, root, keep);
      assert keep(Name(p)) == Accepts(Name(p), FilterFor(category));
    }
  }

  /** The scan is the walk-order prefix of the candidates, cut at the limit and at 50000. */
  lemma ScanIsBoundedPrefix(root: Path, top: Option<Node>, category: string, limit: Option<int>)
    ensures var c := Candidates(WalkRoot(root, top), Keep(category));
      var r := ScanPaths(root, top, category, limit);
      r == c[..|r|] && |r| <= HardLimit
      && (limit.Some? && limit.value >= 1 ==> |r| <= limit.value)
      && (|r| < |c| ==> |r| == ScanBound(limit))
  {
  }

  /** A missing or non-directory root yields no records and a zero count. */
  lemma MissingRoot(root: Path, top: Option<Node>, category: string, limit: Option<int>)
    requires top.None? || top.value.File?
    ensures ScanPaths(root, top, category, limit) == []
    ensures CountResult(root, top, category, limit) == (0, false)
  {
  }

  /** With a limit under the hard cap, the count `scan_count` reports is the number of records `scan` returns. */
  lemma CountMatchesScan(root: Path, top: Option<Node>, category: string, limit: Option<int>)
    requires limit.Some? && limit.value <= HardLimit
    ensures CountResult(root, top, category, limit).0 == |ScanPaths(root, top, category, limit)|
    ensures CountResult(root, top, category, limit).1 <==> |ScanPaths(root, top, category, limit)| == Cap(limit.value)
  {
  }
}
