/**
 * The report side of the server: turning path strings into paths and back
 * (`Path(s)` and `str(p)`), a datetime's `str`, and `generate_changes`,
 * which lists one `FileChange` per record worth reporting.
 */
module ServerReport {
  import opened Common
  import opened Strings
  import opened Paths
  import opened DateTimes
  import opened Models
  import TimestampFormatter

  // ---------------------------------------------------------------------
  // Path text
  // ---------------------------------------------------------------------

  /** A segment as pathlib keeps it: not empty, not ".", no separator. */
  predicate IsSegment(seg: string)
  {
    |seg| > 0 && !IsDot(seg) && '/' !in seg
  }

  /** The segment ".", which pathlib drops. */
  predicate IsDot(seg: string)
  {
    |seg| == 1 && seg[0] == '.'
  }

  predicate CleanPath(p: Path)
  {
    forall k :: 0 <= k < |p| ==> IsSegment(p[k])
  }

  /** `Path(s)`: the texts between slashes, with empty and "." segments dropped. */
  function PathOf(s: string): (p: Path)
    ensures CleanPath(p)
    decreases |s|
  {
    var i := RFind(s, '/');
    var rest := if i < 0 then [] else PathOf(s[..i]);
    var seg := s[i + 1..];
    assert '/' !in seg by {
      forall k | 0 <= k < |seg| ensures seg[k] != '/' {
        assert seg[k] == s[i + 1 + k];
      }
    }
    if |seg| == 0 || IsDot(seg) then rest else rest + [seg]
  }

  /** `str(p)` for an absolute path: "/" before each segment, the root alone is "/". */
  function PathText(p: Path): string
  {
    if p == [] then "/" else Rooted(p)
  }

  function Rooted(p: Path): string
  {
    if p == [] then "" else Rooted(Parent(p)) + "/" + Name(p)
  }

  /** The last slash of `a + "/" + b` is the one before `b` when `b` has none. */
  lemma LastSlash(a: string, b: string)
    requires '/' !in b
    ensures RFind(a + "/" + b, '/') == |a| && (a + "/" + b)[..|a|] == a && (a + "/" + b)[|a| + 1..] == b
  {
    var s := a + "/" + b;
    assert s[|a|] == '/';
    assert s[..|a|] == a;
    assert s[|a| + 1..] == b;
  }

  /** A segment after a slash is read as one more segment. */
  lemma PathOfSnoc(a: string, b: string)
    requires IsSegment(b)
    ensures PathOf(a + "/" + b) == PathOf(a) + [b]
  {
    LastSlash(a, b);
  }

  /** A lone segment is read as itself. */
  lemma PathOfSegment(b: string)
    requires IsSegment(b)
    ensures PathOf(b) == [b]
  {
    assert b[0..] == b;
  }

  /** The pieces of a path of two or more segments, cleanly split. */
  lemma CleanInit(p: Path)
    requires |p| >= 2 && CleanPath(p)
    ensures Parent(p) != [] && CleanPath(Parent(p)) && IsSegment(Name(p))
    ensures JoinSlash(p) == JoinSlash(Parent(p)) + "/" + Name(p)
  {
    var init := Parent(p);
    forall k | 0 <= k < |init| ensures IsSegment(init[k]) {
      assert init[k] == p[k];
    }
  }

  lemma {:induction false} JoinSlashRoundTrip(p: Path)
    requires p != [] && CleanPath(p)
    ensures PathOf(JoinSlash(p)) == p
  {
    if |p| == 1 {
      assert IsSegment(p[0]);
      PathOfSegment(p[0]);
    } else {
      CleanInit(p);
      JoinSlashRoundTrip(Parent(p));
      PathOfSnoc(JoinSlash(Parent(p)), Name(p));
    }
  }

  lemma PathOfEmpty(s: string)
    requires |s| == 0
    ensures PathOf(s) == []
  {
    assert s == [];
    assert |s[0..]| == 0;
  }

  lemma {:induction false} RootedRoundTrip(p: Path)
    requires CleanPath(p)
    ensures PathOf(Rooted(p)) == p
  {
    if p == [] {
      PathOfEmpty("");
    } else {
      assert Parent(p) + [Name(p)] == p;
      assert IsSegment(Name(p));
      assert CleanPath(Parent(p)) by {
        forall k | 0 <= k < |Parent(p)| ensures IsSegment(Parent(p)[k]) {
          assert Parent(p)[k] == p[k];
        }
      }
      RootedRoundTrip(Parent(p));
      PathOfSnoc(Rooted(Parent(p)), Name(p));
    }
  }

  lemma PathOfSlash(s: string)
    requires |s| == 1 && s[0] == '/'
    ensures PathOf(s) == []
  {
    assert RFind(s, '/') == 0;
    assert s[..0] == [] && s[1..] == [];
    PathOfEmpty(s[..0]);
  }

  /** Reading back the text of an absolute path gives the path. */
  lemma PathTextRoundTrip(p: Path)
    requires CleanPath(p)
    ensures PathOf(PathText(p)) == p
  {
    if p == [] {
      PathOfSlash("/");
    } else {
      RootedRoundTrip(p);
    }
  }

  /** Reading back the text of a relative path gives the path; "." reads as the empty path. */
  lemma RelStrRoundTrip(rel: Path)
    requires CleanPath(rel)
    ensures PathOf(RelStr(rel)) == rel
  {
    if rel == [] {
      assert RFind(".", '/') == -1;
      assert "."[0..] == ".";
    } else {
      JoinSlashRoundTrip(rel);
    }
  }

  // ---------------------------------------------------------------------
  // Datetime text
  // ---------------------------------------------------------------------

  /** A field printed with `width` digits; a Python datetime has no negative field. */
  function Field(x: int, width: nat): string
  {
    ZeroPad(if x < 0 then 0 else x, width)
  }

  /** `str(dt)`: `YYYY-MM-DD HH:MM:SS`, then `.ffffff` when the microsecond is not zero. */
  function DateTimeText(dt: DateTime): string
  {
    DatePart(dt) + " " + TimePart(dt)
  }

  function DatePart(dt: DateTime): string
  {
    Field(dt.year, 4) + "-" + Field(dt.month, 2) + "-" + Field(dt.day, 2)
  }

  function TimePart(dt: DateTime): string
  {
    Field(dt.hour, 2) + ":" + Field(dt.minute, 2) + ":" + Field(dt.second, 2)
    + (if dt.micro == 0 then "" else "." + Field(dt.micro, 6))
  }

  /**
   * For every datetime Python can hold the text is 19 characters, 26 with
   * microseconds, the date part being the formatter's `YYYY-MM-DD` and a
   * space after it.
   */
  lemma DateTimeTextShape(dt: DateTime)
    requires Constructible(dt)
    ensures var r := DateTimeText(dt);
            |r| == (if dt.micro == 0 then 19 else 26)
            && r[..10] == TimestampFormatter.DateText("-", dt) && r[10] == ' '
  {
    var d := DatePart(dt);
    DatePartLength(dt);
    TimePartLength(dt);
    assert (d + " " + TimePart(dt))[..10] == d;
  }

  lemma DatePartLength(dt: DateTime)
    requires Constructible(dt)
    ensures DatePart(dt) == TimestampFormatter.DateText("-", dt) && |DatePart(dt)| == 10
  {
    TimestampFormatter.TwoDigitFields(dt);
    assert Pow10(4) == 10000;
    ZeroPadExact(dt.year, 4);
  }

  lemma TimePartLength(dt: DateTime)
    requires Constructible(dt)
    ensures |TimePart(dt)| == (if dt.micro == 0 then 8 else 15)
  {
    TimestampFormatter.TwoDigitFields(dt);
    assert Pow10(6) == 1000000;
    ZeroPadExact(dt.micro, 6);
  }

  // ---------------------------------------------------------------------
  // generate_changes
  // ---------------------------------------------------------------------

  /** One entry of a step's report: the original name, what became of it, and a status. */
  datatype FileChange = FileChange(original: string, newValue: string, status: string)

  /** The text of a move: relative to the target root, else to the source root, else the whole path. */
  function MoveText(dest: Path, targetRoot: Path, sourceRoot: Path): string
  {
    if IsRelativeTo(dest, targetRoot) then RelStr(dest[|targetRoot|..])
    else if IsRelativeTo(dest, sourceRoot) then RelStr(dest[|sourceRoot|..])
    else PathText(dest)
  }

  /** What a record's report entry says became of it. */
  function NewValue(st: ItemState, targetRoot: Path, sourceRoot: Path): string
  {
    match st.action
    case Delete => "deleted"
    case Rename => if st.destination.Some? then Name(st.destination.value) else "unknown"
    case Move => if st.destination.Some? then MoveText(st.destination.value, targetRoot, sourceRoot) else "unknown"
    case NoAction => ""
  }

  /** A record is reported when it has an action, or no action but a metadata timestamp. */
  predicate Reported(st: ItemState)
  {
    st.action != NoAction || st.metadataTs.Some?
  }

  /** The loop body of `generate_changes` on one record. */
  function Entry(st: ItemState, targetRoot: Path, sourceRoot: Path): (r: Option<FileChange>)
    ensures r.Some? <==> Reported(st)
    ensures r.Some? ==> r.value.original == Name(st.original) && r.value.status == "success"
  {
    if st.metadataTs.Some? && st.action == NoAction then
      Some(FileChange(Name(st.original), "Metadata Updated: " + DateTimeText(st.metadataTs.value), "success"))
    else if st.action == NoAction then None
    else Some(FileChange(Name(st.original), NewValue(st, targetRoot, sourceRoot), "success"))
  }

  /** `generate_changes` on the states: the entries of the reported records, in order. */
  function Report(states: seq<ItemState>, targetRoot: Path, sourceRoot: Path): seq<FileChange>
  {
    if states == [] then []
    else
      var e := Entry(states[|states| - 1], targetRoot, sourceRoot);
      Report(states[..|states| - 1], targetRoot, sourceRoot) + (if e.Some? then [e.value] else [])
  }

  /** `generate_changes`. */
  method GenerateChanges(items: seq<FileItem>, targetRoot: Path, sourceRoot: Path) returns (changes: seq<FileChange>)
    ensures changes == Report(States(items), targetRoot, sourceRoot)
  {
    ghost var states := States(items);
    changes := [];
    for i := 0 to |items|
      invariant changes == Report(states[..i], targetRoot, sourceRoot)
    {
      assert states[..i + 1][..i] == states[..i];
      var e := Entry(items[i].State(), targetRoot, sourceRoot);
      if e.Some? {
        changes := changes + [e.value];
      }
    }
    assert states[..|items|] == states;
  }

  // ---------------------------------------------------------------------
  // What the report promises
  // ---------------------------------------------------------------------

  /** The records reported, in order. */
  function ReportedOf(states: seq<ItemState>): (r: seq<ItemState>)
    ensures forall k :: 0 <= k < |r| ==> Reported(r[k])
  {
    if states == [] then []
    else ReportedOf(states[..|states| - 1]) + (if Reported(states[|states| - 1]) then [states[|states| - 1]] else [])
  }

  /**
   * The report is exactly one entry per reported record, in order: every
   * record with an action and every record without one that carries a
   * metadata timestamp, each with its original name and status "success".
   */
  lemma {:induction false} ReportEntries(states: seq<ItemState>, targetRoot: Path, sourceRoot: Path)
    ensures var r := Report(states, targetRoot, sourceRoot);
            var s := ReportedOf(states);
            |r| == |s| && forall k :: 0 <= k < |r| ==> Some(r[k]) == Entry(s[k], targetRoot, sourceRoot)
  {
    if states != [] {
      ReportEntries(states[..|states| - 1], targetRoot, sourceRoot);
    }
  }

  /** Records with no action and no metadata timestamp leave no trace in the report. */
  lemma {:induction false} UnreportedDropped(states: seq<ItemState>, targetRoot: Path, sourceRoot: Path)
    requires forall k :: 0 <= k < |states| ==> !Reported(states[k])
    ensures Report(states, targetRoot, sourceRoot) == []
  {
    if states != [] {
      UnreportedDropped(states[..|states| - 1], targetRoot, sourceRoot);
    }
  }

  /** The report of a concatenation is the concatenation of the reports. */
  lemma {:induction false} ReportAppend(a: seq<ItemState>, b: seq<ItemState>, targetRoot: Path, sourceRoot: Path)
    ensures Report(a + b, targetRoot, sourceRoot) == Report(a, targetRoot, sourceRoot) + Report(b, targetRoot, sourceRoot)
    decreases |b|
  {
    if b == [] {
      assert a + b == a;
    } else {
      var init := b[..|b| - 1];
      assert (a + b)[..|a + b| - 1] == a + init;
      assert (a + b)[|a + b| - 1] == b[|b| - 1];
      ReportAppend(a, init, targetRoot, sourceRoot);
    }
  }

  /** A deletion reports "deleted"; a rename its destination's name, or "unknown" without one. */
  lemma DeleteRenameValues(st: ItemState, targetRoot: Path, sourceRoot: Path)
    ensures st.action == Delete ==> Entry(st, targetRoot, sourceRoot) == Some(FileChange(Name(st.original), "deleted", "success"))
    ensures st.action == Rename && st.destination.Some? ==>
              Entry(st, targetRoot, sourceRoot).value.newValue == Name(st.destination.value)
    ensures (st.action == Rename || st.action == Move) && st.destination.None? ==>
              Entry(st, targetRoot, sourceRoot).value.newValue == "unknown"
  {
  }

  /**
   * A move's text reads back as its destination: below the target root it
   * is the path relative to that root, else below the source root relative
   * to that one, else the whole path.
   */
  lemma MoveTextReadsBack(dest: Path, targetRoot: Path, sourceRoot: Path)
    requires CleanPath(dest)
    ensures var p := PathOf(MoveText(dest, targetRoot, sourceRoot));
            && (IsRelativeTo(dest, targetRoot) ==> targetRoot + p == dest)
            && (!IsRelativeTo(dest, targetRoot) && IsRelativeTo(dest, sourceRoot) ==> sourceRoot + p == dest)
            && (!IsRelativeTo(dest, targetRoot) && !IsRelativeTo(dest, sourceRoot) ==> p == dest)
  {
    if IsRelativeTo(dest, targetRoot) {
      CleanSuffix(dest, |targetRoot|);
      RelStrRoundTrip(dest[|targetRoot|..]);
      assert targetRoot + dest[|targetRoot|..] == dest;
    } else if IsRelativeTo(dest, sourceRoot) {
      CleanSuffix(dest, |sourceRoot|);
      RelStrRoundTrip(dest[|sourceRoot|..]);
      assert sourceRoot + dest[|sourceRoot|..] == dest;
    } else {
      PathTextRoundTrip(dest);
    }
  }

  lemma CleanSuffix(p: Path, n: nat)
    requires CleanPath(p) && n <= |p|
    ensures CleanPath(p[n..])
  {
    forall k | 0 <= k < |p[n..]| ensures IsSegment(p[n..][k]) {
      assert p[n..][k] == p[n + k];
    }
  }
}
