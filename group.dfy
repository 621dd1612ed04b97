/**
 * The group step: every record that is not marked for deletion is moved
 * into `source_root/<year>` or `source_root/<year>/<month>`, with the date
 * taken from a `YYYY-MM-DD` stamp at the start of the file's stem (when the
 * filename has priority), else from the EXIF date, else from the
 * filesystem date.  The EXIF and filesystem readers are inputs, keyed by
 * the record's original path.
 */
module Group {
  import opened Common
  import opened Strings
  import opened Paths
  import opened DateTimes
  import opened Config
  import opened Models

  // ---------------------------------------------------------------------
  // GROUP_PATTERN
  // ---------------------------------------------------------------------

  /**
   * The pattern's head with a month of `k` digits: four digits, a dash,
   * `k` digits, a dash and at least one digit of the day.  Whatever follows
   * the day's first digit cannot make `re.match` fail.
   */
  predicate HeadWith(stem: string, k: nat)
  {
    (k == 1 || k == 2) && |stem| >= 7 + k
    && AllDigits(stem[..4]) && stem[4] == '-'
    && AllDigits(stem[5..5 + k]) && stem[5 + k] == '-' && IsDigit(stem[6 + k])
  }

  /**
   * `GROUP_PATTERN.match(stem)`: the year group and the month group, or
   * `None`.  The month's `\d{1,2}` tries two digits first.
   */
  function MatchStamp(stem: string): (r: Option<(string, string)>)
  {
    if |stem| >= 8 && AllDigits(stem[..4]) && stem[4] == '-' && IsDigit(stem[5]) then
      if |stem| >= 9 && IsDigit(stem[6]) && stem[7] == '-' && IsDigit(stem[8]) then Some((stem[..4], stem[5..7]))
      else if stem[6] == '-' && IsDigit(stem[7]) then Some((stem[..4], stem[5..6]))
      else None
    else None
  }

  /**
   * The matcher finds the pattern exactly when its head is there with a
   * one- or two-digit month; the year is the first four characters and the
   * month group is the longest month that fits.
   */
  lemma MatchStampSpec(stem: string)
    ensures MatchStamp(stem).Some? <==> HeadWith(stem, 1) || HeadWith(stem, 2)
    ensures HeadWith(stem, 2) ==> MatchStamp(stem) == Some((stem[..4], stem[5..7]))
    ensures !HeadWith(stem, 2) && HeadWith(stem, 1) ==> MatchStamp(stem) == Some((stem[..4], stem[5..6]))
  {
    if HeadWith(stem, 1) {
      assert IsDigit(stem[5..6][0]);
    }
    if HeadWith(stem, 2) {
      assert IsDigit(stem[5..7][0]) && IsDigit(stem[5..7][1]);
    }
    if MatchStamp(stem).Some? && !HeadWith(stem, 2) {
      assert AllDigits(stem[5..6]);
    }
  }

  /** `f"{int(month):02d}"`: a one-digit month gets a leading zero, two digits stay as they are. */
  function MonthText(digits: string): (r: string)
    requires AllDigits(digits)
  {
    ZeroPad(DigitsVal(digits), 2)
  }

  lemma MonthTextSpec(digits: string)
    requires AllDigits(digits) && 1 <= |digits| <= 2
    ensures MonthText(digits) == if |digits| == 1 then "0" + digits else digits
  {
    var d0 := DigitVal(digits[0]);
    if |digits| == 1 {
      assert DigitsVal(digits) == d0 by { assert digits[..0] == []; }
      assert NatStr(d0) == [DigitChar(d0)] == digits;
    } else {
      var d1 := DigitVal(digits[1]);
      assert DigitsVal(digits[..1]) == d0 by { assert digits[..1][..0] == []; }
      var n := DigitsVal(digits);
      assert n == d0 * 10 + d1;
      if d0 == 0 {
        assert NatStr(n) == [DigitChar(d1)];
        assert Zeros(1) == "0";
        assert ZeroPad(n, 2) == "0" + [DigitChar(d1)];
      } else {
        assert n / 10 == d0 && n % 10 == d1;
        assert NatStr(n) == [DigitChar(d0)] + [DigitChar(d1)];
      }
    }
  }

  // ---------------------------------------------------------------------
  // The date of one record
  // ---------------------------------------------------------------------

  /** The EXIF date and the filesystem date of a file, as read by the step's helpers. */
  type DateReader = Path -> Option<DateTimeValue>

  /** The year and month texts of a date: `str(dt.year)` and `f"{dt.month:02d}"`. */
  function DateTexts(dt: DateTimeValue): (string, string)
  {
    (NatStr(dt.year), ZeroPad(dt.month, 2))
  }

  /**
   * The year and month a record is grouped by: the stem's stamp first when
   * `prioritize_filename` is set, then the EXIF date, then the filesystem
   * date of the original path; `None` when none of them gives one.
   */
  function YearMonth(prioritize: bool, exif: DateReader, fsDate: DateReader, st: ItemState): Option<(string, string)>
  {
    var m := if prioritize then MatchStamp(Stem(Name(st.current))) else None;
    if m.Some? then
      MatchStampSpec(Stem(Name(st.current)));
      Some((m.value.0, MonthText(m.value.1)))
    else
      var dt := if exif(st.original).Some? then exif(st.original) else fsDate(st.original);
      if dt.Some? then Some(DateTexts(dt.value)) else None
  }

  /** `group.structure`, `year_month` when the section does not set it. */
  function Structure(cfg: PipelineConfig): string
  {
    if cfg.group.structure.Some? then cfg.group.structure.value else "year_month"
  }

  /** The new folder: `source_root/year` in `year` mode, `source_root/year/month` in any other mode. */
  function GroupFolder(ctx: Context, ym: (string, string)): Path
  {
    if Structure(ctx.config) == "year" then Child(ctx.sourceRoot, ym.0)
    else Child(Child(ctx.sourceRoot, ym.0), ym.1)
  }

  /** The loop body on one record. */
  function Grouped(ctx: Context, exif: DateReader, fsDate: DateReader, st: ItemState): ItemState
  {
    if st.action == Delete || Structure(ctx.config) == "flat" then st
    else
      match YearMonth(ctx.config.group.prioritizeFilename, exif, fsDate, st)
      case None => st
      case Some(ym) => Moved(st, GroupFolder(ctx, ym))
  }

  /** `process` on the whole list: each record on its own. */
  function GroupedAll(ctx: Context, exif: DateReader, fsDate: DateReader, states: seq<ItemState>): (r: seq<ItemState>)
    ensures |r| == |states|
    ensures forall k :: 0 <= k < |states| ==> r[k] == Grouped(ctx, exif, fsDate, states[k])
  {
    seq(|states|, k requires 0 <= k < |states| => Grouped(ctx, exif, fsDate, states[k]))
  }

  // ---------------------------------------------------------------------
  // What the step promises
  // ---------------------------------------------------------------------

  /** A record marked for deletion, or any record in `flat` mode, is left as it was. */
  lemma SkipsDeleteAndFlat(ctx: Context, exif: DateReader, fsDate: DateReader, st: ItemState)
    requires st.action == Delete || Structure(ctx.config) == "flat"
    ensures Grouped(ctx, exif, fsDate, st) == st
  {
  }

  /** With no stamp used and neither date available, the record is left as it was. */
  lemma NoDateUnchanged(ctx: Context, exif: DateReader, fsDate: DateReader, st: ItemState)
    requires !ctx.config.group.prioritizeFilename || MatchStamp(Stem(Name(st.current))).None?
    requires exif(st.original).None? && fsDate(st.original).None?
    ensures Grouped(ctx, exif, fsDate, st) == st
  {
  }

  /**
   * Where the year and month come from: the stem's stamp when the filename
   * has priority and matches (with a two-digit month, not range-checked),
   * else the EXIF date when there is one, else the filesystem date.
   */
  lemma YearMonthSources(prioritize: bool, exif: DateReader, fsDate: DateReader, st: ItemState)
    ensures var stem := Stem(Name(st.current));
            var ym := YearMonth(prioritize, exif, fsDate, st);
            if prioritize && MatchStamp(stem).Some? then
              ym.Some? && ym.value.0 == stem[..4] && AllDigits(ym.value.0)
              && |ym.value.1| == 2 && AllDigits(ym.value.1)
            else if exif(st.original).Some? then ym == Some(DateTexts(exif(st.original).value))
            else if fsDate(st.original).Some? then ym == Some(DateTexts(fsDate(st.original).value))
            else ym.None?
  {
    var stem := Stem(Name(st.current));
    if prioritize && MatchStamp(stem).Some? {
      MatchStampSpec(stem);
      var digits := MatchStamp(stem).value.1;
      MonthTextSpec(digits);
    }
  }

  /**
   * A grouped record is moved: the action becomes MOVE, the file keeps its
   * name, it lands in `source_root/year` or `source_root/year/month`, and
   * the destination is the new current path.
   */
  lemma GroupedMoves(ctx: Context, exif: DateReader, fsDate: DateReader, st: ItemState)
    requires st.action != Delete && Structure(ctx.config) != "flat"
    requires YearMonth(ctx.config.group.prioritizeFilename, exif, fsDate, st).Some?
    ensures var ym := YearMonth(ctx.config.group.prioritizeFilename, exif, fsDate, st).value;
            var r := Grouped(ctx, exif, fsDate, st);
            r.action == Move && r.destination == Some(r.current)
            && Name(r.current) == Name(st.current) && r.original == st.original
            && r.current == (if Structure(ctx.config) == "year" then ctx.sourceRoot + [ym.0]
                             else ctx.sourceRoot + [ym.0, ym.1]) + [Name(st.current)]
  {
  }

  /** The stem of the test's file name is everything before `.jpg`. */
  lemma StampedStem()
    ensures Stem("2024-05-20_13-30-00.jpg") == "2024-05-20_13-30-00"
  {
    var name := "2024-05-20_13-30-00.jpg";
    assert name[19] == '.' && name[20] != '.' && name[21] != '.' && name[22] != '.';
    assert RFind(name, '.') == 19;
    assert name[..19] == "2024-05-20_13-30-00";
  }

  /** The test's stem gives year `2024` and month `05`. */
  lemma StampedYearMonth(st: ItemState, exif: DateReader, fsDate: DateReader)
    requires Name(st.current) == "2024-05-20_13-30-00.jpg"
    ensures YearMonth(true, exif, fsDate, st) == Some(("2024", "05"))
  {
    StampedStem();
    var stem := "2024-05-20_13-30-00";
    assert stem[..4] == "2024" && stem[5..7] == "05";
    assert HeadWith(stem, 2);
    MatchStampSpec(stem);
    MonthTextSpec("05");
  }

  /** The test's case: `2024-05-20_13-30-00.jpg` in `year_month` mode goes to `root/2024/05`. */
  lemma StampedExample(ctx: Context, exif: DateReader, fsDate: DateReader, st: ItemState)
    requires ctx.config.group == GroupConfig(true, Some("year_month"))
    requires st.action == NoAction && Name(st.current) == "2024-05-20_13-30-00.jpg"
    ensures Grouped(ctx, exif, fsDate, st).destination == Some(ctx.sourceRoot + ["2024", "05", "2024-05-20_13-30-00.jpg"])
  {
    StampedYearMonth(st, exif, fsDate);
    assert Structure(ctx.config) == "year_month";
    GroupedMoves(ctx, exif, fsDate, st);
    var r := Grouped(ctx, exif, fsDate, st);
    assert r.current == (ctx.sourceRoot + ["2024", "05"]) + ["2024-05-20_13-30-00.jpg"];
    assert (ctx.sourceRoot + ["2024", "05"]) + ["2024-05-20_13-30-00.jpg"] == ctx.sourceRoot + ["2024", "05", "2024-05-20_13-30-00.jpg"];
  }

  /** The month is not range-checked: `2024-13-01` groups into a folder `13`. */
  lemma MonthUnchecked(st: ItemState, exif: DateReader, fsDate: DateReader)
    requires Name(st.current) == "2024-13-01"
    ensures YearMonth(true, exif, fsDate, st) == Some(("2024", "13"))
  {
    var stem := "2024-13-01";
    assert forall k :: 0 <= k < |stem| ==> stem[k] != '.';
    assert Stem(stem) == stem;
    assert stem[..4] == "2024" && stem[5..7] == "13";
    assert HeadWith(stem, 2);
    MatchStampSpec(stem);
    MonthTextSpec("13");
  }

  // ---------------------------------------------------------------------
  // The loop
  // ---------------------------------------------------------------------

  /** One record through the loop body, through `mark_move`. */
  method GroupItem(ctx: Context, exif: DateReader, fsDate: DateReader, item: FileItem)
    modifies item
    ensures item.State() == Grouped(ctx, exif, fsDate, old(item.State()))
  {
    if item.action == Delete {
      return;
    }
    var mode := if ctx.config.group.structure.Some? then ctx.config.group.structure.value else "year_month";
    if mode == "flat" {
      return;
    }
    var stem := Stem(Paths.Name(item.currentPath));
    var ym: Option<(string, string)> := None;
    if ctx.config.group.prioritizeFilename {
      var m := MatchStamp(stem);
      if m.Some? {
        MatchStampSpec(stem);
        ym := Some((m.value.0, MonthText(m.value.1)));
      }
    }
    if ym.None? {
      var dt := exif(item.originalPath);
      if dt.None? {
        dt := fsDate(item.originalPath);
      }
      if dt.Some? {
        ym := Some(DateTexts(dt.value));
      }
    }
    if ym.None? {
      return;
    }
    var folder := if mode == "year" then Child(ctx.sourceRoot, ym.value.0)
                  else Child(Child(ctx.sourceRoot, ym.value.0), ym.value.1);
    item.MarkMove(folder);
  }

  /**
   * `process`: every record through the loop body, in order.  The same list
   * comes back, and each record ends as `Grouped` says.
   */
  method Process(ctx: Context, exif: DateReader, fsDate: DateReader, items: seq<FileItem>) returns (result: seq<FileItem>)
    requires Distinct(items)
    modifies items
    ensures result == items
    ensures States(items) == GroupedAll(ctx, exif, fsDate, old(States(items)))
  {
    ghost var olds := States(items);
    for i := 0 to |items|
      invariant States(items) == GroupedAll(ctx, exif, fsDate, olds[..i]) + olds[i..]
    {
      GroupNext(ctx, exif, fsDate, items, olds, i);
    }
    assert olds[..|items|] == olds;
    result := items;
  }

  method GroupNext(ctx: Context, exif: DateReader, fsDate: DateReader, items: seq<FileItem>, ghost olds: seq<ItemState>, i: nat)
    requires Distinct(items) && i < |items| == |olds|
    requires States(items) == GroupedAll(ctx, exif, fsDate, olds[..i]) + olds[i..]
    modifies items[i]
    ensures States(items) == GroupedAll(ctx, exif, fsDate, olds[..i + 1]) + olds[i + 1..]
  {
    ghost var before := States(items);
    GroupItem(ctx, exif, fsDate, items[i]);
    assert States(items) == before[i := items[i].State()];
    GroupedAllNext(ctx, exif, fsDate, olds, i);
  }

  lemma GroupedAllNext(ctx: Context, exif: DateReader, fsDate: DateReader, olds: seq<ItemState>, i: nat)
    requires i < |olds|
    ensures (GroupedAll(ctx, exif, fsDate, olds[..i]) + olds[i..])[i := Grouped(ctx, exif, fsDate, olds[i])]
            == GroupedAll(ctx, exif, fsDate, olds[..i + 1]) + olds[i + 1..]
  {
  }
}
