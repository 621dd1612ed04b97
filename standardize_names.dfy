/**
 * The pure parts of the standardize step: the timestamp pattern it looks
 * for in file names (with its AM/PM rule), the file name it builds with the
 * timestamp formatter, the folder it flattens into, and the stable sort of
 * a folder's files by name.
 */
module StandardizeNames {
  import opened Common
  import opened Strings
  import opened Paths
  import opened DateTimes
  import opened Config
  import opened Counter
  import opened TimestampFormatter
  import opened FilenameText

  // ---------------------------------------------------------------------
  // (\d{4})-(\d{2})-(\d{2})[ _](\d{1,2})-(\d{2})-(\d{2})\s?([AP]M)?
  // ---------------------------------------------------------------------

  /** The groups of one match: the six numbers, and the meridiem when one is written (`Some(true)` for PM). */
  datatype Groups = Groups(year: nat, month: nat, day: nat, hour: nat, minute: nat, second: nat,
                           pm: Option<bool>)

  /** `\s?([AP]M)?` under `re.IGNORECASE` at the start of `w`: the meridiem, if one is written. */
  function MeridiemHere(w: string): Option<bool>
  {
    var v := if |w| > 0 && IsSpace(w[0]) then 1 else 0;
    if MeridiemAt(w, v) then Some(Lower(w[v]) == 'p') else None
  }

  /**
   * `(\d{1,2})-(\d{2})-(\d{2})\s?([AP]M)?` at the start of `u`.  The hour
   * takes two digits whenever two are written: a second digit can never
   * stand where the `-` is expected, so the greedy `\d{1,2}` never backtracks.
   */
  function TimeHere(u: string): Option<(nat, nat, nat, Option<bool>)>
  {
    var h := Munch(u, 0, 2);
    if h == 0 || |u| < h + 6 || u[h] != '-' || !DigitsAt(u, h + 1, 2) || u[h + 3] != '-' || !DigitsAt(u, h + 4, 2)
    then None
    else
      DigitsSlice(u, 0, h);
      DigitsSlice(u, h + 1, 2);
      DigitsSlice(u, h + 4, 2);
      Some((DigitsVal(u[..h]), DigitsVal(u[h + 1..h + 3]), DigitsVal(u[h + 4..h + 6]), MeridiemHere(u[h + 6..])))
  }

  /** The whole pattern at the start of `t`. */
  function MatchHere(t: string): Option<Groups>
  {
    if !DateAt(t, 0) || |t| < 11 || (t[10] != ' ' && t[10] != '_') then None
    else
      DigitsSlice(t, 0, 4);
      DigitsSlice(t, 5, 2);
      DigitsSlice(t, 8, 2);
      match TimeHere(t[11..])
      case None => None
      case Some((h, mi, s, pm)) =>
        Some(Groups(DigitsVal(t[..4]), DigitsVal(t[5..7]), DigitsVal(t[8..10]), h, mi, s, pm))
  }

  lemma DigitsSlice(s: string, i: nat, n: nat)
    requires DigitsAt(s, i, n)
    ensures AllDigits(s[i..i + n])
  {
  }

  /** Where the pattern matches in `s`: one flag per start position `0..|s|`. */
  function Hits(s: string): (h: seq<bool>)
    ensures |h| == |s| + 1 && forall k :: 0 <= k <= |s| ==> h[k] == MatchHere(s[k..]).Some?
  {
    seq(|s| + 1, k requires 0 <= k <= |s| => MatchHere(s[k..]).Some?)
  }

  /** The first set flag at or after `from`. */
  function FirstHit(h: seq<bool>, from: nat): (r: Option<nat>)
    ensures r.Some? ==> from <= r.value < |h| && h[r.value]
    ensures r.Some? ==> forall k :: from <= k < r.value ==> !h[k]
    ensures r.None? ==> forall k :: from <= k < |h| ==> !h[k]
    decreases |h| - from
  {
    if from >= |h| then None
    else if h[from] then Some(from)
    else FirstHit(h, from + 1)
  }

  /** `pattern.search(s)`: the leftmost position where the pattern matches. */
  function Leftmost(s: string): (r: Option<nat>)
    ensures r.Some? ==> r.value <= |s| && MatchHere(s[r.value..]).Some?
    ensures r.Some? ==> forall k :: 0 <= k < r.value ==> MatchHere(s[k..]).None?
    ensures r.None? ==> forall k :: 0 <= k <= |s| ==> MatchHere(s[k..]).None?
  {
    FirstHit(Hits(s), 0)
  }

  /** The hour on the 24-hour clock: PM adds 12 to an hour other than 12, AM turns 12 into 0. */
  function Hour24(h: nat, pm: Option<bool>): nat
  {
    match pm
    case Some(true) => if h != 12 then h + 12 else h
    case Some(false) => if h == 12 then 0 else h
    case None => h
  }

  /**
   * `_parse_filename_timestamp`: the leftmost match read as a datetime
   * (whole seconds); `None` when nothing matches or when the fields do not
   * make a valid datetime (`datetime(...)` raises).
   */
  function ParseFilenameTimestamp(name: string): (r: Option<DateTimeValue>)
    ensures r.Some? ==> r.value.micro == 0
    ensures (forall k :: 0 <= k <= |name| ==> MatchHere(name[k..]).None?) ==> r.None?
  {
    match Leftmost(name)
    case None => None
    case Some(i) =>
      var g := MatchHere(name[i..]).value;
      var dt := DateTime(g.year, g.month, g.day, Hour24(g.hour, g.pm), g.minute, g.second, 0);
      if Constructible(dt) then var v: DateTimeValue := dt; Some(v) else None
  }

  /** The datetime the parser returns is the one read from the leftmost match, with the AM/PM rule applied. */
  lemma ParsedFields(name: string)
    requires ParseFilenameTimestamp(name).Some?
    ensures var i := Leftmost(name).value;
      var g := MatchHere(name[i..]).value;
      var dt := ParseFilenameTimestamp(name).value;
      dt.year == g.year && dt.month == g.month && dt.day == g.day
      && dt.minute == g.minute && dt.second == g.second
      && (g.pm == Some(true) && g.hour != 12 ==> dt.hour == g.hour + 12)
      && (g.pm == Some(false) && g.hour == 12 ==> dt.hour == 0)
      && (g.pm.None? ==> dt.hour == g.hour)
  {
  }

  // ---------------------------------------------------------------------
  // _generate_filename
  // ---------------------------------------------------------------------

  /** `_generate_filename`: the formatter's text for `dt`, then the suffix of the file's current name. */
  function GenerateFilename(cfg: PipelineConfig, p: Path, dt: DateTime): string
    requires Valid(dt)
  {
    Format(NewFormatter(cfg.timestampFormat.preset, Some(cfg.timestampFormat.hourFormat12)), dt) + Suffix(Name(p))
  }

  lemma DigitsNoDot(s: string)
    requires AllDigits(s)
    ensures '.' !in s
  {
  }

  lemma HourNoDot(c: PresetConfig, h: int)
    requires 0 <= h < 24
    ensures '.' !in HourText(c, h)
  {
    var z := ZeroPad(Hour12(h), 2);
    DigitsNoDot(z);
    DigitsNoDot(ZeroPad(h, 2));
    var t := LStripZeros(z);
    assert forall i :: 0 <= i < |t| ==> t[i] == z[|z| - |t| + i];
  }

  lemma DateTextNoDot(dt: DateTime)
    requires Valid(dt)
    ensures '.' !in DateText("-", dt)
  {
    DigitsNoDot(ZeroPad(dt.year, 4));
    DigitsNoDot(ZeroPad(dt.month, 2));
    DigitsNoDot(ZeroPad(dt.day, 2));
  }

  lemma TimeTextNoDot(c: PresetConfig, dt: DateTime)
    requires Valid(dt)
    ensures '.' !in TimeText(c, dt)
  {
    DigitsNoDot(ZeroPad(dt.minute, 2));
    DigitsNoDot(ZeroPad(dt.second, 2));
    HourNoDot(c, dt.hour);
  }

  /** A formatted timestamp holds no dot, so it is a stem with no suffix of its own. */
  lemma FormatNoDot(preset: string, global12h: Option<bool>, dt: DateTime)
    requires Valid(dt)
    ensures '.' !in Format(NewFormatter(preset, global12h), dt)
  {
    var f := NewFormatter(preset, global12h);
    assert '.' !in DateText(f.config.dateSeparator, dt) by { DateTextNoDot(dt); }
    assert '.' !in TimeText(f.config, dt) by { TimeTextNoDot(f.config, dt); }
    assert '.' !in ZeroPad(dt.micro, 6) by { DigitsNoDot(ZeroPad(dt.micro, 6)); }
    FormatParts(f, dt);
  }

  /** A dot-free stem followed by a suffix (or nothing) splits back into exactly those two parts. */
  lemma StemAndSuffix(stem: string, sfx: string)
    requires '.' !in stem && |stem| > 0
    requires sfx == "" || (|sfx| >= 2 && sfx[0] == '.' && forall k :: 0 < k < |sfx| ==> sfx[k] != '.')
    ensures Stem(stem + sfx) == stem && Suffix(stem + sfx) == sfx
  {
    if sfx == "" {
      assert stem + sfx == stem;
    } else {
      SuffixOfSegment(stem, sfx);
    }
  }

  /**
   * The generated name splits into the formatter's text and the old suffix,
   * and so does every numbered candidate of the collision loop: the loop
   * rebuilds each candidate from the previous candidate's suffix, which is
   * therefore always the generated name's suffix.
   */
  lemma GeneratedNameParts(cfg: PipelineConfig, p: Path, dt: DateTime, c: nat)
    requires Valid(dt)
    ensures var n := GenerateFilename(cfg, p, dt);
      var stamp := Format(NewFormatter(cfg.timestampFormat.preset, Some(cfg.timestampFormat.hourFormat12)), dt);
      Stem(n) == stamp && Suffix(n) == Suffix(Name(p))
      && Suffix(Numbered(Stem(n) + "_", c, Suffix(n))) == Suffix(n)
  {
    var f := NewFormatter(cfg.timestampFormat.preset, Some(cfg.timestampFormat.hourFormat12));
    var stamp := Format(f, dt);
    var sfx := Suffix(Name(p));
    FormatNoDot(cfg.timestampFormat.preset, Some(cfg.timestampFormat.hourFormat12), dt);
    StemSuffix(Name(p));
    assert |stamp| > 0 by { FormatParts(f, dt); }
    StemAndSuffix(stamp, sfx);
    var numbered := stamp + "_" + NatStr(c);
    DigitsNoDot(NatStr(c));
    assert numbered + sfx == Numbered(stamp + "_", c, sfx);
    StemAndSuffix(numbered, sfx);
  }

  // ---------------------------------------------------------------------
  // Generated names parse back
  // ---------------------------------------------------------------------

  /** The greedy `\d{1,max}` at `i` takes exactly `k` digits when `k` are written and no more can follow. */
  lemma {:induction false} MunchIs(u: string, i: nat, max: nat, k: nat)
    requires i <= |u| && k <= max && DigitsAt(u, i, k)
    requires k < max ==> i + k < |u| && !IsDigit(u[i + k])
    ensures Munch(u, i, max) == k
    decreases max
  {
    if k > 0 {
      MunchIs(u, i + 1, max - 1, k - 1);
    }
  }

  lemma SliceDigits(s: string, i: nat, n: nat)
    requires i + n <= |s| && AllDigits(s[i..i + n])
    ensures DigitsAt(s, i, n)
  {
    assert forall k :: i <= k < i + n ==> s[k] == s[i..i + n][k - i];
  }

  /** The time part of a generated name: `H-MM-SS` then the meridiem text and whatever follows. */
  lemma TimeHereOf(h: string, mm: string, ss: string, ap: string, rest: string)
    requires 1 <= |h| <= 2 && AllDigits(h) && |mm| == 2 && AllDigits(mm) && |ss| == 2 && AllDigits(ss)
    ensures TimeHere(h + "-" + mm + "-" + ss + ap + rest)
      == Some((DigitsVal(h), DigitsVal(mm), DigitsVal(ss), MeridiemHere(ap + rest)))
  {
    var p1 := h + "-";
    var p2 := p1 + mm;
    var p3 := p2 + "-";
    var p4 := p3 + ss;
    var p5 := p4 + ap;
    var u := p5 + rest;
    var n := |h|;
    assert |p4| <= |u| && u[..|p4|] == p4 by {
      PrefixOfConcat(p5, rest);
      PrefixOfConcat(p4, ap);
      PrefixTrans(u, p5, p4);
    }
    assert |p2| <= |u| && u[..|p2|] == p2 by {
      PrefixOfConcat(p3, ss);
      PrefixOfConcat(p2, "-");
      PrefixTrans(p4, p3, p2);
      PrefixTrans(u, p4, p2);
    }
    assert u[..n] == h && u[n] == '-' by {
      PrefixOfConcat(p1, mm);
      PrefixTrans(u, p2, p1);
      SliceOfPrefix(u, p1, h, "-");
      assert u[n] == u[..|p1|][n];
    }
    assert u[n + 1..n + 3] == mm && u[n + 3] == '-' by {
      SliceOfPrefix(u, p2, p1, mm);
      PrefixOfConcat(p3, ss);
      PrefixTrans(u, p4, p3);
      assert u[n + 3] == u[..|p3|][n + 3];
    }
    assert u[n + 4..n + 6] == ss by {
      SliceOfPrefix(u, p4, p3, ss);
    }
    assert u[n + 6..] == ap + rest by { DropOfConcat(p4, ap, rest); }
    assert Munch(u, 0, 2) == n by {
      assert forall k :: 0 <= k < n ==> u[k] == u[..n][k];
      MunchIs(u, 0, 2, n);
    }
    SliceDigits(u, n + 1, 2);
    SliceDigits(u, n + 4, 2);
    TimeHereIs(u, n, DigitsVal(h), DigitsVal(mm), DigitsVal(ss), MeridiemHere(ap + rest));
  }

  /** `TimeHere` once the shape of its input is known. */
  lemma TimeHereIs(u: string, n: nat, hv: nat, mv: nat, sv: nat, pm: Option<bool>)
    requires 1 <= n <= 2 && Munch(u, 0, 2) == n && |u| >= n + 6
    requires u[n] == '-' && DigitsAt(u, n + 1, 2) && u[n + 3] == '-' && DigitsAt(u, n + 4, 2)
    requires AllDigits(u[..n]) && AllDigits(u[n + 1..n + 3]) && AllDigits(u[n + 4..n + 6])
    requires DigitsVal(u[..n]) == hv && DigitsVal(u[n + 1..n + 3]) == mv && DigitsVal(u[n + 4..n + 6]) == sv
    requires MeridiemHere(u[n + 6..]) == pm
    ensures TimeHere(u) == Some((hv, mv, sv, pm))
  {
  }

  /** What follows a prefix. */
  lemma DropOfConcat<T>(p: seq<T>, a: seq<T>, r: seq<T>)
    ensures (p + a + r)[|p|..] == a + r
  {
  }

  /** Where the last piece of a prefix sits. */
  lemma SliceOfPrefix(u: string, q: string, p: string, m: string)
    requires q == p + m && |q| <= |u| && u[..|q|] == q
    ensures u[|p|..|q|] == m && u[..|p|] == p
  {
    assert u[|p|..|q|] == u[..|q|][|p|..];
    assert u[..|p|] == u[..|q|][..|p|];
  }

  /** A written `AM`/`PM` is read back; with none, what follows a generated time is `_`, `.` or nothing. */
  lemma MeridiemOf(ap: string, rest: string)
    requires ap == "AM" || ap == "PM" || (ap == "" && (rest == [] || rest[0] == '_' || rest[0] == '.'))
    ensures ap != "" ==> MeridiemHere(ap + rest) == Some(ap == "PM")
    ensures ap == "" ==> MeridiemHere(ap + rest).None?
  {
    if ap == "" {
      assert ap + rest == rest;
    } else {
      assert (ap + rest)[0] == ap[0] && (ap + rest)[1] == ap[1];
    }
  }

  /** `%I` and `%p` read back through the AM/PM rule give the hour on the 24-hour clock. */
  lemma Hour12Back(h: int)
    requires 0 <= h < 24
    ensures Hour24(Hour12(h), Some(AmPm(h) == "PM")) == h
  {
    if h < 12 {
      assert AmPm(h) == "AM";
    } else {
      assert AmPm(h) == "PM";
    }
  }

  /** The hour text of every configuration is one or two digits that read back, through the AM/PM rule, as the hour. */
  lemma HourReadsBack(c: PresetConfig, h: int)
    requires 0 <= h < 24
    ensures var t := HourText(c, h);
      1 <= |t| <= 2 && AllDigits(t)
      && Hour24(DigitsVal(t), if c.hour12 then Some(AmPm(h) == "PM") else None) == h
  {
    assert Pow10(2) == 100;
    if !c.hour12 {
      assert HourText(c, h) == ZeroPad(h, 2);
      ZeroPadExact(h, 2);
      ZeroPadValue(h, 2);
    } else {
      Hour12Back(h);
      if c.hourPadding {
        assert HourText(c, h) == ZeroPad(Hour12(h), 2);
        ZeroPadExact(Hour12(h), 2);
        ZeroPadValue(Hour12(h), 2);
      } else {
        UnpaddedHour(c, h);
      }
    }
  }

  lemma Assoc4(a: string, b: string, c: string, d: string)
    ensures ((a + b) + c) + d == a + (b + (c + d))
  {
  }

  lemma Assoc6(a: string, b: string, c: string, x: string, z: string, e: string)
    ensures ((((a + b) + c) + x) + z) + e == a + (b + (c + ((x + z) + e)))
  {
  }

  /** The characters of a generated name, grouped the way the pattern reads them. */
  lemma FormatSplit(f: Formatter, dt: DateTime, suffix: string, micro: string)
    requires Valid(dt)
    requires micro == if f.config.includeMicroseconds then "_" + ZeroPad(dt.micro, 6) else ""
    ensures Format(f, dt) + suffix
      == DateText(f.config.dateSeparator, dt) + (f.config.datetimeSeparator + (TimeText(f.config, dt) + (micro + suffix)))
  {
    var d, sep, time := DateText(f.config.dateSeparator, dt), f.config.datetimeSeparator, TimeText(f.config, dt);
    FormatParts(f, dt);
    if f.config.includeMicroseconds {
      Assoc6(d, sep, time, "_", ZeroPad(dt.micro, 6), suffix);
    } else {
      Assoc4(d, sep, time, suffix);
      assert micro + suffix == suffix;
    }
  }

  /** The date part of a generated name matches `\d{4}-\d{2}-\d{2}` with the date's own fields. */
  lemma DateHereOf(dt: DateTimeValue, more: string)
    ensures |DateText("-", dt)| == 10
    ensures var s := DateText("-", dt) + more;
      DateAt(s, 0) && DigitsVal(s[..4]) == dt.year && DigitsVal(s[5..7]) == dt.month && DigitsVal(s[8..10]) == dt.day
  {
    var d := DateText("-", dt);
    var s := d + more;
    TwoDigitFields(dt);
    assert Pow10(4) == 10000;
    ZeroPadExact(dt.year, 4);
    assert s[..10] == d;
    DateFields(dt, s);
    SliceDigits(s, 0, 4);
    SliceDigits(s, 5, 2);
    SliceDigits(s, 8, 2);
  }

  lemma AfterDate(d: string, sep: string, y: string)
    requires |d| == 10 && |sep| == 1
    ensures |d + (sep + y)| >= 11 && (d + (sep + y))[10] == sep[0] && (d + (sep + y))[11..] == y
  {
    assert (d + (sep + y))[10..] == sep + y;
  }

  /** The groups of a match read as the wall-clock second of `dt`, through the AM/PM rule. */
  predicate ReadsAs(g: Groups, dt: DateTime)
  {
    g.year == dt.year && g.month == dt.month && g.day == dt.day
    && Hour24(g.hour, g.pm) == dt.hour && g.minute == dt.minute && g.second == dt.second
  }

  /** The whole pattern on a date, a separator and a time part that reads as the date's time. */
  lemma MatchHereOf(dt: DateTimeValue, sep: string, y: string)
    requires sep == " " || sep == "_"
    requires TimeHere(y).Some?
    requires var (h, mi, s, pm) := TimeHere(y).value;
      Hour24(h, pm) == dt.hour && mi == dt.minute && s == dt.second
    ensures MatchHere(DateText("-", dt) + (sep + y)).Some?
    ensures ReadsAs(MatchHere(DateText("-", dt) + (sep + y)).value, dt)
  {
    DateHereOf(dt, sep + y);
    AfterDate(DateText("-", dt), sep, y);
  }

  /** A generated name matches the pattern at its first character, with the fields of its datetime. */
  lemma GeneratedMatch(preset: string, global12h: Option<bool>, dt: DateTimeValue, suffix: string)
    requires suffix == "" || suffix[0] == '.'
    ensures MatchHere(Format(NewFormatter(preset, global12h), dt) + suffix).Some?
    ensures ReadsAs(MatchHere(Format(NewFormatter(preset, global12h), dt) + suffix).value, dt)
  {
    var f := NewFormatter(preset, global12h);
    var c := f.config;
    var micro := if c.includeMicroseconds then "_" + ZeroPad(dt.micro, 6) else "";
    var rest := micro + suffix;
    var time := TimeText(c, dt);
    FormatSplit(f, dt, suffix, micro);
    assert rest == [] || rest[0] == '_' || rest[0] == '.';
    TimeParts(c, dt, rest);
    MatchHereOf(dt, c.datetimeSeparator, time + rest);
  }

  /**
   * Every name the step generates, whatever the preset and the hour
   * override, is read back by its own filename parser as the same
   * wall-clock second (the microseconds are not part of the pattern).
   */
  lemma GeneratedNameParses(preset: string, global12h: Option<bool>, dt: DateTimeValue, suffix: string)
    requires suffix == "" || suffix[0] == '.'
    ensures var r := ParseFilenameTimestamp(Format(NewFormatter(preset, global12h), dt) + suffix);
      r.Some? && r.value == TruncateMicros(dt)
  {
    GeneratedMatch(preset, global12h, dt, suffix);
    ParsedAt0(Format(NewFormatter(preset, global12h), dt) + suffix, dt);
  }

  /** The time part of a generated name read back: hour, minute, second and meridiem. */
  lemma TimeParts(c: PresetConfig, dt: DateTime, rest: string)
    requires Valid(dt)
    requires rest == [] || rest[0] == '_' || rest[0] == '.'
    ensures TimeHere(TimeText(c, dt) + rest).Some?
    ensures var (h, mi, s, pm) := TimeHere(TimeText(c, dt) + rest).value;
      Hour24(h, pm) == dt.hour && mi == dt.minute && s == dt.second
      && pm == (if c.hour12 then Some(AmPm(dt.hour) == "PM") else None)
  {
    var hh, mm, ss := HourText(c, dt.hour), ZeroPad(dt.minute, 2), ZeroPad(dt.second, 2);
    var ap := if c.hour12 then AmPm(dt.hour) else "";
    TwoDigitFields(dt);
    HourReadsBack(c, dt.hour);
    TimeHereOf(hh, mm, ss, ap, rest);
    MeridiemOf(ap, rest);
    ZeroPadValue(dt.minute, 2);
    ZeroPadValue(dt.second, 2);
  }

  /** A name that matches at its first character is parsed from that match. */
  lemma ParsedAt0(s: string, dt: DateTimeValue)
    requires MatchHere(s).Some? && ReadsAs(MatchHere(s).value, dt)
    ensures ParseFilenameTimestamp(s).Some? && ParseFilenameTimestamp(s).value == TruncateMicros(dt)
  {
    assert s[0..] == s;
  }

  // ---------------------------------------------------------------------
  // group_items.sort(key=lambda x: x.current_path.name)
  // ---------------------------------------------------------------------

  /** `<` on `str`: lexicographic by code point, a proper prefix first. */
  predicate StrLess(a: string, b: string)
  {
    if a == [] then b != []
    else if b == [] then false
    else a[0] < b[0] || (a[0] == b[0] && StrLess(a[1..], b[1..]))
  }

  lemma {:induction false} StrLessIrreflexive(a: string)
    ensures !StrLess(a, a)
  {
    if a != [] {
      StrLessIrreflexive(a[1..]);
    }
  }

  lemma {:induction false} StrLessTrans(a: string, b: string, c: string)
    requires StrLess(a, b) && StrLess(b, c)
    ensures StrLess(a, c)
  {
    if a != [] && a[0] == b[0] && b[0] == c[0] {
      StrLessTrans(a[1..], b[1..], c[1..]);
    }
  }

  lemma {:induction false} StrLessTotal(a: string, b: string)
    requires a != b
    ensures StrLess(a, b) || StrLess(b, a)
  {
    if a != [] && b != [] && a[0] == b[0] {
      assert a == [a[0]] + a[1..] && b == [b[0]] + b[1..];
      StrLessTotal(a[1..], b[1..]);
    }
  }

  /** One entry of the list being sorted: the record's name and its position before the sort. */
  datatype Named = Named(name: string, index: nat)

  /** `a` stays before `b` in a stable sort by name. */
  predicate Before(a: Named, b: Named)
  {
    StrLess(a.name, b.name) || (a.name == b.name && a.index < b.index)
  }

  /** Ordered by name, equal names in their original order. */
  predicate NameOrdered(s: seq<Named>)
  {
    forall i, j :: 0 <= i < j < |s| ==> Before(s[i], s[j])
  }

  /** Insert `x` before the first entry whose name is not smaller. */
  function InsertByName(x: Named, t: seq<Named>): (r: seq<Named>)
    ensures |r| == |t| + 1 && multiset(r) == multiset(t) + multiset{x}
  {
    if t == [] || !StrLess(t[0].name, x.name) then [x] + t
    else
      assert t == [t[0]] + t[1..];
      [t[0]] + InsertByName(x, t[1..])
  }

  /** The sort, as an insertion sort from the back: a permutation of its input. */
  function SortByName(s: seq<Named>): (r: seq<Named>)
    ensures |r| == |s| && multiset(r) == multiset(s)
  {
    if s == [] then []
    else
      assert s == [s[0]] + s[1..];
      InsertByName(s[0], SortByName(s[1..]))
  }

  /** Entries with increasing positions, as the group lists them. */
  predicate IndexIncreasing(s: seq<Named>)
  {
    forall i, j :: 0 <= i < j < |s| ==> s[i].index < s[j].index
  }

  /** An entry that precedes every entry of an ordered list by position and is not after its head by name goes first. */
  lemma InsertFront(x: Named, t: seq<Named>)
    requires NameOrdered(t) && t != [] && !StrLess(t[0].name, x.name)
    requires forall y :: y in t ==> x.index < y.index
    ensures NameOrdered([x] + t)
  {
    var r := [x] + t;
    forall i, j | 0 <= i < j < |r| ensures Before(r[i], r[j]) {
      if i > 0 {
        assert r[i] == t[i - 1] && r[j] == t[j - 1];
      } else {
        var y := t[j - 1];
        assert r[j] == y && y in t;
        if x.name != t[0].name {
          StrLessTotal(x.name, t[0].name);
        }
        if j > 1 {
          assert Before(t[0], y);
          if x.name != t[0].name && t[0].name != y.name {
            StrLessTrans(x.name, t[0].name, y.name);
          }
        }
      }
    }
  }

  /** An entry before every entry of an ordered list can go in front of it. */
  lemma PrependOrdered(h: Named, m: seq<Named>)
    requires NameOrdered(m) && forall y :: y in m ==> Before(h, y)
    ensures NameOrdered([h] + m)
  {
    var r := [h] + m;
    forall i, j | 0 <= i < j < |r| ensures Before(r[i], r[j]) {
      assert r[j] == m[j - 1];
      if i > 0 {
        assert r[i] == m[i - 1];
      }
    }
  }

  lemma DropOrdered(t: seq<Named>)
    requires NameOrdered(t) && t != []
    ensures NameOrdered(t[1..]) && forall y :: y in t[1..] ==> Before(t[0], y)
  {
    var t' := t[1..];
    forall i, j | 0 <= i < j < |t'| ensures Before(t'[i], t'[j]) {
      assert t'[i] == t[i + 1] && t'[j] == t[j + 1];
    }
    forall y | y in t' ensures Before(t[0], y) {
      var c :| 0 <= c < |t'| && t'[c] == y;
      assert t[c + 1] == y;
    }
  }

  lemma {:induction false} InsertOrdered(x: Named, t: seq<Named>)
    requires NameOrdered(t)
    requires forall y :: y in t ==> x.index < y.index
    ensures NameOrdered(InsertByName(x, t))
  {
    if t == [] {
    } else if !StrLess(t[0].name, x.name) {
      InsertFront(x, t);
    } else {
      var t' := t[1..];
      DropOrdered(t);
      InsertOrdered(x, t');
      var m := InsertByName(x, t');
      forall y | y in m ensures Before(t[0], y) {
        assert y in multiset(m);
      }
      PrependOrdered(t[0], m);
    }
  }

  /**
   * `list.sort` is stable: sorting a list whose positions increase gives
   * the entries ordered by name, equal names keeping their relative order.
   */
  lemma {:induction false} SortByNameOrdered(s: seq<Named>)
    requires IndexIncreasing(s)
    ensures NameOrdered(SortByName(s))
  {
    if s != [] {
      var t := s[1..];
      assert IndexIncreasing(t) by {
        forall i, j | 0 <= i < j < |t| ensures t[i].index < t[j].index {
          assert t[i] == s[i + 1] && t[j] == s[j + 1];
        }
      }
      SortByNameOrdered(t);
      forall y | y in SortByName(t) ensures s[0].index < y.index {
        assert y in multiset(SortByName(t));
        var c :| 0 <= c < |t| && t[c] == y;
        assert s[c + 1] == y;
      }
      InsertOrdered(s[0], SortByName(t));
    }
  }
}
