/**
 * Preset-driven rendering of a datetime as the timestamp text every step
 * uses in file names: `2024-01-01 2-30-45PM_123456` (pcloud),
 * `2024-01-01_14-30-45` (google_photos), `2024-01-01_02-30-45PM` (default).
 */
module TimestampFormatter {
  import opened Common
  import opened Strings
  import opened DateTimes

  /** One entry of the preset table.  `hour12` stands for `hour_format == "12"`. */
  datatype PresetConfig = PresetConfig(dateSeparator: string, datetimeSeparator: string,
                                       hour12: bool, hourPadding: bool, includeMicroseconds: bool)

  const PresetNames: set<string> := {"pcloud", "google_photos", "default"}

  /** `PRESETS.get(name, PRESETS["default"])`. */
  function Preset(name: string): (p: PresetConfig)
    ensures p.dateSeparator == "-"
    ensures p.datetimeSeparator == "_" || p.datetimeSeparator == " "
  {
    if name == "pcloud" then PresetConfig("-", " ", true, false, true)
    else if name == "google_photos" then PresetConfig("-", "_", false, true, false)
    else PresetConfig("-", "_", true, true, false)
  }

  /** A formatter: the preset name and its own copy of the preset settings. */
  datatype Formatter = Formatter(presetName: string, config: PresetConfig)

  /** `TimestampFormatter(preset_name, global_12h_format)`. */
  function NewFormatter(name: string, global12h: Option<bool>): (f: Formatter)
    ensures f.presetName == name
    ensures f.config.dateSeparator == "-"
    ensures f.config.datetimeSeparator == Preset(name).datetimeSeparator
    ensures f.config.includeMicroseconds == Preset(name).includeMicroseconds
    ensures global12h == Some(true) ==> f.config.hour12 && !f.config.hourPadding
    ensures global12h == Some(false) ==> !f.config.hour12 && f.config.hourPadding
    ensures global12h.None? ==> f.config == Preset(name)
  {
    var base := Preset(name);
    var cfg := match global12h
      case None => base
      case Some(true) => base.(hour12 := true, hourPadding := false)
      case Some(false) => base.(hour12 := false, hourPadding := true);
    Formatter(name, cfg)
  }

  /** An unknown preset name behaves exactly like "default". */
  lemma UnknownPresetIsDefault(name: string, global12h: Option<bool>)
    requires name !in PresetNames
    ensures NewFormatter(name, global12h).config == NewFormatter("default", global12h).config
  {
  }

  /** `%I`: the hour on the 12-hour clock, 1..12. */
  function Hour12(h: int): (r: nat)
    requires 0 <= h < 24
    ensures 1 <= r <= 12 && r % 12 == h % 12
  {
    if h % 12 == 0 then 12 else h % 12
  }

  /** `%p` in the C locale. */
  function AmPm(h: int): string
  {
    if h < 12 then "AM" else "PM"
  }

  /** `s.lstrip('0')`. */
  function LStripZeros(s: string): (r: string)
    ensures |r| <= |s| && r == s[|s| - |r|..]
    ensures r != [] ==> r[0] != '0'
  {
    if s != [] && s[0] == '0' then LStripZeros(s[1..]) else s
  }

  /** Stripping the zero padding of `%02d` gives back the plain decimal. */
  lemma LStripZeroPad2(n: nat)
    requires 1 <= n <= 12
    ensures LStripZeros(ZeroPad(n, 2)) == NatStr(n)
  {
  }

  /** The hour text: `%I`, `%I` with zeros stripped (`or '12'`), or `%H`. */
  function HourText(c: PresetConfig, h: int): string
    requires 0 <= h < 24
  {
    if c.hour12 then
      if c.hourPadding then ZeroPad(Hour12(h), 2)
      else (var t := LStripZeros(ZeroPad(Hour12(h), 2)); if t == "" then "12" else t)
    else ZeroPad(h, 2)
  }

  /**
   * `%Y<sep>%m<sep>%d`. The year is zero-padded to four digits, as the `%Y`
   * of recent CPython prints it; older versions leave years below 1000 unpadded.
   */
  function DateText(sep: string, dt: DateTime): string
    requires Valid(dt)
  {
    ZeroPad(dt.year, 4) + sep + ZeroPad(dt.month, 2) + sep + ZeroPad(dt.day, 2)
  }

  /** `TimestampFormatter.format`. */
  function Format(f: Formatter, dt: DateTime): (r: string)
    requires Valid(dt)
  {
    var c := f.config;
    var ts := DateText(c.dateSeparator, dt) + c.datetimeSeparator + TimeText(c, dt);
    if c.includeMicroseconds then ts + "_" + ZeroPad(dt.micro, 6) else ts
  }

  /** `<hour>-%M-%S`, then `%p` on the 12-hour clock. */
  function TimeText(c: PresetConfig, dt: DateTime): string
    requires Valid(dt)
  {
    HourText(c, dt.hour) + "-" + ZeroPad(dt.minute, 2) + "-" + ZeroPad(dt.second, 2)
    + (if c.hour12 then AmPm(dt.hour) else "")
  }

  /** Two-digit fields of a valid datetime really take two characters. */
  lemma TwoDigitFields(dt: DateTime)
    requires Valid(dt)
    ensures |ZeroPad(dt.month, 2)| == 2 && |ZeroPad(dt.day, 2)| == 2
    ensures |ZeroPad(dt.hour, 2)| == 2 && |ZeroPad(dt.minute, 2)| == 2
    ensures |ZeroPad(dt.second, 2)| == 2
  {
    ZeroPadExact(dt.month, 2);
    ZeroPadExact(dt.day, 2);
    ZeroPadExact(dt.hour, 2);
    ZeroPadExact(dt.minute, 2);
    ZeroPadExact(dt.second, 2);
  }

  /** The pieces of a formatted timestamp, in order. */
  lemma FormatParts(f: Formatter, dt: DateTime)
    requires Valid(dt)
    ensures var ts := DateText(f.config.dateSeparator, dt) + f.config.datetimeSeparator + TimeText(f.config, dt);
      Format(f, dt) == if f.config.includeMicroseconds then ts + "_" + ZeroPad(dt.micro, 6) else ts
  {
  }

  lemma PrefixOfConcat(a: string, b: string)
    ensures |a| <= |a + b| && (a + b)[..|a|] == a
  {
  }

  lemma PrefixTrans(r: string, p: string, q: string)
    requires |p| <= |r| && r[..|p|] == p && |q| <= |p| && p[..|q|] == q
    ensures r[..|q|] == q
  {
    assert r[..|q|] == r[..|p|][..|q|];
  }

  /** The date part is `YYYY-MM-DD`: ten characters, digits around two dashes, the same values. */
  lemma DatePartShape(name: string, global12h: Option<bool>, dt: DateTime)
    requires Constructible(dt)
    ensures var r := Format(NewFormatter(name, global12h), dt);
      |r| > 10 && r[..10] == DateText("-", dt)
      && AllDigits(r[..4]) && r[4] == '-' && AllDigits(r[5..7]) && r[7] == '-' && AllDigits(r[8..10])
      && DigitsVal(r[..4]) == dt.year && DigitsVal(r[5..7]) == dt.month && DigitsVal(r[8..10]) == dt.day
  {
    var f := NewFormatter(name, global12h);
    var r := Format(f, dt);
    var d := DateText("-", dt);
    FormatParts(f, dt);
    var ds := d + f.config.datetimeSeparator;
    var ts := ds + TimeText(f.config, dt);
    assert |TimeText(f.config, dt)| > 0;
    PrefixOfConcat(d, f.config.datetimeSeparator);
    PrefixOfConcat(ds, TimeText(f.config, dt));
    PrefixTrans(ts, ds, d);
    if f.config.includeMicroseconds {
      PrefixOfConcat(ts, "_");
      PrefixOfConcat(ts + "_", ZeroPad(dt.micro, 6));
      PrefixTrans(r, ts + "_", ts);
    }
    PrefixTrans(r, ts, d);
    TwoDigitFields(dt);
    assert Pow10(4) == 10000;
    ZeroPadExact(dt.year, 4);
    assert |d| == 10;
    assert r[..10] == d;
    DateFields(dt, r);
  }

  lemma DateFields(dt: DateTime, r: string)
    requires Constructible(dt) && |r| >= 10 && r[..10] == DateText("-", dt)
    requires |ZeroPad(dt.year, 4)| == 4 && |ZeroPad(dt.month, 2)| == 2 && |ZeroPad(dt.day, 2)| == 2
    ensures AllDigits(r[..4]) && r[4] == '-' && AllDigits(r[5..7]) && r[7] == '-' && AllDigits(r[8..10])
    ensures DigitsVal(r[..4]) == dt.year && DigitsVal(r[5..7]) == dt.month && DigitsVal(r[8..10]) == dt.day
  {
    DateSlices(ZeroPad(dt.year, 4), ZeroPad(dt.month, 2), ZeroPad(dt.day, 2), r);
    ZeroPadValue(dt.year, 4);
    ZeroPadValue(dt.month, 2);
    ZeroPadValue(dt.day, 2);
  }

  /** Where the three fields of `y-m-d` sit in a text that starts with it. */
  lemma DateSlices(y: string, m: string, d: string, r: string)
    requires |y| == 4 && |m| == 2 && |d| == 2 && |r| >= 10 && r[..10] == y + "-" + m + "-" + d
    ensures r[..4] == y && r[4] == '-' && r[5..7] == m && r[7] == '-' && r[8..10] == d
  {
    var t := y + "-" + m + "-" + d;
    assert r[..4] == t[..4] && r[5..7] == t[5..7] && r[8..10] == t[8..10];
    assert r[4] == t[4] && r[7] == t[7];
  }

  /** In 12-hour unpadded mode the hour is the plain decimal 1..12, never empty, never zero-led. */
  lemma UnpaddedHour(c: PresetConfig, h: int)
    requires 0 <= h < 24 && c.hour12 && !c.hourPadding
    ensures HourText(c, h) == NatStr(Hour12(h))
    ensures 1 <= |HourText(c, h)| <= 2 && HourText(c, h)[0] != '0'
    ensures DigitsVal(HourText(c, h)) == Hour12(h)
  {
    LStripZeroPad2(Hour12(h));
    NatStrRoundTrip(Hour12(h));
  }

  /** In 24-hour mode the hour is two digits whose value is 0..23, and no AM/PM follows the seconds. */
  lemma TwentyFourHour(c: PresetConfig, dt: DateTime)
    requires Valid(dt) && !c.hour12
    ensures |HourText(c, dt.hour)| == 2 && DigitsVal(HourText(c, dt.hour)) == dt.hour
    ensures TimeText(c, dt) == HourText(c, dt.hour) + "-" + ZeroPad(dt.minute, 2) + "-" + ZeroPad(dt.second, 2)
  {
    TwoDigitFields(dt);
    ZeroPadValue(dt.hour, 2);
  }

  lemma SampleFields()
    ensures ZeroPad(2024, 4) == "2024" && ZeroPad(1, 2) == "01" && ZeroPad(2, 2) == "02"
    ensures ZeroPad(14, 2) == "14" && ZeroPad(30, 2) == "30" && ZeroPad(45, 2) == "45"
    ensures ZeroPad(123456, 6) == "123456"
  {
    assert NatStr(20) == "20";
    assert NatStr(202) == "202";
    assert NatStr(2024) == "2024";
    assert NatStr(12) == "12";
    assert NatStr(123) == "123";
    assert NatStr(1234) == "1234";
    assert NatStr(12345) == "12345";
    assert NatStr(123456) == "123456";
    assert NatStr(14) == "14";
    assert NatStr(30) == "30";
    assert NatStr(45) == "45";
  }

  lemma SampleDate(dt: DateTime)
    requires dt.year == 2024 && dt.month == 1 && dt.day == 1 && Valid(dt)
    ensures DateText("-", dt) == "2024-01-01"
  {
    SampleFields();
  }

  lemma SampleTime(c: PresetConfig, dt: DateTime)
    requires dt.hour == 14 && dt.minute == 30 && dt.second == 45 && Valid(dt)
    ensures c.hour12 && !c.hourPadding ==> TimeText(c, dt) == "2-30-45PM"
    ensures !c.hour12 ==> TimeText(c, dt) == "14-30-45"
  {
    var mm := ZeroPad(dt.minute, 2);
    var ss := ZeroPad(dt.second, 2);
    assert mm == "30" && ss == "45" by { SampleFields(); }
    if c.hour12 && !c.hourPadding {
      assert HourText(c, 14) == "2" by {
        UnpaddedHour(c, 14);
        assert Hour12(14) == 2;
      }
      assert AmPm(14) == "PM";
      TimePieces("2", mm, ss, "PM", TimeText(c, dt));
    } else if !c.hour12 {
      assert HourText(c, 14) == "14" by { SampleFields(); }
      TimePieces("14", mm, ss, "", TimeText(c, dt));
    }
  }

  lemma TimePieces(h: string, mm: string, ss: string, p: string, r: string)
    requires mm == "30" && ss == "45" && r == h + "-" + mm + "-" + ss + p
    ensures h == "2" && p == "PM" ==> r == "2-30-45PM"
    ensures h == "14" && p == "" ==> r == "14-30-45"
  {
  }

  lemma PcloudPieces(d: string, t: string, z: string, r: string)
    requires d == "2024-01-01" && t == "2-30-45PM" && z == "123456" && r == d + " " + t + "_" + z
    ensures r == "2024-01-01 2-30-45PM_123456"
  {
  }

  lemma GooglePieces(d: string, t: string, r: string)
    requires d == "2024-01-01" && r == d + "_" + t
    ensures t == "14-30-45" ==> r == "2024-01-01_14-30-45"
    ensures t == "2-30-45PM" ==> r == "2024-01-01_2-30-45PM"
  {
  }

  /** The pcloud example: `2024-01-01 2-30-45PM_123456`. */
  lemma PcloudExample(f: Formatter, dt: DateTime)
    requires f == NewFormatter("pcloud", None) && dt == DateTime(2024, 1, 1, 14, 30, 45, 123456)
    ensures Format(f, dt) == "2024-01-01 2-30-45PM_123456"
  {
    FormatParts(f, dt);
    SampleDate(dt);
    SampleTime(f.config, dt);
    assert ZeroPad(dt.micro, 6) == "123456" by { SampleFields(); }
    PcloudPieces(DateText("-", dt), TimeText(f.config, dt), ZeroPad(dt.micro, 6), Format(f, dt));
  }

  /** google_photos gives `2024-01-01_14-30-45`. */
  lemma GooglePhotosExample(f: Formatter, dt: DateTime)
    requires f == NewFormatter("google_photos", None) && dt == DateTime(2024, 1, 1, 14, 30, 45, 123456)
    ensures Format(f, dt) == "2024-01-01_14-30-45"
  {
    FormatParts(f, dt);
    SampleDate(dt);
    SampleTime(f.config, dt);
    GooglePieces(DateText("-", dt), TimeText(f.config, dt), Format(f, dt));
  }

  /** google_photos with the 12-hour override gives `2024-01-01_2-30-45PM`. */
  lemma GooglePhotos12hExample(f: Formatter, dt: DateTime)
    requires f == NewFormatter("google_photos", Some(true)) && dt == DateTime(2024, 1, 1, 14, 30, 45, 0)
    ensures Format(f, dt) == "2024-01-01_2-30-45PM"
  {
    FormatParts(f, dt);
    SampleDate(dt);
    SampleTime(f.config, dt);
    GooglePieces(DateText("-", dt), TimeText(f.config, dt), Format(f, dt));
  }
}
