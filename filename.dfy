/**
 * The filename step: for each record that is not marked for deletion, an
 * optional timestamp prefix, then the body rename and appended texts with
 * a collision counter, then extension cleaning, mapping and a case-blind
 * collision counter; the record is renamed when the name changed.
 */
module Filename {
  import opened Common
  import opened Strings
  import opened Paths
  import opened DateTimes
  import opened Config
  import opened Models
  import opened FileSystem
  import opened Counter
  import opened Collisions
  import opened TimestampFormatter
  import opened FilenameText

  /** The three values `TIMELINE_MODE` can take once the settings are loaded. */
  datatype Mode = Off | TimelineOnly | TimelinePlus

  /** The mode a configured name stands for, `None` for a name outside the three. */
  function ModeOf(name: string): (r: Option<Mode>)
    ensures r.Some? <==> name in TimelineModes
  {
    if name == "off" then Some(Off)
    else if name == "timeline_only" then Some(TimelineOnly)
    else if name == "timeline_plus" then Some(TimelinePlus)
    else None
  }

  /** The step's settings (its class attributes, as `_load_config` overwrites them). */
  datatype StepSettings = StepSettings(addTimestamp: bool, timelineMode: Mode, hour12: bool,
                               replaceBodyname: string, appendFirstText: string, appendSecondText: string,
                               cleanExtensions: bool, uniformExtensions: bool)

  const Defaults := StepSettings(true, TimelinePlus, true, "", "", "", true, true)

  function OrEmpty(s: Option<string>): string
  {
    if s.Some? then s.value else ""
  }

  /**
   * The mode `_load_config` settles on: the configured one when it is one
   * of the three, otherwise derived from `add_timestamp`.
   */
  function LoadedMode(p: PrefixConfig): (m: Mode)
    ensures p.timelineMode.Some? && p.timelineMode.value in TimelineModes ==> Some(m) == ModeOf(p.timelineMode.value)
    ensures p.timelineMode.None? || p.timelineMode.value !in TimelineModes ==>
      m == (if p.addTimestamp then TimelinePlus else Off)
  {
    var requested := if p.timelineMode.Some? then ModeOf(p.timelineMode.value) else None;
    if requested.Some? then requested.value else if p.addTimestamp then TimelinePlus else Off
  }

  /** `replace_bodyname or ""`, stripped of surrounding whitespace. */
  function LoadedReplace(r: RenameConfig): (t: string)
    ensures t == Strip(OrEmpty(r.replaceBodyname))
  {
    var replace := OrEmpty(r.replaceBodyname);
    if replace != "" then Strip(replace) else replace
  }

  /**
   * What `_load_config` makes of a server config: the mode above, with
   * `add_timestamp` following it, and the other settings copied.
   */
  function Loaded(cfg: PipelineConfig): (s: StepSettings)
    ensures s.addTimestamp <==> s.timelineMode != Off
  {
    var mode := LoadedMode(cfg.prefix);
    StepSettings(mode != Off, mode, cfg.timestampFormat.hourFormat12, LoadedReplace(cfg.rename),
                 OrEmpty(cfg.rename.appendFirstText), OrEmpty(cfg.rename.appendSecondText),
                 cfg.extension.cleanExtensions, cfg.extension.uniformExtensions)
  }

  /**
   * What the step reads from outside: existing paths, the first EXIF date
   * tag of a file (`None` when there is none or it does not parse), the
   * modification time, the clock, and the extension MIME detection guesses.
   */
  datatype Env = Env(fs: Fs, exif: Path -> Option<DateTimeValue>, mtime: Path -> DateTimeValue,
                     now: DateTimeValue, mime: Path -> string)

  /** `_format_dt`: the configured preset, with the step's 12/24-hour setting forced. */
  function FormatDt(s: StepSettings, ctx: Context, dt: DateTimeValue): string
  {
    Format(NewFormatter(ctx.config.timestampFormat.preset, Some(s.hour12)), dt)
  }

  /** `_build_timestamp`: EXIF, then a stamp written in the name, then mtime, then now. */
  function BuildTimestamp(s: StepSettings, ctx: Context, env: Env, name: string, source: Path): string
  {
    if Exists(env.fs, source) && env.exif(source).Some? then FormatDt(s, ctx, env.exif(source).value)
    else match ExtractFromFilename(name, s.hour12)
      case Some(t) => t
      case None => if Exists(env.fs, source) then FormatDt(s, ctx, env.mtime(source)) else FormatDt(s, ctx, env.now)
  }

  /** The plain stamped name and the numbered frame: `ts<suffix>` or `ts_<name>`, then `ts_N<suffix>` or `ts_<stem>_N<suffix>`. */
  function PrefixFrame(timelineOnly: bool, ts: string, name: string): (r: (string, string, string))
    ensures Frame(r.0, r.1, r.2)
  {
    StemSuffix(name);
    if timelineOnly then (ts + Suffix(name), ts + "_", Suffix(name))
    else (ts + "_" + name, ts + "_" + Stem(name) + "_", Suffix(name))
  }

  /** Whether `_apply_prefix` stamps the name at all. */
  predicate Stamps(s: StepSettings, name: string)
  {
    s.addTimestamp && s.timelineMode != Off && !(s.timelineMode == TimelinePlus && FullAt(name, 0))
  }

  /**
   * `_apply_prefix`: the name is kept when the step does not stamp it;
   * otherwise it is the first of the stamped candidates that is free in
   * the record's folder.
   */
  ghost function PrefixName(s: StepSettings, ctx: Context, env: Env, current: Path, source: Path): (r: string)
    ensures !Stamps(s, Name(current)) ==> r == Name(current)
    ensures Stamps(s, Name(current)) ==>
      var ts := BuildTimestamp(s, ctx, env, Name(current), source);
      var frame := PrefixFrame(s.timelineMode == TimelineOnly, ts, Name(current));
      !Exists(env.fs, Child(Parent(current), r))
      && (r == frame.0 || exists c: nat :: c >= 1 && r == Numbered(frame.1, c, frame.2))
  {
    var name := Name(current);
    if !Stamps(s, name) then name
    else
      var ts := BuildTimestamp(s, ctx, env, name, source);
      var (base, p, sfx) := PrefixFrame(s.timelineMode == TimelineOnly, ts, name);
      FreeName(Occupancy(env.fs, {}, None), Parent(current), base, p, sfx)
  }

  /**
   * `_apply_bodyname`: a name in the same folder, built from the new stem
   * and the old suffix, not handed out before and not taken by another
   * file; it is added to the names handed out.
   */
  ghost function BodynameResult(s: StepSettings, fs: Fs, file: Path, existing: set<string>): (r: (Path, set<string>))
    ensures Parent(r.0) == Parent(file) && Name(r.0) !in existing && r.1 == existing + {Name(r.0)}
    ensures !Exists(fs, r.0) || r.0 == file
    ensures var final := BodyStem(Stem(Name(file)), s.replaceBodyname, s.appendFirstText, s.appendSecondText);
      Name(r.0) == final + Suffix(Name(file))
      || exists c: nat :: c >= 1 && Name(r.0) == Numbered(final + "_", c, Suffix(Name(file)))
  {
    var sfx := Suffix(Name(file));
    var final := BodyStem(Stem(Name(file)), s.replaceBodyname, s.appendFirstText, s.appendSecondText);
    var n := FreeName(Occupancy(fs, existing, Some(file)), Parent(file), final + sfx, final + "_", sfx);
    (WithName(file, n), existing + {n})
  }

  function SeenBlocked(name: string, seen: set<string>): nat -> bool
  {
    (c: nat) => LowerStr(Numbered(Stem(name) + "_", c, Suffix(name))) in seen
  }

  function LowerNumbered(p: string, s: string): nat -> string
  {
    (c: nat) => LowerStr(Numbered(p, c, s))
  }

  lemma LowerNumberedInjective(p: string, s: string)
    ensures Injective(LowerNumbered(p, s), 1)
  {
    forall a: nat, b: nat | 1 <= a < b ensures LowerNumbered(p, s)(a) != LowerNumbered(p, s)(b) {
      LowerConcat(p + NatStr(a), s);
      LowerConcat(p, NatStr(a));
      LowerConcat(p + NatStr(b), s);
      LowerConcat(p, NatStr(b));
      LowerDigits(NatStr(a));
      LowerDigits(NatStr(b));
      assert LowerNumbered(p, s)(a) == Numbered(LowerStr(p), a, LowerStr(s));
      assert LowerNumbered(p, s)(b) == Numbered(LowerStr(p), b, LowerStr(s));
      if Numbered(LowerStr(p), a, LowerStr(s)) == Numbered(LowerStr(p), b, LowerStr(s)) {
        NumberedInjective(LowerStr(p), LowerStr(s), a, b);
      }
    }
  }

  lemma SeenHasFree(name: string, seen: set<string>)
    ensures exists n: nat :: 1 <= n && !SeenBlocked(name, seen)(n)
  {
    var p, s := Stem(name) + "_", Suffix(name);
    LowerNumberedInjective(p, s);
    FreeCandidate(seen, LowerNumbered(p, s), 1);
    var n: nat :| 1 <= n <= 1 + |seen| && LowerNumbered(p, s)(n) !in seen;
    assert !SeenBlocked(name, seen)(n);
  }

  /** `_resolve_collision`: the name kept or numbered so that its lower-case form is new. */
  ghost function ResolvedName(name: string, seen: set<string>): (r: string)
    ensures LowerStr(r) !in seen
    ensures LowerStr(name) !in seen ==> r == name
  {
    if LowerStr(name) !in seen then name
    else
      SeenHasFree(name, seen);
      var c := FirstFree(SeenBlocked(name, seen), 1);
      assert !SeenBlocked(name, seen)(c);
      Numbered(Stem(name) + "_", c, Suffix(name))
  }

  /** A name already taken is numbered `stem_c.suffix` with the least `c >= 1` whose lower-case form is new. */
  lemma ResolvedNameNumbered(name: string, seen: set<string>)
    requires LowerStr(name) in seen
    ensures exists c: nat ::
      c >= 1 && ResolvedName(name, seen) == Numbered(Stem(name) + "_", c, Suffix(name)) &&
      forall k :: 1 <= k < c ==> LowerStr(Numbered(Stem(name) + "_", k, Suffix(name))) in seen
  {
    SeenHasFree(name, seen);
    var c := FirstFree(SeenBlocked(name, seen), 1);
    forall k | 1 <= k < c ensures LowerStr(Numbered(Stem(name) + "_", k, Suffix(name))) in seen {
      assert SeenBlocked(name, seen)(k);
    }
  }

  /**
   * `FilenameStep._resolve_collision`: the name itself when its lower-case
   * form is new, else `stem_1.suffix`, `stem_2.suffix`, ... until one is.
   */
  method ResolveCollision(name: string, seen: set<string>) returns (r: string)
    ensures r == ResolvedName(name, seen)
  {
    if LowerStr(name) !in seen {
      return name;
    }
    SeenHasFree(name, seen);
    ghost var bound: nat :| 1 <= bound && !SeenBlocked(name, seen)(bound);
    var counter := SearchFree(SeenBlocked(name, seen), 1, bound);
    r := Numbered(Stem(name) + "_", counter, Suffix(name));
  }

  /** `_apply_extension`: the path with its cleaned, mapped and de-duplicated name, and the grown `seen` set. */
  ghost function ExtensionResult(s: StepSettings, mimeExt: string, path: Path, seen: set<string>): (r: (Path, set<string>))
    ensures Parent(r.0) == Parent(path) && LowerStr(Name(r.0)) !in seen && r.1 == seen + {LowerStr(Name(r.0))}
    ensures Name(r.0) == Name(path) ==> r.0 == path
  {
    var cleaned := CleanExtension(Name(path), s.cleanExtensions, mimeExt);
    var f := ResolvedName(ApplyUniform(cleaned, s.uniformExtensions), seen);
    (if f != Name(path) then WithName(path, f) else path, seen + {LowerStr(f)})
  }

  /** The name a record that is not deleted ends with, and the two sets threaded to the next record. */
  ghost function NewName(s: StepSettings, ctx: Context, env: Env, current: Path, source: Path,
                         existing: set<string>, seen: set<string>): (r: (string, set<string>, set<string>))
  {
    var pre := PrefixName(s, ctx, env, current, source);
    var w1 := if pre != Name(current) then WithName(current, pre) else current;
    var (w2, existing') := BodynameResult(s, env.fs, w1, existing);
    var (w3, seen') := ExtensionResult(s, env.mime(w2), w2, seen);
    (Name(w3), existing', seen')
  }

  /** One record through the step: its new state and the two sets threaded to the next record. */
  ghost function PlanItem(s: StepSettings, ctx: Context, env: Env, st: ItemState, existing: set<string>, seen: set<string>)
    : (r: (ItemState, set<string>, set<string>))
  {
    if st.action == Delete then (st, existing, seen)
    else
      var r := NewName(s, ctx, env, st.current, st.original, existing, seen);
      (if r.0 != Name(st.current) then Renamed(st, r.0) else st, r.1, r.2)
  }

  /**
   * `r` is what may become of the record `st` with the sets `existing` and
   * `seen`: a deleted record passes untouched; any other ends with a name
   * whose lower-case form is new, is renamed exactly when that name
   * differs, and adds the name to both sets.
   */
  predicate ItemPlanned(st: ItemState, existing: set<string>, seen: set<string>, r: (ItemState, set<string>, set<string>))
  {
    (st.action == Delete ==> r == (st, existing, seen))
    && (st.action != Delete ==>
      var n := Name(r.0.current);
      LowerStr(n) !in seen && r.2 == seen + {LowerStr(n)} && existing <= r.1
      && (if n == Name(st.current) then r.0 == st else r.0 == Renamed(st, n)))
  }

  lemma PlanItemSpec(s: StepSettings, ctx: Context, env: Env, st: ItemState, existing: set<string>, seen: set<string>)
    ensures ItemPlanned(st, existing, seen, PlanItem(s, ctx, env, st, existing, seen))
  {
  }

  /** How one record is planned: its new state and the two name sets after it. */
  type Each = (ItemState, set<string>, set<string>) -> (ItemState, set<string>, set<string>)

  /** `each` applied to the records in order, threading the two name sets. */
  ghost function Fold(each: Each, states: seq<ItemState>, existing: set<string>, seen: set<string>)
    : (r: (seq<ItemState>, set<string>, set<string>))
    ensures |r.0| == |states|
  {
    if states == [] then ([], existing, seen)
    else
      var (done, e, sn) := Fold(each, states[..|states| - 1], existing, seen);
      var (x, e2, sn2) := each(states[|states| - 1], e, sn);
      (done + [x], e2, sn2)
  }

  ghost function PlanEach(s: StepSettings, ctx: Context, env: Env): Each
  {
    (st: ItemState, e: set<string>, sn: set<string>) => PlanItem(s, ctx, env, st, e, sn)
  }

  /** The whole list, in order, with the name sets starting from `existing` and `seen`. */
  ghost function Plan(s: StepSettings, ctx: Context, env: Env, states: seq<ItemState>, existing: set<string>, seen: set<string>)
    : (r: (seq<ItemState>, set<string>, set<string>))
    ensures |r.0| == |states|
  {
    Fold(PlanEach(s, ctx, env), states, existing, seen)
  }

  /**
   * `each` plans a record as `PlanItem` does.  (The agreement is used only
   * where a `PlanItem` is in view, so that the loop over `each` is reasoned
   * about without unfolding it.)
   */
  ghost predicate PlansAs(each: Each, s: StepSettings, ctx: Context, env: Env)
  {
    forall st: ItemState, e: set<string>, sn: set<string> {:trigger PlanItem(s, ctx, env, st, e, sn)} ::
      each(st, e, sn) == PlanItem(s, ctx, env, st, e, sn)
  }

  lemma PlanEachPlans(s: StepSettings, ctx: Context, env: Env)
    ensures PlansAs(PlanEach(s, ctx, env), s, ctx, env)
  {
  }

  lemma PlanItemRenames(s: StepSettings, ctx: Context, env: Env, st: ItemState, existing: set<string>, seen: set<string>,
                        r: (string, set<string>, set<string>))
    requires st.action != Delete && r == NewName(s, ctx, env, st.current, st.original, existing, seen)
    ensures PlanItem(s, ctx, env, st, existing, seen) == (if r.0 != Name(st.current) then Renamed(st, r.0) else st, r.1, r.2)
  {
  }

  lemma FoldStep(each: Each, states: seq<ItemState>, i: nat)
    requires i < |states|
    ensures var pl := Fold(each, states[..i], {}, {});
      var x := each(states[i], pl.1, pl.2);
      Fold(each, states[..i + 1], {}, {}) == (pl.0 + [x.0], x.1, x.2)
  {
    assert states[..i + 1][..i] == states[..i];
  }

  /** A `YYYY-MM-DD` date text is what the stamp patterns call a date. */
  lemma DateTextIsDate(dt: DateTimeValue)
    ensures |DateText("-", dt)| == 10 && DateAt(DateText("-", dt), 0)
  {
    var y, m, d := ZeroPad(dt.year, 4), ZeroPad(dt.month, 2), ZeroPad(dt.day, 2);
    assert Pow10(4) == 10000;
    ZeroPadExact(dt.year, 4);
    TwoDigitFields(dt);
    var t := DateText("-", dt);
    DateSlices(y, m, d, t);
    assert forall k :: 0 <= k < 4 ==> t[k] == y[k];
    assert forall k :: 0 <= k < 2 ==> t[5 + k] == m[k] && t[8 + k] == d[k];
  }

  /** `HH-MM-SS` on the 24-hour clock. */
  lemma Time24Shape(c: PresetConfig, dt: DateTimeValue)
    requires !c.hour12
    ensures var t := TimeText(c, dt);
      |t| == 8 && DigitsAt(t, 0, 2) && t[2] == '-' && DigitsAt(t, 3, 2) && t[5] == '-' && DigitsAt(t, 6, 2)
  {
    TwoDigitFields(dt);
    TwentyFourHour(c, dt);
    var h, mm, ss := HourText(c, dt.hour), ZeroPad(dt.minute, 2), ZeroPad(dt.second, 2);
    var t := TimeText(c, dt);
    assert t == h + "-" + mm + "-" + ss;
    assert forall k :: 0 <= k < 2 ==> t[k] == h[k] && t[3 + k] == mm[k] && t[6 + k] == ss[k];
  }

  /** In 24-hour mode a formatted stamp is recognised as a leading full stamp. */
  lemma Stamp24IsFull(preset: string, dt: DateTimeValue)
    ensures FullAt(Format(NewFormatter(preset, Some(false)), dt), 0)
  {
    var f := NewFormatter(preset, Some(false));
    var c := f.config;
    var date, sep, time := DateText("-", dt), c.datetimeSeparator, TimeText(c, dt);
    assert |date| == 10 && DateAt(date, 0) by { DateTextIsDate(dt); }
    assert |time| == 8 && DigitsAt(time, 0, 2) && time[2] == '-' && DigitsAt(time, 3, 2) && time[5] == '-' && DigitsAt(time, 6, 2) by {
      Time24Shape(c, dt);
    }
    StampIsFull(date, sep, time, "");
    assert date + sep + time + "" == date + sep + time;
    var micro := if c.includeMicroseconds then "_" + ZeroPad(dt.micro, 6) else "";
    FullAtAppend(date + sep + time, micro);
    assert Format(f, dt) == date + sep + time + micro by { FormatParts(f, dt); }
  }

  /**
   * The "no double prefix" rule: in timeline_plus mode with 24-hour stamps,
   * a name that already starts with a stamp the step formats is kept.
   */
  lemma StampedNameKept(s: StepSettings, ctx: Context, env: Env, current: Path, source: Path,
                        dt: DateTimeValue, rest: string)
    requires s.timelineMode == TimelinePlus && !s.hour12
    requires Name(current) == FormatDt(s, ctx, dt) + "_" + rest
    ensures PrefixName(s, ctx, env, current, source) == Name(current)
  {
    var fmt := FormatDt(s, ctx, dt);
    assert FullAt(Name(current), 0) by {
      Stamp24IsFull(ctx.config.timestampFormat.preset, dt);
      FullAtAppend(fmt, "_");
      FullAtAppend(fmt + "_", rest);
    }
    assert !Stamps(s, Name(current));
  }

  /**
   * The 12-hour stamps print hours below ten without a leading zero, which
   * the full-stamp pattern (two hour digits) does not recognise: such a
   * name is stamped again in timeline_plus mode.
   */
  lemma UnpaddedStampRestamped(s: StepSettings, ctx: Context, current: Path, dt: DateTimeValue, rest: string)
    requires s.addTimestamp && s.timelineMode == TimelinePlus && s.hour12
    requires Hour12(dt.hour) < 10
    requires Name(current) == FormatDt(s, ctx, dt) + "_" + rest
    ensures Stamps(s, Name(current))
  {
    var f := NewFormatter(ctx.config.timestampFormat.preset, Some(true));
    var c := f.config;
    var date, sep, t := DateText("-", dt), c.datetimeSeparator, TimeText(c, dt);
    var micro := if c.includeMicroseconds then "_" + ZeroPad(dt.micro, 6) else "";
    assert |t| >= 2 && t[1] == '-' by { ShortHourTime(c, dt); }
    assert |date| == 10 by { DateTextIsDate(dt); }
    DashAfterDate(date, sep, t, micro);
    assert Format(f, dt) == date + sep + t + micro by { FormatParts(f, dt); }
    assert Name(current)[12] == '-';
    ShortHourNotFull(Name(current));
  }

  /** A time text with a one-digit hour puts a dash at position 12 of `date + sep + time + more`. */
  lemma DashAfterDate(date: string, sep: string, time: string, more: string)
    requires |date| == 10 && |sep| == 1 && |time| >= 2 && time[1] == '-'
    ensures |date + sep + time + more| > 12 && (date + sep + time + more)[12] == '-'
  {
    assert (date + sep + time + more)[12] == time[1];
  }

  /** An unpadded hour below ten leaves a dash as the time text's second character. */
  lemma ShortHourTime(c: PresetConfig, dt: DateTimeValue)
    requires c.hour12 && !c.hourPadding && Hour12(dt.hour) < 10
    ensures |TimeText(c, dt)| >= 2 && TimeText(c, dt)[1] == '-'
  {
    var h := HourText(c, dt.hour);
    assert |h| == 1 by {
      UnpaddedHour(c, dt.hour);
      NatStrLength(Hour12(dt.hour), 1);
    }
    SecondCharDash(h, ZeroPad(dt.minute, 2), ZeroPad(dt.second, 2), if c.hour12 then AmPm(dt.hour) else "");
  }

  lemma SecondCharDash(h: string, mm: string, ss: string, ap: string)
    requires |h| == 1
    ensures |h + "-" + mm + "-" + ss + ap| >= 2 && (h + "-" + mm + "-" + ss + ap)[1] == '-'
  {
    var p := h + "-";
    assert p[1] == '-';
    assert (p + mm + "-" + ss + ap)[1] == p[1];
  }

  lemma ShortHourNotFull(n: string)
    requires |n| > 12 && n[12] == '-'
    ensures !FullAt(n, 0)
  {
  }

  /** What `process` does to one record: a deleted one is untouched, any other is renamed exactly when its name changed. */
  predicate Outcome(st: ItemState, x: ItemState)
  {
    if st.action == Delete then x == st
    else if Name(x.current) == Name(st.current) then x == st
    else x == Renamed(st, Name(x.current))
  }

  /** Every record planned by `each` ends as `ItemPlanned` says. */
  ghost predicate Sound(each: Each)
  {
    forall st: ItemState, e: set<string>, sn: set<string> :: ItemPlanned(st, e, sn, each(st, e, sn))
  }

  /**
   * Over the whole list: every record is planned as `Outcome` says, the
   * final names of the records that are not deleted are pairwise distinct
   * ignoring case, and both name sets only grow.
   */
  lemma {:induction false} FoldSpec(each: Each, states: seq<ItemState>, existing: set<string>, seen: set<string>)
    requires Sound(each)
    ensures var r := Fold(each, states, existing, seen);
      existing <= r.1 && seen <= r.2
      && (forall k :: 0 <= k < |states| ==> Outcome(states[k], r.0[k]))
      && (forall k :: 0 <= k < |states| && states[k].action != Delete ==> LowerStr(Name(r.0[k].current)) in r.2)
      && (forall k, l :: 0 <= k < l < |states| && states[k].action != Delete && states[l].action != Delete ==>
            LowerStr(Name(r.0[k].current)) != LowerStr(Name(r.0[l].current)))
  {
    if states != [] {
      var init := states[..|states| - 1];
      var last := states[|states| - 1];
      FoldSpec(each, init, existing, seen);
      var (done, e, sn) := Fold(each, init, existing, seen);
      var (x, e2, sn2) := each(last, e, sn);
      assert ItemPlanned(last, e, sn, each(last, e, sn));
      var r := Fold(each, states, existing, seen);
      assert r == (done + [x], e2, sn2);
      assert Outcome(last, x);
      forall k | 0 <= k < |states| - 1
        ensures r.0[k] == done[k] && states[k] == init[k]
      {
      }
    }
  }

  /** `FoldSpec` for the step's own planning. */
  lemma PlanSpec(s: StepSettings, ctx: Context, env: Env, states: seq<ItemState>,
                 existing: set<string>, seen: set<string>)
    ensures var r := Plan(s, ctx, env, states, existing, seen);
      existing <= r.1 && seen <= r.2
      && (forall k :: 0 <= k < |states| ==> Outcome(states[k], r.0[k]))
      && (forall k :: 0 <= k < |states| && states[k].action != Delete ==> LowerStr(Name(r.0[k].current)) in r.2)
      && (forall k, l :: 0 <= k < l < |states| && states[k].action != Delete && states[l].action != Delete ==>
            LowerStr(Name(r.0[k].current)) != LowerStr(Name(r.0[l].current)))
  {
    var each := PlanEach(s, ctx, env);
    forall st: ItemState, e: set<string>, sn: set<string>
      ensures ItemPlanned(st, e, sn, each(st, e, sn))
    {
      PlanItemSpec(s, ctx, env, st, e, sn);
    }
    FoldSpec(each, states, existing, seen);
  }

  class FilenameStep {
    var addTimestamp: bool
    var timelineMode: Mode
    var hour12: bool
    var replaceBodyname: string
    var appendFirstText: string
    var appendSecondText: string
    var cleanExtensions: bool
    var uniformExtensions: bool

    constructor ()
      ensures Settings() == Defaults
    {
      addTimestamp, timelineMode, hour12 := true, TimelinePlus, true;
      replaceBodyname, appendFirstText, appendSecondText := "", "", "";
      cleanExtensions, uniformExtensions := true, true;
    }

    function Settings(): StepSettings
      reads this
    {
      StepSettings(addTimestamp, timelineMode, hour12, replaceBodyname, appendFirstText, appendSecondText,
               cleanExtensions, uniformExtensions)
    }

    /** `_load_config` for a server config, which always carries every section. */
    method LoadConfig(cfg: PipelineConfig)
      modifies this
      ensures Settings() == Loaded(cfg)
    {
      var add := cfg.prefix.addTimestamp;
      var requested := if cfg.prefix.timelineMode.Some? then ModeOf(cfg.prefix.timelineMode.value) else None;
      var mode := if requested.Some? then requested.value else if add then TimelinePlus else Off;
      assert mode == LoadedMode(cfg.prefix);
      var replace := LoadedReplace(cfg.rename);
      addTimestamp, timelineMode, hour12 := mode != Off, mode, cfg.timestampFormat.hourFormat12;
      replaceBodyname := replace;
      appendFirstText := OrEmpty(cfg.rename.appendFirstText);
      appendSecondText := OrEmpty(cfg.rename.appendSecondText);
      cleanExtensions, uniformExtensions := cfg.extension.cleanExtensions, cfg.extension.uniformExtensions;
    }

    /** `_apply_prefix`. */
    method ApplyPrefix(current: Path, source: Path, ctx: Context, env: Env) returns (name: string)
      ensures name == PrefixName(Settings(), ctx, env, current, source)
    {
      name := Name(current);
      if !addTimestamp || timelineMode == Off {
        return;
      }
      if timelineMode == TimelinePlus && FullAt(name, 0) {
        return;
      }
      var ts := BuildTimestamp(Settings(), ctx, env, name, source);
      var (base, p, sfx) := PrefixFrame(timelineMode == TimelineOnly, ts, name);
      name := FindFree(Occupancy(env.fs, {}, None), Parent(current), base, p, sfx);
    }

    /** `_apply_bodyname`. */
    method ApplyBodyname(file: Path, existing: set<string>, fs: Fs) returns (path: Path, existing': set<string>)
      ensures (path, existing') == BodynameResult(Settings(), fs, file, existing)
    {
      var sfx := Suffix(Name(file));
      var final := BodyStem(Stem(Name(file)), replaceBodyname, appendFirstText, appendSecondText);
      var n := FindFree(Occupancy(fs, existing, Some(file)), Parent(file), final + sfx, final + "_", sfx);
      existing' := existing + {n};
      path := WithName(file, n);
    }

    /** `_apply_extension`. */
    method ApplyExtension(path: Path, seen: set<string>, mimeExt: string) returns (path': Path, seen': set<string>)
      ensures (path', seen') == ExtensionResult(Settings(), mimeExt, path, seen)
    {
      var cleaned := CleanExtension(Name(path), cleanExtensions, mimeExt);
      var f := ResolveCollision(ApplyUniform(cleaned, uniformExtensions), seen);
      seen' := seen + {LowerStr(f)};
      path' := if f != Name(path) then WithName(path, f) else path;
    }

    /** The three stages of `process`'s loop for a record that is not deleted, under the settings `s`. */
    method Rename(ghost s: StepSettings, current: Path, source: Path, ctx: Context, env: Env,
                  existing: set<string>, seen: set<string>)
      returns (name: string, existing': set<string>, seen': set<string>)
      requires s == Settings()
      ensures (name, existing', seen') == NewName(s, ctx, env, current, source, existing, seen)
    {
      var working := current;
      var pre := ApplyPrefix(working, source, ctx, env);
      if pre != Paths.Name(working) {
        working := WithName(working, pre);
      }
      working, existing' := ApplyBodyname(working, existing, env.fs);
      working, seen' := ApplyExtension(working, seen, env.mime(working));
      name := Paths.Name(working);
    }

    /** The body of `process`'s loop for one record, under the settings `s`. */
    method ProcessItem(ghost s: StepSettings, item: FileItem, ctx: Context, env: Env,
                       existing: set<string>, seen: set<string>)
      returns (existing': set<string>, seen': set<string>)
      requires s == Settings()
      modifies item
      ensures (item.State(), existing', seen') == PlanItem(s, ctx, env, old(item.State()), existing, seen)
    {
      ghost var st := item.State();
      if item.action == Delete {
        return existing, seen;
      }
      var name;
      name, existing', seen' := Rename(s, item.currentPath, item.originalPath, ctx, env, existing, seen);
      if name != Paths.Name(item.currentPath) {
        item.MarkRename(name);
      }
      PlanItemRenames(s, ctx, env, st, existing, seen, (name, existing', seen'));
    }

    /** `process`'s loop: every record in order, each planned by `each`, under the settings `s`. */
    method ProcessAll(ghost s: StepSettings, ghost each: Each, ctx: Context, env: Env, items: seq<FileItem>)
      requires s == Settings() && PlansAs(each, s, ctx, env) && Distinct(items)
      modifies items
      ensures States(items) == Fold(each, old(States(items)), {}, {}).0
    {
      ghost var olds := States(items);
      var existing: set<string> := {};
      var seen: set<string> := {};
      ghost var done: seq<ItemState> := [];
      for i := 0 to |items|
        invariant Settings() == s
        invariant Fold(each, olds[..i], {}, {}) == (done, existing, seen)
        invariant States(items) == done + olds[i..]
      {
        existing, seen, done := ProcessNext(s, each, ctx, env, items, olds, i, existing, seen, done);
      }
      assert olds[..|items|] == olds;
      assert States(items) == done + [];
    }

    /** One pass of `process`'s loop: record `i` is planned, with the sets threaded from the records before it. */
    method ProcessNext(ghost s: StepSettings, ghost each: Each, ctx: Context, env: Env, items: seq<FileItem>, ghost olds: seq<ItemState>, i: nat,
                       existing: set<string>, seen: set<string>, ghost done: seq<ItemState>)
      returns (existing': set<string>, seen': set<string>, ghost done': seq<ItemState>)
      requires s == Settings() && PlansAs(each, s, ctx, env) && Distinct(items) && i < |items| == |olds|
      requires Fold(each, olds[..i], {}, {}) == (done, existing, seen)
      requires States(items) == done + olds[i..]
      modifies items[i]
      ensures Fold(each, olds[..i + 1], {}, {}) == (done', existing', seen')
      ensures Settings() == s && States(items) == done' + olds[i + 1..]
    {
      ghost var before := States(items);
      FoldStep(each, olds, i);
      existing', seen' := ProcessItem(s, items[i], ctx, env, existing, seen);
      assert States(items) == before[i := items[i].State()];
      done' := done + [items[i].State()];
      SpliceNext(done, olds, i, items[i].State());
    }

    /** `process`: load the settings, then plan every record in order. */
    method Process(ctx: Context, env: Env, items: seq<FileItem>)
      requires Distinct(items)
      modifies this, items
      ensures Settings() == Loaded(ctx.config)
      ensures States(items) == Plan(Loaded(ctx.config), ctx, env, old(States(items)), {}, {}).0
    {
      ghost var olds := States(items);
      LoadConfig(ctx.config);
      assert States(items) == olds;
      PlanEachPlans(Settings(), ctx, env);
      ProcessAll(Settings(), PlanEach(Settings(), ctx, env), ctx, env, items);
    }
  }

  /** Replacing the first not-yet-planned state moves the boundary one place on. */
  lemma SpliceNext<T>(done: seq<T>, rest: seq<T>, i: nat, x: T)
    requires |done| == i < |rest|
    ensures (done + rest[i..])[i := x] == (done + [x]) + rest[i + 1..]
  {
  }
}
