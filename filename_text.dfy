/**
 * The pure name logic of the filename step: the prefix patterns that split a
 * stem into a leading stamp and a body, the two timestamp patterns searched
 * in names, the unsafe-character scrubber, and the extension cleaning and
 * mapping rules.  Each regular expression is written as a deterministic
 * matcher; ASCII digits stand for `\d`.
 */
module FilenameText {
  import opened Common
  import opened Strings
  import opened Paths

  // ---------------------------------------------------------------------
  // Digit runs
  // ---------------------------------------------------------------------

  predicate DigitsAt(s: string, i: nat, n: nat)
  {
    i + n <= |s| && forall k :: i <= k < i + n ==> IsDigit(s[k])
  }

  /** How many digits `\d{1,max}` (greedy) consumes at `i`; 0 when none. */
  function Munch(s: string, i: nat, max: nat): (k: nat)
    requires i <= |s|
    ensures k <= max && DigitsAt(s, i, k)
    ensures k < max && i + k < |s| ==> !IsDigit(s[i + k])
    decreases max
  {
    if max == 0 || i >= |s| || !IsDigit(s[i]) then 0 else 1 + Munch(s, i + 1, max - 1)
  }

  // ---------------------------------------------------------------------
  // PREFIX_PATTERNS, tried in order with `match` (anchored at the start)
  // ---------------------------------------------------------------------

  predicate DateSep(c: char) { c == '-' || c == '.' || c == '/' }
  predicate TimeLead(c: char) { c == '_' || c == ' ' || c == '.' || c == '-' }
  predicate TimeSep(c: char) { c == '-' || c == ':' }
  predicate StampTail(c: char) { c == '-' || c == '_' || c == ' ' || c == '.' }

  /** `(?:[_ .-]\d{1,2}[-:]\d{2}[-:]\d{2}(?:[AP]M)?)` at `e`: where it ends, if it matches. */
  function TimeGroup(s: string, e: nat): (r: Option<nat>)
    ensures r.Some? ==> e + 7 <= r.value <= |s|
  {
    if e >= |s| || !TimeLead(s[e]) then None
    else
      var h := Munch(s, e + 1, 2);
      var t := e + 1 + h;
      if h == 0 || t + 6 > |s| || !TimeSep(s[t]) || !DigitsAt(s, t + 1, 2) || !TimeSep(s[t + 3]) || !DigitsAt(s, t + 4, 2)
      then None
      else
        var u := t + 6;
        if u + 2 <= |s| && (s[u] == 'A' || s[u] == 'P') && s[u + 1] == 'M' then Some(u + 2) else Some(u)
  }

  /** `\d{4}[-./]\d{1,2}[-./]\d{1,2}(?:time)?_?`: the length of the match at the start. */
  function DatePrefix(s: string): (r: Option<nat>)
    ensures r.Some? ==> 8 <= r.value <= |s| && DigitsAt(s, 0, 4)
  {
    if !DigitsAt(s, 0, 4) || |s| < 5 || !DateSep(s[4]) then None
    else
      var a := Munch(s, 5, 2);
      var j := 5 + a;
      if a == 0 || j >= |s| || !DateSep(s[j]) then None
      else
        var b := Munch(s, j + 1, 2);
        var e := j + 1 + b;
        if b == 0 then None
        else
          var g := match TimeGroup(s, e) case Some(x) => x case None => e;
          if g < |s| && s[g] == '_' then Some(g + 1) else Some(g)
  }

  /** `(\(\d+\)|\[\d+\]|\d+\.)[-_ .]?`: a counter in parentheses, brackets, or followed by a dot. */
  function CounterPrefix(s: string): (r: Option<nat>)
    ensures r.Some? ==> 2 <= r.value <= |s|
    ensures r.Some? ==> s[0] == '(' || s[0] == '[' || IsDigit(s[0])
  {
    if |s| == 0 then None
    else
      var end: Option<nat> :=
        if s[0] == '(' || s[0] == '[' then
          var k := Munch(s, 1, |s|);
          if k >= 1 && 1 + k < |s| && s[1 + k] == (if s[0] == '(' then ')' else ']') then Some(2 + k) else None
        else
          var k := Munch(s, 0, |s|);
          if k >= 1 && k < |s| && s[k] == '.' then Some(k + 1) else None;
      if end.None? then None
      else if end.value < |s| && StampTail(s[end.value]) then Some(end.value + 1)
      else end
  }

  /** `\d{1,6}[_-]`: a short number and a separator. */
  function NumberPrefix(s: string): (r: Option<nat>)
    ensures r.Some? ==> 2 <= r.value <= |s| && IsDigit(s[0])
  {
    var k := Munch(s, 0, 6);
    if k >= 1 && k < |s| && (s[k] == '_' || s[k] == '-') then Some(k + 1) else None
  }

  /** The length of the first of the three prefix patterns that matches, if any. */
  function PrefixLength(s: string): (r: Option<nat>)
    ensures r.Some? ==> 1 <= r.value <= |s| && (IsDigit(s[0]) || s[0] == '(' || s[0] == '[')
  {
    if DatePrefix(s).Some? then DatePrefix(s)
    else if CounterPrefix(s).Some? then CounterPrefix(s)
    else NumberPrefix(s)
  }

  /** `_split_prefix_body`: the matched prefix and the rest of the stem. */
  function SplitPrefixBody(stem: string): (r: (string, string))
    ensures r.0 + r.1 == stem
    ensures r.0 == "" <==> PrefixLength(stem).None?
    ensures r.0 != "" ==> !StampTail(r.0[0])
  {
    match PrefixLength(stem)
    case Some(n) => (stem[..n], stem[n..])
    case None => ("", stem)
  }

  // ---------------------------------------------------------------------
  // FILENAME_FULL_PATTERN and FILENAME_DATE_ONLY
  // ---------------------------------------------------------------------

  /** `\d{4}-\d{2}-\d{2}` at `i`. */
  predicate DateAt(s: string, i: nat)
  {
    DigitsAt(s, i, 4) && i + 10 <= |s| && s[i + 4] == '-' && DigitsAt(s, i + 5, 2) && s[i + 7] == '-' && DigitsAt(s, i + 8, 2)
  }

  /** `(\d{4}-\d{2}-\d{2})[_ ](\d{2}-\d{2}-\d{2})` at `i`. */
  predicate FullAt(s: string, i: nat)
  {
    DateAt(s, i) && i + 19 <= |s| && (s[i + 10] == '_' || s[i + 10] == ' ')
    && DigitsAt(s, i + 11, 2) && s[i + 13] == '-' && DigitsAt(s, i + 14, 2) && s[i + 16] == '-' && DigitsAt(s, i + 17, 2)
  }

  /** `(AM|PM)` under `re.IGNORECASE` at `j`. */
  predicate MeridiemAt(s: string, j: nat)
  {
    j + 2 <= |s| && (Lower(s[j]) == 'a' || Lower(s[j]) == 'p') && Lower(s[j + 1]) == 'm'
  }

  datatype Pattern = Full | DateOnly

  predicate At(p: Pattern, s: string, i: nat)
  {
    if p.Full? then FullAt(s, i) else DateAt(s, i)
  }

  /** `pattern.search(s)` from position `from`: the leftmost start of a match. */
  function Search(p: Pattern, s: string, from: nat): (r: Option<nat>)
    ensures r.Some? ==> from <= r.value && At(p, s, r.value)
    ensures r.Some? ==> forall k :: from <= k < r.value ==> !At(p, s, k)
    ensures r.None? ==> forall k :: from <= k ==> !At(p, s, k)
    decreases |s| - from
  {
    if from + 10 > |s| then None
    else if At(p, s, from) then Some(from)
    else Search(p, s, from + 1)
  }

  /** `_extract_from_filename`: a prefix-ready stamp for the first timestamp written in the name. */
  function ExtractFromFilename(name: string, hour12: bool): (r: Option<string>)
  {
    match Search(Full, name, 0)
    case Some(i) =>
      var date, time := name[i..i + 10], name[i + 11..i + 19];
      if hour12 then Some(date + "_" + time + (if MeridiemAt(name, i + 19) then name[i + 19..i + 21] else "AM"))
      else Some(date + "_" + time)
    case None =>
      match Search(DateOnly, name, 0)
      case Some(i) => Some(name[i..i + 10] + (if hour12 then "_00-00-00AM" else "_00-00-00"))
      case None => None
  }

  lemma FullHasDate(s: string, i: nat)
    requires FullAt(s, i)
    ensures DateAt(s, i)
  {
  }

  /** `date`, an underscore or a space, and `HH-MM-SS` make a full stamp, whatever follows. */
  /** A full stamp at the start stays one whatever is appended. */
  lemma FullAtAppend(s: string, more: string)
    requires FullAt(s, 0)
    ensures FullAt(s + more, 0)
  {
    assert forall k :: 0 <= k < |s| ==> (s + more)[k] == s[k];
  }

  lemma StampIsFull(date: string, sep: string, time: string, tail: string)
    requires |date| == 10 && DateAt(date, 0) && (sep == "_" || sep == " ")
    requires |time| == 8 && DigitsAt(time, 0, 2) && time[2] == '-' && DigitsAt(time, 3, 2) && time[5] == '-' && DigitsAt(time, 6, 2)
    ensures FullAt(date + sep + time + tail, 0)
  {
    var r := date + sep + time + tail;
    assert forall k :: 0 <= k < 10 ==> r[k] == date[k];
    assert forall k :: 0 <= k < 8 ==> r[11 + k] == time[k];
  }

  /**
   * A timestamp is found exactly when the name holds a `YYYY-MM-DD` date
   * somewhere, and what is found is itself a full `date_time` stamp, so a
   * name prefixed with it is recognised as already stamped.
   */
  lemma ExtractFromFilenameSpec(name: string, hour12: bool)
    ensures ExtractFromFilename(name, hour12).Some? <==> exists i: nat :: DateAt(name, i)
    ensures ExtractFromFilename(name, hour12).Some? ==> FullAt(ExtractFromFilename(name, hour12).value, 0)
    ensures ExtractFromFilename(name, hour12).Some? ==>
      |ExtractFromFilename(name, hour12).value| == (if hour12 then 21 else 19)
  {
    match Search(Full, name, 0) {
      case Some(i) =>
        assert DateAt(name, i);
        ExtractFull(name, hour12, i);
      case None =>
        match Search(DateOnly, name, 0) {
          case Some(i) =>
            assert At(DateOnly, name, i);
            ExtractDateOnly(name, hour12, i);
          case None =>
            forall k: nat ensures !DateAt(name, k) {
              assert !At(DateOnly, name, k);
            }
        }
    }
  }

  /** A full `date_time` match gives its date and time, with a meridiem in 12-hour mode. */
  lemma ExtractFull(name: string, hour12: bool, i: nat)
    requires Search(Full, name, 0) == Some(i)
    ensures ExtractFromFilename(name, hour12).Some?
    ensures FullAt(ExtractFromFilename(name, hour12).value, 0)
    ensures |ExtractFromFilename(name, hour12).value| == (if hour12 then 21 else 19)
  {
    assert FullAt(name, i);
    var date, time := name[i..i + 10], name[i + 11..i + 19];
    assert DateAt(date, 0);
    StampIsFull(date, "_", time, if hour12 then (if MeridiemAt(name, i + 19) then name[i + 19..i + 21] else "AM") else "");
    if !hour12 {
      assert date + "_" + time + "" == date + "_" + time;
    }
  }

  /** A bare date gets midnight. */
  lemma ExtractDateOnly(name: string, hour12: bool, i: nat)
    requires Search(Full, name, 0).None? && Search(DateOnly, name, 0) == Some(i)
    ensures ExtractFromFilename(name, hour12).Some?
    ensures FullAt(ExtractFromFilename(name, hour12).value, 0)
    ensures |ExtractFromFilename(name, hour12).value| == (if hour12 then 21 else 19)
  {
    assert DateAt(name, i);
    var date := name[i..i + 10];
    assert DateAt(date, 0);
    StampIsFull(date, "_", "00-00-00", if hour12 then "AM" else "");
    if hour12 {
      assert date + "_00-00-00AM" == date + "_" + "00-00-00" + "AM";
    } else {
      assert date + "_00-00-00" == date + "_" + "00-00-00" + "";
    }
  }

  /** A name that starts with a full stamp yields that stamp, the meridiem aside. */
  lemma ExtractLeadingStamp(name: string, hour12: bool)
    requires FullAt(name, 0)
    ensures ExtractFromFilename(name, hour12).Some?
    ensures ExtractFromFilename(name, hour12).value[..19] == name[..10] + "_" + name[11..19]
  {
    var i := Search(Full, name, 0).value;
    assert i == 0;
    var r := ExtractFromFilename(name, hour12).value;
    var d := name[..10] + "_" + name[11..19];
    if hour12 {
      var t := if MeridiemAt(name, 19) then name[19..21] else "AM";
      assert r == d + t;
      assert (d + t)[..19] == d;
    } else {
      assert r == d;
    }
  }

  // ---------------------------------------------------------------------
  // _make_safe_filename
  // ---------------------------------------------------------------------

  /** The characters the first substitution replaces by `_`. */
  predicate IsUnsafe(c: char)
  {
    c == '<' || c == '>' || c == ':' || c == '"' || c == '/' || c == '\\' || c == '|' || c == '?' || c == '*'
    || c == '\n' || c == '\r' || c == '\t'
  }

  predicate SafeChars(s: string) { forall i :: 0 <= i < |s| ==> !IsUnsafe(s[i]) }

  /** Every whitespace character is a plain space and none follows another. */
  predicate NoRuns(s: string)
  {
    forall i :: 0 <= i < |s| && IsSpace(s[i]) ==> s[i] == ' ' && (i + 1 < |s| ==> !IsSpace(s[i + 1]))
  }

  predicate Trimmed(s: string) { s == [] || (!IsSpace(s[0]) && !IsSpace(s[|s| - 1])) }

  /** A name `_make_safe_filename` leaves as it is. */
  predicate Normal(s: string) { SafeChars(s) && NoRuns(s) && Trimmed(s) }

  /** `re.sub(r'[<>:"/\\|?*\n\r\t]', "_", s)`. */
  function ReplaceUnsafe(s: string): (r: string)
    ensures |r| == |s|
  {
    if s == [] then [] else [if IsUnsafe(s[0]) then '_' else s[0]] + ReplaceUnsafe(s[1..])
  }

  /** Each unsafe character becomes `_` and every other one stays. */
  lemma {:induction false} ReplaceUnsafeSpec(s: string)
    ensures SafeChars(ReplaceUnsafe(s))
    ensures forall i :: 0 <= i < |s| ==> ReplaceUnsafe(s)[i] == if IsUnsafe(s[i]) then '_' else s[i]
  {
    if s != [] {
      ReplaceUnsafeSpec(s[1..]);
      var r := ReplaceUnsafe(s);
      assert forall i :: 1 <= i < |s| ==> r[i] == ReplaceUnsafe(s[1..])[i - 1];
    }
  }

  /** `str.lstrip()`. */
  function StripLeft(s: string): (r: string)
    ensures |r| <= |s|
  {
    if s != [] && IsSpace(s[0]) then StripLeft(s[1..]) else s
  }

  /** `lstrip` removes exactly the leading whitespace. */
  lemma {:induction false} StripLeftSpec(s: string)
    ensures StripLeft(s) == s[|s| - |StripLeft(s)|..]
    ensures StripLeft(s) == [] || !IsSpace(StripLeft(s)[0])
    ensures forall i :: 0 <= i < |s| - |StripLeft(s)| ==> IsSpace(s[i])
  {
    if s != [] && IsSpace(s[0]) {
      StripLeftSpec(s[1..]);
      assert forall i :: 1 <= i < |s| ==> s[i] == s[1..][i - 1];
    }
  }

  /** `str.rstrip()`. */
  function StripRight(s: string): (r: string)
    ensures |r| <= |s|
  {
    if s != [] && IsSpace(s[|s| - 1]) then StripRight(s[..|s| - 1]) else s
  }

  /** `rstrip` removes exactly the trailing whitespace. */
  lemma {:induction false} StripRightSpec(s: string)
    ensures StripRight(s) == s[..|StripRight(s)|]
    ensures StripRight(s) == [] || !IsSpace(StripRight(s)[|StripRight(s)| - 1])
    ensures forall i :: |StripRight(s)| <= i < |s| ==> IsSpace(s[i])
  {
    if s != [] && IsSpace(s[|s| - 1]) {
      StripRightSpec(s[..|s| - 1]);
    }
  }

  /** `str.strip()`. */
  function Strip(s: string): string
  {
    StripRight(StripLeft(s))
  }

  /** `re.sub(r"\s+", " ", s)`: each whitespace run becomes one space. */
  function Collapse(s: string): (r: string)
    ensures |r| <= |s|
    decreases |s|
  {
    if s == [] then []
    else if IsSpace(s[0]) then [' '] + Collapse(StripLeft(s[1..]))
    else [s[0]] + Collapse(s[1..])
  }

  /** The collapsed text has no whitespace run, introduces no unsafe character and starts where its input does. */
  lemma {:induction false} CollapseSpec(s: string)
    ensures NoRuns(Collapse(s))
    ensures SafeChars(s) ==> SafeChars(Collapse(s))
    ensures s != [] ==> Collapse(s) != [] && Collapse(s)[0] == (if IsSpace(s[0]) then ' ' else s[0])
    decreases |s|
  {
    if s != [] {
      if IsSpace(s[0]) {
        var d := StripLeft(s[1..]);
        StripLeftSpec(s[1..]);
        CollapseSpec(d);
        if SafeChars(s) {
          assert forall i :: 0 <= i < |d| ==> d[i] == s[1 + |s[1..]| - |d| + i];
        }
        NoRunsCons(' ', Collapse(d));
        SafeCons(' ', Collapse(d));
      } else {
        CollapseSpec(s[1..]);
        if SafeChars(s) {
          assert forall i :: 0 <= i < |s| - 1 ==> s[1..][i] == s[i + 1];
        }
        NoRunsCons(s[0], Collapse(s[1..]));
        SafeCons(s[0], Collapse(s[1..]));
      }
    }
  }

  lemma NoRunsCons(c: char, t: string)
    requires NoRuns(t) && (IsSpace(c) ==> c == ' ' && (t == [] || !IsSpace(t[0])))
    ensures NoRuns([c] + t)
  {
    var r := [c] + t;
    forall i | 0 <= i < |r| && IsSpace(r[i]) ensures r[i] == ' ' && (i + 1 < |r| ==> !IsSpace(r[i + 1])) {
      if i > 0 {
        assert r[i] == t[i - 1];
        if i + 1 < |r| {
          assert r[i + 1] == t[i];
        }
      }
    }
  }

  lemma SafeCons(c: char, t: string)
    ensures !IsUnsafe(c) && SafeChars(t) ==> SafeChars([c] + t)
  {
    if !IsUnsafe(c) && SafeChars(t) {
      assert forall i :: 0 < i < |[c] + t| ==> ([c] + t)[i] == t[i - 1];
    }
  }

  /** `_make_safe_filename`. */
  function MakeSafe(name: string): string
  {
    Strip(Collapse(ReplaceUnsafe(name)))
  }

  lemma SliceKeeps(s: string, a: nat, b: nat)
    requires a <= b <= |s| && SafeChars(s) && NoRuns(s)
    ensures SafeChars(s[a..b]) && NoRuns(s[a..b])
  {
    var t := s[a..b];
    forall i | 0 <= i < |t| && IsSpace(t[i])
      ensures t[i] == ' ' && (i + 1 < |t| ==> !IsSpace(t[i + 1]))
    {
      assert t[i] == s[a + i];
      if i + 1 < |t| {
        assert t[i + 1] == s[a + i + 1];
      }
    }
  }

  /**
   * No unsafe character, no whitespace other than single spaces, and no
   * whitespace at either end.
   */
  lemma MakeSafeIsNormal(name: string)
    ensures Normal(MakeSafe(name))
  {
    ReplaceUnsafeSpec(name);
    var c := Collapse(ReplaceUnsafe(name));
    CollapseSpec(ReplaceUnsafe(name));
    var l := StripLeft(c);
    StripLeftKeeps(c);
    StripRightKeeps(l);
  }

  /** `lstrip` of a scrubbed, collapsed text keeps it so and leaves no leading space. */
  lemma StripLeftKeeps(s: string)
    requires SafeChars(s) && NoRuns(s)
    ensures SafeChars(StripLeft(s)) && NoRuns(StripLeft(s))
    ensures StripLeft(s) == [] || !IsSpace(StripLeft(s)[0])
  {
    StripLeftSpec(s);
    SliceKeeps(s, |s| - |StripLeft(s)|, |s|);
  }

  /** `rstrip` keeps a text scrubbed and collapsed, keeps its first character and leaves no trailing space. */
  lemma StripRightKeeps(s: string)
    requires SafeChars(s) && NoRuns(s) && (s == [] || !IsSpace(s[0]))
    ensures Normal(StripRight(s))
  {
    StripRightSpec(s);
    var r := StripRight(s);
    SliceKeeps(s, 0, |r|);
    if r != [] {
      assert r[0] == s[0];
    }
  }

  lemma {:induction false} CollapseFixed(s: string)
    requires NoRuns(s)
    ensures Collapse(s) == s
    decreases |s|
  {
    if s != [] {
      var t := s[1..];
      assert NoRuns(t) by {
        forall i | 0 <= i < |t| && IsSpace(t[i]) ensures t[i] == ' ' && (i + 1 < |t| ==> !IsSpace(t[i + 1])) {
          assert t[i] == s[i + 1];
        }
      }
      CollapseFixed(t);
      if IsSpace(s[0]) {
        assert s[0] == ' ' && (t == [] || !IsSpace(t[0]));
        assert StripLeft(t) == t;
        assert Collapse(s) == [' '] + Collapse(t);
      } else {
        assert Collapse(s) == [s[0]] + Collapse(t);
      }
      assert s == [s[0]] + t;
    }
  }

  lemma {:induction false} ReplaceFixed(s: string)
    requires SafeChars(s)
    ensures ReplaceUnsafe(s) == s
  {
    if s != [] {
      assert SafeChars(s[1..]) by {
        assert forall i :: 0 <= i < |s| - 1 ==> s[1..][i] == s[i + 1];
      }
      assert !IsUnsafe(s[0]);
      ReplaceFixed(s[1..]);
    }
  }

  lemma StripFixed(s: string)
    requires Trimmed(s)
    ensures Strip(s) == s
  {
  }

  /** Scrubbing a name a second time changes nothing. */
  lemma MakeSafeIdempotent(name: string)
    ensures MakeSafe(MakeSafe(name)) == MakeSafe(name)
  {
    var m := MakeSafe(name);
    MakeSafeIsNormal(name);
    ReplaceFixed(m);
    CollapseFixed(m);
    StripFixed(m);
  }

  /** `MakeSafe` keeps every normal name: together with idempotence, its fixed points are exactly the normal names. */
  lemma MakeSafeFixedPoints(s: string)
    ensures MakeSafe(s) == s <==> Normal(s)
  {
    if Normal(s) {
      ReplaceFixed(s);
      CollapseFixed(s);
      StripFixed(s);
    } else {
      MakeSafeIsNormal(s);
    }
  }

  // ---------------------------------------------------------------------
  // _clean_extension and _apply_uniform
  // ---------------------------------------------------------------------

  const Multipart: seq<string> := [".tar.gz", ".tar.bz2", ".tar.xz"]

  /** The multi-part extension the lower-cased name ends with (at most one can). */
  function MultipartOf(lowerName: string): (r: Option<string>)
    ensures r.Some? ==> r.value in Multipart && EndsWith(lowerName, r.value)
    ensures r.None? ==> forall m :: m in Multipart ==> !EndsWith(lowerName, m)
  {
    if EndsWith(lowerName, ".tar.gz") then Some(".tar.gz")
    else if EndsWith(lowerName, ".tar.bz2") then Some(".tar.bz2")
    else if EndsWith(lowerName, ".tar.xz") then Some(".tar.xz")
    else None
  }

  /**
   * `_clean_extension`: a recognised multi-part extension is kept whole (it
   * is lower-case already); otherwise the last suffix is kept, lower-cased
   * when cleaning; a name without suffixes gets the detected one appended.
   * `mimeExt` is what MIME detection guessed for the path (possibly "").
   */
  function CleanExtension(name: string, clean: bool, mimeExt: string): (r: string)
    ensures Normal(r)
  {
    MakeSafeIsNormal(name);
    match MultipartOf(LowerStr(name))
    case Some(m) =>
      MakeSafeIsNormal(name[..|name| - |m|] + m);
      MakeSafe(name[..|name| - |m|] + m)
    case None =>
      if HasSuffixes(name) then
        var ext := if clean then LowerStr(Suffix(name)) else Suffix(name);
        MakeSafeIsNormal(Stem(name) + ext);
        MakeSafe(Stem(name) + ext)
      else
        var ext := if clean then LowerStr(mimeExt) else mimeExt;
        MakeSafeIsNormal(name + ext);
        MakeSafe(name + ext)
  }

  /**
   * `UNIFORM_MAPPING`, grouped by target: the extensions that map to
   * another one, and those that map to themselves.
   */
  const ToJpg: set<string> := {".jpeg", ".jpg", ".png", ".heic", ".heif", ".webp", ".bmp", ".raw"}
  const ToTif: set<string> := {".tiff", ".tif"}
  const ToMp4: set<string> := {".mov", ".avi", ".mkv", ".wmv", ".flv", ".mp4"}
  const ToYml: set<string> := {".yaml", ".yml"}
  const ToHtml: set<string> := {".htm", ".html"}
  const ToTxt: set<string> := {".text", ".txt"}
  const ToDocx: set<string> := {".doc", ".docx"}
  const ToXlsx: set<string> := {".xls", ".xlsx"}
  const ToPptx: set<string> := {".ppt", ".pptx"}
  const MapsToItself: set<string> := {".mp3", ".wav", ".flac", ".aac", ".ogg", ".json", ".xml", ".md", ".csv", ".pdf",
                                      ".zip", ".rar", ".7z", ".tar", ".gz", ".bz2", ".xz"}

  /** `UNIFORM_MAPPING.get(ext)`. */
  function UniformTarget(ext: string): Option<string>
  {
    if ext in ToJpg then Some(".jpg")
    else if ext in ToTif then Some(".tif")
    else if ext in ToMp4 then Some(".mp4")
    else if ext in ToYml then Some(".yml")
    else if ext in ToHtml then Some(".html")
    else if ext in ToTxt then Some(".txt")
    else if ext in ToDocx then Some(".docx")
    else if ext in ToXlsx then Some(".xlsx")
    else if ext in ToPptx then Some(".pptx")
    else if ext in MapsToItself then Some(ext)
    else None
  }

  /** A single extension: a dot, then at least one character, none of them a dot. */
  predicate SimpleExt(e: string) { |e| >= 2 && e[0] == '.' && forall k :: 0 < k < |e| ==> e[k] != '.' }

  /** No upper-case ASCII letter: lower-casing changes nothing (see `LowerFixed`). */
  predicate IsLowerText(s: string) { forall i :: 0 <= i < |s| ==> !('A' <= s[i] <= 'Z') }

  lemma LowerFixed(s: string)
    requires IsLowerText(s)
    ensures LowerStr(s) == s
  {
  }

  lemma TargetsSimple()
    ensures forall t :: t in {".jpg", ".tif", ".mp4", ".yml", ".html", ".txt", ".docx", ".xlsx", ".pptx"} ==>
      SimpleExt(t) && IsLowerText(t)
  {
  }

  lemma ItselfSimple(e: string)
    requires e in MapsToItself
    ensures SimpleExt(e) && IsLowerText(e)
  {
  }

  lemma ItselfFixed(e: string)
    requires e in MapsToItself
    ensures UniformTarget(e) == Some(e)
  {
    assert e !in ToJpg && e !in ToTif && e !in ToMp4 && e !in ToYml && e !in ToHtml;
    assert e !in ToTxt && e !in ToDocx && e !in ToXlsx && e !in ToPptx;
  }

  lemma TargetsFixed()
    ensures UniformTarget(".jpg") == Some(".jpg") && UniformTarget(".tif") == Some(".tif")
    ensures UniformTarget(".mp4") == Some(".mp4") && UniformTarget(".yml") == Some(".yml")
    ensures UniformTarget(".html") == Some(".html") && UniformTarget(".txt") == Some(".txt")
    ensures UniformTarget(".docx") == Some(".docx") && UniformTarget(".xlsx") == Some(".xlsx")
    ensures UniformTarget(".pptx") == Some(".pptx")
  {
  }

  /** Every mapped extension is a lower-case single extension that maps to itself. */
  lemma MappingTarget(e: string)
    requires UniformTarget(e).Some?
    ensures var t := UniformTarget(e).value;
      SimpleExt(t) && IsLowerText(t) && UniformTarget(t) == Some(t)
  {
    var t := UniformTarget(e).value;
    if e in ToJpg || e in ToTif || e in ToMp4 || e in ToYml || e in ToHtml || e in ToTxt || e in ToDocx
       || e in ToXlsx || e in ToPptx {
      TargetsSimple();
      TargetsFixed();
      assert t in {".jpg", ".tif", ".mp4", ".yml", ".html", ".txt", ".docx", ".xlsx", ".pptx"};
    } else {
      assert e in MapsToItself && t == e;
      ItselfSimple(e);
      ItselfFixed(e);
    }
  }

  lemma NoEmptyKey()
    ensures UniformTarget("").None?
  {
  }

  /** The extension `_apply_uniform` puts on a name. */
  function UniformExt(name: string, uniform: bool): string
  {
    var ext := LowerStr(Suffix(name));
    if uniform && UniformTarget(ext).Some? then UniformTarget(ext).value else ext
  }

  /**
   * `_apply_uniform`: a name without suffix is kept as it is; otherwise the
   * stem survives and the suffix becomes the uniform extension.
   */
  function ApplyUniform(name: string, uniform: bool): (r: string)
    ensures Suffix(name) == "" ==> r == name
    ensures Suffix(name) != "" ==> Stem(r) == Stem(name) && Suffix(r) == UniformExt(name, uniform)
  {
    UniformParts(name, uniform);
    Stem(name) + UniformExt(name, uniform)
  }

  lemma LowerIdempotent(s: string)
    ensures IsLowerText(LowerStr(s))
  {
  }

  lemma LowerKeepsDots(s: string)
    ensures forall k :: 0 <= k < |s| ==> (LowerStr(s)[k] == '.' <==> s[k] == '.')
  {
  }

  /** The stem and the uniform extension split back apart as stem and suffix. */
  lemma UniformParts(name: string, uniform: bool)
    ensures Suffix(name) == "" ==> Stem(name) + UniformExt(name, uniform) == name
    ensures Suffix(name) != "" ==>
      Stem(Stem(name) + UniformExt(name, uniform)) == Stem(name) &&
      Suffix(Stem(name) + UniformExt(name, uniform)) == UniformExt(name, uniform)
  {
    StemSuffix(name);
    NoEmptyKey();
    LowerIdempotent(Suffix(name));
    if uniform && UniformTarget(LowerStr(Suffix(name))).Some? {
      MappingTarget(LowerStr(Suffix(name)));
    }
    if Suffix(name) != "" {
      var e := UniformExt(name, uniform);
      if !(uniform && UniformTarget(LowerStr(Suffix(name))).Some?) {
        LowerKeepsDots(Suffix(name));
      }
      assert SimpleExt(e);
      assert |Stem(name)| > 0 by { assert |Stem(name)| + |Suffix(name)| == |name|; LastDotPositive(name); }
      SuffixOfSegment(Stem(name), e);
    }
  }

  /**
   * The stem survives and the new suffix is the lower-cased old one, or its
   * mapping when uniform extensions are on; a name without suffix keeps no suffix.
   */
  lemma ApplyUniformSpec(name: string, uniform: bool)
    ensures Suffix(name) == "" ==> ApplyUniform(name, uniform) == Stem(name) == name
    ensures Suffix(name) != "" ==>
      Stem(ApplyUniform(name, uniform)) == Stem(name) && Suffix(ApplyUniform(name, uniform)) == UniformExt(name, uniform)
    ensures IsLowerText(UniformExt(name, uniform))
    ensures uniform && UniformTarget(LowerStr(Suffix(name))).Some? ==> UniformExt(name, uniform) == UniformTarget(LowerStr(Suffix(name))).value
    ensures !uniform || UniformTarget(LowerStr(Suffix(name))).None? ==> UniformExt(name, uniform) == LowerStr(Suffix(name))
  {
    StemSuffix(name);
    LowerIdempotent(Suffix(name));
    if uniform && UniformTarget(LowerStr(Suffix(name))).Some? {
      MappingTarget(LowerStr(Suffix(name)));
    }
  }

  lemma LastDotPositive(name: string)
    requires Suffix(name) != ""
    ensures |Stem(name)| > 0
  {
  }

  /** Applying the uniform mapping twice is applying it once. */
  lemma ApplyUniformIdempotent(name: string, uniform: bool)
    ensures ApplyUniform(ApplyUniform(name, uniform), uniform) == ApplyUniform(name, uniform)
  {
    ApplyUniformSpec(name, uniform);
    var u := ApplyUniform(name, uniform);
    if Suffix(name) != "" {
      ApplyUniformSpec(u, uniform);
      var e := UniformExt(name, uniform);
      if uniform && UniformTarget(LowerStr(Suffix(name))).Some? {
        MappingTarget(LowerStr(Suffix(name)));
      }
      LowerFixed(e);
      assert Suffix(u) == e;
    } else {
      assert u == name;
    }
  }

  // ---------------------------------------------------------------------
  // _apply_bodyname: the new stem before collision numbering
  // ---------------------------------------------------------------------

  const Separator := "_"

  /** `body` joined with `text` by the separator, or `text` alone when `body` is empty. */
  function Append(body: string, text: string): (r: string)
    ensures text == "" ==> r == body
    ensures text != "" && body != "" ==> r == body + Separator + text
    ensures text != "" && body == "" ==> r == text
  {
    if text == "" then body else if body != "" then body + Separator + text else text
  }

  /** The body after the replacement and the two appended texts. */
  function ComposeBody(body: string, replace: string, first: string, second: string): string
  {
    Append(Append(if replace != "" then replace else body, first), second)
  }

  /** `s.rstrip("_-. ")`. */
  function RStripSeps(s: string): (r: string)
    ensures |r| <= |s| && r == s[..|r|]
    ensures r == [] || !StampTail(r[|r| - 1])
    ensures forall i :: |r| <= i < |s| ==> StampTail(s[i])
    ensures s != [] && !StampTail(s[0]) ==> r != []
  {
    if s != [] && StampTail(s[|s| - 1]) then RStripSeps(s[..|s| - 1]) else s
  }

  /** The prefix and body joined (with `_` unless the prefix already ends in a separator), or `file`. */
  function JoinStem(prefix: string, body: string): (r: string)
    requires prefix == "" || !StampTail(prefix[0])
    ensures r != ""
  {
    if prefix != "" && body != "" then
      prefix + (if StampTail(prefix[|prefix| - 1]) then "" else Separator) + body
    else if prefix != "" then RStripSeps(prefix)
    else if body != "" then body
    else "file"
  }

  /** The stem `_apply_bodyname` aims for, before numbering. */
  function BodyStem(stem: string, replace: string, first: string, second: string): (r: string)
    ensures r != ""
  {
    var (prefix, body) := SplitPrefixBody(stem);
    JoinStem(prefix, ComposeBody(body, replace, first, second))
  }

  /**
   * The stamp the prefix patterns recognise is kept in front: the new stem
   * starts with it whenever the composed body is non-empty, and is the
   * composed body itself when there is no stamp.
   */
  lemma BodyStemKeepsPrefix(stem: string, replace: string, first: string, second: string)
    ensures var (prefix, body) := SplitPrefixBody(stem);
      var b := ComposeBody(body, replace, first, second);
      var r := BodyStem(stem, replace, first, second);
      (prefix != "" && b != "" ==> StartsWith(r, prefix) && EndsWith(r, b))
      && (prefix == "" && b != "" ==> r == b)
      && (prefix != "" && b == "" ==> StartsWith(prefix, r))
      && (prefix == "" && b == "" ==> r == "file")
  {
    var (prefix, body) := SplitPrefixBody(stem);
    JoinStemKeeps(prefix, ComposeBody(body, replace, first, second));
  }

  lemma JoinStemKeeps(prefix: string, b: string)
    requires prefix == "" || !StampTail(prefix[0])
    ensures var r := JoinStem(prefix, b);
      (prefix != "" && b != "" ==> StartsWith(r, prefix) && EndsWith(r, b))
      && (prefix == "" && b != "" ==> r == b)
      && (prefix != "" && b == "" ==> StartsWith(prefix, r))
      && (prefix == "" && b == "" ==> r == "file")
  {
    var r := JoinStem(prefix, b);
    if prefix != "" && b != "" {
      var sep := if StampTail(prefix[|prefix| - 1]) then "" else Separator;
      assert r == prefix + sep + b;
      assert r[..|prefix|] == prefix;
      assert r[|r| - |b|..] == b;
    }
  }

  /** With all three texts given, the body is `replace_first_second`. */
  lemma ComposeAll(body: string, replace: string, first: string, second: string)
    requires replace != "" && first != "" && second != ""
    ensures ComposeBody(body, replace, first, second) == replace + "_" + first + "_" + second
  {
  }

  /** The `IMG_0001` example: no stamp, so the stem becomes `holiday_beach_2024`. */
  lemma HolidayExample(stem: string, replace: string, first: string, second: string)
    requires stem == "IMG_0001" && replace == "holiday" && first == "beach" && second == "2024"
    ensures BodyStem(stem, replace, first, second) == "holiday_beach_2024"
  {
    assert DatePrefix(stem).None? && CounterPrefix(stem).None? && NumberPrefix(stem).None? by {
      assert !IsDigit(stem[0]) && stem[0] != '(' && stem[0] != '[';
    }
    ComposeAll(stem, replace, first, second);
  }
}
