/**
 * Naive Python `datetime` values (proleptic Gregorian calendar, microsecond
 * resolution) and `dt + timedelta(microseconds=k)` with its carries.
 */
module DateTimes {

  datatype DateTime = DateTime(year: int, month: int, day: int,
                               hour: int, minute: int, second: int, micro: int)

  predicate IsLeap(y: int)
  {
    y % 4 == 0 && (y % 100 != 0 || y % 400 == 0)
  }

  function DaysInMonth(y: int, m: int): (n: int)
    requires 1 <= m <= 12
    ensures 28 <= n <= 31
  {
    if m == 2 then (if IsLeap(y) then 29 else 28)
    else if m == 4 || m == 6 || m == 9 || m == 11 then 30
    else 31
  }

  predicate ValidDate(y: int, m: int, d: int)
  {
    1 <= y && 1 <= m <= 12 && 1 <= d <= DaysInMonth(y, m)
  }

  predicate ValidTime(h: int, mi: int, s: int, us: int)
  {
    0 <= h < 24 && 0 <= mi < 60 && 0 <= s < 60 && 0 <= us < 1000000
  }

  /** Field ranges of a `datetime`, without its upper year bound of 9999. */
  predicate Valid(dt: DateTime)
  {
    ValidDate(dt.year, dt.month, dt.day) && ValidTime(dt.hour, dt.minute, dt.second, dt.micro)
  }

  /** What `datetime(...)` accepts: `Valid` plus `year <= 9999`. */
  predicate Constructible(dt: DateTime)
  {
    Valid(dt) && dt.year <= 9999
  }

  /** A value Python can hold in a `datetime`: the type of every date the oracles report. */
  type DateTimeValue = dt: DateTime | Constructible(dt) witness DateTime(1, 1, 1, 0, 0, 0, 0)

  function YearLen(y: int): int
  {
    if IsLeap(y) then 366 else 365
  }

  function DaysBeforeYear(y: int): nat
    requires y >= 1
  {
    if y == 1 then 0 else DaysBeforeYear(y - 1) + YearLen(y - 1)
  }

  function DaysBeforeMonth(y: int, m: int): nat
    requires 1 <= m <= 12
  {
    if m == 1 then 0 else DaysBeforeMonth(y, m - 1) + DaysInMonth(y, m - 1)
  }

  lemma MonthsFillYear(y: int)
    ensures DaysBeforeMonth(y, 12) + DaysInMonth(y, 12) == YearLen(y)
  {
    var feb := DaysInMonth(y, 2);
    assert DaysBeforeMonth(y, 2) == 31;
    assert DaysBeforeMonth(y, 3) == 31 + feb;
    assert DaysBeforeMonth(y, 4) == 62 + feb;
    assert DaysBeforeMonth(y, 5) == 92 + feb;
    assert DaysBeforeMonth(y, 6) == 123 + feb;
    assert DaysBeforeMonth(y, 7) == 153 + feb;
    assert DaysBeforeMonth(y, 8) == 184 + feb;
    assert DaysBeforeMonth(y, 9) == 215 + feb;
    assert DaysBeforeMonth(y, 10) == 245 + feb;
    assert DaysBeforeMonth(y, 11) == 276 + feb;
    assert DaysBeforeMonth(y, 12) == 306 + feb;
  }

  /** Days since 0001-01-01 (the proleptic ordinal minus one). */
  function DayNumber(y: int, m: int, d: int): int
    requires ValidDate(y, m, d)
  {
    DaysBeforeYear(y) + DaysBeforeMonth(y, m) + d - 1
  }

  /** Microseconds since 0001-01-01 00:00:00. */
  function ToMicros(dt: DateTime): int
    requires Valid(dt)
  {
    ((DayNumber(dt.year, dt.month, dt.day) * 24 + dt.hour) * 60 + dt.minute) * 60_000_000
    + dt.second * 1_000_000 + dt.micro
  }

  datatype Date = Date(y: int, m: int, d: int)

  function NextMonth(y: int, m: int): (r: (int, int))
    requires 1 <= m <= 12
    ensures 1 <= r.1 <= 12 && r.0 >= y
  {
    if m == 12 then (y + 1, 1) else (y, m + 1)
  }

  /** The date `n` days after a valid date. */
  function AddDays(y: int, m: int, d: int, n: nat): (r: Date)
    requires ValidDate(y, m, d)
    ensures ValidDate(r.y, r.m, r.d)
    ensures DayNumber(r.y, r.m, r.d) == DayNumber(y, m, d) + n
    decreases n
  {
    if d + n <= DaysInMonth(y, m) then Date(y, m, d + n)
    else
      var nm := NextMonth(y, m);
      NextMonthStartsAfter(y, m);
      AddDays(nm.0, nm.1, 1, n - (DaysInMonth(y, m) - d + 1))
  }

  lemma NextMonthStartsAfter(y: int, m: int)
    requires ValidDate(y, m, 1)
    ensures var nm := NextMonth(y, m);
      ValidDate(nm.0, nm.1, 1)
      && DayNumber(nm.0, nm.1, 1) == DayNumber(y, m, DaysInMonth(y, m)) + 1
  {
    if m == 12 {
      MonthsFillYear(y);
    }
  }

  /** `dt + timedelta(microseconds=k)`. */
  function AddMicros(dt: DateTime, k: nat): (r: DateTime)
    requires Valid(dt)
    ensures Valid(r)
    ensures ToMicros(r) == ToMicros(dt) + k
  {
    var total := dt.micro + k;
    var us := total % 1_000_000;
    var ts := dt.second + total / 1_000_000;
    var s := ts % 60;
    var tm := dt.minute + ts / 60;
    var mi := tm % 60;
    var th := dt.hour + tm / 60;
    var h := th % 24;
    var date := AddDays(dt.year, dt.month, dt.day, th / 24);
    var r := DateTime(date.y, date.m, date.d, h, mi, s, us);
    assert ToMicros(r) == ToMicros(dt) + k by {
      var dn := DayNumber(dt.year, dt.month, dt.day);
      assert DayNumber(date.y, date.m, date.d) == dn + th / 24;
      assert (dn + th / 24) * 24 + h == dn * 24 + th;
      assert tm / 60 * 60 + mi == tm;
      assert ts / 60 * 60 + s == ts;
      assert total / 1_000_000 * 1_000_000 + us == total;
    }
    r
  }

  /** Adding more microseconds gives a strictly later instant. */
  lemma AddMicrosStrictlyIncreasing(dt: DateTime, i: nat, j: nat)
    requires Valid(dt) && i < j
    ensures ToMicros(AddMicros(dt, i)) < ToMicros(AddMicros(dt, j))
  {
  }

  /** Distinct offsets give distinct datetimes. */
  lemma AddMicrosInjective(dt: DateTime, i: nat, j: nat)
    requires Valid(dt) && i != j
    ensures AddMicros(dt, i) != AddMicros(dt, j)
  {
    if i < j {
      AddMicrosStrictlyIncreasing(dt, i, j);
    } else {
      AddMicrosStrictlyIncreasing(dt, j, i);
    }
  }

  /** The same wall-clock second with the microseconds set to zero. */
  function TruncateMicros(dt: DateTime): DateTime
  {
    dt.(micro := 0)
  }
}
