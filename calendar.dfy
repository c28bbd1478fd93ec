/**
 * The calendar arithmetic behind `datetime.utcfromtimestamp` and Spark's
 * `hour`, `dayofmonth`, `weekofyear`, `month`, `year` and `dayofweek`:
 * the proleptic Gregorian calendar, counted by ordinal days as CPython's
 * datetime module counts them (0001-01-01 is day 1), in UTC.
 */
module Calendar {

  datatype Date = Date(year: int, month: int, day: int)

  /** A naive UTC datetime, with the fields of Python's `datetime`. */
  datatype DateTime = DateTime(date: Date, hour: int, minute: int, second: int, microsecond: int)

  predicate IsLeapYear(y: int) {
    y % 4 == 0 && (y % 100 != 0 || y % 400 == 0)
  }

  function DaysInYear(y: int): int {
    if IsLeapYear(y) then 366 else 365
  }

  function DaysInMonth(y: int, m: int): int
    requires 1 <= m <= 12
  {
    if m == 2 then (if IsLeapYear(y) then 29 else 28)
    else if m == 4 || m == 6 || m == 9 || m == 11 then 30
    else 31
  }

  /** Days of year y before the first of month m. */
  function DaysBeforeMonth(y: int, m: int): int
    requires 1 <= m <= 12
  {
    var leap := if IsLeapYear(y) then 1 else 0;
    if m == 1 then 0
    else if m == 2 then 31
    else if m == 3 then 59 + leap
    else if m == 4 then 90 + leap
    else if m == 5 then 120 + leap
    else if m == 6 then 151 + leap
    else if m == 7 then 181 + leap
    else if m == 8 then 212 + leap
    else if m == 9 then 243 + leap
    else if m == 10 then 273 + leap
    else if m == 11 then 304 + leap
    else 334 + leap
  }

  /** Days before January 1 of year y, counted from January 1 of year 1. */
  function DaysBeforeYear(y: int): int {
    var p := y - 1;
    365 * p + p / 4 - p / 100 + p / 400
  }

  predicate ValidDate(d: Date) {
    1 <= d.month <= 12 && 1 <= d.day <= DaysInMonth(d.year, d.month)
  }

  predicate ValidDateTime(t: DateTime) {
    && ValidDate(t.date)
    && 0 <= t.hour < 24 && 0 <= t.minute < 60 && 0 <= t.second < 60
    && 0 <= t.microsecond < 1_000_000
  }

  type UtcDateTime = t: DateTime | ValidDateTime(t) witness DateTime(Date(1970, 1, 1), 0, 0, 0, 0)

  /** The ordinal of a date: 0001-01-01 is day 1. */
  function ToOrdinal(d: Date): int
    requires ValidDate(d)
  {
    DaysBeforeYear(d.year) + DaysBeforeMonth(d.year, d.month) + d.day
  }

  /** The 1-based position of a date within its year. */
  function DayOfYear(d: Date): (n: int)
    requires ValidDate(d)
    ensures 1 <= n <= DaysInYear(d.year)
    ensures ToOrdinal(d) == DaysBeforeYear(d.year) + n
  {
    DaysBeforeMonth(d.year, d.month) + d.day
  }

  /** The month in which the 0-based day `doy` of year y falls. */
  function MonthOf(y: int, doy: int): (m: int)
    requires 0 <= doy < DaysInYear(y)
    ensures 1 <= m <= 12
    ensures DaysBeforeMonth(y, m) <= doy < DaysBeforeMonth(y, m) + DaysInMonth(y, m)
  {
    if doy < DaysBeforeMonth(y, 2) then 1
    else if doy < DaysBeforeMonth(y, 3) then 2
    else if doy < DaysBeforeMonth(y, 4) then 3
    else if doy < DaysBeforeMonth(y, 5) then 4
    else if doy < DaysBeforeMonth(y, 6) then 5
    else if doy < DaysBeforeMonth(y, 7) then 6
    else if doy < DaysBeforeMonth(y, 8) then 7
    else if doy < DaysBeforeMonth(y, 9) then 8
    else if doy < DaysBeforeMonth(y, 10) then 9
    else if doy < DaysBeforeMonth(y, 11) then 10
    else if doy < DaysBeforeMonth(y, 12) then 11
    else 12
  }

  /** An ordinal day count split into whole 400-, 100-, 4- and 1-year cycles and a rest. */
  datatype Cycles = Cycles(n400: int, n100: int, n4: int, n1: int, rest: int)

  /**
   * The split of `_ord2ymd`: a 400-year cycle has 146097 days, a century
   * 36524, a 4-year cycle 1461; the quotient 4 (of centuries or of years)
   * only occurs on the last day of a leap year.
   */
  function SplitCycles(n0: int): (k: Cycles)
    ensures n0 == 146097 * k.n400 + 36524 * k.n100 + 1461 * k.n4 + 365 * k.n1 + k.rest
    ensures 0 <= k.n100 <= 4 && 0 <= k.n4 <= 24 && 0 <= k.n1 <= 4 && 0 <= k.rest < 365
    ensures k.n100 == 4 ==> k.n4 == 0 && k.n1 == 0 && k.rest == 0
    ensures k.n1 == 4 ==> k.n100 < 4 && k.n4 <= 23 && k.rest == 0
  {
    var n400, r400 := n0 / 146097, n0 % 146097;
    var n100, r100 := r400 / 36524, r400 % 36524;
    var n4, r4 := r100 / 1461, r100 % 1461;
    Cycles(n400, n100, n4, r4 / 365, r4 % 365)
  }

  /** The split is unique once no cycle count reaches 4. */
  lemma SplitCyclesUnique(a: int, b: int, c: int, e: int, r: int)
    requires 0 <= b <= 3 && 0 <= c <= 24 && 0 <= e <= 3 && 0 <= r < 365
    ensures SplitCycles(146097 * a + 36524 * b + 1461 * c + 365 * e + r) == Cycles(a, b, c, e, r)
  {
    var n0 := 146097 * a + 36524 * b + 1461 * c + 365 * e + r;
    var r400 := 36524 * b + 1461 * c + 365 * e + r;
    var r100 := 1461 * c + 365 * e + r;
    var r4 := 365 * e + r;
    assert n0 / 146097 == a && n0 % 146097 == r400;
    assert r400 / 36524 == b && r400 % 36524 == r100;
    assert r100 / 1461 == c && r100 % 1461 == r4;
    assert r4 / 365 == e && r4 % 365 == r;
  }

  /** Year 400a + 100b + 4c + e + 1 is a leap year exactly when it closes a 4-year cycle that is not a plain century. */
  lemma LeapYearByCycles(a: int, b: int, c: int, e: int)
    requires 0 <= b <= 3 && 0 <= c <= 24 && 0 <= e <= 3
    ensures IsLeapYear(400 * a + 100 * b + 4 * c + e + 1) <==> e == 3 && (c != 24 || b == 3)
  {
    if e < 3 {
      DivideExactly(100 * a + 25 * b + c, e + 1, 4);
    } else if c < 24 {
      DivideExactly(100 * a + 25 * b + c + 1, 0, 4);
      DivideExactly(4 * a + b, 4 * c + 4, 100);
    } else if b < 3 {
      DivideExactly(100 * a + 25 * b + 25, 0, 4);
      DivideExactly(4 * a + b + 1, 0, 100);
      DivideExactly(a, 100 * b + 100, 400);
    } else {
      DivideExactly(100 * a + 100, 0, 4);
      DivideExactly(4 * a + 4, 0, 100);
      DivideExactly(a + 1, 0, 400);
    }
  }

  /** Days before the year that follows whole cycles: 400a + 100b + 4c + e years. */
  lemma DaysBeforeYearByCycles(a: int, b: int, c: int, e: int)
    requires 0 <= b <= 3 && 0 <= c <= 24 && 0 <= e <= 3
    ensures DaysBeforeYear(400 * a + 100 * b + 4 * c + e + 1) == 146097 * a + 36524 * b + 1461 * c + 365 * e
  {
    var p := 400 * a + 100 * b + 4 * c + e;
    assert p / 4 == 100 * a + 25 * b + c;
    assert p / 100 == 4 * a + b;
    assert p / 400 == a;
  }

  /** The date of an ordinal, as CPython's `_ord2ymd` computes it. */
  function FromOrdinal(n: int): (d: Date)
    ensures ValidDate(d)
  {
    var k := SplitCycles(n - 1);
    var year := 400 * k.n400 + 100 * k.n100 + 4 * k.n4 + k.n1 + 1;
    if k.n1 == 4 || k.n100 == 4 then
      // the last day of a leap year that closes a 4- or a 400-year cycle
      Date(year - 1, 12, 31)
    else
      var m := MonthOf(year, k.rest);
      Date(year, m, k.rest - DaysBeforeMonth(year, m) + 1)
  }

  /** Every ordinal names a date whose ordinal is the one it came from. */
  lemma OrdinalRoundTrip(n: int)
    ensures ToOrdinal(FromOrdinal(n)) == n
  {
    var k := SplitCycles(n - 1);
    var a, b, c, e, r := k.n400, k.n100, k.n4, k.n1, k.rest;
    if b == 4 || e == 4 {
      var b', c' := if b == 4 then 3 else b, if b == 4 then 24 else c;
      assert n == 146097 * a + 36524 * b' + 1461 * c' + 1461;
      FromOrdinalLastDay(a, b', c');
      LastDayOrdinal(a, b', c');
      assert FromOrdinal(n) == Date(400 * a + 100 * b' + 4 * c' + 4, 12, 31);
    } else {
      var y := 400 * a + 100 * b + 4 * c + e + 1;
      FromOrdinalOfCycles(n, y, a, b, c, e, r);
      var d := FromOrdinal(n);
      assert d.year == y && d.day == r - DaysBeforeMonth(y, d.month) + 1;
      assert DaysBeforeYear(y) == n - 1 - r by {
        DaysBeforeYearByCycles(a, b, c, e);
      }
      assert ToOrdinal(d) == DaysBeforeYear(y) + r + 1;
    }
  }

  /** A year counted in whole 400-, 100-, 4- and 1-year cycles from year 1. */
  lemma YearCycles(y: int) returns (a: int, b: int, c: int, e: int)
    ensures y == 400 * a + 100 * b + 4 * c + e + 1
    ensures 0 <= b <= 3 && 0 <= c <= 24 && 0 <= e <= 3
  {
    var p := y - 1;
    var r400 := p % 400;
    var r100 := r400 % 100;
    a, b, c, e := p / 400, r400 / 100, r100 / 4, r100 % 4;
  }

  /** Every valid date is the date of its own ordinal. */
  lemma DateRoundTrip(d: Date)
    requires ValidDate(d)
    ensures FromOrdinal(ToOrdinal(d)) == d
  {
    var a, b, c, e := YearCycles(d.year);
    if DayOfYear(d) == 366 {
      LastDayRoundTrip(d, a, b, c, e);
    } else {
      InYearRoundTrip(d, a, b, c, e);
    }
  }

  /** DateRoundTrip for December 31 of a leap year, where the split reaches 4 centuries or 4 years. */
  lemma LastDayRoundTrip(d: Date, a: int, b: int, c: int, e: int)
    requires ValidDate(d) && DayOfYear(d) == 366
    requires d.year == 400 * a + 100 * b + 4 * c + e + 1 && 0 <= b <= 3 && 0 <= c <= 24 && 0 <= e <= 3
    ensures FromOrdinal(ToOrdinal(d)) == d
  {
    assert e == 3 && (c == 24 ==> b == 3) by {
      LeapYearByCycles(a, b, c, e);
    }
    assert d.month == 12 && d.day == 31;
    assert ToOrdinal(d) == 146097 * a + 36524 * b + 1461 * c + 1461 by {
      DaysBeforeYearByCycles(a, b, c, e);
    }
    FromOrdinalLastDay(a, b, c);
  }

  /** December 31 of the leap year 400a + 100b + 4c + 4 and its ordinal. */
  lemma LastDayOrdinal(a: int, b: int, c: int)
    requires 0 <= b <= 3 && 0 <= c <= 24 && (c == 24 ==> b == 3)
    ensures var d := Date(400 * a + 100 * b + 4 * c + 4, 12, 31);
      ValidDate(d) && ToOrdinal(d) == 146097 * a + 36524 * b + 1461 * c + 1461
  {
    DaysBeforeYearByCycles(a, b, c, 3);
    LeapYearByCycles(a, b, c, 3);
  }

  /** The ordinal that closes a 4-year (or 400-year) cycle is December 31 of a leap year. */
  lemma FromOrdinalLastDay(a: int, b: int, c: int)
    requires 0 <= b <= 3 && 0 <= c <= 24 && (c == 24 ==> b == 3)
    ensures FromOrdinal(146097 * a + 36524 * b + 1461 * c + 1461) == Date(400 * a + 100 * b + 4 * c + 4, 12, 31)
  {
    SplitCyclesLastDay(a, b, c);
  }

  /** DateRoundTrip for every other day, where the split stays below 4. */
  lemma InYearRoundTrip(d: Date, a: int, b: int, c: int, e: int)
    requires ValidDate(d) && DayOfYear(d) < 366
    requires d.year == 400 * a + 100 * b + 4 * c + e + 1 && 0 <= b <= 3 && 0 <= c <= 24 && 0 <= e <= 3
    ensures FromOrdinal(ToOrdinal(d)) == d
  {
    var doy, n := DayOfYear(d) - 1, ToOrdinal(d);
    assert n - 1 == 146097 * a + 36524 * b + 1461 * c + 365 * e + doy by {
      DaysBeforeYearByCycles(a, b, c, e);
    }
    MonthOfUnique(d.year, doy, d.month);
    assert d.day == doy - DaysBeforeMonth(d.year, d.month) + 1;
    FromOrdinalOfCycles(n, d.year, a, b, c, e, doy);
  }

  /** The date of an ordinal whose split has no cycle count of 4 lies inside the year the split names. */
  lemma FromOrdinalOfCycles(n: int, y: int, a: int, b: int, c: int, e: int, r: int)
    requires n - 1 == 146097 * a + 36524 * b + 1461 * c + 365 * e + r
    requires y == 400 * a + 100 * b + 4 * c + e + 1
    requires 0 <= b <= 3 && 0 <= c <= 24 && 0 <= e <= 3 && 0 <= r < 365
    ensures r < DaysInYear(y) && FromOrdinal(n) == Date(y, MonthOf(y, r), r - DaysBeforeMonth(y, MonthOf(y, r)) + 1)
  {
    assert SplitCycles(n - 1) == Cycles(a, b, c, e, r) by {
      SplitCyclesUnique(a, b, c, e, r);
    }
    assert r < DaysInYear(y);
  }

  /** The last day of a leap year closing a 4-year (or a 400-year) cycle is where the split reaches 4. */
  lemma SplitCyclesLastDay(a: int, b: int, c: int)
    requires 0 <= b <= 3 && 0 <= c <= 24 && (c == 24 ==> b == 3)
    ensures c < 24 ==> SplitCycles(146097 * a + 36524 * b + 1461 * c + 1460) == Cycles(a, b, c, 4, 0)
    ensures c == 24 ==> SplitCycles(146097 * a + 146096) == Cycles(a, 4, 0, 0, 0)
  {
    if c < 24 {
      var n0 := 146097 * a + 36524 * b + 1461 * c + 1460;
      assert n0 / 146097 == a && n0 % 146097 == 36524 * b + 1461 * c + 1460;
      assert (36524 * b + 1461 * c + 1460) / 36524 == b;
    } else {
      var n0 := 146097 * a + 146096;
      assert n0 / 146097 == a && n0 % 146097 == 146096;
    }
  }

  /** A day of the year lies in exactly one month. */
  lemma MonthOfUnique(y: int, doy: int, m: int)
    requires 1 <= m <= 12
    requires 0 <= doy && DaysBeforeMonth(y, m) <= doy < DaysBeforeMonth(y, m) + DaysInMonth(y, m)
    ensures doy < DaysInYear(y) && MonthOf(y, doy) == m
  {
  }

  /** Corollary of DateRoundTrip: two valid dates with one ordinal are one date. */
  lemma ToOrdinalInjective(d1: Date, d2: Date)
    requires ValidDate(d1) && ValidDate(d2) && ToOrdinal(d1) == ToOrdinal(d2)
    ensures d1 == d2
  {
    DateRoundTrip(d1);
    DateRoundTrip(d2);
  }

  /** The ordinal of 1970-01-01, the Unix epoch. */
  const EpochOrdinal := 719163

  /** Seconds after the epoch of the whole second a datetime names. */
  function EpochSeconds(t: UtcDateTime): int {
    (ToOrdinal(t.date) - EpochOrdinal) * 86400 + t.hour * 3600 + t.minute * 60 + t.second
  }

  /** Milliseconds after the epoch of a datetime; a fraction of a millisecond is dropped. */
  function ToEpochMillis(t: UtcDateTime): int {
    EpochSeconds(t) * 1000 + t.microsecond / 1000
  }

  /**
   * `datetime.utcfromtimestamp(ts / 1000)` for ts milliseconds after the
   * epoch: the date and time of day of floor(ts / 1000) seconds, and the
   * milliseconds left over as microseconds. Times before the epoch floor
   * as well, as Python's do.
   */
  function FromEpochMillis(ts: int): UtcDateTime {
    var secs := ts / 1000;
    var sod := secs % 86400;
    DateTime(FromOrdinal(secs / 86400 + EpochOrdinal), sod / 3600, sod % 3600 / 60, sod % 60, ts % 1000 * 1000)
  }

  /** Midnight of 1970-01-01 is the epoch, millisecond 0. */
  lemma EpochIsMidnightJanuaryFirst1970()
    ensures ToEpochMillis(DateTime(Date(1970, 1, 1), 0, 0, 0, 0)) == 0
  {
    assert DaysBeforeYear(1970) == 719162;
  }

  /** Reassembling year, month, day, hour, minute and second gives back floor(ts / 1000). */
  lemma EpochSecondsOfMillis(ts: int)
    ensures EpochSeconds(FromEpochMillis(ts)) == ts / 1000
  {
    var t := FromEpochMillis(ts);
    var x := ts / 1000 / 86400 + EpochOrdinal;
    assert t.date == FromOrdinal(x);
    assert ToOrdinal(t.date) == x by {
      OrdinalRoundTrip(x);
    }
    SecondsOfDay(ts / 1000, t.hour, t.minute, t.second);
  }

  /** A second count is whole days plus the hour, minute and second of the day. */
  lemma SecondsOfDay(secs: int, h: int, m: int, s: int)
    requires h == secs % 86400 / 3600 && m == secs % 86400 % 3600 / 60 && s == secs % 86400 % 60
    ensures secs == secs / 86400 * 86400 + h * 3600 + m * 60 + s
  {
  }

  /** Converting milliseconds to a datetime loses nothing: converting back gives ts. */
  lemma EpochMillisRoundTrip(ts: int)
    ensures ToEpochMillis(FromEpochMillis(ts)) == ts
  {
    EpochSecondsOfMillis(ts);
  }

  /** A datetime with whole milliseconds is the datetime of its own epoch milliseconds. */
  lemma DateTimeRoundTrip(t: UtcDateTime)
    requires t.microsecond % 1000 == 0
    ensures FromEpochMillis(ToEpochMillis(t)) == t
  {
    var days := ToOrdinal(t.date) - EpochOrdinal;
    var sod := t.hour * 3600 + t.minute * 60 + t.second;
    var secs := EpochSeconds(t);
    var ts := ToEpochMillis(t);
    assert ts / 1000 == secs && ts % 1000 * 1000 == t.microsecond by {
      DivideExactly(secs, t.microsecond / 1000, 1000);
    }
    assert secs / 86400 == days && secs % 86400 == sod by {
      DivideExactly(days, sod, 86400);
    }
    assert sod / 3600 == t.hour && sod % 3600 / 60 == t.minute && sod % 60 == t.second by {
      TimeOfDaySplit(t.hour, t.minute, t.second);
    }
    assert FromOrdinal(days + EpochOrdinal) == t.date by {
      DateRoundTrip(t.date);
    }
  }

  /** q * d + r divided by d, for a remainder r within 0 .. d - 1. */
  lemma DivideExactly(q: int, r: int, d: int)
    requires d == 4 || d == 100 || d == 400 || d == 1000 || d == 86400
    requires 0 <= r < d
    ensures (q * d + r) / d == q && (q * d + r) % d == r
  {
    if d == 4 {
      assert (q * 4 + r) / 4 == q && (q * 4 + r) % 4 == r;
    } else if d == 100 {
      assert (q * 100 + r) / 100 == q && (q * 100 + r) % 100 == r;
    } else if d == 400 {
      assert (q * 400 + r) / 400 == q && (q * 400 + r) % 400 == r;
    } else if d == 1000 {
      assert (q * 1000 + r) / 1000 == q && (q * 1000 + r) % 1000 == r;
    } else {
      assert (q * 86400 + r) / 86400 == q && (q * 86400 + r) % 86400 == r;
    }
  }

  /** A second of the day splits back into its hour, minute and second. */
  lemma TimeOfDaySplit(h: int, m: int, s: int)
    requires 0 <= h < 24 && 0 <= m < 60 && 0 <= s < 60
    ensures var sod := h * 3600 + m * 60 + s;
      sod / 3600 == h && sod % 3600 / 60 == m && sod % 60 == s
  {
    var sod := h * 3600 + m * 60 + s;
    assert sod / 3600 == h && sod % 3600 == m * 60 + s;
    assert (m * 60 + s) / 60 == m;
    assert sod == (h * 60 + m) * 60 + s;
  }

  /** Spark `dayofweek`: 1 = Sunday, 2 = Monday, ..., 7 = Saturday. */
  function DayOfWeek(d: Date): int
    requires ValidDate(d)
  {
    ToOrdinal(d) % 7 + 1
  }

  /** The ISO 8601 weekday of an ordinal: 1 = Monday, ..., 7 = Sunday. */
  function IsoWeekday(n: int): int {
    (n - 1) % 7 + 1
  }

  /**
   * Spark `weekofyear`, the ISO 8601 week number: a Monday-to-Sunday week
   * belongs to the year that holds its Thursday, and is numbered by the
   * position of that Thursday within the year.
   */
  function WeekOfYear(d: Date): (w: int)
    requires ValidDate(d)
    ensures 1 <= w <= 53
  {
    var n := ToOrdinal(d);
    WeekOfThursday(n - IsoWeekday(n) + 4)
  }

  /** The number of the week whose Thursday has the given ordinal: week w holds the days 7w - 6 to 7w of the Thursday's year. */
  function WeekOfThursday(thursday: int): (w: int)
    ensures 1 <= w <= 53
    ensures 7 * (w - 1) < DayOfYear(FromOrdinal(thursday)) <= 7 * w
  {
    (DayOfYear(FromOrdinal(thursday)) - 1) / 7 + 1
  }

  /** 1970-01-01, the epoch, was a Thursday. */
  lemma EpochWasThursday()
    ensures DayOfWeek(Date(1970, 1, 1)) == 5
  {
    assert ToOrdinal(Date(1970, 1, 1)) == 719163 by {
      assert DaysBeforeYear(1970) == 719162;
    }
  }

  /** Spark's weekday is the ISO one shifted to start on Sunday: ISO 7 (Sunday) is 1, ISO 1 (Monday) is 2. */
  lemma DayOfWeekIsShiftedIsoWeekday(d: Date)
    requires ValidDate(d)
    ensures DayOfWeek(d) == IsoWeekday(ToOrdinal(d)) % 7 + 1
  {
    var n := ToOrdinal(d);
    assert n % 7 == ((n - 1) % 7 + 1) % 7 by {
      ModSevenShift(n - 1, 1);
    }
  }

  /**
   * k days after a date comes k weekdays later, cyclically: the day after
   * a Saturday (7) is a Sunday (1), and weekdays repeat every 7 days.
   */
  lemma DayOfWeekShift(d: Date, u: Date, k: int)
    requires ValidDate(d) && ValidDate(u) && ToOrdinal(u) == ToOrdinal(d) + k
    ensures DayOfWeek(u) == (DayOfWeek(d) - 1 + k) % 7 + 1
  {
    ModSevenShift(ToOrdinal(d), k);
  }

  /** Adding k to a number adds k to its remainder modulo 7, cyclically. */
  lemma ModSevenShift(n: int, k: int)
    ensures (n + k) % 7 == (n % 7 + k) % 7
  {
    var q, r := (n % 7 + k) / 7, (n % 7 + k) % 7;
    assert n + k == 7 * (n / 7 + q) + r;
  }

  /** The Monday of the week of an ordinal that is not a Sunday is also the Monday of the week of the next ordinal. */
  lemma SameMonday(n: int)
    requires IsoWeekday(n) < 7
    ensures n + 1 - IsoWeekday(n + 1) == n - IsoWeekday(n)
  {
  }

  /** January 4 always lies in week 1. */
  lemma JanuaryFourthInWeekOne(y: int)
    ensures WeekOfYear(Date(y, 1, 4)) == 1
  {
    var n := ToOrdinal(Date(y, 1, 4));
    var k := n - IsoWeekday(n) + 4 - DaysBeforeYear(y);
    assert 1 <= k <= 7;
    DateRoundTrip(Date(y, 1, k));
  }

  /** Monday to Sunday of one week share a week number: a day that is not a Sunday is in the week of the day after it. */
  lemma WeekOfYearWithinWeek(d: Date, next: Date)
    requires ValidDate(d) && ValidDate(next) && ToOrdinal(next) == ToOrdinal(d) + 1
    requires IsoWeekday(ToOrdinal(d)) < 7
    ensures WeekOfYear(next) == WeekOfYear(d)
  {
    var n := ToOrdinal(d);
    SameMonday(n);
    assert ToOrdinal(next) - IsoWeekday(ToOrdinal(next)) == n - IsoWeekday(n);
  }

  /**
   * From a Sunday to the Monday after it the week number moves on: to 1
   * when the new week's Thursday falls on January 1 to 7, so that the
   * week belongs to the new year, and otherwise to the next number.
   */
  lemma WeekOfYearNextWeek(d: Date, next: Date)
    requires ValidDate(d) && ValidDate(next) && ToOrdinal(next) == ToOrdinal(d) + 1
    requires IsoWeekday(ToOrdinal(d)) == 7
    ensures var thursday := FromOrdinal(ToOrdinal(next) + 3);
      WeekOfYear(next) == if DayOfYear(thursday) <= 7 then 1 else WeekOfYear(d) + 1
  {
    var t, u := ToOrdinal(d) - 3, ToOrdinal(next) + 3;
    MondayAfterSunday(ToOrdinal(next));
    WeekOfSunday(d, t);
    WeekOfMonday(next, u);
    WeekOfThursdayAfter(t, u);
  }

  /** The day after an ISO Sunday (7) is an ISO Monday (1). */
  lemma MondayAfterSunday(n: int)
    requires IsoWeekday(n - 1) == 7
    ensures IsoWeekday(n) == 1
  {
    ModSevenShift(n - 2, 1);
  }

  /** A Monday's week is the week of the Thursday three days later. */
  lemma WeekOfMonday(d: Date, thursday: int)
    requires ValidDate(d) && IsoWeekday(ToOrdinal(d)) == 1 && thursday == ToOrdinal(d) + 3
    ensures WeekOfYear(d) == WeekOfThursday(thursday)
  {
  }

  /** A Sunday's week is the week of the Thursday three days earlier. */
  lemma WeekOfSunday(d: Date, thursday: int)
    requires ValidDate(d) && IsoWeekday(ToOrdinal(d)) == 7 && thursday == ToOrdinal(d) - 3
    ensures WeekOfYear(d) == WeekOfThursday(thursday)
  {
  }

  /** The Thursday u a week after t is in the week after t's, or in week 1 when it falls on January 1 to 7. */
  lemma WeekOfThursdayAfter(t: int, u: int)
    requires u == t + 7
    ensures WeekOfThursday(u) == if DayOfYear(FromOrdinal(u)) <= 7 then 1 else WeekOfThursday(t) + 1
  {
    var a, b := FromOrdinal(u), FromOrdinal(t);
    if DayOfYear(a) > 7 {
      OrdinalRoundTrip(u);
      OrdinalRoundTrip(t);
      SevenDaysBefore(a, b);
    }
  }

  /** Seven days before a day past the first week of its year is seven days earlier in the same year. */
  lemma SevenDaysBefore(d: Date, e: Date)
    requires ValidDate(d) && ValidDate(e) && ToOrdinal(e) == ToOrdinal(d) - 7
    requires DayOfYear(d) > 7
    ensures e.year == d.year && DayOfYear(e) == DayOfYear(d) - 7
  {
    var y, k := d.year, DayOfYear(d) - 7;
    var m := MonthOf(y, k - 1);
    var f := Date(y, m, k - DaysBeforeMonth(y, m));
    assert ToOrdinal(f) == ToOrdinal(e);
    ToOrdinalInjective(e, f);
  }

  /** 2021-01-01, a Friday, lies in the last week of 2020, week 53, whose Thursday is 2020-12-31. */
  lemma NewYearsDay2021InWeek53()
    ensures WeekOfYear(Date(2021, 1, 1)) == 53
  {
    var thursday := Date(2020, 12, 31);
    assert ToOrdinal(thursday) == 737790 by {
      assert DaysBeforeYear(2020) == 737424;
    }
    assert ToOrdinal(Date(2021, 1, 1)) == 737791;
    DateRoundTrip(thursday);
  }
}
