// Python's `datetime.date` as far as the program uses it: the proleptic
// Gregorian calendar of years 1..9999, day arithmetic, `weekday()` and the
// `strftime` directives `%Y`, `%m` and `%d`.

module Dates {
  import opened Wrappers
  import opened Strings

  datatype Date = Date(year: int, month: int, day: int)

  predicate IsLeap(y: int) {
    y % 4 == 0 && (y % 100 != 0 || y % 400 == 0)
  }

  function DaysInMonth(y: int, m: int): (n: int)
    requires 1 <= m <= 12
    ensures 28 <= n <= 31
    ensures n == 29 <==> m == 2 && IsLeap(y)
  {
    if m == 2 then (if IsLeap(y) then 29 else 28)
    else if m == 4 || m == 6 || m == 9 || m == 11 then 30
    else 31
  }

  /** The dates `datetime.date` can represent (`MINYEAR` 1 to `MAXYEAR` 9999). */
  predicate ValidDate(d: Date) {
    1 <= d.year <= 9999 && 1 <= d.month <= 12 && 1 <= d.day <= DaysInMonth(d.year, d.month)
  }

  /** `datetime.date(y, m, d)`: `ValueError` for a date that does not exist. */
  function MakeDate(y: int, m: int, d: int): (r: Result<Date>)
    ensures r.Ok? <==> ValidDate(Date(y, m, d))
    ensures r.Ok? ==> r.value == Date(y, m, d)
    ensures r.Err? ==> r.error == ValueError
  {
    if ValidDate(Date(y, m, d)) then Ok(Date(y, m, d)) else Err(ValueError)
  }

  // ---------------------------------------------------------------------
  // Day numbers: `date.toordinal()`, day 1 being 0001-01-01

  function DaysBeforeYear(y: int): int
    requires y >= 1
  {
    var p := y - 1;
    365 * p + p / 4 - p / 100 + p / 400
  }

  /** Days in the months of year `y` before month `m` (`m == 13` gives the year's length). */
  function DaysBeforeMonth(y: int, m: int): int
    requires 1 <= m <= 13
  {
    [0, 31, 59, 90, 120, 151, 181, 212, 243, 273, 304, 334, 365][m - 1] + (if m > 2 && IsLeap(y) then 1 else 0)
  }

  /** Each month starts where the previous one ends. */
  lemma MonthStep(y: int, m: int)
    requires 1 <= m <= 12
    ensures DaysBeforeMonth(y, m + 1) == DaysBeforeMonth(y, m) + DaysInMonth(y, m)
  {
  }

  function Ordinal(d: Date): int
    requires ValidDate(d)
  {
    DaysBeforeYear(d.year) + DaysBeforeMonth(d.year, d.month) + d.day
  }

  /** A year has 366 days when it is a leap year and 365 otherwise. */
  lemma YearLength(y: int)
    requires y >= 1
    ensures DaysBeforeYear(y + 1) == DaysBeforeYear(y) + DaysBeforeMonth(y, 13)
  {
    YearDays(y);
    LeapSteps(y);
    assert DaysBeforeYear(y + 1) - DaysBeforeYear(y) ==
      365 + (y / 4 - (y - 1) / 4) - (y / 100 - (y - 1) / 100) + (y / 400 - (y - 1) / 400);
  }

  lemma YearDays(y: int)
    ensures DaysBeforeMonth(y, 13) == if IsLeap(y) then 366 else 365
  {
  }

  /** The leap days up to `y` exceed those up to `y - 1` exactly when `y` is a leap year. */
  lemma LeapSteps(y: int)
    ensures (y / 4 - (y - 1) / 4) - (y / 100 - (y - 1) / 100) + (y / 400 - (y - 1) / 400) == if IsLeap(y) then 1 else 0
  {
    DivStep4(y);
    DivStep100(y);
    DivStep400(y);
    if y % 100 == 0 {
      Mod100Mod4(y);
    }
    if y % 400 == 0 {
      Mod400Mod100(y);
    }
  }

  /** A multiple of 100 is a multiple of 4. */
  lemma Mod100Mod4(y: int)
    requires y % 100 == 0
    ensures y % 4 == 0
  {
    assert y == 4 * (25 * (y / 100));
  }

  /** A multiple of 400 is a multiple of 100. */
  lemma Mod400Mod100(y: int)
    requires y % 400 == 0
    ensures y % 100 == 0
  {
    assert y == 100 * (4 * (y / 400));
  }

  /** Going from `y - 1` to `y` adds one multiple of 4 exactly when `y` is one. */
  lemma DivStep4(y: int)
    ensures y / 4 - (y - 1) / 4 == if y % 4 == 0 then 1 else 0
  {
  }

  lemma DivStep100(y: int)
    ensures y / 100 - (y - 1) / 100 == if y % 100 == 0 then 1 else 0
  {
  }

  lemma DivStep400(y: int)
    ensures y / 400 - (y - 1) / 400 == if y % 400 == 0 then 1 else 0
  {
  }

  /** `date.weekday()`: Monday is 0 and Sunday is 6 (0001-01-01 was a Monday). */
  function Weekday(d: Date): (w: int)
    requires ValidDate(d)
    ensures 0 <= w < 7
  {
    (Ordinal(d) + 6) % 7
  }

  /**
    `d - timedelta(days=1)`: the previous day, across month and year ends;
    `OverflowError` before 0001-01-01.
  */
  function DayBefore(d: Date): (r: Result<Date>)
    requires ValidDate(d)
    ensures r.Err? <==> d == Date(1, 1, 1)
    ensures r.Err? ==> r.error == OverflowError
    ensures r.Ok? ==> ValidDate(r.value)
  {
    if d.day > 1 then Ok(Date(d.year, d.month, d.day - 1))
    else if d.month > 1 then Ok(Date(d.year, d.month - 1, DaysInMonth(d.year, d.month - 1)))
    else if d.year > 1 then Ok(Date(d.year - 1, 12, 31))
    else Err(OverflowError)
  }

  /** `DayBefore` goes back exactly one day number, so it never skips or repeats a date. */
  lemma DayBeforeOrdinal(d: Date)
    requires ValidDate(d) && d != Date(1, 1, 1)
    ensures Ordinal(DayBefore(d).value) == Ordinal(d) - 1
  {
    if d.day == 1 && d.month == 1 {
      YearLength(d.year - 1);
    }
  }

  /** Consecutive days fall on consecutive weekdays. */
  lemma DayBeforeWeekday(d: Date)
    requires ValidDate(d) && d != Date(1, 1, 1)
    ensures (Weekday(DayBefore(d).value) + 1) % 7 == Weekday(d)
  {
    DayBeforeOrdinal(d);
    WeekStep(Ordinal(DayBefore(d).value), Ordinal(d));
  }

  lemma WeekStep(m: int, n: int)
    requires m == n - 1
    ensures ((m + 6) % 7 + 1) % 7 == (n + 6) % 7
  {
  }

  /** Distinct valid dates have distinct day numbers. */
  lemma {:induction false} OrdinalInjective(a: Date, b: Date)
    requires ValidDate(a) && ValidDate(b) && Ordinal(a) == Ordinal(b)
    ensures a == b
  {
    MonthBounds(a.year, a.month);
    MonthBounds(b.year, b.month);
    if a.year < b.year {
      YearsBefore(a.year, b.year);
      assert false;
    } else if b.year < a.year {
      YearsBefore(b.year, a.year);
      assert false;
    } else if a.month < b.month {
      MonthsBefore(a.year, a.month, b.month);
      assert false;
    } else if b.month < a.month {
      MonthsBefore(a.year, b.month, a.month);
      assert false;
    }
  }

  lemma MonthBounds(y: int, m: int)
    requires 1 <= m <= 12
    ensures 0 <= DaysBeforeMonth(y, m) && DaysBeforeMonth(y, m) + DaysInMonth(y, m) <= DaysBeforeMonth(y, 13)
  {
  }

  lemma MonthsBefore(y: int, m1: int, m2: int)
    requires 1 <= m1 < m2 <= 13
    ensures DaysBeforeMonth(y, m1) + DaysInMonth(y, m1) <= DaysBeforeMonth(y, m2)
  {
  }

  lemma {:induction false} YearsBefore(y1: int, y2: int)
    requires 1 <= y1 < y2
    ensures DaysBeforeYear(y1) + DaysBeforeMonth(y1, 13) <= DaysBeforeYear(y2)
    decreases y2 - y1
  {
    YearLength(y1);
    if y2 > y1 + 1 {
      YearsBefore(y1 + 1, y2);
      YearLength(y1 + 1);
    }
  }

  // ---------------------------------------------------------------------
  // strftime

  /**
    `date.strftime('%Y-%m')`, the name of a month's directory. Python 2's
    `strftime` refuses years before 1900 with `ValueError`.
  */
  function MonthName(d: Date): (r: Result<string>)
    requires ValidDate(d)
    ensures r.Ok? <==> d.year >= 1900
    ensures r.Err? ==> r.error == ValueError
  {
    if d.year < 1900 then Err(ValueError)
    else Ok(PadDec(d.year, 4) + "-" + PadDec(d.month, 2))
  }

  /** `date.strftime('%d')`, the name of a day's entry file. */
  function DayName(d: Date): (r: string)
    requires ValidDate(d)
    ensures |r| == 2 && IsDigits(r) && DecValue(r) == d.day
  {
    PadDec(d.day, 2)
  }

  /** A month's directory name splits on `-` into its year and month, which `int()` reads back. */
  lemma MonthNameParses(d: Date)
    requires ValidDate(d) && d.year >= 1900
    ensures var fields := SplitOn(MonthName(d).value, '-');
      |fields| == 2 && PyInt(fields[0]) == Ok(d.year) && PyInt(fields[1]) == Ok(d.month)
  {
    var y := PadDec(d.year, 4);
    var m := PadDec(d.month, 2);
    assert '-' !in y by {
      forall i | 0 <= i < |y| ensures y[i] != '-' {
        assert IsDigit(y[i]);
      }
    }
    assert '-' !in m by {
      forall i | 0 <= i < |m| ensures m[i] != '-' {
        assert IsDigit(m[i]);
      }
    }
    SplitAtFirst(y, '-', m);
    SplitNoSep(m, '-');
    assert MonthName(d).value == y + ['-'] + m;
    PadDecParses(d.year, 4);
    PadDecParses(d.month, 2);
  }

  /** `int()` reads a zero-padded decimal back. */
  lemma PadDecParses(n: nat, width: nat)
    ensures PyInt(PadDec(n, width)) == Ok(n)
  {
    PyIntDigits(PadDec(n, width));
  }
}
