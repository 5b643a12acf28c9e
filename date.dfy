/** `date`: a year, month and day of the proleptic Gregorian calendar
    (src/date.cpp). Pure queries are functions on `DateValue`; the class
    `Date` holds the fields that the assign and step operators change. */
module Dates {

  import opened Arith
  import opened Wrappers
  import opened Months
  import Decimal

  const SecondsPerDay: int := 86400

  /** The three fields of a `date`, as a value. */
  datatype DateValue = DateValue(year: int, month: Month, day: int)
  {
    predicate Valid()
    {
      IsValid(year, month, day)
    }
  }

  /** `is_leap_year`: divisible by 4 and not by 100, or divisible by 400.
      A zero remainder means the same under C++'s truncating `%` as under
      Dafny's, so negative years follow the same rule. */
  predicate IsLeapYear(year: int)
    ensures IsLeapYear(year) ==> year % 4 == 0
  {
    (year % 4 == 0 && year % 100 != 0) || year % 400 == 0
  }

  lemma LeapYearExamples()
    ensures !IsLeapYear(1900) && IsLeapYear(2000) && IsLeapYear(2024) && !IsLeapYear(2023)
  {
  }

  /** `days_in_month(month, leap_year)`: the month-length table. */
  function DaysInMonth(month: Month, leap: bool): (r: int)
    ensures 28 <= r <= 31
    ensures r == 29 <==> month == Feb && leap
    ensures r == 28 <==> month == Feb && !leap
    ensures r == 30 <==> month == Apr || month == Jun || month == Sep || month == Nov
  {
    if month == Apr || month == Jun || month == Sep || month == Nov then 30
    else if month == Feb then (if leap then 29 else 28)
    else 31
  }

  /** `days_in_year(year)`. */
  function DaysInYear(year: int): (r: int)
    ensures r == 366 <==> DaysInMonth(Feb, IsLeapYear(year)) == 29
  {
    if IsLeapYear(year) then 366 else 365
  }

  /** `is_valid(year, month, day)`: the day lies within its month. */
  predicate IsValid(year: int, month: Month, day: int)
    ensures IsValid(year, month, day) ==> 1 <= day <= 31
    ensures 1 <= day <= 28 ==> IsValid(year, month, day)
  {
    0 < day <= DaysInMonth(month, IsLeapYear(year))
  }

  /** The days of the months strictly before month `m` (0 <= m <= 12). */
  function DaysBefore(m: int, leap: bool): nat
    requires 0 <= m <= 12
  {
    if m == 0 then 0 else DaysBefore(m - 1, leap) + DaysInMonth(m - 1, leap)
  }

  /** A leap year's extra day counts for every month after February. */
  lemma {:induction false} DaysBeforeLeap(m: int)
    requires 0 <= m <= 12
    ensures DaysBefore(m, true) == DaysBefore(m, false) + (if m >= 2 then 1 else 0)
  {
    if m > 0 {
      DaysBeforeLeap(m - 1);
    }
  }

  /** The twelve months of a common year hold 365 days. */
  lemma CommonYearMonths()
    ensures DaysBefore(12, false) == 365
  {
    assert DaysBefore(6, false) == 181;
  }

  /** A year is as long as its twelve months together. */
  lemma YearIsSumOfMonths(year: int)
    ensures DaysInYear(year) == DaysBefore(12, IsLeapYear(year))
  {
    DaysBeforeLeap(12);
    CommonYearMonths();
  }

  /** A later month starts after the end of an earlier one. */
  lemma {:induction false} DaysBeforeMonotone(m1: int, m2: int, leap: bool)
    requires 0 <= m1 < m2 <= 12
    ensures DaysBefore(m1, leap) + DaysInMonth(m1, leap) <= DaysBefore(m2, leap)
    decreases m2
  {
    if m1 + 1 < m2 {
      DaysBeforeMonotone(m1, m2 - 1, leap);
    }
  }

  /** The day of the year of a valid date lies in [1, days_in_year]. */
  lemma DayOfYearBounds(v: DateValue)
    requires v.Valid()
    ensures 1 <= DaysBefore(v.month, IsLeapYear(v.year)) + v.day <= DaysInYear(v.year)
  {
    YearIsSumOfMonths(v.year);
    DaysBeforeMonotone(v.month, 12, IsLeapYear(v.year));
  }

  lemma DayOfYearExample()
    ensures DaysBefore(Jul, IsLeapYear(1969)) + 21 == 202
  {
  }

  /** The `days_before_month` table inside `timestamp()`. */
  const DaysBeforeMonthTable: seq<int> := [0, 31, 59, 90, 120, 151, 181, 212, 243, 273, 304, 334]

  /** The table holds the days before each month of a common year. */
  lemma DaysBeforeMonthTableIsCumulative(m: Month)
    ensures DaysBeforeMonthTable[m] == DaysBefore(m, false)
  {
  }

  /** Days from 1970-01-01 to January 1 of `year`, negative before 1970:
      the sum `timestamp()` accumulates year by year. */
  function YearStart(year: int): int
    decreases if year >= 1970 then year - 1970 else 1970 - year
  {
    if year == 1970 then 0
    else if year > 1970 then YearStart(year - 1) + DaysInYear(year - 1)
    else YearStart(year + 1) - DaysInYear(year)
  }

  lemma YearStartStep(year: int)
    ensures YearStart(year + 1) == YearStart(year) + DaysInYear(year)
  {
  }

  /** A later year starts after the end of an earlier one. */
  lemma {:induction false} YearStartMonotone(y1: int, y2: int)
    requires y1 < y2
    ensures YearStart(y1) + DaysInYear(y1) <= YearStart(y2)
    decreases y2 - y1
  {
    YearStartStep(y1);
    if y1 + 1 < y2 {
      YearStartMonotone(y1 + 1, y2);
    }
  }

  /** Reference: days from 1970-01-01 to the date, as UNIX time counts them. */
  function EpochDay(v: DateValue): int
  {
    YearStart(v.year) + DaysBefore(v.month, IsLeapYear(v.year)) + v.day - 1
  }

  /** What `timestamp()` returns. The table is indexed with `month - 1`; for
      January that reads before the table (undefined behaviour), which is
      `None` here. */
  function TimestampOf(v: DateValue): (r: Option<int>)
    ensures r.Some? <==> v.month != Jan
    ensures r.Some? ==> r.value % SecondsPerDay == 0
  {
    if v.month == Jan then None
    else Some(SecondsPerDay * ((v.day - 1) + DaysBeforeMonthTable[v.month - 1]
                               + (if v.month > Jan && IsLeapYear(v.year) then 1 else 0)
                               + YearStart(v.year)))
  }

  /** Because of the `month - 1` index, `timestamp()` counts a date as lying
      one month earlier: it falls short of the UNIX day count by the length
      of the previous month in a common year (one day less for a leap-year
      February). It is still a whole number of days. */
  lemma TimestampLagsOneMonth(v: DateValue)
    requires v.month != Jan
    ensures TimestampOf(v) == Some(SecondsPerDay * (EpochDay(v) - DaysInMonth(v.month - 1, false)
                                                    + (if v.month == Feb && IsLeapYear(v.year) then 1 else 0)))
    ensures TimestampOf(v).value % SecondsPerDay == 0
  {
    var m, leap := v.month, IsLeapYear(v.year);
    DaysBeforeMonthTableIsCumulative(m - 1);
    DaysBeforeLeap(m);
    assert DaysBefore(m, false) == DaysBefore(m - 1, false) + DaysInMonth(m - 1, false);
    var days := (v.day - 1) + DaysBeforeMonthTable[m - 1] + (if m > Jan && leap then 1 else 0) + YearStart(v.year);
    assert days == EpochDay(v) - DaysInMonth(m - 1, false) + (if m == Feb && leap then 1 else 0);
    assert TimestampOf(v) == Some(SecondsPerDay * days);
  }

  /** The value the date test program expects for 1969-07-21, beside the UNIX time of that day. */
  lemma TimestampExample()
    ensures TimestampOf(DateValue(1969, Jul, 21)) == Some(-16761600)
    ensures EpochDay(DateValue(1969, Jul, 21)) * SecondsPerDay == -14169600
  {
    assert YearStart(1969) == -365;
  }

  /** A consequence of the lag: the timestamp of March 31 exceeds that of
      the following April 1, so timestamps do not follow the calendar. */
  lemma TimestampOutOfOrder()
    ensures Compare(DateValue(1969, Mar, 31), DateValue(1969, Apr, 1)) == -1
    ensures TimestampOf(DateValue(1969, Mar, 31)).value > TimestampOf(DateValue(1969, Apr, 1)).value
  {
  }

  /** `equals`: field-by-field equality. */
  function Equals(a: DateValue, b: DateValue): (r: bool)
    ensures r <==> a == b
  {
    a.year == b.year && a.month == b.month && a.day == b.day
  }

  /** `compare`: year first, then month ordinal, then day. */
  function Compare(a: DateValue, b: DateValue): (r: int)
    ensures r == -1 || r == 0 || r == 1
    ensures r == 0 <==> Equals(a, b)
    ensures r == 1 <==> a.year > b.year || (a.year == b.year && (a.month > b.month || (a.month == b.month && a.day > b.day)))
  {
    if a.year != b.year then (if a.year > b.year then 1 else -1)
    else if a.month != b.month then (if a.month > b.month then 1 else -1)
    else if a.day != b.day then (if a.day > b.day then 1 else -1)
    else 0
  }

  /** Swapping the operands negates the comparison. */
  lemma CompareAntisymmetric(a: DateValue, b: DateValue)
    ensures Compare(b, a) == -Compare(a, b)
  {
  }

  /** An earlier valid date has a smaller day count. */
  lemma EarlierHasSmallerEpochDay(a: DateValue, b: DateValue)
    requires a.Valid() && b.Valid() && Compare(a, b) == -1
    ensures EpochDay(a) < EpochDay(b)
  {
    DayOfYearBounds(a);
    if a.year < b.year {
      YearStartMonotone(a.year, b.year);
    } else if a.month < b.month {
      DaysBeforeMonotone(a.month, b.month, IsLeapYear(a.year));
    }
  }

  /** On valid dates the lexicographic comparison is the chronological order. */
  lemma CompareIsChronological(a: DateValue, b: DateValue)
    requires a.Valid() && b.Valid()
    ensures Compare(a, b) == Sign(EpochDay(a) - EpochDay(b))
  {
    if Compare(a, b) == -1 {
      EarlierHasSmallerEpochDay(a, b);
    } else if Compare(a, b) == 1 {
      CompareAntisymmetric(a, b);
      EarlierHasSmallerEpochDay(b, a);
    }
  }

  /** Two valid dates with the same day count are the same date. */
  lemma EpochDayInjective(a: DateValue, b: DateValue)
    requires a.Valid() && b.Valid() && EpochDay(a) == EpochDay(b)
    ensures a == b
  {
    CompareIsChronological(a, b);
  }

  /** What prefix and postfix `++` do to the fields. */
  function NextDay(v: DateValue): (r: DateValue)
    ensures v.Valid() ==> r.Valid()
    ensures r.year == v.year || (r.year == v.year + 1 && r.month == Jan && r.day == 1)
  {
    if v.day == DaysInMonth(v.month, IsLeapYear(v.year)) then
      if v.month == Dec then DateValue(v.year + 1, Jan, 1)
      else DateValue(v.year, v.month + 1, 1)
    else DateValue(v.year, v.month, v.day + 1)
  }

  /** `++` moves a valid date to the valid date one day later. */
  lemma NextDayIsNextEpochDay(v: DateValue)
    requires v.Valid()
    ensures NextDay(v).Valid()
    ensures EpochDay(NextDay(v)) == EpochDay(v) + 1
  {
    var leap := IsLeapYear(v.year);
    if v.day == DaysInMonth(v.month, leap) {
      if v.month == Dec {
        YearStartStep(v.year);
        YearIsSumOfMonths(v.year);
      }
    }
  }

  /** `++` makes a valid date compare greater than before. */
  lemma NextDayIsLater(v: DateValue)
    requires v.Valid()
    ensures Compare(NextDay(v), v) == 1
  {
    NextDayIsNextEpochDay(v);
    CompareIsChronological(NextDay(v), v);
  }

  /** What prefix and postfix `--` do to the fields as written: the month
      length of the previous month is looked up with the year itself as the
      leap flag, so every year but 0 counts as leap. */
  function PrevDayAsWritten(v: DateValue): (r: DateValue)
    ensures v.Valid() && !(v.month == Mar && v.day == 1) ==> r.Valid()
    ensures r.year == v.year || (r.year == v.year - 1 && r.month == Dec && r.day == 31)
  {
    if v.day > 1 then DateValue(v.year, v.month, v.day - 1)
    else if v.month == Jan then DateValue(v.year - 1, Dec, 31)
    else DateValue(v.year, v.month - 1, DaysInMonth(v.month - 1, v.year != 0))
  }

  /** Reference: the day before, with the leap flag of the year. */
  function PrevDay(v: DateValue): DateValue
  {
    if v.day > 1 then DateValue(v.year, v.month, v.day - 1)
    else if v.month == Jan then DateValue(v.year - 1, Dec, 31)
    else DateValue(v.year, v.month - 1, DaysInMonth(v.month - 1, IsLeapYear(v.year)))
  }

  /** The reference step back moves a valid date to the valid date one day earlier. */
  lemma PrevDayIsPreviousEpochDay(v: DateValue)
    requires v.Valid()
    ensures PrevDay(v).Valid()
    ensures EpochDay(PrevDay(v)) == EpochDay(v) - 1
  {
    var p := PrevDay(v);
    if v.day > 1 {
    } else if v.month == Jan {
      assert p == DateValue(v.year - 1, Dec, 31);
      YearStartStep(v.year - 1);
      YearIsSumOfMonths(v.year - 1);
      assert DaysBefore(12, IsLeapYear(p.year)) == DaysBefore(Dec, IsLeapYear(p.year)) + 31;
    } else {
      var leap := IsLeapYear(v.year);
      assert p == DateValue(v.year, v.month - 1, DaysInMonth(v.month - 1, leap));
      assert DaysBefore(v.month, leap) == DaysBefore(v.month - 1, leap) + DaysInMonth(v.month - 1, leap);
    }
  }

  /** Stepping back and forward are inverse on valid dates. */
  lemma NextPrevInverse(v: DateValue)
    requires v.Valid()
    ensures PrevDay(NextDay(v)) == v && NextDay(PrevDay(v)) == v
  {
    NextDayIsNextEpochDay(v);
    PrevDayIsPreviousEpochDay(v);
    NextDayIsNextEpochDay(PrevDay(v));
    PrevDayIsPreviousEpochDay(NextDay(v));
    EpochDayInjective(PrevDay(NextDay(v)), v);
    EpochDayInjective(NextDay(PrevDay(v)), v);
  }

  /** `--` as written agrees with the real previous day except on March 1
      of a year whose leap status differs from `year != 0`, and it yields an
      invalid date exactly on March 1 of a common year (February 29). */
  lemma PrevDayAsWrittenDefect(v: DateValue)
    requires v.Valid()
    ensures PrevDayAsWritten(v) == PrevDay(v) <==> !(v.month == Mar && v.day == 1 && (v.year != 0) != IsLeapYear(v.year))
    ensures PrevDayAsWritten(v).Valid() <==> !(v.month == Mar && v.day == 1 && !IsLeapYear(v.year))
  {
  }

  lemma PrevDayAsWrittenExample()
    ensures PrevDayAsWritten(DateValue(2023, Mar, 1)) == DateValue(2023, Feb, 29)
    ensures !DateValue(2023, Feb, 29).Valid()
    ensures PrevDayAsWritten(DateValue(0, Mar, 1)) == DateValue(0, Feb, 28) != PrevDay(DateValue(0, Mar, 1))
  {
  }

  /** Day arithmetic on a valid date as `days` single calendar steps. */
  function ShiftDays(v: DateValue, days: int): DateValue
    decreases if days >= 0 then days else -days
  {
    if days == 0 then v
    else if days > 0 then ShiftDays(NextDay(v), days - 1)
    else ShiftDays(PrevDay(v), days + 1)
  }

  /** `days` steps forward move the day count of a valid date up by `days`. */
  lemma {:induction false} ShiftForward(v: DateValue, days: int)
    requires v.Valid() && days >= 0
    ensures ShiftDays(v, days).Valid()
    ensures EpochDay(ShiftDays(v, days)) == EpochDay(v) + days
    decreases days
  {
    if days > 0 {
      NextDayIsNextEpochDay(v);
      ShiftForward(NextDay(v), days - 1);
    }
  }

  /** `days` steps back move the day count of a valid date down by `days`. */
  lemma {:induction false} ShiftBackward(v: DateValue, days: int)
    requires v.Valid() && days >= 0
    ensures ShiftDays(v, -days).Valid()
    ensures EpochDay(ShiftDays(v, -days)) == EpochDay(v) - days
    decreases days
  {
    if days > 0 {
      PrevDayIsPreviousEpochDay(v);
      ShiftBackward(PrevDay(v), days - 1);
    }
  }

  /** Shifting a valid date by `days` moves its day count by exactly `days`. */
  lemma ShiftDaysMovesEpochDay(v: DateValue, days: int)
    requires v.Valid()
    ensures ShiftDays(v, days).Valid()
    ensures EpochDay(ShiftDays(v, days)) == EpochDay(v) + days
  {
    if days >= 0 {
      ShiftForward(v, days);
    } else {
      ShiftBackward(v, -days);
    }
  }

  /** `D + n - n == D`. */
  lemma ShiftDaysRoundTrip(v: DateValue, days: int)
    requires v.Valid()
    ensures ShiftDays(ShiftDays(v, days), -days) == v
  {
    ShiftDaysMovesEpochDay(v, days);
    ShiftDaysMovesEpochDay(ShiftDays(v, days), -days);
    EpochDayInjective(ShiftDays(ShiftDays(v, days), -days), v);
  }

  /** Five days either side of 1969-07-22, as the datetime test program expects. */
  lemma ShiftDaysExample()
    ensures ShiftDays(DateValue(1969, Jul, 22), 5) == DateValue(1969, Jul, 27)
    ensures ShiftDays(DateValue(1969, Jul, 22), -5) == DateValue(1969, Jul, 17)
  {
    var v := DateValue(1969, Jul, 22);
    ShiftDaysMovesEpochDay(v, 5);
    ShiftDaysMovesEpochDay(v, -5);
    EpochDayInjective(ShiftDays(v, 5), DateValue(1969, Jul, 27));
    EpochDayInjective(ShiftDays(v, -5), DateValue(1969, Jul, 17));
  }

  /** `make_tm`, `tm_mday` moved by `days`, then `mktime`: the day field
      counts from the first of the month whatever its range, so `mktime`
      lands `day + days - 1` days after that first. A receiver that `--`
      left invalid (February 29 of a common year) is normalised the same
      way. Whatever the receiver's day, the result is a valid date whose day
      count is the receiver's plus `days`. */
  function CalendarShift(v: DateValue, days: int): (r: DateValue)
    ensures r.Valid()
    ensures EpochDay(r) == EpochDay(v) + days
  {
    ShiftDaysMovesEpochDay(DateValue(v.year, v.month, 1), v.day - 1 + days);
    ShiftDays(DateValue(v.year, v.month, 1), v.day - 1 + days)
  }

  /** On a valid receiver the normalisation changes nothing: the result is
      the calendar shift by single steps. */
  lemma CalendarShiftOfValid(v: DateValue, days: int)
    requires v.Valid()
    ensures CalendarShift(v, days) == ShiftDays(v, days)
  {
    ShiftDaysMovesEpochDay(v, days);
    EpochDayInjective(CalendarShift(v, days), ShiftDays(v, days));
  }

  /** In a common year `mktime` reads February 29 as March 1. */
  lemma CommonFebruary29Shift(year: int, days: int)
    requires !IsLeapYear(year)
    ensures CalendarShift(DateValue(year, Feb, 29), days) == ShiftDays(DateValue(year, Mar, 1), days)
  {
    var v, w := DateValue(year, Feb, 29), DateValue(year, Mar, 1);
    ShiftDaysMovesEpochDay(w, days);
    assert EpochDay(v) == EpochDay(w);
    EpochDayInjective(CalendarShift(v, days), ShiftDays(w, days));
  }

  /** 2023-02-29, which `--` makes from 2023-03-01, is read as 2023-03-01:
      `+ 0` gives 03-01 and `+ 1` gives 03-02. */
  lemma CalendarShiftExample()
    ensures CalendarShift(DateValue(2023, Feb, 29), 0) == DateValue(2023, Mar, 1)
    ensures CalendarShift(DateValue(2023, Feb, 29), 1) == DateValue(2023, Mar, 2)
  {
    CommonFebruary29Shift(2023, 0);
    CommonFebruary29Shift(2023, 1);
    assert ShiftDays(DateValue(2023, Mar, 1), 1) == ShiftDays(DateValue(2023, Mar, 2), 0);
  }

  /** The fields `+=` and `-=` hand to `assign`: the shifted date, but with
      the year read back from `tm_year` by subtracting 1900 where 1900 should
      have been added, so 3800 years too early. */
  function ShiftedAsWritten(v: DateValue, days: int): (r: DateValue)
    ensures r != CalendarShift(v, days)
  {
    var t := CalendarShift(v, days);
    DateValue(t.year - 3800, t.month, t.day)
  }

  /** As written, `+=` and `-=` never reach the calendar shift, and they
      fail (the `assign` throws) exactly when the shift lands on February 29
      and the year 3800 years earlier is common. */
  lemma ShiftedAsWrittenDefect(v: DateValue, days: int)
    ensures ShiftedAsWritten(v, days) != CalendarShift(v, days)
    ensures ShiftedAsWritten(v, days).Valid() <==>
              !(CalendarShift(v, days).month == Feb && CalendarShift(v, days).day == 29)
              || IsLeapYear(CalendarShift(v, days).year - 3800)
  {
  }

  /** The year that `+=` and `-=` read back, for a known normalised date. */
  lemma ShiftedAsWrittenYear(v: DateValue, days: int, t: DateValue)
    requires CalendarShift(v, days) == t
    ensures ShiftedAsWritten(v, days) == DateValue(t.year - 3800, t.month, t.day)
  {
  }

  /** 1969-07-22 `+= 5` gives -1831-07-27. */
  lemma ShiftedAsWrittenExample()
    ensures ShiftedAsWritten(DateValue(1969, Jul, 22), 5) == DateValue(-1831, Jul, 27)
  {
    ShiftDaysExample();
    CalendarShiftOfValid(DateValue(1969, Jul, 22), 5);
    ShiftedAsWrittenYear(DateValue(1969, Jul, 22), 5, DateValue(1969, Jul, 27));
  }

  /** 2000-02-28 `+= 1` asks for the invalid -1800-02-29 and throws. */
  lemma ShiftedAsWrittenLeapExample()
    ensures ShiftedAsWritten(DateValue(2000, Feb, 28), 1) == DateValue(-1800, Feb, 29)
    ensures !DateValue(-1800, Feb, 29).Valid()
  {
    assert IsLeapYear(2000) && !IsLeapYear(-1800);
    CalendarShiftOfValid(DateValue(2000, Feb, 28), 1);
    assert NextDay(DateValue(2000, Feb, 28)) == DateValue(2000, Feb, 29);
    ShiftedAsWrittenYear(DateValue(2000, Feb, 28), 1, DateValue(2000, Feb, 29));
  }

  /** 2023-02-29, left by `--`, `+= 0` assigns -1777-03-01. */
  lemma ShiftedAsWrittenInvalidReceiver()
    ensures ShiftedAsWritten(DateValue(2023, Feb, 29), 0) == DateValue(-1777, Mar, 1)
  {
    CalendarShiftExample();
  }

  /** The year field of `operator<<`: a negative year prints '-' and then
      `-year - 1`; the number is zero-padded to at least four digits. */
  function YearText(year: int): (r: string)
    ensures |r| >= 4 && (r[0] == '-' <==> year < 0)
    ensures 0 <= year <= 9999 ==> |r| == 4 && Decimal.AllDigits(r)
  {
    if year < 0 then
      Decimal.FourDigitsRoundTrip(-year - 1);
      "-" + Decimal.FourDigits(-year - 1)
    else
      Decimal.FourDigitsRoundTrip(year);
      Decimal.FourDigits(year)
  }

  /** `operator<<`: `YYYY-MM-DD`, the month printed as ordinal + 1. */
  function Show(v: DateValue): (r: string)
    ensures |r| > 0 && (r[0] == '-' <==> v.year < 0)
  {
    YearText(v.year) + "-" + Decimal.TwoDigits(v.month + 1) + "-" + Decimal.TwoDigits(v.day)
  }

  function ParseYear(s: string): Option<int>
  {
    if |s| >= 2 && s[0] == '-' && Decimal.AllDigits(s[1..]) then Some(-(Decimal.Value(s[1..]) as int) - 1)
    else if |s| >= 1 && Decimal.AllDigits(s) then Some(Decimal.Value(s))
    else None
  }

  /** Reads the three fields of `operator<<` text, already separated. */
  function ParseParts(yearText: string, monthText: string, dayText: string): Option<DateValue>
  {
    if !Decimal.AllDigits(monthText) || !Decimal.AllDigits(dayText) || !(1 <= Decimal.Value(monthText) <= 12) then None
    else match ParseYear(yearText)
      case None => None
      case Some(y) => Some(DateValue(y, Decimal.Value(monthText) - 1, Decimal.Value(dayText)))
  }

  /** Reads `operator<<` text back; not part of the library, it states that
      the stream form loses nothing. */
  function Parse(s: string): Option<DateValue>
  {
    if |s| < 7 || s[|s| - 6] != '-' || s[|s| - 3] != '-' then None
    else ParseParts(s[..|s| - 6], s[|s| - 5..|s| - 3], s[|s| - 2..])
  }

  lemma ParseYearNegative(digits: string)
    requires |digits| >= 1 && Decimal.AllDigits(digits)
    ensures ParseYear("-" + digits) == Some(-(Decimal.Value(digits) as int) - 1)
  {
    assert ("-" + digits)[1..] == digits;
  }

  lemma ParseYearNonNegative(digits: string)
    requires |digits| >= 1 && Decimal.AllDigits(digits)
    ensures ParseYear(digits) == Some(Decimal.Value(digits))
  {
    assert Decimal.IsDigit(digits[0]);
  }

  /** The year text reads back as the year. */
  lemma YearTextRoundTrip(year: int)
    ensures |YearText(year)| >= 4 && ParseYear(YearText(year)) == Some(year)
    ensures 0 <= year <= 9999 ==> |YearText(year)| == 4 && Decimal.AllDigits(YearText(year))
  {
    if year < 0 {
      Decimal.FourDigitsRoundTrip(-year - 1);
      ParseYearNegative(Decimal.FourDigits(-year - 1));
    } else {
      Decimal.FourDigitsRoundTrip(year);
      ParseYearNonNegative(Decimal.FourDigits(year));
    }
  }

  /** `Parse` splits its input into a year, a month and a day field. */
  lemma ParseFields(y: string, ms: string, ds: string)
    requires |ms| == 2 && |ds| == 2
    ensures Parse(y + "-" + ms + "-" + ds) == ParseParts(y, ms, ds)
  {
    var s := y + "-" + ms + "-" + ds;
    assert |s| == |y| + 6;
    assert s[..|s| - 6] == y;
    assert s[|s| - 5..|s| - 3] == ms;
    assert s[|s| - 2..] == ds;
  }

  /** A valid date prints as text that reads back as the same date. */
  lemma ShowParseRoundTrip(v: DateValue)
    requires v.Valid()
    ensures Parse(Show(v)) == Some(v)
  {
    YearTextRoundTrip(v.year);
    Decimal.TwoDigitsRoundTrip(v.month + 1);
    Decimal.TwoDigitsRoundTrip(v.day);
    var y, ms, ds := YearText(v.year), Decimal.TwoDigits(v.month + 1), Decimal.TwoDigits(v.day);
    assert Show(v) == y + "-" + ms + "-" + ds;
    ParseFields(y, ms, ds);
    assert ParseYear(y) == Some(v.year);
    assert Decimal.Value(ms) - 1 == v.month;
  }

  /** For years 0 to 9999 the text is the ten-character extended calendar
      date of ISO 8601 (section 4.1.2.2 of ISO 8601:2004): YYYY-MM-DD. */
  lemma ShowIsExtendedCalendarDate(v: DateValue)
    requires v.Valid() && 0 <= v.year <= 9999
    ensures |Show(v)| == 10 && Show(v)[4] == '-' && Show(v)[7] == '-'
    ensures Decimal.AllDigits(Show(v)[..4]) && Decimal.AllDigits(Show(v)[5..7]) && Decimal.AllDigits(Show(v)[8..])
  {
    YearTextRoundTrip(v.year);
    Decimal.TwoDigitsRoundTrip(v.month + 1);
    Decimal.TwoDigitsRoundTrip(v.day);
    DashedFields(YearText(v.year), Decimal.TwoDigits(v.month + 1), Decimal.TwoDigits(v.day));
  }

  /** Where the three fields of `YYYY-MM-DD` text sit. */
  lemma DashedFields(y: string, m: string, d: string)
    requires |y| == 4 && |m| == 2 && |d| == 2
    ensures |y + "-" + m + "-" + d| == 10
    ensures (y + "-" + m + "-" + d)[4] == '-' && (y + "-" + m + "-" + d)[7] == '-'
    ensures (y + "-" + m + "-" + d)[..4] == y && (y + "-" + m + "-" + d)[5..7] == m
    ensures (y + "-" + m + "-" + d)[8..] == d
  {
    var s := y + "-" + m + "-" + d;
    assert s[..4] == y;
    assert s[5..7] == m;
    assert s[8..] == d;
  }

  class Date {
    var year: int
    var month: Month
    var day: int

    function Value(): DateValue
      reads this
    {
      DateValue(year, month, day)
    }

    ghost predicate Valid()
      reads this
    {
      Value().Valid()
    }

    /** The constructor once its check has passed; every parameter has the
        header's default, so `new Date()` is 1900-01-01. */
    constructor (year: int := 1900, month: Month := Jan, day: int := 1)
      requires IsValid(year, month, day)
      ensures Valid() && Value() == DateValue(year, month, day)
    {
      this.year, this.month, this.day := year, month, day;
    }

    /** The copy constructor: copies the fields without a check. */
    constructor Copy(that: Date)
      ensures Value() == that.Value()
    {
      year, month, day := that.year, that.month, that.day;
    }

    /** Construction from fields: null stands for the `invalid_argument`
        thrown when the day is outside its month. */
    static method Create(year: int, month: Month, day: int) returns (d: Date?)
      ensures (d != null) == IsValid(year, month, day)
      ensures d != null ==> fresh(d) && d.Value() == DateValue(year, month, day)
    {
      if !IsValid(year, month, day) {
        return null;
      }
      d := new Date(year, month, day);
    }

    /** `assign(year, month, day)`: checks first, so a failed assign (ok
        false: the exception) leaves the date as it was. */
    method Assign(year: int, month: Month, day: int) returns (ok: bool)
      modifies this
      ensures ok == IsValid(year, month, day)
      ensures Value() == if ok then DateValue(year, month, day) else old(Value())
    {
      if !IsValid(year, month, day) {
        return false;
      }
      this.year, this.month, this.day := year, month, day;
      ok := true;
    }

    /** `assign(that)`: `assign` with the other date's fields. */
    method AssignFrom(that: Date) returns (ok: bool)
      modifies this
      ensures ok == old(that.Value()).Valid()
      ensures Value() == if ok then old(that.Value()) else old(Value())
    {
      ok := Assign(that.year, that.month, that.day);
    }

    /** `day_of_year()`: the month lengths before this month, plus the day. */
    method DayOfYear() returns (r: int)
      ensures r == DaysBefore(month, IsLeapYear(year)) + day
    {
      var leap := IsLeapYear(year);
      var result := 0;
      var i: Month := Jan;
      while i < month
        invariant i <= month
        invariant result == DaysBefore(i, leap)
        decreases month - i
      {
        result := result + DaysInMonth(i, leap);
        i := Months.Increment(i);
      }
      r := result + day;
    }

    /** `timestamp()`: day of the year from the table, then whole years
        added from 1970 upward or subtracted from 1969 downward. */
    method Timestamp() returns (r: Option<int>)
      ensures r == TimestampOf(Value())
    {
      if month == Jan {
        return None;
      }
      var days := (day - 1) + DaysBeforeMonthTable[month - 1];
      if month > Jan && IsLeapYear(year) {
        days := days + 1;
      }
      ghost var within := days;
      if year > 1970 {
        var y := 1970;
        while y < year
          invariant 1970 <= y <= year
          invariant days == within + YearStart(y)
        {
          days := days + DaysInYear(y);
          y := y + 1;
        }
      } else if year < 1970 {
        var y := 1969;
        while y >= year
          invariant year - 1 <= y <= 1969
          invariant days == within + YearStart(y + 1)
        {
          days := days - DaysInYear(y);
          y := y - 1;
        }
      }
      r := Some(days * SecondsPerDay);
    }

    /** Prefix `++`. */
    method Increment()
      modifies this
      ensures Value() == NextDay(old(Value()))
    {
      if day == DaysInMonth(month, IsLeapYear(year)) {
        day := 1;
        if month == Dec {
          month := Jan;
          year := year + 1;
        } else {
          month := Months.Increment(month);
        }
      } else {
        day := day + 1;
      }
    }

    /** Postfix `++`: returns a copy of the prior value. */
    method PostIncrement() returns (prior: Date)
      modifies this
      ensures fresh(prior) && prior.Value() == old(Value())
      ensures Value() == NextDay(old(Value()))
    {
      prior := new Date.Copy(this);
      Increment();
    }

    /** Prefix `--`, as written (see `PrevDayAsWritten`). */
    method Decrement()
      modifies this
      ensures Value() == PrevDayAsWritten(old(Value()))
    {
      if day > 1 {
        day := day - 1;
      } else if month == Jan {
        year := year - 1;
        month := Dec;
        day := 31;
      } else {
        month := Months.Decrement(month);
        day := DaysInMonth(month, year != 0);
      }
    }

    /** Postfix `--`: returns a copy of the prior value. */
    method PostDecrement() returns (prior: Date)
      modifies this
      ensures fresh(prior) && prior.Value() == old(Value())
      ensures Value() == PrevDayAsWritten(old(Value()))
    {
      prior := new Date.Copy(this);
      Decrement();
    }

    /** `+ days`: a new date, `days` later in the calendar. */
    method Plus(days: int) returns (r: Date)
      ensures fresh(r) && r.Value() == CalendarShift(Value(), days)
    {
      var v := CalendarShift(Value(), days);
      r := new Date(v.year, v.month, v.day);
    }

    /** `- days`: a new date, `days` earlier in the calendar. */
    method Minus(days: int) returns (r: Date)
      ensures fresh(r) && r.Value() == CalendarShift(Value(), -days)
    {
      var v := CalendarShift(Value(), -days);
      r := new Date(v.year, v.month, v.day);
    }

    /** `+= days` as written: `assign` of `ShiftedAsWritten`, so ok false
        (the `invalid_argument`) leaves the date as it was. */
    method PlusAssign(days: int) returns (ok: bool)
      modifies this
      ensures ok == ShiftedAsWritten(old(Value()), days).Valid()
      ensures Value() == if ok then ShiftedAsWritten(old(Value()), days) else old(Value())
    {
      var v := ShiftedAsWritten(Value(), days);
      ok := Assign(v.year, v.month, v.day);
    }

    /** `-= days` as written. */
    method MinusAssign(days: int) returns (ok: bool)
      modifies this
      ensures ok == ShiftedAsWritten(old(Value()), -days).Valid()
      ensures Value() == if ok then ShiftedAsWritten(old(Value()), -days) else old(Value())
    {
      var v := ShiftedAsWritten(Value(), -days);
      ok := Assign(v.year, v.month, v.day);
    }
  }

  /** The date test program's expectations that do not need the system's
      calendar service, then the behaviour of a receiver that `--` left
      invalid. */
  method TestScenario()
  {
    var d := new Date(1969, Jul, 21);
    var n := d.DayOfYear();
    assert n == 202;
    var t := d.Timestamp();
    TimestampExample();
    assert t == Some(-16761600);
    assert DaysInMonth(d.month, IsLeapYear(d.year)) == 31;
    assert Compare(d.Value(), DateValue(1969, Jul, 20)) > 0;
    assert Compare(d.Value(), DateValue(1969, Jul, 22)) < 0;
    var later := d.Plus(5);
    EpochDayInjective(later.Value(), DateValue(1969, Jul, 26));
    assert later.Value() == DateValue(1969, Jul, 26);
    var earlier := d.Minus(5);
    EpochDayInjective(earlier.Value(), DateValue(1969, Jul, 16));
    assert earlier.Value() == DateValue(1969, Jul, 16);
    var e := new Date();
    assert e.Value() == DateValue(1900, Jan, 1);
    var f := new Date(2023, Mar, 1);
    f.Decrement();
    assert f.Value() == DateValue(2023, Feb, 29);
    CalendarShiftExample();
    var g := f.Plus(1);
    assert g.Value() == DateValue(2023, Mar, 2);
    ShiftedAsWrittenInvalidReceiver();
    var ok := f.PlusAssign(0);
    assert ok && f.Value() == DateValue(-1777, Mar, 1);
  }
}
