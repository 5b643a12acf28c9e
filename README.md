# peelo-chrono calendar core, modelled in Dafny

peelo-chrono is a small C++ library of calendar value types: `date` (year,
month, day of the proleptic Gregorian calendar), `time` (hour, minute,
second on a 24-hour clock), `datetime` (a date and a time side by side),
`duration` (a signed count of seconds) and the cyclic enumerations `month`
(January = 0) and `weekday` (Sunday = 0). This project models the core of
the library: validity, comparison, the one-step and whole-delta arithmetic,
day of year, the UNIX-style timestamp, and the text written by the stream
operators.

Layout, one module per file:

- `arith.dfy` (`Arith`): the `int`/`int64_t` ranges, C++ truncating division, sign.
- `wrappers.dfy` (`Wrappers`): `Option`.
- `decimal.dfy` (`Decimal`): decimal digits and the zero padding used by the stream operators.
- `month.dfy` (`Months`), `weekday.dfy` (`Weekdays`): the enumerations' operators.
- `duration.dfy` (`Durations`): class `Duration`.
- `time.dfy` (`Times`): value `TimeValue`, the pure queries, `normalize`, class `Time`.
- `date.dfy` (`Dates`): value `DateValue`, the calendar functions, class `Date`.
- `datetime.dfy` (`Datetimes`): value `DatetimeValue`, class `Datetime` holding a `Date` and a `Time`.

How the C++ is rendered:

- Classes whose members the operators update in place (`date`, `time`,
  `datetime`, `duration`) are Dafny classes with the same fields.
  `Date`, `Time` and `Datetime` have a `Value()` function, and each of
  their mutating methods states its new `Value()` as a function of the old
  one. `Duration` has a single field, and its methods state the new
  `seconds` directly.
- The C++ constructors' default arguments are Dafny default parameter
  values: `new Dates.Date()` is 1900-01-01, `new Times.Time()` is
  00:00:00, `new Datetimes.Datetime()` is 1900-01-01T00:00:00 and
  `new Durations.Duration()` is zero seconds.
- Pure queries (`is_valid`, `equals`, `compare`, the day arithmetic) are
  functions on the value datatypes. Lemmas relate them to a reference:
  `Dates.EpochDay`, the day count from 1970-01-01, and
  `Datetimes.DatetimeValue.Instant`, the second count.
- `month&` and `weekday&` parameters are modelled as a value passed in and
  the updated value returned. Postfix operators return `(prior, updated)`.
- A thrown `std::invalid_argument` becomes a `null` result from a static
  `Create` method, or an `ok == false` result from an assign-like method.
  The fields are then unchanged, except where the C++ changes them first.
- The program's defects are reproduced as written, never silently fixed:
  - `timestamp()` indexes its month table with `month - 1`. For January
    this reads before the table, which is `None` here.
  - `date`'s `--` looks up the previous month's length with the year as
    the leap flag.
  - `time`'s `normalize` never corrects a negative total. It also leaves a
    positive whole number of days as 24:00:00.
  - `month`'s `+=`/`-=` ignore negative deltas.
  - `datetime::assign` replaces the date before it checks the time.
  - `date`'s `+=` and `-=` read the year back from `tm_year` as
    `tm_year - 1900` instead of `tm_year + 1900`. The date they assign is
    therefore 3800 years too early (`Dates.ShiftedAsWritten`), and they
    throw when that earlier year makes February 29 invalid. `datetime`'s
    `+=` and `-=` inherit both. The `+` and `-` operators read the year
    correctly.

  Where it helps, a corrected reference stands beside the as-written
  definition (`Dates.PrevDay` beside `Dates.PrevDayAsWritten`), and a
  lemma says exactly on which inputs the two differ.

Behaviour of the code worth knowing:

- `operator<<` writes a date as `YYYY-MM-DD` (src/date.cpp:486-522). A
  negative year prints as `-` followed by `-year - 1`. The separate
  `to_string` function, which is not modelled, is expected by
  test/test_date.cpp:26 to give `21 Jul 1969`.
- `operator<<` writes a datetime as `<date>T<time>Z` (src/datetime.cpp:239-244).
- `time`'s `+=`/`-=` (src/time.cpp:231-265) go through `normalize`
  (src/time.cpp:317-333), which does not correct a negative total. The
  following validity check then throws.
- `datetime::assign` (src/datetime.cpp:102-113) is not atomic.
- The `weekday` enumeration starts on Sunday (`sun == 0`,
  include/peelo/chrono/weekday.hpp:33-40). The doc comments of its `++`
  and `--` (include/peelo/chrono/weekday.hpp:56-71) say that `++` wraps
  to Sunday from Monday and `--` wraps to Monday from Sunday. The code
  (src/weekday.cpp:30-56) wraps Saturday to Sunday and Sunday to Saturday.

## Model

| member | source | states |
|---|---|---|
| Arith.Quot | include/peelo/chrono/duration.hpp:97-116 | C++ `/` on a positive divisor rounds toward zero: the quotient brackets the dividend from below for non-negative and from above for negative dividends |
| Arith.Sign | include/peelo/chrono/duration.hpp:228-240 | the three-way result is -1, 0 or 1 exactly as its argument is negative, zero or positive |
| Decimal.Digits | src/date.cpp:509 | decimal text of a natural number is all digits, and its length grows with the number's magnitude |
| Decimal.ValueOfDigits | src/date.cpp:509 | reading the decimal text of `n` back gives `n` |
| Decimal.ValueLeadingZero | src/date.cpp:497-508 | leading zeros do not change the value read back |
| Decimal.TwoDigitsRoundTrip | src/time.cpp:267-290 | a field 0..99 printed with one optional leading zero is two digits that read back as the field |
| Decimal.FourDigitsRoundTrip | src/date.cpp:497-509 | the year padding gives at least four digits, exactly four below 10000, reading back as the year |
| Months.Plus | src/month.cpp:58-73 | `original + delta` is `(original + delta) mod 12`; negative deltas delegate to `-` |
| Months.Minus | src/month.cpp:75-90 | `original - delta` is `(original - delta) mod 12`; negative deltas delegate to `+` |
| Months.PlusAssign | src/month.cpp:92-102 | `+=` adds `delta` modulo 12 for delta >= 0 and leaves the month unchanged for negative deltas |
| Months.MinusAssign | src/month.cpp:104-114 | `-=` subtracts `delta` modulo 12 for delta >= 0 and leaves the month unchanged for negative deltas |
| Months.Increment | src/month.cpp:30-33 | prefix `++` steps one month, December wrapping to January |
| Months.Decrement | src/month.cpp:35-38 | prefix `--` steps back one month, January wrapping to December |
| Months.PostIncrement | src/month.cpp:40-47 | postfix `++` returns the prior month and leaves the next one |
| Months.PostDecrement | src/month.cpp:49-56 | postfix `--` returns the prior month and leaves the previous one |
| Months.AddThenSubtract | src/month.cpp:58-90 | `(m + d) - d == m` for every month and delta |
| Months.TestExpectations | test/test_month.cpp:10-13 | jan+3 = apr, sep-2 = jul, jan+13 = feb, nov-13 = oct |
| Months.NamesDistinct | src/month.cpp:116-170 | the stream names of different months differ |
| Months.Name | src/month.cpp:116-170 | every month's English name has three to nine letters |
| Weekdays.Plus | src/weekday.cpp:58-73 | `original + delta` is `(original + delta) mod 7`; negative deltas delegate to `-` |
| Weekdays.Minus | src/weekday.cpp:75-90 | `original - delta` is `(original - delta) mod 7`; negative deltas delegate to `+` |
| Weekdays.PlusAssign | src/weekday.cpp:92-107 | `+=` leaves the weekday equal to what `+` returns, for every delta |
| Weekdays.MinusAssign | src/weekday.cpp:109-124 | `-=` leaves the weekday equal to what `-` returns, for every delta |
| Weekdays.Increment | src/weekday.cpp:30-33 | prefix `++` steps one day, Saturday wrapping to Sunday |
| Weekdays.Decrement | src/weekday.cpp:35-38 | prefix `--` steps back one day, Sunday wrapping to Saturday |
| Weekdays.PostIncrement | src/weekday.cpp:40-47 | postfix `++` returns the prior weekday and leaves the next one |
| Weekdays.PostDecrement | src/weekday.cpp:49-56 | postfix `--` returns the prior weekday and leaves the previous one |
| Weekdays.AddThenSubtract | src/weekday.cpp:58-90 | `(w + d) - d == w` for every weekday and delta |
| Weekdays.TestExpectations | test/test_weekday.cpp:11-14 | mon+3 = thu, sat-2 = thu, mon+8 = tue, sat-11 = tue |
| Weekdays.NamesDistinct | src/weekday.cpp:126-160 | the stream names of different weekdays differ |
| Weekdays.Name | src/weekday.cpp:126-160 | every weekday's English name has at least six letters and ends in `day` |
| Durations.Duration.constructor | include/peelo/chrono/duration.hpp:53-54 | holds exactly the given seconds; with no argument, zero seconds |
| Durations.Duration.Copy | include/peelo/chrono/duration.hpp:91-92 | holds the other duration's seconds |
| Durations.Duration.OfDays | include/peelo/chrono/duration.hpp:61-64 | a fresh duration of `days * 86400` seconds |
| Durations.Duration.OfHours | include/peelo/chrono/duration.hpp:71-74 | a fresh duration of `hours * 3600` seconds |
| Durations.Duration.OfMinutes | include/peelo/chrono/duration.hpp:81-84 | a fresh duration of `minutes * 60` seconds |
| Durations.Duration.Days | include/peelo/chrono/duration.hpp:97-100 | whole days rounded toward zero: the result times 86400 brackets the seconds |
| Durations.Duration.Hours | include/peelo/chrono/duration.hpp:105-108 | whole hours rounded toward zero |
| Durations.Duration.Minutes | include/peelo/chrono/duration.hpp:113-116 | whole minutes rounded toward zero |
| Durations.Duration.Equals | include/peelo/chrono/duration.hpp:173-176 | equal exactly when `compare` returns 0 |
| Durations.Duration.EqualsSeconds | include/peelo/chrono/duration.hpp:185-188 | equal to a second count exactly when `compare` with it returns 0 |
| Durations.Duration.Compare | include/peelo/chrono/duration.hpp:228-240 | the sign of the difference of the second counts |
| Durations.Duration.CompareSeconds | include/peelo/chrono/duration.hpp:248-260 | the sign of the difference from a second count |
| Durations.Duration.Less | include/peelo/chrono/duration.hpp:265-268 | holds exactly when the seconds are fewer |
| Durations.Duration.Greater | include/peelo/chrono/duration.hpp:281-284 | holds exactly when the seconds are more |
| Durations.Duration.LessOrEqual | include/peelo/chrono/duration.hpp:297-300 | holds exactly when the seconds are not more |
| Durations.Duration.GreaterOrEqual | include/peelo/chrono/duration.hpp:313-316 | holds exactly when the seconds are not fewer |
| Durations.Duration.LessSeconds | include/peelo/chrono/duration.hpp:273-276 | `<` against a second count |
| Durations.Duration.GreaterSeconds | include/peelo/chrono/duration.hpp:289-292 | `>` against a second count |
| Durations.Duration.LessOrEqualSeconds | include/peelo/chrono/duration.hpp:305-308 | `<=` against a second count |
| Durations.Duration.GreaterOrEqualSeconds | include/peelo/chrono/duration.hpp:321-324 | `>=` against a second count |
| Durations.Duration.Assign | include/peelo/chrono/duration.hpp:131-136 | `assign(that)` and `operator=` copy the other duration's seconds |
| Durations.Duration.AssignSeconds | include/peelo/chrono/duration.hpp:143-164 | `assign(seconds)` and `operator=` set the seconds |
| Durations.Duration.Increment | include/peelo/chrono/duration.hpp:329-337 | prefix `++` adds one second |
| Durations.Duration.PostIncrement | include/peelo/chrono/duration.hpp:339-346 | postfix `++` returns a copy of the prior value and adds one second |
| Durations.Duration.Decrement | include/peelo/chrono/duration.hpp:351-359 | prefix `--` removes one second |
| Durations.Duration.PostDecrement | include/peelo/chrono/duration.hpp:361-368 | postfix `--` returns a copy of the prior value and removes one second |
| Durations.Duration.Plus | include/peelo/chrono/duration.hpp:373-379 | a fresh duration with `n` more seconds; the receiver is unchanged |
| Durations.Duration.Minus | include/peelo/chrono/duration.hpp:381-384 | a fresh duration with `n` fewer seconds; the receiver is unchanged |
| Durations.Duration.PlusAssign | include/peelo/chrono/duration.hpp:389-395 | `+=` adds `n` seconds |
| Durations.Duration.MinusAssign | include/peelo/chrono/duration.hpp:399-404 | `-=` removes `n` seconds |
| Durations.FactoriesRoundTrip | test/test_duration.cpp:41-54 | `of_days(n).days() == n`, likewise hours and minutes |
| Times.FromSecondOfDay | src/time.cpp:317-333 | every second of the day 0..86399 is the second of the day of the valid time built from it; `SecondOfDayDetermines` makes that time the only one |
| Times.IsValid | src/time.cpp:87-92 | a time that passes the check lies within one day: its second of the day is 0..86399 |
| Times.SecondOfDayDetermines | src/time.cpp:87-92 | a valid time lies within one day and is determined by its second of the day |
| Times.Equals | src/time.cpp:112-120 | equal exactly when all three fields are equal |
| Times.Compare | src/time.cpp:122-143 | -1, 0 or 1; 0 exactly on equality; 1 exactly when lexicographically later by hour, minute, second |
| Times.CompareAntisymmetric | src/time.cpp:127-143 | swapping the operands negates the result |
| Times.CompareIsChronological | src/time.cpp:127-143 | on valid times the comparison is the order of the seconds since midnight |
| Times.Tick | src/time.cpp:145-161 | the carrying step keeps a valid time valid and gives 00:00:00 exactly from 23:59:59 |
| Times.Untick | src/time.cpp:183-199 | the borrowing step keeps a valid time valid and gives 23:59:59 exactly from 00:00:00 |
| Times.TickIsNextSecond | src/time.cpp:145-161 | `++` keeps a time valid and advances it one second modulo a day |
| Times.UntickIsPreviousSecond | src/time.cpp:183-199 | `--` keeps a time valid and moves it back one second modulo a day |
| Times.TickUntickInverse | src/time.cpp:145-199 | `--` undoes `++` and `++` undoes `--` on valid times |
| Times.Normalize | src/time.cpp:317-333 | a non-positive total comes back uncorrected; a positive total ends as an hour, minute and second whose total is congruent to it modulo a day and lies in (0, 86400] |
| Times.NormalizedValidity | src/time.cpp:238-246 | what `normalize` leaves passes the validity check exactly when the total is 0, or positive and not a whole number of days, and is then the time `total mod 86400` seconds past midnight |
| Times.Show | src/time.cpp:267-290 | a valid time prints as eight characters with `:` third and sixth |
| Times.ShowParseRoundTrip | src/time.cpp:267-290 | a valid time prints as eight characters `HH:MM:SS` that read back as the same time |
| Times.Time.constructor | src/time.cpp:42-51 | construction with valid fields holds those fields; with no arguments, 00:00:00 |
| Times.Time.Copy | src/time.cpp:53-56 | the copy holds the other time's fields |
| Times.Time.Create | src/time.cpp:42-51 | construction fails (null) exactly when the fields are invalid |
| Times.Time.Assign | src/time.cpp:99-110 | assign succeeds exactly on valid fields; on failure nothing changes |
| Times.Time.AssignFrom | src/time.cpp:94-97 | assign from another time, with the same check |
| Times.Time.Increment | src/time.cpp:145-161 | prefix `++` is the carrying one-second step |
| Times.Time.PostIncrement | src/time.cpp:163-181 | postfix `++` returns a copy of the prior time |
| Times.Time.Decrement | src/time.cpp:183-199 | prefix `--` is the borrowing one-second step |
| Times.Time.PostDecrement | src/time.cpp:201-219 | postfix `--` returns a copy of the prior time |
| Times.Time.PlusAssign | src/time.cpp:231-247 | `+=` succeeds exactly when the new total is 0, or positive and not a whole number of days; on success the time is the total modulo a day, on failure nothing changes |
| Times.Time.MinusAssign | src/time.cpp:249-265 | `-=` likewise with the seconds subtracted |
| Times.Time.Plus | src/time.cpp:221-224 | a copy shifted by `+=`, or null when `+=` would throw; the receiver is unchanged |
| Times.Time.Minus | src/time.cpp:226-229 | a copy shifted by `-=`, or null when `-=` would throw; the receiver is unchanged |
| Times.Time.SetFromTotal | src/time.cpp:231-265 | the step `+=` and `-=` share after computing the new total: it succeeds exactly when the total is 0, or positive and not a whole number of days; the time is then `total mod 86400` seconds past midnight, and on failure nothing changes |
| Dates.LeapYearExamples | src/date.cpp:206-209 | 1900 is common, 2000 and 2024 leap, 2023 common |
| Dates.IsLeapYear | src/date.cpp:206-209 | every leap year is divisible by 4 |
| Dates.DaysInMonth | src/date.cpp:165-189 | 28 to 31 days; 29 exactly for a leap February, 28 exactly for a common one, 30 exactly for April, June, September, November |
| Dates.DaysInYear | src/date.cpp:196-199 | a year has 366 days exactly when its February has 29 |
| Dates.IsValid | src/date.cpp:55-58 | every month has 28 to 31 days: a valid day lies in 1..31, and every day 1..28 is valid |
| Dates.CommonYearMonths | src/date.cpp:165-189 | the twelve month lengths of a common year add up to 365 |
| Dates.YearIsSumOfMonths | src/date.cpp:196-199 | `days_in_year` equals the sum of the twelve month lengths |
| Dates.DaysBeforeLeap | src/date.cpp:165-189 | a leap year adds one day before every month after February |
| Dates.DaysBeforeMonotone | src/date.cpp:147-158 | a later month starts after an earlier month ends |
| Dates.DayOfYearBounds | src/date.cpp:147-158 | the day of the year of a valid date lies between 1 and `days_in_year` |
| Dates.DayOfYearExample | test/test_date.cpp:14 | 1969-07-21 is day 202 |
| Dates.DaysBeforeMonthTableIsCumulative | src/date.cpp:213-216 | the timestamp's month table holds the days before each month of a common year |
| Dates.TimestampOf | src/date.cpp:211-243 | no value exactly for January; otherwise a whole number of days in seconds |
| Dates.YearStartMonotone | src/date.cpp:226-240 | the year-by-year sum in `timestamp()` places a later year after the end of an earlier one |
| Dates.TimestampLagsOneMonth | src/date.cpp:211-243 | outside January the timestamp is a whole number of days that falls short of the true UNIX day count by the previous month's common-year length (one day less for a leap February) |
| Dates.TimestampExample | test/test_date.cpp:16 | 1969-07-21 gives -16761600, while its UNIX time is -14169600 |
| Dates.TimestampOutOfOrder | src/date.cpp:211-243 | 1969-03-31 has a larger timestamp than 1969-04-01 |
| Dates.Equals | src/date.cpp:276-284 | equal exactly when all three fields are equal |
| Dates.Compare | src/date.cpp:286-307 | -1, 0 or 1; 0 exactly on equality; 1 exactly when lexicographically later by year, month, day |
| Dates.CompareAntisymmetric | src/date.cpp:291-307 | swapping the operands negates the result |
| Dates.CompareIsChronological | src/date.cpp:291-307 | on valid dates the comparison is the order of the day counts from 1970-01-01 |
| Dates.EpochDayInjective | src/date.cpp:55-58 | two valid dates with the same day count are equal |
| Dates.NextDay | src/date.cpp:309-326 | the step keeps a valid date valid, and changes the year only to the next one, at January 1 |
| Dates.NextDayIsNextEpochDay | src/date.cpp:309-326 | `++` keeps a date valid and moves it exactly one day later |
| Dates.NextDayIsLater | src/date.cpp:309-326 | after `++` a valid date compares greater than before |
| Dates.PrevDayIsPreviousEpochDay | src/date.cpp:349-365 | the corrected step back keeps a date valid and moves it exactly one day earlier |
| Dates.NextPrevInverse | src/date.cpp:309-365 | the corrected step back undoes `++` and `++` undoes it |
| Dates.PrevDayAsWritten | src/date.cpp:349-365 | the step back as written keeps a valid date valid except possibly from March 1, and changes the year only to the previous one, at December 31 |
| Dates.PrevDayAsWrittenDefect | src/date.cpp:349-365 | `--` as written differs from the real previous day exactly on March 1 of a year whose leap status differs from `year != 0`, and yields an invalid date exactly on March 1 of a common year |
| Dates.PrevDayAsWrittenExample | src/date.cpp:360-362 | 2023-03-01 steps back to the invalid 2023-02-29; 0000-03-01 steps back to 02-28 instead of 02-29 |
| Dates.ShiftForward | src/date.cpp:309-326 | `n` steps of `++` keep a date valid and move its day count up by exactly `n` |
| Dates.ShiftBackward | src/date.cpp:349-365 | `n` corrected steps back keep a date valid and move its day count down by exactly `n` |
| Dates.ShiftDaysMovesEpochDay | src/date.cpp:309-365 | `n` single day steps keep a date valid and move its day count by exactly `n` |
| Dates.ShiftDaysRoundTrip | src/date.cpp:309-365 | shifting by `n` and then by `-n` gives back the date |
| Dates.ShiftDaysExample | test/test_datetime.cpp:29-30 | five days after 1969-07-22 is 07-27, five days before is 07-17 |
| Dates.CalendarShift | src/date.cpp:387-397 | `make_tm`, then `tm_mday` moved by `days`, then `mktime`. For any receiver, including one whose day is out of range, the result is a valid date whose day count is the receiver's plus `days` |
| Dates.CalendarShiftOfValid | src/date.cpp:387-407 | on a valid receiver that normalised shift is the calendar shift by single day steps |
| Dates.CommonFebruary29Shift | src/date.cpp:562-574 | in a common year the February 29 that `--` can leave is read by `mktime` as March 1 |
| Dates.CalendarShiftExample | src/date.cpp:387-407 | 2023-02-29 `+ 0` gives 2023-03-01 and `+ 1` gives 2023-03-02 |
| Dates.ShiftedAsWritten | src/date.cpp:431-451 | the fields `+=` hands to `assign`: never the normalised shift itself. `ShiftedAsWrittenDefect` states when `assign` accepts them |
| Dates.ShiftedAsWrittenDefect | src/date.cpp:431-473 | `+=`/`-=` as written never assign the normalised shift; they fail exactly when that shift is February 29 and the year 3800 earlier is common |
| Dates.ShiftedAsWrittenExample | src/date.cpp:446-450 | 1969-07-22 `+= 5` assigns -1831-07-27 |
| Dates.ShiftedAsWrittenLeapExample | src/date.cpp:446-450 | 2000-02-28 `+= 1` asks for the invalid -1800-02-29, so `assign` throws |
| Dates.ShiftedAsWrittenInvalidReceiver | src/date.cpp:431-451 | on 2023-02-29, left by `--`, `+= 0` assigns -1777-03-01 |
| Dates.YearText | src/date.cpp:488-509 | the year field of `operator<<`: at least four characters, starting with `-` exactly for a negative year, and four digits for years 0..9999 |
| Dates.YearTextRoundTrip | src/date.cpp:488-509 | the year text, with its minus-and-offset rule for negative years, reads back as the year |
| Dates.Show | src/date.cpp:486-522 | the text is non-empty and starts with `-` exactly for a negative year |
| Dates.ShowParseRoundTrip | src/date.cpp:486-522 | a valid date prints as text that reads back as the same date |
| Dates.ShowIsExtendedCalendarDate | src/date.cpp:486-522 | for years 0..9999 the text is the ten-character `YYYY-MM-DD` |
| Dates.Date.constructor | src/date.cpp:39-48 | construction with valid fields holds those fields; with no arguments, 1900-01-01 |
| Dates.Date.Copy | src/date.cpp:50-53 | the copy holds the other date's fields |
| Dates.Date.Create | src/date.cpp:39-48 | construction fails (null) exactly when the day is outside its month |
| Dates.Date.Assign | src/date.cpp:263-274 | assign succeeds exactly on valid fields; on failure nothing changes |
| Dates.Date.AssignFrom | src/date.cpp:258-261 | assign from another date, with the same check |
| Dates.Date.DayOfYear | src/date.cpp:147-158 | the days of the months before this one plus the day |
| Dates.Date.Timestamp | src/date.cpp:211-243 | the year loops compute `TimestampOf` (see `TimestampLagsOneMonth`) |
| Dates.Date.Increment | src/date.cpp:309-326 | prefix `++` is the next-day step |
| Dates.Date.PostIncrement | src/date.cpp:328-347 | postfix `++` returns a copy of the prior date |
| Dates.Date.Decrement | src/date.cpp:349-365 | prefix `--` is the as-written step back |
| Dates.Date.PostDecrement | src/date.cpp:367-385 | postfix `--` returns a copy of the prior date |
| Dates.Date.Plus | src/date.cpp:387-407 | a fresh date built from the fields `mktime` normalised, `CalendarShift(Value(), days)` |
| Dates.Date.Minus | src/date.cpp:409-429 | a fresh date built from the normalised fields with `tm_mday` moved back, `CalendarShift(Value(), -days)` |
| Dates.Date.PlusAssign | src/date.cpp:431-451 | `+=` as written: succeeds exactly when the normalised shift, 3800 years earlier, is valid, and then holds it; on failure nothing changes |
| Dates.Date.MinusAssign | src/date.cpp:453-473 | `-=` as written, likewise with the shift backward |
| Datetimes.Equals | src/datetime.cpp:123-142 | equal exactly when both date and time are equal |
| Datetimes.IsValid | src/datetime.cpp:76-85 | fields that pass the check have a day in 1..31 and a time within one day |
| Datetimes.Compare | src/datetime.cpp:144-171 | the date comparison when the dates differ, the time comparison otherwise; 0 exactly on equality |
| Datetimes.CompareIsChronological | src/datetime.cpp:144-171 | on valid datetimes the comparison is the order of the instants |
| Datetimes.InstantDetermines | src/datetime.cpp:76-85 | two valid datetimes at the same instant are equal |
| Datetimes.TimestampLagsOneMonth | src/datetime.cpp:87-95 | the timestamp adds the time's seconds to the date's, inheriting the one-month lag |
| Datetimes.TimestampExample | test/test_datetime.cpp:18 | 1969-07-21T02:56:00 gives -16751040 |
| Datetimes.TimestampOf | src/datetime.cpp:87-95 | no value exactly for January; otherwise, for a valid time, the value modulo a day is the time's second of the day |
| Datetimes.ShowParseRoundTrip | src/datetime.cpp:239-244 | a valid datetime prints as `<date>T<time>Z` text that reads back as the same datetime |
| Datetimes.Show | src/datetime.cpp:239-244 | with a valid time, the text ends in `Z` and has `T` ten characters from its end |
| Datetimes.ShiftDaysMovesInstant | src/datetime.cpp:205-213 | `+`/`-` by days keep the time of day and move the instant by whole days; with a valid time the result is valid even when the date was not |
| Datetimes.Datetime.constructor | src/datetime.cpp:34-41 | six valid fields give fresh members holding them; with no arguments, 1900-01-01T00:00:00 |
| Datetimes.Datetime.Copy | src/datetime.cpp:43-45 | the copy holds copies of the other datetime's members |
| Datetimes.Datetime.FromParts | src/datetime.cpp:47-49 | holds copies of the given date and time |
| Datetimes.Datetime.Create | src/datetime.cpp:34-41 | construction fails (null) exactly when `is_valid` fails |
| Datetimes.Datetime.Now | src/datetime.cpp:51-54 | a fresh default value, 1900-01-01T00:00:00 |
| Datetimes.Datetime.Timestamp | src/datetime.cpp:87-95 | computes `TimestampOf` |
| Datetimes.Datetime.Assign | src/datetime.cpp:102-113 | succeeds exactly on valid fields; the date is replaced whenever its own fields are valid, even when the time then fails |
| Datetimes.Datetime.AssignParts | src/datetime.cpp:115-121 | the same order with a given date and time |
| Datetimes.Datetime.AssignFrom | src/datetime.cpp:97-100 | the same with another datetime's members |
| Datetimes.Datetime.Increment | src/datetime.cpp:173-178 | `++` steps the date only |
| Datetimes.Datetime.PostIncrement | src/datetime.cpp:180-187 | postfix `++` returns a copy of the prior value |
| Datetimes.Datetime.Decrement | src/datetime.cpp:189-194 | `--` steps the date back as written, the time untouched |
| Datetimes.Datetime.PostDecrement | src/datetime.cpp:196-203 | postfix `--` returns a copy of the prior value |
| Datetimes.Datetime.Plus | src/datetime.cpp:205-208 | a fresh datetime whose date is the date's `+ days` (normalised shift) and whose time is the same; the receiver is unchanged |
| Datetimes.Datetime.Minus | src/datetime.cpp:210-213 | a fresh datetime whose date is the date's `- days` (normalised shift) and whose time is the same; the receiver is unchanged |
| Datetimes.Datetime.PlusAssign | src/datetime.cpp:215-220 | the date's `+=` as written: succeeds exactly when the normalised shift, 3800 years earlier, is valid, and then holds it; on failure nothing changes; the time never changes |
| Datetimes.Datetime.MinusAssign | src/datetime.cpp:222-227 | the date's `-=` as written, likewise with the shift backward |

## Left out

- `date::today`, `yesterday`, `tomorrow`, `time::now` and the `timestamp(long)` factories: they read the system clock or `localtime`.
- `date::day_of_week`: it calls `mktime`, a foreign call that normalises in the local time zone.
- `date - date` and `datetime - datetime`: they call `mktime` and `difftime`, foreign calls that work in the local time zone.
- Dates.Date.Plus: `mktime`'s normalisation is stated as `Dates.CalendarShift`: the day field counts from the first of the month in the proleptic Gregorian calendar, with no time-zone or daylight-saving effect. This includes a receiver that `--` left invalid. The `runtime_error` thrown when `mktime` fails is not modelled.
- Dates.Date.Minus: the same `mktime` stand-in and the same unmodelled `runtime_error`.
- Dates.Date.PlusAssign: the same `mktime` stand-in. Only the `invalid_argument` from `assign` is modelled, not the `runtime_error`.
- Dates.Date.MinusAssign: the same `mktime` stand-in. Only the `invalid_argument` from `assign` is modelled, not the `runtime_error`.
- Datetimes.Datetime.Plus: inherits the `mktime` stand-in of `Dates.Date.Plus`; its `runtime_error` is not modelled.
- Datetimes.Datetime.Minus: inherits the `mktime` stand-in of `Dates.Date.Minus`; its `runtime_error` is not modelled.
- Datetimes.Datetime.PlusAssign: inherits the `mktime` stand-in of `Dates.Date.PlusAssign`; its `runtime_error` is not modelled.
- Datetimes.Datetime.MinusAssign: inherits the `mktime` stand-in of `Dates.Date.MinusAssign`; its `runtime_error` is not modelled.
- `format`/`strftime`, `to_string`, the `wostream` operators, the thread-safety helper around `localtime`, and the build files: formatting services and platform code.
- Fixed-width overflow: only some sites carry preconditions that keep results in range. These are `int` in `time::+=`/`-=`, `int64_t` in `duration`, and `-delta` at `INT_MIN` in `month`/`weekday`. The following sites are unbounded in the model, which gives the mathematical result where the C++ would overflow:
  - the `long` result of `date::timestamp()` and `datetime::timestamp()` (src/date.cpp:218,242 and src/datetime.cpp:87-95). Where `long` has 32 bits, this overflows outside roughly 1901 to 2038.
  - the `int` year in `++m_year`/`--m_year` at `INT_MAX`/`INT_MIN` (src/date.cpp:317,338,357,377).
  - `-year - 1` at `INT_MIN` in the stream operator (src/date.cpp:494,532).
  - `int days` in `tm.tm_mday += days` and `-= -days` (src/date.cpp:393-395,437-439), and the `tm_year` conversions around `mktime`.
- Dates.Date.Timestamp: for January the C++ reads before its table, which is undefined behaviour. The model returns `None` instead of a value.
- `Parse` functions (`Times.Parse`, `Dates.Parse`, `Datetimes.Parse`) are not in the library. They exist only to state that the stream forms lose nothing.
- Stream output is modelled as returned text (`Show`), not as writes to a stream.
