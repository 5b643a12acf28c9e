/** `datetime`: a `date` and a `time` held side by side (src/datetime.cpp).
    Every operation delegates to the two members. */
module Datetimes {

  import opened Arith
  import opened Wrappers
  import opened Months
  import Dates
  import Times

  /** The two members of a `datetime`, as a value. */
  datatype DatetimeValue = DatetimeValue(date: Dates.DateValue, time: Times.TimeValue)
  {
    predicate Valid()
    {
      date.Valid() && time.Valid()
    }

    /** Reference: seconds from 1970-01-01T00:00:00Z, as UNIX time counts them. */
    function Instant(): int
    {
      Dates.EpochDay(date) * Times.SecondsPerDay + time.SecondOfDay()
    }
  }

  /** `is_valid`: the date is valid and the time is valid. */
  predicate IsValid(year: int, month: Month, day: int, hour: int, minute: int, second: int)
    ensures IsValid(year, month, day, hour, minute, second) ==>
              1 <= day <= 31 && 0 <= hour * 3600 + minute * 60 + second < 86400
  {
    Dates.IsValid(year, month, day) && Times.IsValid(hour, minute, second)
  }

  /** `equals`: both members equal. */
  function Equals(a: DatetimeValue, b: DatetimeValue): (r: bool)
    ensures r <==> a == b
  {
    Dates.Equals(a.date, b.date) && Times.Equals(a.time, b.time)
  }

  /** `compare`: the date comparison when it is not zero, else the time comparison. */
  function Compare(a: DatetimeValue, b: DatetimeValue): (r: int)
    ensures r == -1 || r == 0 || r == 1
    ensures r == 0 <==> Equals(a, b)
    ensures a.date != b.date ==> r == Dates.Compare(a.date, b.date)
    ensures a.date == b.date ==> r == Times.Compare(a.time, b.time)
  {
    var cmp := Dates.Compare(a.date, b.date);
    if cmp != 0 then cmp else Times.Compare(a.time, b.time)
  }

  /** On valid datetimes the comparison is the order of the instants. */
  lemma CompareIsChronological(a: DatetimeValue, b: DatetimeValue)
    requires a.Valid() && b.Valid()
    ensures Compare(a, b) == Sign(a.Instant() - b.Instant())
  {
    Dates.CompareIsChronological(a.date, b.date);
    Times.CompareIsChronological(a.time, b.time);
    Times.SecondOfDayDetermines(a.time, b.time);
    Times.SecondOfDayDetermines(b.time, a.time);
  }

  /** Two valid datetimes at the same instant are equal. */
  lemma InstantDetermines(a: DatetimeValue, b: DatetimeValue)
    requires a.Valid() && b.Valid() && a.Instant() == b.Instant()
    ensures a == b
  {
    CompareIsChronological(a, b);
  }

  /** `timestamp()`: the date's timestamp plus the seconds of the time. For
      January the date's timestamp is undefined (`None`). */
  function TimestampOf(v: DatetimeValue): (r: Option<int>)
    ensures r.Some? <==> v.date.month != Jan
    ensures r.Some? && v.time.Valid() ==> r.value % Times.SecondsPerDay == v.time.SecondOfDay()
  {
    match Dates.TimestampOf(v.date)
    case None => None
    case Some(days) => Some(v.time.second + v.time.minute * 60 + v.time.hour * 3600 + days)
  }

  /** The datetime timestamp inherits the date's one-month lag: it falls
      short of the instant by the length of the previous month. */
  lemma TimestampLagsOneMonth(v: DatetimeValue)
    requires v.date.month != Jan
    ensures TimestampOf(v) == Some(v.Instant() - Times.SecondsPerDay * (Dates.DaysInMonth(v.date.month - 1, false)
                                   - (if v.date.month == Feb && Dates.IsLeapYear(v.date.year) then 1 else 0)))
  {
    Dates.TimestampLagsOneMonth(v.date);
  }

  /** The value the datetime test program expects for 1969-07-21T02:56:00. */
  lemma TimestampExample()
    ensures TimestampOf(DatetimeValue(Dates.DateValue(1969, Jul, 21), Times.TimeValue(2, 56, 0))) == Some(-16751040)
  {
    Dates.TimestampExample();
  }

  /** `operator<<`: the date text, `T`, the time text, `Z`. */
  function Show(v: DatetimeValue): (r: string)
    ensures v.time.Valid() ==> |r| >= 10 && r[|r| - 10] == 'T' && r[|r| - 1] == 'Z'
  {
    Dates.Show(v.date) + "T" + Times.Show(v.time) + "Z"
  }

  /** Reads `operator<<` text back; not part of the library, it states that
      the stream form loses nothing. */
  function Parse(s: string): Option<DatetimeValue>
  {
    if |s| < 10 || s[|s| - 10] != 'T' || s[|s| - 1] != 'Z' then None
    else match (Dates.Parse(s[..|s| - 10]), Times.Parse(s[|s| - 9..|s| - 1]))
      case (Some(d), Some(t)) => Some(DatetimeValue(d, t))
      case _ => None
  }

  /** `Parse` splits its input at the `T` ten characters from the end. */
  lemma ParseFields(ds: string, ts: string)
    requires |ts| == 8 && Dates.Parse(ds).Some? && Times.Parse(ts).Some?
    ensures Parse(ds + "T" + ts + "Z") == Some(DatetimeValue(Dates.Parse(ds).value, Times.Parse(ts).value))
  {
    var s := ds + "T" + ts + "Z";
    assert |s| == |ds| + 10;
    assert s[..|s| - 10] == ds;
    assert s[|s| - 9..|s| - 1] == ts;
  }

  /** A valid datetime prints as text that reads back as the same datetime. */
  lemma ShowParseRoundTrip(v: DatetimeValue)
    requires v.Valid()
    ensures Parse(Show(v)) == Some(v)
  {
    Dates.ShowParseRoundTrip(v.date);
    Times.ShowParseRoundTrip(v.time);
    ParseFields(Dates.Show(v.date), Times.Show(v.time));
  }

  class Datetime {
    const date: Dates.Date
    const time: Times.Time

    function Value(): DatetimeValue
      reads this, date, time
    {
      DatetimeValue(date.Value(), time.Value())
    }

    ghost predicate Valid()
      reads this, date, time
    {
      Value().Valid()
    }

    /** The six-field constructor once both member checks have passed; every
        parameter has the header's default, so `new Datetime()` is
        1900-01-01T00:00:00. */
    constructor (year: int := 1900, month: Month := Jan, day: int := 1, hour: int := 0, minute: int := 0, second: int := 0)
      requires IsValid(year, month, day, hour, minute, second)
      ensures fresh(date) && fresh(time)
      ensures Valid() && Value() == DatetimeValue(Dates.DateValue(year, month, day), Times.TimeValue(hour, minute, second))
    {
      date := new Dates.Date(year, month, day);
      time := new Times.Time(hour, minute, second);
    }

    /** The copy constructor: copies both members. */
    constructor Copy(that: Datetime)
      ensures fresh(date) && fresh(time)
      ensures Value() == that.Value()
    {
      date := new Dates.Date.Copy(that.date);
      time := new Times.Time.Copy(that.time);
    }

    /** `datetime(date, time)`: copies the given members. */
    constructor FromParts(date: Dates.Date, time: Times.Time)
      ensures fresh(this.date) && fresh(this.time)
      ensures Value() == DatetimeValue(date.Value(), time.Value())
    {
      this.date := new Dates.Date.Copy(date);
      this.time := new Times.Time.Copy(time);
    }

    /** Six-field construction: null stands for the `invalid_argument` thrown
        by whichever member constructor rejects its fields. */
    static method Create(year: int, month: Month, day: int, hour: int, minute: int, second: int)
      returns (r: Datetime?)
      ensures (r != null) == IsValid(year, month, day, hour, minute, second)
      ensures r != null ==> fresh(r) && r.Value() == DatetimeValue(Dates.DateValue(year, month, day), Times.TimeValue(hour, minute, second))
    {
      if !IsValid(year, month, day, hour, minute, second) {
        return null;
      }
      r := new Datetime(year, month, day, hour, minute, second);
    }

    /** `now()`: returns the default value; the clock is not read. */
    static method Now() returns (r: Datetime)
      ensures fresh(r) && fresh(r.date) && fresh(r.time)
      ensures r.Value() == DatetimeValue(Dates.DateValue(1900, Jan, 1), Times.TimeValue(0, 0, 0))
    {
      r := new Datetime();
    }

    /** `timestamp()`. */
    method Timestamp() returns (r: Option<int>)
      ensures r == TimestampOf(Value())
    {
      var days := date.Timestamp();
      if days.None? {
        return None;
      }
      r := Some(time.second + time.minute * 60 + time.hour * 3600 + days.value);
    }

    /** `assign(year, month, day, hour, minute, second)`: the date is assigned
        first and the time second, so invalid time fields (ok false) leave
        the new date in place beside the old time. */
    method Assign(year: int, month: Month, day: int, hour: int, minute: int, second: int) returns (ok: bool)
      modifies date, time
      ensures ok == IsValid(year, month, day, hour, minute, second)
      ensures date.Value() == if Dates.IsValid(year, month, day) then Dates.DateValue(year, month, day) else old(date.Value())
      ensures time.Value() == if ok then Times.TimeValue(hour, minute, second) else old(time.Value())
    {
      ok := date.Assign(year, month, day);
      if !ok {
        return;
      }
      ok := time.Assign(hour, minute, second);
    }

    /** `assign(date, time)`: the same order, with the members of the arguments. */
    method AssignParts(that_date: Dates.Date, that_time: Times.Time) returns (ok: bool)
      modifies date, time
      ensures ok == (old(that_date.Value()).Valid() && old(that_time.Value()).Valid())
      ensures date.Value() == if old(that_date.Value()).Valid() then old(that_date.Value()) else old(date.Value())
      ensures time.Value() == if ok then old(that_time.Value()) else old(time.Value())
    {
      ok := date.AssignFrom(that_date);
      if !ok {
        return;
      }
      ok := time.AssignFrom(that_time);
    }

    /** `assign(that)`. */
    method AssignFrom(that: Datetime) returns (ok: bool)
      modifies date, time
      ensures ok == old(that.Value()).Valid()
      ensures date.Value() == if old(that.Value().date).Valid() then old(that.Value().date) else old(date.Value())
      ensures time.Value() == if ok then old(that.Value().time) else old(time.Value())
    {
      ok := AssignParts(that.date, that.time);
    }

    /** Prefix `++`: the date's step; the time is untouched. */
    method Increment()
      modifies date
      ensures Value() == DatetimeValue(Dates.NextDay(old(date.Value())), old(time.Value()))
    {
      date.Increment();
    }

    /** Postfix `++`: returns a copy of the prior value. */
    method PostIncrement() returns (prior: Datetime)
      modifies date
      ensures fresh(prior) && prior.Value() == old(Value())
      ensures Value() == DatetimeValue(Dates.NextDay(old(date.Value())), old(time.Value()))
    {
      prior := new Datetime.Copy(this);
      date.Increment();
    }

    /** Prefix `--`: the date's step as written; the time is untouched. */
    method Decrement()
      modifies date
      ensures Value() == DatetimeValue(Dates.PrevDayAsWritten(old(date.Value())), old(time.Value()))
    {
      date.Decrement();
    }

    /** Postfix `--`: returns a copy of the prior value. */
    method PostDecrement() returns (prior: Datetime)
      modifies date
      ensures fresh(prior) && prior.Value() == old(Value())
      ensures Value() == DatetimeValue(Dates.PrevDayAsWritten(old(date.Value())), old(time.Value()))
    {
      prior := new Datetime.Copy(this);
      date.Decrement();
    }

    /** `+ days`: the date's `+` beside a copy of the time. */
    method Plus(days: int) returns (r: Datetime)
      ensures fresh(r) && r.Value() == DatetimeValue(Dates.CalendarShift(date.Value(), days), time.Value())
    {
      var d := date.Plus(days);
      r := new Datetime.FromParts(d, time);
    }

    /** `- days`: the date's `-` beside a copy of the time. */
    method Minus(days: int) returns (r: Datetime)
      ensures fresh(r) && r.Value() == DatetimeValue(Dates.CalendarShift(date.Value(), -days), time.Value())
    {
      var d := date.Minus(days);
      r := new Datetime.FromParts(d, time);
    }

    /** `+= days`: the date's `+=` as written (see `Dates.ShiftedAsWritten`);
        ok false is its `invalid_argument`, which leaves the value as it was.
        The time never changes. */
    method PlusAssign(days: int) returns (ok: bool)
      modifies date
      ensures ok == Dates.ShiftedAsWritten(old(date.Value()), days).Valid()
      ensures Value() == DatetimeValue(if ok then Dates.ShiftedAsWritten(old(date.Value()), days) else old(date.Value()),
                                       old(time.Value()))
    {
      ok := date.PlusAssign(days);
    }

    /** `-= days`: the date's `-=` as written. */
    method MinusAssign(days: int) returns (ok: bool)
      modifies date
      ensures ok == Dates.ShiftedAsWritten(old(date.Value()), -days).Valid()
      ensures Value() == DatetimeValue(if ok then Dates.ShiftedAsWritten(old(date.Value()), -days) else old(date.Value()),
                                       old(time.Value()))
    {
      ok := date.MinusAssign(days);
    }
  }

  /** `+`/`-` by days move the instant by whole days and keep the time of
      day; with a valid time the result is valid even when the date part
      was not. */
  lemma ShiftDaysMovesInstant(v: DatetimeValue, days: int)
    requires v.time.Valid()
    ensures DatetimeValue(Dates.CalendarShift(v.date, days), v.time).Valid()
    ensures DatetimeValue(Dates.CalendarShift(v.date, days), v.time).Instant() == v.Instant() + days * Times.SecondsPerDay
  {
  }

  /** The datetime test program's expectations that do not need the system's
      calendar service, then the non-atomic assign. */
  method TestScenario()
  {
    var dt := new Datetime(1969, Jul, 21, 2, 56, 0);
    var t := dt.Timestamp();
    TimestampExample();
    assert t == Some(-16751040);
    var v := dt.Value();
    assert Compare(v, DatetimeValue(Dates.DateValue(1969, Jul, 20), Times.TimeValue(2, 56, 0))) > 0;
    assert Compare(v, DatetimeValue(Dates.DateValue(1969, Jul, 22), Times.TimeValue(2, 56, 0))) < 0;
    assert Compare(v, DatetimeValue(Dates.DateValue(1969, Jul, 21), Times.TimeValue(2, 55, 0))) > 0;
    assert Compare(v, DatetimeValue(Dates.DateValue(1969, Jul, 21), Times.TimeValue(2, 57, 0))) < 0;
    dt.Increment();
    assert dt.Value() == DatetimeValue(Dates.DateValue(1969, Jul, 22), Times.TimeValue(2, 56, 0));
    Dates.ShiftDaysExample();
    Dates.CalendarShiftOfValid(Dates.DateValue(1969, Jul, 22), 5);
    Dates.CalendarShiftOfValid(Dates.DateValue(1969, Jul, 22), -5);
    var later := dt.Plus(5);
    assert later.Value() == DatetimeValue(Dates.DateValue(1969, Jul, 27), Times.TimeValue(2, 56, 0));
    var earlier := dt.Minus(5);
    assert earlier.Value() == DatetimeValue(Dates.DateValue(1969, Jul, 17), Times.TimeValue(2, 56, 0));
    Dates.ShiftedAsWrittenExample();
    var moved := dt.PlusAssign(5);
    assert moved && dt.Value() == DatetimeValue(Dates.DateValue(-1831, Jul, 27), Times.TimeValue(2, 56, 0));
    var ok := dt.Assign(2000, Jan, 1, 24, 0, 0);
    assert !ok;
    assert dt.Value() == DatetimeValue(Dates.DateValue(2000, Jan, 1), Times.TimeValue(2, 56, 0));
    Dates.ShiftedAsWrittenLeapExample();
    var leap := new Datetime(2000, Feb, 28, 12, 0, 0);
    var failed := leap.PlusAssign(1);
    assert !failed && leap.Value() == DatetimeValue(Dates.DateValue(2000, Feb, 28), Times.TimeValue(12, 0, 0));
    var n := Datetime.Now();
    assert n.Value().date == Dates.DateValue(1900, Jan, 1);
  }
}
