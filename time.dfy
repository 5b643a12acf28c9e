/** `time`: an hour, minute and second on a 24-hour clock (src/time.cpp). */
module Times {

  import opened Arith
  import opened Wrappers
  import Decimal

  const SecondsPerMinute: int := 60
  const SecondsPerHour: int := 3600
  const SecondsPerDay: int := 86400

  /** The three fields of a `time`, as a value. */
  datatype TimeValue = TimeValue(hour: int, minute: int, second: int)
  {
    predicate Valid()
    {
      IsValid(hour, minute, second)
    }

    /** Seconds since midnight, the total `+=` and `-=` start from. */
    function SecondOfDay(): int
    {
      hour * SecondsPerHour + minute * SecondsPerMinute + second
    }
  }

  /** `time::is_valid`: each field in its own range; no cross-field condition. */
  predicate IsValid(hour: int, minute: int, second: int)
    ensures IsValid(hour, minute, second) ==> 0 <= hour * 3600 + minute * 60 + second < 86400
  {
    0 <= hour <= 23 && 0 <= minute <= 59 && 0 <= second <= 59
  }

  /** The valid time that is `n` seconds past midnight. */
  function FromSecondOfDay(n: int): (t: TimeValue)
    requires 0 <= n < SecondsPerDay
    ensures t.Valid() && t.SecondOfDay() == n
  {
    TimeValue(n / SecondsPerHour, n % SecondsPerHour / SecondsPerMinute, n % SecondsPerMinute)
  }

  /** A valid time lies within one day, and its second of the day determines it. */
  lemma SecondOfDayDetermines(a: TimeValue, b: TimeValue)
    requires a.Valid() && b.Valid()
    ensures 0 <= a.SecondOfDay() < SecondsPerDay
    ensures a.SecondOfDay() == b.SecondOfDay() ==> a == b
  {
  }

  /** `equals`: field-by-field equality. */
  function Equals(a: TimeValue, b: TimeValue): (r: bool)
    ensures r <==> a == b
  {
    a.hour == b.hour && a.minute == b.minute && a.second == b.second
  }

  /** `compare`: hour first, then minute, then second. */
  function Compare(a: TimeValue, b: TimeValue): (r: int)
    ensures r == -1 || r == 0 || r == 1
    ensures r == 0 <==> Equals(a, b)
    ensures r == 1 <==> a.hour > b.hour || (a.hour == b.hour && (a.minute > b.minute || (a.minute == b.minute && a.second > b.second)))
  {
    if a.hour != b.hour then (if a.hour > b.hour then 1 else -1)
    else if a.minute != b.minute then (if a.minute > b.minute then 1 else -1)
    else if a.second != b.second then (if a.second > b.second then 1 else -1)
    else 0
  }

  /** Swapping the operands negates the comparison. */
  lemma CompareAntisymmetric(a: TimeValue, b: TimeValue)
    ensures Compare(b, a) == -Compare(a, b)
  {
  }

  /** On valid times the comparison is the order of the seconds since midnight. */
  lemma CompareIsChronological(a: TimeValue, b: TimeValue)
    requires a.Valid() && b.Valid()
    ensures Compare(a, b) == Sign(a.SecondOfDay() - b.SecondOfDay())
  {
    SecondOfDayDetermines(a, b);
  }

  /** What prefix and postfix `++` do to the fields: each field that passes its
      limit is reset and carries into the next; the hour wraps at 24. */
  function Tick(t: TimeValue): (r: TimeValue)
    ensures t.Valid() ==> r.Valid()
    ensures t.Valid() ==> (r == TimeValue(0, 0, 0) <==> t == TimeValue(23, 59, 59))
  {
    if t.second + 1 >= 60 then
      if t.minute + 1 >= 60 then TimeValue(if t.hour + 1 >= 24 then 0 else t.hour + 1, 0, 0)
      else TimeValue(t.hour, t.minute + 1, 0)
    else TimeValue(t.hour, t.minute, t.second + 1)
  }

  /** What prefix and postfix `--` do to the fields, borrowing the other way. */
  function Untick(t: TimeValue): (r: TimeValue)
    ensures t.Valid() ==> r.Valid()
    ensures t.Valid() ==> (r == TimeValue(23, 59, 59) <==> t == TimeValue(0, 0, 0))
  {
    if t.second - 1 < 0 then
      if t.minute - 1 < 0 then TimeValue(if t.hour - 1 < 0 then 23 else t.hour - 1, 59, 59)
      else TimeValue(t.hour, t.minute - 1, 59)
    else TimeValue(t.hour, t.minute, t.second - 1)
  }

  /** `++` advances a valid time by exactly one second, modulo a day. */
  lemma TickIsNextSecond(t: TimeValue)
    requires t.Valid()
    ensures Tick(t).Valid()
    ensures Tick(t).SecondOfDay() == (t.SecondOfDay() + 1) % SecondsPerDay
  {
  }

  /** `--` moves a valid time back by exactly one second, modulo a day. */
  lemma UntickIsPreviousSecond(t: TimeValue)
    requires t.Valid()
    ensures Untick(t).Valid()
    ensures Untick(t).SecondOfDay() == (t.SecondOfDay() - 1) % SecondsPerDay
  {
  }

  /** `--` undoes `++` and `++` undoes `--`. */
  lemma TickUntickInverse(t: TimeValue)
    requires t.Valid()
    ensures Untick(Tick(t)) == t && Tick(Untick(t)) == t
  {
    TickIsNextSecond(t);
    UntickIsPreviousSecond(t);
    TickIsNextSecond(Untick(t));
    UntickIsPreviousSecond(Tick(t));
    SecondOfDayDetermines(Untick(Tick(t)), t);
    SecondOfDayDetermines(Tick(Untick(t)), t);
  }

  /** The static `normalize` helper: reduces `total` by whole days while it
      EXCEEDS one day, then splits it into hours and minutes with C++
      division, subtracting each part only when it is positive. A positive
      multiple of a day therefore ends as 24:00:00, and a negative total is
      not corrected at all. */
  method Normalize(total: int) returns (second: int, minute: int, hour: int)
    ensures total <= 0 ==> second == total && minute == Quot(total, SecondsPerMinute) && hour == Quot(total, SecondsPerHour)
    ensures total > 0 ==> 0 <= hour && 0 <= minute < 60 && 0 <= second < 60
    ensures total > 0 ==>
      var r := hour * SecondsPerHour + minute * SecondsPerMinute + second;
      0 < r <= SecondsPerDay && r % SecondsPerDay == total % SecondsPerDay
  {
    second := total;
    while second > SecondsPerDay
      invariant second <= total
      invariant total <= SecondsPerDay ==> second == total
      invariant second % SecondsPerDay == total % SecondsPerDay
      invariant total > 0 ==> second > 0
    {
      second := second - SecondsPerDay;
    }
    hour := Quot(second, SecondsPerHour);
    if hour > 0 {
      second := second - hour * SecondsPerHour;
    }
    minute := Quot(second, SecondsPerMinute);
    if minute > 0 {
      second := second - minute * SecondsPerMinute;
    }
  }

  /** Whether `+=`/`-=` succeed from a seconds-since-midnight total `total`:
      only zero and the positive totals that are not a whole number of days. */
  predicate ShiftSucceeds(total: int)
  {
    total == 0 || (total > 0 && total % SecondsPerDay != 0)
  }

  /** What `normalize` leaves passes the validity check of `+=`/`-=` exactly
      when `ShiftSucceeds`, and is then the time `total` seconds past
      midnight modulo a day. */
  lemma NormalizedValidity(total: int, second: int, minute: int, hour: int)
    requires total <= 0 ==> second == total && minute == Quot(total, SecondsPerMinute) && hour == Quot(total, SecondsPerHour)
    requires total > 0 ==> 0 <= hour && 0 <= minute < 60 && 0 <= second < 60
    requires total > 0 ==>
      var r := hour * SecondsPerHour + minute * SecondsPerMinute + second;
      0 < r <= SecondsPerDay && r % SecondsPerDay == total % SecondsPerDay
    ensures IsValid(hour, minute, second) == ShiftSucceeds(total)
    ensures IsValid(hour, minute, second) ==> TimeValue(hour, minute, second) == FromSecondOfDay(total % SecondsPerDay)
  {
    var t := TimeValue(hour, minute, second);
    if total > 0 {
      if total % SecondsPerDay != 0 {
        assert t.SecondOfDay() < SecondsPerDay;
        SecondOfDayDetermines(t, FromSecondOfDay(total % SecondsPerDay));
      } else {
        assert t.SecondOfDay() == SecondsPerDay;
      }
    } else if total == 0 {
      assert t == TimeValue(0, 0, 0);
    }
  }

  /** `operator<<`: `HH:MM:SS`, each field padded to two digits. */
  function Show(t: TimeValue): (r: string)
    ensures t.Valid() ==> |r| == 8 && r[2] == ':' && r[5] == ':'
  {
    Decimal.TwoDigits(t.hour) + ":" + Decimal.TwoDigits(t.minute) + ":" + Decimal.TwoDigits(t.second)
  }

  /** Reads `HH:MM:SS` text back; not part of the library, it states that
      the stream form loses nothing. */
  function Parse(s: string): Option<TimeValue>
  {
    if |s| == 8 && s[2] == ':' && s[5] == ':'
       && Decimal.AllDigits(s[0..2]) && Decimal.AllDigits(s[3..5]) && Decimal.AllDigits(s[6..8])
    then Some(TimeValue(Decimal.Value(s[0..2]), Decimal.Value(s[3..5]), Decimal.Value(s[6..8])))
    else None
  }

  /** A valid time prints as eight characters that read back as the same time. */
  lemma ShowParseRoundTrip(t: TimeValue)
    requires t.Valid()
    ensures |Show(t)| == 8 && Parse(Show(t)) == Some(t)
  {
    Decimal.TwoDigitsRoundTrip(t.hour);
    Decimal.TwoDigitsRoundTrip(t.minute);
    Decimal.TwoDigitsRoundTrip(t.second);
    var s := Show(t);
    assert s[0..2] == Decimal.TwoDigits(t.hour);
    assert s[3..5] == Decimal.TwoDigits(t.minute);
    assert s[6..8] == Decimal.TwoDigits(t.second);
  }

  class Time {
    var hour: int
    var minute: int
    var second: int

    function Value(): TimeValue
      reads this
    {
      TimeValue(hour, minute, second)
    }

    ghost predicate Valid()
      reads this
    {
      Value().Valid()
    }

    /** The constructor once its check has passed; every parameter defaults
        to 0, so `new Time()` is midnight. */
    constructor (hour: int := 0, minute: int := 0, second: int := 0)
      requires IsValid(hour, minute, second)
      ensures Valid() && Value() == TimeValue(hour, minute, second)
    {
      this.hour, this.minute, this.second := hour, minute, second;
    }

    /** The copy constructor: copies the fields without a check. */
    constructor Copy(that: Time)
      ensures Value() == that.Value()
    {
      hour, minute, second := that.hour, that.minute, that.second;
    }

    /** Construction from fields: null stands for the `invalid_argument` thrown
        when the triple is out of range. */
    static method Create(hour: int, minute: int, second: int) returns (t: Time?)
      ensures (t != null) == IsValid(hour, minute, second)
      ensures t != null ==> fresh(t) && t.Value() == TimeValue(hour, minute, second)
    {
      if !IsValid(hour, minute, second) {
        return null;
      }
      t := new Time(hour, minute, second);
    }

    /** `assign(h, m, s)`: checks first, so a failed assign (ok false: the
        exception) leaves the time as it was. */
    method Assign(hour: int, minute: int, second: int) returns (ok: bool)
      modifies this
      ensures ok == IsValid(hour, minute, second)
      ensures Value() == if ok then TimeValue(hour, minute, second) else old(Value())
    {
      if !IsValid(hour, minute, second) {
        return false;
      }
      this.hour, this.minute, this.second := hour, minute, second;
      ok := true;
    }

    /** `assign(that)`: `assign` with the other time's fields. */
    method AssignFrom(that: Time) returns (ok: bool)
      modifies this
      ensures ok == old(that.Value()).Valid()
      ensures Value() == if ok then old(that.Value()) else old(Value())
    {
      ok := Assign(that.hour, that.minute, that.second);
    }

    /** Prefix `++`. */
    method Increment()
      modifies this
      ensures Value() == Tick(old(Value()))
    {
      second := second + 1;
      if second >= 60 {
        second := 0;
        minute := minute + 1;
        if minute >= 60 {
          minute := 0;
          hour := hour + 1;
          if hour >= 24 {
            hour := 0;
          }
        }
      }
    }

    /** Postfix `++`: returns a copy of the prior value. */
    method PostIncrement() returns (prior: Time)
      modifies this
      ensures fresh(prior) && prior.Value() == old(Value())
      ensures Value() == Tick(old(Value()))
    {
      prior := new Time.Copy(this);
      Increment();
    }

    /** Prefix `--`. */
    method Decrement()
      modifies this
      ensures Value() == Untick(old(Value()))
    {
      second := second - 1;
      if second < 0 {
        second := 59;
        minute := minute - 1;
        if minute < 0 {
          minute := 59;
          hour := hour - 1;
          if hour < 0 {
            hour := 23;
          }
        }
      }
    }

    /** Postfix `--`: returns a copy of the prior value. */
    method PostDecrement() returns (prior: Time)
      modifies this
      ensures fresh(prior) && prior.Value() == old(Value())
      ensures Value() == Untick(old(Value()))
    {
      prior := new Time.Copy(this);
      Decrement();
    }

    /** Shared body of `+=` and `-=`: normalize the new total, check the
        result, and only then write the fields. */
    method SetFromTotal(total: int) returns (ok: bool)
      modifies this
      ensures ok == ShiftSucceeds(total)
      ensures ok ==> Valid() && Value() == FromSecondOfDay(total % SecondsPerDay)
      ensures !ok ==> Value() == old(Value())
    {
      var s, m, h := Normalize(total);
      NormalizedValidity(total, s, m, h);
      if !IsValid(h, m, s) {
        return false;
      }
      hour, minute, second := h, m, s;
      ok := true;
    }

    /** `operator+=`: throws (ok false, fields unchanged) unless the new total
        is zero or a positive non-multiple of a day; then the time is the new
        total modulo a day. */
    method PlusAssign(seconds: int) returns (ok: bool)
      requires IsInt32(seconds) && IsInt32(Value().SecondOfDay() + seconds)
      modifies this
      ensures ok == ShiftSucceeds(old(Value().SecondOfDay()) + seconds)
      ensures ok ==> Valid() && Value() == FromSecondOfDay((old(Value().SecondOfDay()) + seconds) % SecondsPerDay)
      ensures !ok ==> Value() == old(Value())
    {
      ok := SetFromTotal(hour * 60 * 60 + minute * 60 + second + seconds);
    }

    /** `operator-=`: as `+=` with the total decreased instead. */
    method MinusAssign(seconds: int) returns (ok: bool)
      requires IsInt32(seconds) && IsInt32(Value().SecondOfDay() - seconds)
      modifies this
      ensures ok == ShiftSucceeds(old(Value().SecondOfDay()) - seconds)
      ensures ok ==> Valid() && Value() == FromSecondOfDay((old(Value().SecondOfDay()) - seconds) % SecondsPerDay)
      ensures !ok ==> Value() == old(Value())
    {
      ok := SetFromTotal(hour * 60 * 60 + minute * 60 + second - seconds);
    }

    /** `operator+`: `+=` applied to a copy; null stands for the exception.
        The receiver is left alone. */
    method Plus(seconds: int) returns (r: Time?)
      requires IsInt32(seconds) && IsInt32(Value().SecondOfDay() + seconds)
      ensures (r != null) == ShiftSucceeds(Value().SecondOfDay() + seconds)
      ensures r != null ==> fresh(r) && r.Value() == FromSecondOfDay((Value().SecondOfDay() + seconds) % SecondsPerDay)
    {
      var copy := new Time.Copy(this);
      var ok := copy.PlusAssign(seconds);
      r := if ok then copy else null;
    }

    /** `operator-`: `-=` applied to a copy. */
    method Minus(seconds: int) returns (r: Time?)
      requires IsInt32(seconds) && IsInt32(Value().SecondOfDay() - seconds)
      ensures (r != null) == ShiftSucceeds(Value().SecondOfDay() - seconds)
      ensures r != null ==> fresh(r) && r.Value() == FromSecondOfDay((Value().SecondOfDay() - seconds) % SecondsPerDay)
    {
      var copy := new Time.Copy(this);
      var ok := copy.MinusAssign(seconds);
      r := if ok then copy else null;
    }
  }

  /** The sequence of operations of the time test program. */
  method TestScenario()
  {
    var t := new Time(0, 0, 0);
    var ok := t.Assign(23, 59, 58);
    assert ok && t.Value() == TimeValue(23, 59, 58);
    t.Increment();
    assert t.Value() == TimeValue(23, 59, 59);
    t.Increment();
    assert t.Value() == TimeValue(0, 0, 0);
    t.Decrement();
    assert t.Value() == TimeValue(23, 59, 59);
    ok := t.MinusAssign(59);
    assert ok && t.Value() == TimeValue(23, 59, 0);
    assert Compare(t.Value(), TimeValue(23, 59, 59)) < 0;
    assert Compare(t.Value(), TimeValue(23, 58, 59)) > 0;
    ok := t.MinusAssign(3600);
    assert ok && t.Value() == TimeValue(22, 59, 0);
    var midnight := new Time();
    assert midnight.Value() == TimeValue(0, 0, 0);
  }
}
