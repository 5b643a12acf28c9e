/** `duration`: a signed count of seconds (include/peelo/chrono/duration.hpp).
    `std::int64_t` overflow is not reproduced: every operation requires its
    result to fit 64 bits. */
module Durations {

  import opened Arith

  const SecondsPerMinute: int := 60
  const SecondsPerHour: int := 3600
  const SecondsPerDay: int := 86400

  class Duration {
    /** `m_seconds`. */
    var seconds: int

    /** `duration(seconds = 0)`. */
    constructor (seconds: int := 0)
      requires IsInt64(seconds)
      ensures this.seconds == seconds
    {
      this.seconds := seconds;
    }

    /** The copy constructor. */
    constructor Copy(that: Duration)
      ensures seconds == that.seconds
    {
      seconds := that.seconds;
    }

    /** `of_days`: `days` whole days of 86400 seconds. */
    static method OfDays(days: int) returns (d: Duration)
      requires IsInt64(days * SecondsPerDay)
      ensures fresh(d) && d.seconds == days * SecondsPerDay
    {
      d := new Duration(days * SecondsPerDay);
    }

    /** `of_hours`: `hours` hours of 3600 seconds. */
    static method OfHours(hours: int) returns (d: Duration)
      requires IsInt64(hours * SecondsPerHour)
      ensures fresh(d) && d.seconds == hours * SecondsPerHour
    {
      d := new Duration(hours * SecondsPerHour);
    }

    /** `of_minutes`: `minutes` minutes of 60 seconds. */
    static method OfMinutes(minutes: int) returns (d: Duration)
      requires IsInt64(minutes * SecondsPerMinute)
      ensures fresh(d) && d.seconds == minutes * SecondsPerMinute
    {
      d := new Duration(minutes * SecondsPerMinute);
    }

    /** `days()`: whole days, rounded toward zero as C++ division does. */
    function Days(): (r: int)
      reads this
      ensures 0 <= seconds ==> r * SecondsPerDay <= seconds < r * SecondsPerDay + SecondsPerDay
      ensures seconds < 0 ==> r * SecondsPerDay - SecondsPerDay < seconds <= r * SecondsPerDay
    {
      Quot(seconds, SecondsPerDay)
    }

    /** `hours()`: whole hours, rounded toward zero. */
    function Hours(): (r: int)
      reads this
      ensures 0 <= seconds ==> r * SecondsPerHour <= seconds < r * SecondsPerHour + SecondsPerHour
      ensures seconds < 0 ==> r * SecondsPerHour - SecondsPerHour < seconds <= r * SecondsPerHour
    {
      Quot(seconds, SecondsPerHour)
    }

    /** `minutes()`: whole minutes, rounded toward zero. */
    function Minutes(): (r: int)
      reads this
      ensures 0 <= seconds ==> r * SecondsPerMinute <= seconds < r * SecondsPerMinute + SecondsPerMinute
      ensures seconds < 0 ==> r * SecondsPerMinute - SecondsPerMinute < seconds <= r * SecondsPerMinute
    {
      Quot(seconds, SecondsPerMinute)
    }

    /** `equals(that)`, behind `==`; `!=` is its negation. */
    function Equals(that: Duration): (r: bool)
      reads this, that
      ensures r <==> Compare(that) == 0
    {
      seconds == that.seconds
    }

    /** `equals(seconds)`. */
    function EqualsSeconds(n: int): (r: bool)
      reads this
      ensures r <==> CompareSeconds(n) == 0
    {
      seconds == n
    }

    /** `compare(that)`: 1, -1 or 0 by the sign of the difference. */
    function Compare(that: Duration): (r: int)
      reads this, that
      ensures r == Sign(seconds - that.seconds)
    {
      if seconds > that.seconds then 1 else if seconds < that.seconds then -1 else 0
    }

    /** `compare(seconds)`. */
    function CompareSeconds(n: int): (r: int)
      reads this
      ensures r == Sign(seconds - n)
    {
      if seconds > n then 1 else if seconds < n then -1 else 0
    }

    /** `operator<`: `compare(that) < 0`. */
    function Less(that: Duration): (r: bool)
      reads this, that
      ensures r <==> seconds < that.seconds
    {
      Compare(that) < 0
    }

    /** `operator>`: `compare(that) > 0`. */
    function Greater(that: Duration): (r: bool)
      reads this, that
      ensures r <==> seconds > that.seconds
    {
      Compare(that) > 0
    }

    /** `operator<=`: `compare(that) <= 0`. */
    function LessOrEqual(that: Duration): (r: bool)
      reads this, that
      ensures r <==> seconds <= that.seconds
    {
      Compare(that) <= 0
    }

    /** `operator>=`: `compare(that) >= 0`. */
    function GreaterOrEqual(that: Duration): (r: bool)
      reads this, that
      ensures r <==> seconds >= that.seconds
    {
      Compare(that) >= 0
    }

    /** `operator<(seconds)`. */
    function LessSeconds(n: int): (r: bool)
      reads this
      ensures r <==> seconds < n
    {
      CompareSeconds(n) < 0
    }

    /** `operator>(seconds)`. */
    function GreaterSeconds(n: int): (r: bool)
      reads this
      ensures r <==> seconds > n
    {
      CompareSeconds(n) > 0
    }

    /** `operator<=(seconds)`. */
    function LessOrEqualSeconds(n: int): (r: bool)
      reads this
      ensures r <==> seconds <= n
    {
      CompareSeconds(n) <= 0
    }

    /** `operator>=(seconds)`. */
    function GreaterOrEqualSeconds(n: int): (r: bool)
      reads this
      ensures r <==> seconds >= n
    {
      CompareSeconds(n) >= 0
    }

    /** `assign(that)` and `operator=(that)`: copies the count, nothing else. */
    method Assign(that: Duration)
      modifies this
      ensures seconds == old(that.seconds)
    {
      seconds := that.seconds;
    }

    /** `assign(seconds)` and `operator=(seconds)`. */
    method AssignSeconds(n: int)
      requires IsInt64(n)
      modifies this
      ensures seconds == n
    {
      seconds := n;
    }

    /** Prefix `++`: one second more. */
    method Increment()
      requires seconds < INT64_MAX
      modifies this
      ensures seconds == old(seconds) + 1
    {
      seconds := seconds + 1;
    }

    /** Postfix `++`: returns a copy of the prior value. */
    method PostIncrement() returns (prior: Duration)
      requires seconds < INT64_MAX
      modifies this
      ensures fresh(prior) && prior.seconds == old(seconds)
      ensures seconds == old(seconds) + 1
    {
      prior := new Duration.Copy(this);
      seconds := seconds + 1;
    }

    /** Prefix `--`: one second less. */
    method Decrement()
      requires seconds > INT64_MIN
      modifies this
      ensures seconds == old(seconds) - 1
    {
      seconds := seconds - 1;
    }

    /** Postfix `--`: returns a copy of the prior value. */
    method PostDecrement() returns (prior: Duration)
      requires seconds > INT64_MIN
      modifies this
      ensures fresh(prior) && prior.seconds == old(seconds)
      ensures seconds == old(seconds) - 1
    {
      prior := new Duration.Copy(this);
      seconds := seconds - 1;
    }

    /** `operator+`: a new duration; the receiver is left alone. */
    method Plus(n: int) returns (r: Duration)
      requires IsInt64(seconds + n)
      ensures fresh(r) && r.seconds == seconds + n
    {
      r := new Duration(seconds + n);
    }

    /** `operator-`: a new duration; the receiver is left alone. */
    method Minus(n: int) returns (r: Duration)
      requires IsInt64(seconds - n)
      ensures fresh(r) && r.seconds == seconds - n
    {
      r := new Duration(seconds - n);
    }

    /** `operator+=`. */
    method PlusAssign(n: int)
      requires IsInt64(seconds + n)
      modifies this
      ensures seconds == old(seconds) + n
    {
      seconds := seconds + n;
    }

    /** `operator-=`. */
    method MinusAssign(n: int)
      requires IsInt64(seconds - n)
      modifies this
      ensures seconds == old(seconds) - n
    {
      seconds := seconds - n;
    }
  }

  /** `of_days(n).days() == n`, and likewise for hours and minutes. */
  lemma FactoriesRoundTrip(d: Duration, n: int)
    ensures d.seconds == n * SecondsPerDay ==> d.Days() == n
    ensures d.seconds == n * SecondsPerHour ==> d.Hours() == n
    ensures d.seconds == n * SecondsPerMinute ==> d.Minutes() == n
  {
  }

  /** The expectations of the duration test program on `days()` and friends. */
  method TestAccessors()
  {
    var d := new Duration(89000);
    assert d.Days() == 1;
    d.AssignSeconds(85400);
    assert d.Days() == 0;
    d.AssignSeconds(-5);
    assert d.Days() == 0 && d.Hours() == 0 && d.Minutes() == 0;
    d.AssignSeconds(59);
    d.Increment();
    assert d.Minutes() == 1;
    var p := d.PostIncrement();
    assert p.seconds == 60 && d.seconds == 61;
    var zero := new Duration();
    assert zero.seconds == 0;
  }
}
