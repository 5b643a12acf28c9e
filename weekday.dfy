/** The `weekday` enumeration and its cyclic operators (src/weekday.cpp).
    As for months, an overwritten `weekday&` operand is a value passed in and
    the new value returned. Unlike the month operators, all four of `+`, `-`,
    `+=` and `-=` hand a negative delta to their opposite. */
module Weekdays {

  import opened Arith

  /** Sunday is 0, Saturday is 6. */
  type Weekday = w: int | 0 <= w < 7

  const Sun: Weekday := 0
  const Mon: Weekday := 1
  const Tue: Weekday := 2
  const Wed: Weekday := 3
  const Thu: Weekday := 4
  const Fri: Weekday := 5
  const Sat: Weekday := 6

  /** Reference meaning of moving `w` by `delta` places round the week. */
  function Add(w: Weekday, delta: int): Weekday
  {
    (w + delta) % 7
  }

  /** One forward step of the counting loops, on the residue of `k`. */
  lemma StepForward(k: int)
    ensures (if k % 7 < 6 then k % 7 + 1 else 0) == (k + 1) % 7
  {
  }

  /** One backward step of the counting loops, on the residue of `k`. */
  lemma StepBackward(k: int)
    ensures (if k % 7 > 0 then k % 7 - 1 else 6) == (k - 1) % 7
  {
  }

  /** `operator+`. */
  method Plus(original: Weekday, delta: int) returns (r: Weekday)
    requires INT32_MIN < delta <= INT32_MAX
    ensures r == Add(original, delta)
    decreases if delta < 0 then 1 else 0
  {
    if delta >= 0 {
      var result: int := original;
      for i := 0 to delta
        invariant result == (original + i) % 7
      {
        StepForward(original + i);
        result := if result < 6 then result + 1 else 0;
      }
      return result;
    }
    r := Minus(original, -delta);
  }

  /** `operator-`. */
  method Minus(original: Weekday, delta: int) returns (r: Weekday)
    requires INT32_MIN < delta <= INT32_MAX
    ensures r == Add(original, -delta)
    decreases if delta < 0 then 1 else 0
  {
    if delta >= 0 {
      var result: int := original;
      for i := 0 to delta
        invariant result == (original - i) % 7
      {
        StepBackward(original - i);
        result := if result > 0 then result - 1 else 6;
      }
      return result;
    }
    r := Plus(original, -delta);
  }

  /** `operator+=`: leaves the operand equal to what `operator+` returns. */
  method PlusAssign(original: Weekday, delta: int) returns (updated: Weekday)
    requires INT32_MIN < delta <= INT32_MAX
    ensures updated == Add(original, delta)
    decreases if delta < 0 then 1 else 0
  {
    if delta >= 0 {
      var result: int := original;
      for i := 0 to delta
        invariant result == (original + i) % 7
      {
        StepForward(original + i);
        result := if result < 6 then result + 1 else 0;
      }
      return result;
    }
    updated := MinusAssign(original, -delta);
  }

  /** `operator-=`: leaves the operand equal to what `operator-` returns. */
  method MinusAssign(original: Weekday, delta: int) returns (updated: Weekday)
    requires INT32_MIN < delta <= INT32_MAX
    ensures updated == Add(original, -delta)
    decreases if delta < 0 then 1 else 0
  {
    if delta >= 0 {
      var result: int := original;
      for i := 0 to delta
        invariant result == (original - i) % 7
      {
        StepBackward(original - i);
        result := if result > 0 then result - 1 else 6;
      }
      return result;
    }
    updated := PlusAssign(original, -delta);
  }

  /** Prefix `++`: Saturday wraps to Sunday. */
  method Increment(original: Weekday) returns (updated: Weekday)
    ensures updated == (if original == Sat then Sun else original + 1)
  {
    updated := PlusAssign(original, 1);
  }

  /** Prefix `--`: Sunday wraps to Saturday. */
  method Decrement(original: Weekday) returns (updated: Weekday)
    ensures updated == (if original == Sun then Sat else original - 1)
  {
    updated := MinusAssign(original, 1);
  }

  /** Postfix `++`: the operand is incremented, the prior value returned. */
  method PostIncrement(original: Weekday) returns (prior: Weekday, updated: Weekday)
    ensures prior == original && updated == Add(original, 1)
  {
    prior := original;
    updated := PlusAssign(original, 1);
  }

  /** Postfix `--`. */
  method PostDecrement(original: Weekday) returns (prior: Weekday, updated: Weekday)
    ensures prior == original && updated == Add(original, -1)
  {
    prior := original;
    updated := MinusAssign(original, 1);
  }

  /** Subtracting what was added gives the weekday back. */
  lemma AddThenSubtract(w: Weekday, delta: int)
    ensures Add(Add(w, delta), -delta) == w
  {
  }

  /** The expectations of the weekday test program. */
  lemma TestExpectations()
    ensures Add(Mon, 3) == Thu && Add(Sat, -2) == Thu
    ensures Add(Mon, 8) == Tue && Add(Sat, -11) == Tue
  {
  }

  /** The English name `operator<<` writes. */
  function Name(w: Weekday): (r: string)
    ensures 6 <= |r| && r[|r| - 3..] == "day"
  {
    if w == Sun then "Sunday" else if w == Mon then "Monday"
    else if w == Tue then "Tuesday" else if w == Wed then "Wednesday"
    else if w == Thu then "Thursday" else if w == Fri then "Friday"
    else "Saturday"
  }

  /** No two weekdays share a name. */
  lemma NamesDistinct(a: Weekday, b: Weekday)
    ensures Name(a) == Name(b) ==> a == b
  {
  }
}
