/** The `month` enumeration and its cyclic operators (src/month.cpp).
    A `month&` operand that an operator overwrites is modelled as a value
    passed in and the new value returned; the postfix forms return the prior
    value as well. */
module Months {

  import opened Arith

  /** Zero-based ordinal: January is 0, December is 11. */
  type Month = m: int | 0 <= m < 12

  const Jan: Month := 0
  const Feb: Month := 1
  const Mar: Month := 2
  const Apr: Month := 3
  const May: Month := 4
  const Jun: Month := 5
  const Jul: Month := 6
  const Aug: Month := 7
  const Sep: Month := 8
  const Oct: Month := 9
  const Nov: Month := 10
  const Dec: Month := 11

  /** Reference meaning of moving `m` by `delta` places round the 12-month cycle. */
  function Add(m: Month, delta: int): Month
  {
    (m + delta) % 12
  }

  /** One forward step of the counting loops, on the residue of `k`. */
  lemma StepForward(k: int)
    ensures (if k % 12 < 11 then k % 12 + 1 else 0) == (k + 1) % 12
  {
  }

  /** One backward step of the counting loops, on the residue of `k`. */
  lemma StepBackward(k: int)
    ensures (if k % 12 > 0 then k % 12 - 1 else 11) == (k - 1) % 12
  {
  }

  /** `operator+`: a counting loop for a non-negative delta, otherwise
      `operator-` with the negated delta. */
  method Plus(original: Month, delta: int) returns (r: Month)
    requires INT32_MIN < delta <= INT32_MAX
    ensures r == Add(original, delta)
    decreases if delta < 0 then 1 else 0
  {
    if delta >= 0 {
      var result: int := original;
      for i := 0 to delta
        invariant result == (original + i) % 12
      {
        StepForward(original + i);
        result := if result < 11 then result + 1 else 0;
      }
      return result;
    }
    r := Minus(original, -delta);
  }

  /** `operator-`: a counting loop backwards for a non-negative delta,
      otherwise `operator+` with the negated delta. */
  method Minus(original: Month, delta: int) returns (r: Month)
    requires INT32_MIN < delta <= INT32_MAX
    ensures r == Add(original, -delta)
    decreases if delta < 0 then 1 else 0
  {
    if delta >= 0 {
      var result: int := original;
      for i := 0 to delta
        invariant result == (original - i) % 12
      {
        StepBackward(original - i);
        result := if result > 0 then result - 1 else 11;
      }
      return result;
    }
    r := Plus(original, -delta);
  }

  /** `operator+=`: the same forward loop, but with no branch for a negative
      delta, whose loop then runs zero times. */
  method PlusAssign(original: Month, delta: int) returns (updated: Month)
    ensures delta >= 0 ==> updated == Add(original, delta)
    ensures delta < 0 ==> updated == original
  {
    var result: int := original;
    var i := 0;
    while i < delta
      invariant 0 <= i && (i <= delta || i == 0)
      invariant result == (original + i) % 12
    {
      result := if result < 11 then result + 1 else 0;
      i := i + 1;
    }
    updated := result;
  }

  /** `operator-=`: the backward loop, likewise without a negative branch. */
  method MinusAssign(original: Month, delta: int) returns (updated: Month)
    ensures delta >= 0 ==> updated == Add(original, -delta)
    ensures delta < 0 ==> updated == original
  {
    var result: int := original;
    var i := 0;
    while i < delta
      invariant 0 <= i && (i <= delta || i == 0)
      invariant result == (original - i) % 12
    {
      result := if result > 0 then result - 1 else 11;
      i := i + 1;
    }
    updated := result;
  }

  /** Prefix `++`: `original += 1`. */
  method Increment(original: Month) returns (updated: Month)
    ensures updated == (if original == Dec then Jan else original + 1)
  {
    updated := PlusAssign(original, 1);
  }

  /** Prefix `--`: `original -= 1`. */
  method Decrement(original: Month) returns (updated: Month)
    ensures updated == (if original == Jan then Dec else original - 1)
  {
    updated := MinusAssign(original, 1);
  }

  /** Postfix `++`: the operand is incremented, the prior value returned. */
  method PostIncrement(original: Month) returns (prior: Month, updated: Month)
    ensures prior == original && updated == Add(original, 1)
  {
    prior := original;
    updated := PlusAssign(original, 1);
  }

  /** Postfix `--`. */
  method PostDecrement(original: Month) returns (prior: Month, updated: Month)
    ensures prior == original && updated == Add(original, -1)
  {
    prior := original;
    updated := MinusAssign(original, 1);
  }

  /** Subtracting what was added gives the month back. */
  lemma AddThenSubtract(m: Month, delta: int)
    ensures Add(Add(m, delta), -delta) == m
  {
  }

  /** The expectations of the month test program. */
  lemma TestExpectations()
    ensures Add(Jan, 3) == Apr && Add(Sep, -2) == Jul
    ensures Add(Jan, 13) == Feb && Add(Nov, -13) == Oct
  {
  }

  /** The English name `operator<<` writes. */
  function Name(m: Month): (r: string)
    ensures 3 <= |r| <= 9
  {
    if m == Jan then "January" else if m == Feb then "February"
    else if m == Mar then "March" else if m == Apr then "April"
    else if m == May then "May" else if m == Jun then "June"
    else if m == Jul then "July" else if m == Aug then "August"
    else if m == Sep then "September" else if m == Oct then "October"
    else if m == Nov then "November" else "December"
  }

  /** No two months share a name. */
  lemma NamesDistinct(a: Month, b: Month)
    ensures Name(a) == Name(b) ==> a == b
  {
  }
}
