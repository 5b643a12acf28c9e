/** Decimal text as `std::ostream` writes an `int`, the zero padding the
    serialisers put in front of it, and the reading back of such text. */
module Decimal {

  predicate IsDigit(c: char) { '0' <= c <= '9' }

  predicate AllDigits(s: string) { forall i :: 0 <= i < |s| ==> IsDigit(s[i]) }

  function DigitChar(d: int): (c: char)
    requires 0 <= d < 10
    ensures IsDigit(c)
  {
    ('0' as int + d) as char
  }

  function DigitValue(c: char): (d: int)
    requires IsDigit(c)
    ensures 0 <= d < 10
  {
    c as int - '0' as int
  }

  /** `os << n` for a non-negative `n`: its digits, most significant first,
      with no leading zero ("0" for zero). */
  function Digits(n: nat): (s: string)
    ensures AllDigits(s)
    ensures n < 10 ==> |s| == 1
    ensures 10 <= n < 100 ==> |s| == 2
    ensures 100 <= n < 1000 ==> |s| == 3
    ensures 1000 <= n < 10000 ==> |s| == 4
    ensures 1000 <= n ==> |s| >= 4
  {
    if n < 10 then [DigitChar(n)] else Digits(n / 10) + [DigitChar(n % 10)]
  }

  /** `os << n` for any `int`: a minus sign before the digits of a negative value. */
  function IntText(n: int): (s: string)
    ensures |s| >= 1
    ensures 0 <= n ==> s == Digits(n)
  {
    if n < 0 then "-" + Digits(-n) else Digits(n)
  }

  /** The number a string of decimal digits denotes, read left to right. */
  function Value(s: string): nat
    requires AllDigits(s)
  {
    if s == [] then 0 else Value(s[..|s| - 1]) * 10 + DigitValue(s[|s| - 1])
  }

  lemma {:induction false} ValueOfDigits(n: nat)
    ensures Value(Digits(n)) == n
  {
    if n >= 10 {
      var s := Digits(n / 10) + [DigitChar(n % 10)];
      assert s[..|s| - 1] == Digits(n / 10);
      ValueOfDigits(n / 10);
    }
  }

  /** A leading zero does not change the value. */
  lemma {:induction false} ValueLeadingZero(s: string)
    requires AllDigits(s)
    ensures AllDigits("0" + s) && Value("0" + s) == Value(s)
    decreases |s|
  {
    var z := "0" + s;
    if s == [] {
      assert z[..0] == [];
    } else {
      assert z[..|z| - 1] == "0" + s[..|s| - 1];
      ValueLeadingZero(s[..|s| - 1]);
    }
  }

  /** A two-digit field of the stream forms: `if (n < 10) os << '0'; os << n;`. */
  function TwoDigits(n: int): string
  {
    (if n < 10 then "0" else "") + IntText(n)
  }

  lemma TwoDigitsRoundTrip(n: int)
    requires 0 <= n < 100
    ensures |TwoDigits(n)| == 2 && AllDigits(TwoDigits(n)) && Value(TwoDigits(n)) == n
  {
    ValueOfDigits(n);
    if n < 10 {
      ValueLeadingZero(Digits(n));
    }
  }

  /** The year field of the date stream form: one '0' for each of the
      thresholds 1000, 100 and 10 that `n` lies below, then its digits. */
  function FourDigits(n: nat): string
  {
    (if n < 1000 then "0" + (if n < 100 then "0" + (if n < 10 then "0" else "") else "") else "")
      + Digits(n)
  }

  lemma FourDigitsRoundTrip(n: nat)
    ensures |FourDigits(n)| >= 4 && AllDigits(FourDigits(n)) && Value(FourDigits(n)) == n
    ensures n < 10000 ==> |FourDigits(n)| == 4
  {
    var d := Digits(n);
    ValueOfDigits(n);
    if n < 10 {
      ValueLeadingZero(d);
      ValueLeadingZero("0" + d);
      ValueLeadingZero("0" + ("0" + d));
      assert FourDigits(n) == "0" + ("0" + ("0" + d));
    } else if n < 100 {
      ValueLeadingZero(d);
      ValueLeadingZero("0" + d);
      assert FourDigits(n) == "0" + ("0" + d);
    } else if n < 1000 {
      ValueLeadingZero(d);
      assert FourDigits(n) == "0" + d;
    } else {
      assert FourDigits(n) == d;
    }
  }
}
