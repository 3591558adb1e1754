/** Go's `strconv.Atoi` and the `%d` verb of `fmt`, over unbounded integers. */
module Strconv {

  predicate IsDigit(c: char) {
    '0' <= c <= '9'
  }

  predicate AllDigits(s: string) {
    forall i :: 0 <= i < |s| ==> IsDigit(s[i])
  }

  /** The number a string of decimal digits denotes (most significant first). */
  function DigitsValue(s: string): nat
    requires AllDigits(s)
    decreases |s|
  {
    if |s| == 0 then 0
    else 10 * DigitsValue(s[..|s| - 1]) + (s[|s| - 1] as int - '0' as int)
  }

  /** What `strconv.Atoi` accepts: an optional `+` or `-`, then at least one digit. */
  predicate IsDecimal(s: string) {
    && |s| > 0
    && if s[0] == '+' || s[0] == '-' then |s| > 1 && AllDigits(s[1..]) else AllDigits(s)
  }

  /** Go's `(int, error)` pair as returned by `strconv.Atoi`. */
  datatype Parsed = Parsed(value: int, ok: bool)

  /** `strconv.Atoi(s)`: the value of a signed decimal string; on a syntax
      error the value is 0, never a partially read number. */
  function Atoi(s: string): (r: Parsed)
    ensures r.ok <==> IsDecimal(s)
    ensures !r.ok ==> r.value == 0
    ensures r.ok ==> (r.value < 0 ==> s[0] == '-')
    ensures r.ok && s[0] == '-' ==> r.value <= 0
  {
    if |s| == 0 then Parsed(0, false)
    else if s[0] == '+' || s[0] == '-' then
      if |s| > 1 && AllDigits(s[1..]) then
        var n: int := DigitsValue(s[1..]);
        Parsed(if s[0] == '-' then -n else n, true)
      else Parsed(0, false)
    else if AllDigits(s) then Parsed(DigitsValue(s), true)
    else Parsed(0, false)
  }

  function Digit(d: nat): (c: char)
    requires d < 10
    ensures IsDigit(c) && c as int - '0' as int == d
  {
    ('0' as int + d) as char
  }

  /** The decimal digits of `n`, without leading zeros. */
  function Digits(n: nat): (s: string)
    ensures |s| > 0 && AllDigits(s)
    ensures DigitsValue(s) == n
    ensures s[0] == '0' ==> n == 0 && |s| == 1
    decreases n
  {
    if n < 10 then [Digit(n)]
    else
      var s := Digits(n / 10) + [Digit(n % 10)];
      assert s[..|s| - 1] == Digits(n / 10);
      s
  }

  /** `fmt.Sprintf("%d", n)`. */
  function Decimal(n: int): (s: string)
    ensures |s| > 0 && '/' !in s
    ensures s[0] == '-' <==> n < 0
    ensures var d := if n < 0 then s[1..] else s;
      && |d| > 0 && AllDigits(d)
      && DigitsValue(d) == (if n < 0 then -n else n)
      && (d[0] == '0' ==> |d| == 1)
  {
    if n < 0 then "-" + Digits(-n) else Digits(n)
  }

  /** Atoi reads back exactly the number `%d` printed. */
  lemma AtoiOfDecimal(n: int)
    ensures Atoi(Decimal(n)) == Parsed(n, true)
  {
  }

  predicate AllZeros(z: string) {
    forall i :: 0 <= i < |z| ==> z[i] == '0'
  }

  /** A run of zeros denotes 0. */
  lemma {:induction false} ZerosValue(z: string)
    requires AllZeros(z)
    ensures AllDigits(z) && DigitsValue(z) == 0
    decreases |z|
  {
    if |z| > 0 {
      ZerosValue(z[..|z| - 1]);
    }
  }

  /** Leading zeros do not change the value of a digit string. */
  lemma {:induction false} DigitsValueOfPadded(z: string, d: string)
    requires AllZeros(z) && AllDigits(d)
    ensures AllDigits(z + d) && DigitsValue(z + d) == DigitsValue(d)
    decreases |d|
  {
    if |d| == 0 {
      assert z + d == z;
      ZerosValue(z);
    } else {
      var s := z + d;
      DigitsValueOfPadded(z, d[..|d| - 1]);
      assert s[..|s| - 1] == z + d[..|d| - 1];
    }
  }

  /** An unsigned digit string reads as its value. */
  lemma AtoiOfDigits(d: string)
    requires |d| > 0 && AllDigits(d)
    ensures Atoi(d) == Parsed(DigitsValue(d), true)
  {
    assert IsDigit(d[0]);
  }

  /** A sign before a digit string reads as the value, negated after `-`. */
  lemma AtoiOfSigned(sign: char, d: string)
    requires sign == '+' || sign == '-'
    requires |d| > 0 && AllDigits(d)
    ensures Atoi([sign] + d) == Parsed(if sign == '-' then -(DigitsValue(d) as int) else DigitsValue(d), true)
  {
    assert ([sign] + d)[1..] == d;
  }

  /** Atoi accepts an optional sign and leading zeros before the digits of
      `n`, and reads exactly `n` (negated after `-`; `-0` is 0). */
  lemma AtoiOfPadded(sign: string, zeros: string, n: nat)
    requires sign == "" || sign == "+" || sign == "-"
    requires AllZeros(zeros)
    ensures Atoi(sign + zeros + Digits(n)) == Parsed(if sign == "-" then -(n as int) else n, true)
  {
    var d := zeros + Digits(n);
    DigitsValueOfPadded(zeros, Digits(n));
    assert sign + zeros + Digits(n) == sign + d;
    if sign == "" {
      assert sign + d == d;
      AtoiOfDigits(d);
    } else {
      assert sign == [sign[0]];
      AtoiOfSigned(sign[0], d);
    }
  }
}
