/** Java's 32-bit `int` and the integer conversions the engine relies on:
    two's-complement wrap-around, the `(int)` cast of a floating value,
    truncating `/` and `%`, `Integer.toString` and `Integer.parseInt`. */
module JavaInts {
  import opened Wrappers

  const MinInt: int := -0x8000_0000
  const MaxInt: int := 0x7FFF_FFFF
  const Modulus: int := 0x1_0000_0000

  /** The values of a Java `int`. */
  type int32 = x: int | -0x8000_0000 <= x <= 0x7FFF_FFFF

  /** Two's-complement wrap-around of Java `int` addition. */
  function Wrap(x: int): (r: int32)
    ensures (r - x) % Modulus == 0
    ensures MinInt <= x <= MaxInt ==> r == x
  {
    ((x - MinInt) % Modulus) + MinInt
  }

  /** Rounding toward zero, the rounding of Java's float-to-int cast. */
  function Trunc(r: real): (t: int)
    ensures 0.0 <= r ==> t as real <= r < t as real + 1.0
    ensures r < 0.0 ==> t as real - 1.0 < r <= t as real
  {
    if r >= 0.0 then r.Floor else -((-r).Floor)
  }

  /** Java's `(int)` cast of a finite floating value: truncation toward
      zero, saturating at the ends of the `int` range. */
  function IntCast(r: real): (t: int32)
    ensures MinInt <= Trunc(r) <= MaxInt ==> t == Trunc(r)
    ensures Trunc(r) > MaxInt ==> t == MaxInt
    ensures Trunc(r) < MinInt ==> t == MinInt
  {
    var t := Trunc(r);
    if t > MaxInt then MaxInt else if t < MinInt then MinInt else t
  }

  /** Truncation differs from flooring exactly on negative non-integers:
      `(int) -0.3f` is 0, not -1. */
  lemma TruncIsNotFloor(r: real)
    ensures Trunc(r) == r.Floor <==> (0.0 <= r || r == r.Floor as real)
    ensures Trunc(-0.3) == 0 && (-0.3).Floor == -1
  {
    if r < 0.0 && r != r.Floor as real {
      assert r.Floor as real < r;
      assert Trunc(r) as real >= r;
    }
  }

  /** Java's `/` on `long` for a positive divisor: rounds toward zero. */
  function JavaDiv(a: int, b: int): (q: int)
    requires b > 0
    ensures 0 <= a ==> q == a / b
    ensures a < 0 ==> q == -((-a) / b)
  {
    if a >= 0 then a / b else -((-a) / b)
  }

  /** Java's `%` on `long` for a positive divisor: the remainder takes the
      sign of the dividend. */
  function JavaRem(a: int, b: int): (m: int)
    requires b > 0
    ensures a == b * JavaDiv(a, b) + m
    ensures -b < m < b
    ensures 0 <= a ==> 0 <= m
    ensures a < 0 ==> m <= 0
  {
    a - b * JavaDiv(a, b)
  }

  // ---------------------------------------------------------------------
  // Decimal text

  predicate IsDigit(c: char) {
    '0' <= c <= '9'
  }

  predicate AllDigits(s: string) {
    forall i :: 0 <= i < |s| ==> IsDigit(s[i])
  }

  function DigitChar(d: nat): (c: char)
    requires d < 10
    ensures IsDigit(c)
    ensures c as int - '0' as int == d
  {
    ('0' as int + d) as char
  }

  /** Decimal digits of `n` with no leading zero. */
  function NatToString(n: nat): (s: string)
    ensures 0 < |s| && AllDigits(s)
    ensures n < 10 <==> |s| == 1
  {
    if n < 10 then [DigitChar(n)] else NatToString(n / 10) + [DigitChar(n % 10)]
  }

  /** The value of a string of decimal digits, most significant first. */
  function DigitsValue(s: string): nat
    requires AllDigits(s)
  {
    if |s| == 0 then 0 else DigitsValue(s[..|s| - 1]) * 10 + (s[|s| - 1] as int - '0' as int)
  }

  lemma {:induction false} DigitsValueOfNatToString(n: nat)
    ensures DigitsValue(NatToString(n)) == n
  {
    if n >= 10 {
      var s := NatToString(n);
      assert s[..|s| - 1] == NatToString(n / 10);
      DigitsValueOfNatToString(n / 10);
    }
  }

  /** `Integer.toString(x)`: a minus sign for negative values, then the
      decimal digits of the magnitude. */
  function IntToString(x: int): (s: string)
    ensures 0 < |s|
    ensures forall i :: 0 <= i < |s| ==> IsDigit(s[i]) || s[i] == '-'
    ensures s[0] == '-' <==> x < 0
  {
    if x < 0 then "-" + NatToString(-x) else NatToString(x)
  }

  predicate IsSign(c: char) {
    c == '-' || c == '+'
  }

  /** The text `parseInt` accepts: an optional sign, then one or more
      decimal digits (leading zeros allowed). */
  predicate IsNumeral(s: string) {
    && 0 < |s|
    && (IsSign(s[0]) ==> 1 < |s|)
    && forall i :: 0 <= i < |s| ==> IsDigit(s[i]) || (i == 0 && IsSign(s[i]))
  }

  /** The value a numeral spells: the digits after the sign, negated
      after a minus sign. */
  function NumeralValue(s: string): int
    requires IsNumeral(s)
  {
    var magnitude := if IsSign(s[0]) then s[1..] else s;
    assert AllDigits(magnitude) by {
      forall i | 0 <= i < |magnitude| ensures IsDigit(magnitude[i]) {
        if IsSign(s[0]) { assert magnitude[i] == s[i + 1]; }
      }
    }
    if s[0] == '-' then -(DigitsValue(magnitude) as int) else DigitsValue(magnitude)
  }

  /** `Integer.parseInt(s)` in radix 10: an optional `-` or `+`, at least
      one digit, and a value inside the `int` range; anything else is a
      `NumberFormatException`, here `None`. */
  function ParseInt(s: string): (r: Option<int32>)
    ensures r.Some? <==> IsNumeral(s) && MinInt <= NumeralValue(s) <= MaxInt
    ensures r.Some? ==> r.value == NumeralValue(s)
    ensures r.Some? ==> 0 < |s| && (IsDigit(s[0]) || s[0] == '-' || s[0] == '+')
    ensures r.Some? ==> forall i :: 0 < i < |s| ==> IsDigit(s[i])
    ensures r.Some? && s[0] == '-' ==> r.value <= 0
    ensures r.Some? && s[0] != '-' ==> 0 <= r.value
  {
    if |s| == 0 then None
    else
      var signed := s[0] == '-' || s[0] == '+';
      var digits := if signed then s[1..] else s;
      if |digits| == 0 || !AllDigits(digits) then None
      else
        var v: int := if s[0] == '-' then -(DigitsValue(digits) as int) else DigitsValue(digits);
        if MinInt <= v <= MaxInt then Some(v) else None
  }

  /** Non-canonical numerals: a plus sign, leading zeros and a negative
      zero are accepted; an empty text, a lone sign and inner blanks are
      not. */
  lemma ParseIntCases()
    ensures ParseInt("+7") == Some(7) && ParseInt("007") == Some(7) && ParseInt("-0") == Some(0)
    ensures ParseInt("").None? && ParseInt("-").None? && ParseInt("+").None? && ParseInt("1 2").None?
  {
    assert "+7"[1..] == "7" && "7"[..0] == "";
    assert IsNumeral("+7") && NumeralValue("+7") == 7;
    assert "007"[..2] == "00" && "00"[..1] == "0" && "0"[..0] == "";
    assert IsNumeral("007") && NumeralValue("007") == 7;
    assert "-0"[1..] == "0";
    assert IsNumeral("-0") && NumeralValue("-0") == 0;
    assert !IsNumeral("1 2") by { assert !IsDigit("1 2"[1]); }
  }

  /** The decimal text of any integer is a numeral spelling that integer. */
  lemma NumeralOfIntToString(x: int)
    ensures IsNumeral(IntToString(x)) && NumeralValue(IntToString(x)) == x
  {
    if x < 0 {
      var d := NatToString(-x);
      assert IntToString(x)[1..] == d;
      DigitsValueOfNatToString(-x);
    } else {
      DigitsValueOfNatToString(x);
    }
  }

  /** The decimal text of an integer parses exactly when the integer fits
      in an `int`, so one past either end is rejected. */
  lemma ParseIntRange(x: int)
    ensures ParseInt(IntToString(x)).Some? <==> MinInt <= x <= MaxInt
    ensures ParseInt(IntToString(x)).Some? ==> ParseInt(IntToString(x)).value == x
  {
    NumeralOfIntToString(x);
  }

  /** `parseInt` inverts `toString` on every `int`, negatives included. */
  lemma ParseIntToString(x: int32)
    ensures ParseInt(IntToString(x)) == Some(x)
  {
    if x < 0 {
      ParseNegative(x);
    } else {
      ParsePositive(x);
    }
  }

  lemma ParseNegative(x: int32)
    requires x < 0
    ensures ParseInt(IntToString(x)) == Some(x)
  {
    var d := NatToString(-(x as int));
    var s := "-" + d;
    assert IntToString(x) == s;
    assert s[1..] == d;
    DigitsValueOfNatToString(-(x as int));
    assert AllDigits(d);
    var v: int := -(DigitsValue(d) as int);
    assert v == x;
  }

  lemma ParsePositive(x: int32)
    requires 0 <= x
    ensures ParseInt(IntToString(x)) == Some(x)
  {
    var s := NatToString(x);
    assert IntToString(x) == s;
    DigitsValueOfNatToString(x);
    assert IsDigit(s[0]);
    assert s[0] != '-' && s[0] != '+';
  }
}
