/** Option and Result, used for the places where the Kotlin code returns
    null or throws. */
module Wrappers {

  datatype Option<+T> = None | Some(value: T) {
    function GetOr(default: T): T {
      match this
      case Some(v) => v
      case None => default
    }
  }

  datatype Result<+R, +E> = Success(value: R) | Failure(error: E)
}

/** The parts of the Kotlin/JVM runtime whose exact behaviour the model
    depends on: 32- and 64-bit two's-complement arithmetic, truncating integer
    division, `Float.roundToInt()` and `String.toLong()`. */
module KotlinRuntime {
  import opened Wrappers

  /** Exceptions the modelled code can raise. */
  datatype KotlinException =
    | IndexOutOfBounds   // covers[0] on an empty array
    | NoSuchElement      // first() on an empty list
    | NumberFormat       // String.toLong() on a malformed string
    | IllegalArgument    // roundToInt() of NaN, Bitmap.createBitmap with a bad region

  const MIN_INT: int := -0x8000_0000
  const MAX_INT: int := 0x7fff_ffff
  const MIN_LONG: int := -0x8000_0000_0000_0000
  const MAX_LONG: int := 0x7fff_ffff_ffff_ffff

  /** Kotlin `Int` and `Long`. */
  type Int32 = x: int | -0x8000_0000 <= x <= 0x7fff_ffff
  type Int64 = x: int | -0x8000_0000_0000_0000 <= x <= 0x7fff_ffff_ffff_ffff

  /** Two's-complement wrap-around of a mathematical result into `Int`. */
  function Wrap32(x: int): (r: Int32)
    ensures MIN_INT <= x <= MAX_INT ==> r == x
    ensures (x - r) % 0x1_0000_0000 == 0
  {
    (x - MIN_INT) % 0x1_0000_0000 + MIN_INT
  }

  /** Two's-complement wrap-around of a mathematical result into `Long`. */
  function Wrap64(x: int): (r: Int64)
    ensures MIN_LONG <= x <= MAX_LONG ==> r == x
    ensures (x - r) % 0x1_0000_0000_0000_0000 == 0
  {
    (x - MIN_LONG) % 0x1_0000_0000_0000_0000 + MIN_LONG
  }

  /** Kotlin `a - b` and `a + b` on `Int`. */
  function Sub32(a: Int32, b: Int32): Int32 { Wrap32(a - b) }
  function Add32(a: Int32, b: Int32): Int32 { Wrap32(a + b) }

  /** `kotlin.math.abs` on `Int`: abs(Int.MIN_VALUE) is Int.MIN_VALUE. */
  function Abs32(a: Int32): Int32 { if a < 0 then Wrap32(0 - a as int) else a }

  /** Kotlin/JVM integer division by a positive divisor: rounds toward zero,
      unlike Dafny's Euclidean `/`. */
  function TruncDiv(a: int, d: int): int
    requires d > 0
  {
    if a >= 0 then a / d else -((-a) / d)
  }

  /** `Float.roundToInt()` on a finite value, with exact rationals standing in
      for `Float`: `Math.round`, i.e. floor(x + 1/2), saturated to the `Int`
      range. (NaN, which makes roundToInt throw, is handled by callers.) */
  function RoundToInt(x: real): (r: Int32)
    ensures MIN_INT as real - 0.5 <= x < MAX_INT as real + 0.5 ==>
              r as real - 0.5 <= x < r as real + 0.5
    ensures x < MIN_INT as real - 0.5 ==> r == MIN_INT
    ensures x >= MAX_INT as real + 0.5 ==> r == MAX_INT
  {
    var n := (x + 0.5).Floor;
    if n < MIN_INT then MIN_INT else if n > MAX_INT then MAX_INT else n
  }

  /** `a.toFloat() / b.toFloat()` for a non-zero divisor. */
  function FloatQuotient(a: Int32, b: Int32): real
    requires b != 0
  {
    a as real / b as real
  }

  /** `Int.times(Float)`: the `Int` converted, then multiplied. */
  function IntTimesFloat(a: Int32, f: real): real {
    a as real * f
  }

  lemma PositiveProduct(x: real, y: real)
    requires x > 0.0 && y > 0.0
    ensures x * y > 0.0
  {
  }

  lemma FactorAtMostOne(q: real, a: real, b: real)
    requires 0.0 < a <= b && q * b == a
    ensures q <= 1.0
  {
    if q > 1.0 {
      PositiveProduct(q - 1.0, b);
      assert q * b == (q - 1.0) * b + b;
    }
  }

  /** A quotient of two positive numbers, the first the smaller, lies in (0, 1]. */
  lemma QuotientAtMostOne(a: Int32, b: Int32)
    requires 0 < a <= b
    ensures 0.0 < FloatQuotient(a, b) <= 1.0
  {
    assert FloatQuotient(a, b) * b as real == a as real;
    FactorAtMostOne(FloatQuotient(a, b), a as real, b as real);
  }

  /** Scaling a non-negative `Int` by a factor between 0 and 1 stays between
      0 and that `Int`. */
  lemma ScaleBetween(a: Int32, f: real)
    requires 0 <= a && 0.0 <= f <= 1.0
    ensures 0.0 <= IntTimesFloat(a, f) <= a as real
  {
    var p := a as real;
    var g := 1.0 - f;
    assert IntTimesFloat(a, f) == p * f;
    assert p * f >= 0.0;
    assert p * g >= 0.0;
    assert p * f + p * g == p * (f + g);
    assert f + g == 1.0;
  }

  /** Rounding a value between 0 and a non-negative `Int` gives an `Int`
      between them. */
  lemma RoundBetween(x: real, hi: Int32)
    requires 0.0 <= x <= hi as real
    ensures 0 <= RoundToInt(x) <= hi
  {
    var d := RoundToInt(x);
    assert d as real - 0.5 <= x < d as real + 0.5;
  }

  predicate IsDigit(c: char) { '0' <= c <= '9' }

  predicate AllDigits(s: string) { forall i :: 0 <= i < |s| ==> IsDigit(s[i]) }

  /** Value of a string of decimal digits, most significant digit first. */
  function DigitsValue(s: string): nat
    requires AllDigits(s)
  {
    if |s| == 0 then 0
    else DigitsValue(s[..|s| - 1]) * 10 + (s[|s| - 1] as int - '0' as int)
  }

  /** `String.toLong()` (radix 10): an optional sign, then at least one digit,
      and a value inside the `Long` range; anything else throws
      NumberFormatException, here `None`. */
  function ParseLong(s: string): (r: Option<Int64>)
    ensures r.Some? ==> |s| > 0
  {
    if |s| == 0 then None
    else
      var negative := s[0] == '-';
      var digits := if s[0] == '-' || s[0] == '+' then s[1..] else s;
      if |digits| == 0 || !AllDigits(digits) then None
      else
        var v: int := if negative then 0 - DigitsValue(digits) else DigitsValue(digits);
        if MIN_LONG <= v <= MAX_LONG then Some(v) else None
  }

  /** Decimal rendering of a natural number, the way a setting value such as
      "3600" is written. */
  function DecimalString(n: nat): (s: string)
  {
    var d := [('0' as int + n % 10) as char];
    if n < 10 then d else DecimalString(n / 10) + d
  }

  lemma {:induction false} DecimalStringDigits(n: nat)
    ensures |DecimalString(n)| > 0 && DecimalString(n)[0] != '-' && DecimalString(n)[0] != '+'
    ensures AllDigits(DecimalString(n)) && DigitsValue(DecimalString(n)) == n
  {
    var d := [('0' as int + n % 10) as char];
    if n >= 10 {
      DecimalStringDigits(n / 10);
      var s := DecimalString(n / 10) + d;
      assert s[..|s| - 1] == DecimalString(n / 10);
      assert s[0] == DecimalString(n / 10)[0];
    }
  }

  /** Parsing a rendered natural number gives it back. */
  lemma ParseLongOfDecimal(n: nat)
    requires n <= MAX_LONG
    ensures ParseLong(DecimalString(n)) == Some(n)
  {
    DecimalStringDigits(n);
  }

  /** What `toLong` accepts: an empty string, a lone sign, a character that is
      neither a sign nor a digit in front, or any non-digit after it is
      rejected; an unsigned digit string is read as its value exactly when
      that fits a `Long`. */
  lemma ParseLongAccepts(s: string)
    ensures ParseLong("") == None && ParseLong("-") == None && ParseLong("+") == None
    ensures |s| > 0 && !IsDigit(s[0]) && s[0] != '-' && s[0] != '+' ==> ParseLong(s) == None
    ensures (exists i :: 1 <= i < |s| && !IsDigit(s[i])) ==> ParseLong(s) == None
    ensures |s| > 0 && AllDigits(s) ==>
              ParseLong(s) == if DigitsValue(s) <= MAX_LONG then Some(DigitsValue(s)) else None
  {
    if |s| > 0 && exists i :: 1 <= i < |s| && !IsDigit(s[i]) {
      var i :| 1 <= i < |s| && !IsDigit(s[i]);
      if s[0] == '-' || s[0] == '+' {
        assert !IsDigit(s[1..][i - 1]);
      }
    }
  }

  /** "-" followed by a rendered number parses to its negation. */
  lemma ParseLongOfNegativeDecimal(n: nat)
    requires n <= -MIN_LONG
    ensures ParseLong("-" + DecimalString(n)) == Some(0 - n)
  {
    DecimalStringDigits(n);
    assert ("-" + DecimalString(n))[1..] == DecimalString(n);
  }
}
