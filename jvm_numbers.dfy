/** Fixed-width JVM integers and the float-to-int conversion the widget relies on.
    Kotlin's Int and Long wrap around on overflow; Float.toInt() truncates toward zero,
    saturates at the Int bounds and maps NaN to 0. */
module JvmNumbers {

  const MinInt32: int := -0x8000_0000
  const MaxInt32: int := 0x7FFF_FFFF

  /** Kotlin `Int` */
  newtype int32 = x: int | -0x8000_0000 <= x < 0x8000_0000

  /** Kotlin `Long` */
  newtype int64 = x: int | -0x8000_0000_0000_0000 <= x < 0x8000_0000_0000_0000

  predicate InInt32(x: int) { MinInt32 <= x <= MaxInt32 }

  predicate InInt64(x: int) { -0x8000_0000_0000_0000 <= x < 0x8000_0000_0000_0000 }

  /** The Int that 32-bit two's-complement arithmetic yields for the mathematical value `x`. */
  function Wrap32(x: int): (r: int32)
    ensures InInt32(x) ==> r as int == x
    ensures (x - r as int) % 0x1_0000_0000 == 0
  {
    var m := (x + 0x8000_0000) % 0x1_0000_0000;
    assert x - (m - 0x8000_0000) == ((x + 0x8000_0000) / 0x1_0000_0000) * 0x1_0000_0000;
    (m - 0x8000_0000) as int32
  }

  /** The Long that 64-bit two's-complement arithmetic yields for the mathematical value `x`. */
  function Wrap64(x: int): (r: int64)
    ensures InInt64(x) ==> r as int == x
    ensures (x - r as int) % 0x1_0000_0000_0000_0000 == 0
  {
    var m := (x + 0x8000_0000_0000_0000) % 0x1_0000_0000_0000_0000;
    assert x - (m - 0x8000_0000_0000_0000)
      == ((x + 0x8000_0000_0000_0000) / 0x1_0000_0000_0000_0000) * 0x1_0000_0000_0000_0000;
    (m - 0x8000_0000_0000_0000) as int64
  }

  function Magnitude(x: int): nat { if x < 0 then -x else x }

  lemma DivOfNat(x: nat, y: int)
    requires 0 < y
    ensures 0 <= x / y
  {
  }

  /** Division truncating toward zero, as the JVM's float-to-int conversion leaves a quotient:
      the magnitudes divide, and the sign is that of the operands' product. */
  function TruncDiv(a: int, b: int): (q: int)
    requires b != 0
    ensures Magnitude(q) == Magnitude(a) / Magnitude(b)
    ensures (a >= 0) == (b > 0) ==> q >= 0
    ensures (a >= 0) != (b > 0) ==> q <= 0
    ensures 0 <= a && 0 < b ==> q == a / b
  {
    var m := Magnitude(a) / Magnitude(b);
    DivOfNat(Magnitude(a), Magnitude(b));
    if (a >= 0) == (b > 0) then m else -m
  }

  /** Float.toInt(): truncation toward zero, then saturation at the Int bounds. */
  function Saturate32(x: int): (r: int32)
    ensures InInt32(x) ==> r as int == x
    ensures x > MaxInt32 ==> r as int == MaxInt32
    ensures x < MinInt32 ==> r as int == MinInt32
  {
    if x > MaxInt32 then MaxInt32 as int32
    else if x < MinInt32 then MinInt32 as int32
    else x as int32
  }

  /** `(numerator / denominator.toFloat()).toInt()` for a Long numerator and denominator.
      A zero denominator gives +Infinity, -Infinity or NaN, which convert to the largest Int,
      the smallest Int and 0. */
  function FloatQuotientToInt(numerator: int64, denominator: int64): (r: int32)
    ensures denominator == 0 ==>
      r as int == (if numerator > 0 then MaxInt32 else if numerator < 0 then MinInt32 else 0)
    ensures denominator != 0 && InInt32(TruncDiv(numerator as int, denominator as int)) ==>
      r as int == TruncDiv(numerator as int, denominator as int)
    ensures denominator != 0 && TruncDiv(numerator as int, denominator as int) > MaxInt32 ==>
      r as int == MaxInt32
    ensures denominator != 0 && TruncDiv(numerator as int, denominator as int) < MinInt32 ==>
      r as int == MinInt32
    ensures 0 <= numerator && 0 < denominator ==> 0 <= r as int <= numerator as int / denominator as int
  {
    if denominator == 0 then
      if numerator > 0 then MaxInt32 as int32
      else if numerator < 0 then MinInt32 as int32
      else 0
    else
      Saturate32(TruncDiv(numerator as int, denominator as int))
  }

  /** For the non-negative operands a well-formed configuration supplies, and a quotient that
      fits an Int, the conversion is plain integer division. */
  lemma QuotientOfNonNegatives(numerator: int64, denominator: int64)
    requires 0 <= numerator && 0 < denominator
    requires numerator as int / denominator as int <= MaxInt32
    ensures FloatQuotientToInt(numerator, denominator) as int == numerator as int / denominator as int
  {
    assert TruncDiv(numerator as int, denominator as int) == numerator as int / denominator as int;
  }
}
