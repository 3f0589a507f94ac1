/**
 The three unit conversions of src/units.hpp, over the reals. Each clamps to the range of its
 output type and then rounds half away from zero.
 */
module Units {
  import opened Limits

  function ClampReal(x: real, lo: real, hi: real): real
    requires lo <= hi
  {
    if x < lo then lo else if x > hi then hi else x
  }

  /** static_cast from double to an integer type: truncation towards zero. */
  function Truncate(x: real): int {
    if x >= 0.0 then x.Floor else -((-x).Floor)
  }

  function KnotsToCmPerS(knots: real): (r: int)
    ensures 0 <= r <= UINT16_MAX
  {
    Truncate(ClampReal(knots * (1852.0 / 36.0), 0.0, UINT16_MAX as real) + 0.5)
  }

  function FtPerMinToCmPerS(ftPerMin: int): (r: int)
    ensures INT16_MIN <= r <= INT16_MAX
  {
    var cms := ClampReal(ftPerMin as real * (30.48 / 60.0), INT16_MIN as real, INT16_MAX as real);
    Truncate(if cms >= 0.0 then cms + 0.5 else cms - 0.5)
  }

  function DegToCentideg(deg: real): (r: int)
    ensures 0 <= r <= UINT16_MAX
  {
    Truncate(ClampReal(deg * 100.0, 0.0, UINT16_MAX as real) + 0.5)
  }

  function Abs(x: real): real { if x < 0.0 then -x else x }

  /** x is rounded to the integer r with an error of at most one half. */
  predicate RoundsTo(x: real, r: int) {
    Abs(r as real - x) <= 0.5
  }

  /**
   Speed: monotone; within half a unit of the exact value as long as that value fits the wire
   field; saturated at the nearer end of the field otherwise, never wrapped.
   */
  lemma KnotsConversion(x: real, y: real)
    ensures x <= y ==> KnotsToCmPerS(x) <= KnotsToCmPerS(y)
    ensures 0.0 <= x * (1852.0 / 36.0) <= UINT16_MAX as real ==> RoundsTo(x * (1852.0 / 36.0), KnotsToCmPerS(x))
    ensures x <= 0.0 ==> KnotsToCmPerS(x) == 0
    ensures x * (1852.0 / 36.0) >= UINT16_MAX as real ==> KnotsToCmPerS(x) == UINT16_MAX
  {
  }

  /** Heading: as for speed; and a heading within the compass stays within 36000 centidegrees. */
  lemma HeadingConversion(x: real, y: real)
    ensures x <= y ==> DegToCentideg(x) <= DegToCentideg(y)
    ensures 0.0 <= x * 100.0 <= UINT16_MAX as real ==> RoundsTo(x * 100.0, DegToCentideg(x))
    ensures x <= 0.0 ==> DegToCentideg(x) == 0
    ensures x * 100.0 >= UINT16_MAX as real ==> DegToCentideg(x) == UINT16_MAX
    ensures 0.0 <= x <= 360.0 ==> DegToCentideg(x) <= 36000
  {
  }

  /**
   Vertical rate: monotone and odd; the input is a 16-bit value, for which the exact result always
   fits the output, so the conversion is within half a unit of exact for every input it can get.
   */
  lemma VerticalRateConversion(x: int, y: int)
    requires INT16_MIN <= x <= INT16_MAX
    ensures x <= y ==> FtPerMinToCmPerS(x) <= FtPerMinToCmPerS(y)
    ensures FtPerMinToCmPerS(-x) == -FtPerMinToCmPerS(x)
    ensures RoundsTo(x as real * (30.48 / 60.0), FtPerMinToCmPerS(x))
  {
  }
}
