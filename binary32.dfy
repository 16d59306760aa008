/**
 * IEEE 754 binary32 values as their 32-bit patterns: bit 31 is the sign,
 * bits 30..23 the biased exponent (bias 127), bits 22..0 the fraction
 * (section 3.4 of IEEE 754-2019). Only the field tests the codec needs are
 * defined here; the four arithmetic operations on binary32 are a parameter.
 */
module Binary32 {

  const SignBit32: bv32 := 0x8000_0000
  const PositiveZero32: bv32 := 0x0000_0000
  const NegativeZero32: bv32 := 0x8000_0000
  const PositiveInfinity32: bv32 := 0x7F80_0000
  const NegativeInfinity32: bv32 := 0xFF80_0000
  /** The quiet NaN that a Go `float32(math.NaN())` produces. */
  const QuietNaN32: bv32 := 0x7FC0_0000
  const One32: bv32 := 0x3F80_0000
  const MinusOne32: bv32 := 0xBF80_0000

  /** The biased exponent field. */
  function Exponent(p: bv32): (e: bv32)
    ensures e < 256
  {
    (p >> 23) & 0xFF
  }

  /** The 23-bit fraction field. */
  function Mantissa(p: bv32): (m: bv32)
    ensures m < 0x80_0000
  {
    p & 0x7F_FFFF
  }

  predicate SignBit(p: bv32) {
    p >> 31 != 0
  }

  /** `p == 0.0` holds for both zeros. */
  predicate IsZero(p: bv32) {
    Exponent(p) == 0 && Mantissa(p) == 0
  }

  predicate IsInf(p: bv32) {
    Exponent(p) == 0xFF && Mantissa(p) == 0
  }

  predicate IsNaN(p: bv32) {
    Exponent(p) == 0xFF && Mantissa(p) != 0
  }

  /** The magnitude bits: the pattern with the sign cleared. */
  function Magnitude(p: bv32): bv32 {
    p & 0x7FFF_FFFF
  }

  /**
   * The binary32 `<` on patterns (section 5.11 of IEEE 754-2019): false when either is a
   * NaN or both are zeros; otherwise a set sign bit against a clear one decides, and two
   * equal signs compare magnitudes, reversed for negatives.
   */
  predicate Less(p: bv32, q: bv32) {
    if IsNaN(p) || IsNaN(q) || (IsZero(p) && IsZero(q)) then false
    else if SignBit(p) != SignBit(q) then SignBit(p)
    else if !SignBit(p) then Magnitude(p) < Magnitude(q)
    else Magnitude(p) > Magnitude(q)
  }

  /**
   * The binary32 `+`, `-`, `*` and `/` of the platform, on bit patterns. The model never
   * looks inside them: every property of the 8-bit format that does not depend on the
   * exact result of a finite operation holds whatever these functions are.
   */
  datatype Arithmetic = Arithmetic(
    add: (bv32, bv32) -> bv32,
    sub: (bv32, bv32) -> bv32,
    mul: (bv32, bv32) -> bv32,
    div: (bv32, bv32) -> bv32)

  lemma SpecialPatterns()
    ensures IsZero(PositiveZero32) && IsZero(NegativeZero32) && SignBit(NegativeZero32)
    ensures IsInf(PositiveInfinity32) && !SignBit(PositiveInfinity32)
    ensures IsInf(NegativeInfinity32) && SignBit(NegativeInfinity32)
    ensures IsNaN(QuietNaN32)
  {
  }
}
