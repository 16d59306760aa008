/**
 * The 8-bit float as a bit pattern: bit 7 is the sign, bits 6..3 the exponent
 * (bias 7), bits 2..0 the mantissa. The special patterns are 0x00/0x80 (zeros),
 * 0x78/0xF8 (infinities) and 0x7F/0xFF (NaN). Every predicate and manipulator
 * here is a mask or a comparison on the byte.
 */
module Float8Types {

  type Float8 = bv8

  // Bit masks and field widths
  const SignMask: bv8 := 0x80
  const ExponentMask: bv8 := 0x78
  const MantissaMask: bv8 := 0x07
  const MantissaLen: nat := 3

  // Exponent bias and limits of the rebiased exponent accepted by the encoder
  const ExponentBias: int := 7
  const ExponentMax: int := 15
  const ExponentMin: int := -7

  // The binary32 exponent bias
  const Float32Bias: int := 127

  // Special values
  const PositiveZero: Float8 := 0x00
  const NegativeZero: Float8 := 0x80
  const PositiveInfinity: Float8 := 0x78
  const NegativeInfinity: Float8 := 0xF8
  const NaN: Float8 := 0x7F
  const MaxValue: Float8 := 0x7E
  const MinValue: Float8 := 0xFE
  const SmallestPositive: Float8 := 0x01

  /** How the encoder treats values it cannot represent. Only Strict reports errors. */
  datatype ConversionMode = ModeDefault | ModeStrict | ModeFast

  /** Which implementation the arithmetic dispatchers use. */
  datatype ArithmeticMode = ArithmeticAuto | ArithmeticAlgorithmic | ArithmeticLookup

  /** An encoder error: the operation, the offending binary32 input, and a message. */
  datatype Float8Error = Float8Error(op: string, value: bv32, msg: string)

  const ErrOverflow := Float8Error("convert", 0, "value too large for float8")
  const ErrUnderflow := Float8Error("convert", 0, "value too small for float8")
  const ErrNaN := Float8Error("convert", 0, "NaN not representable in float8")

  /** The 4-bit exponent field, bits 6..3. */
  function ExponentField(f: Float8): (e: bv8)
    ensures e < 16
  {
    (f & ExponentMask) >> MantissaLen
  }

  /** The 3-bit mantissa field, bits 2..0. */
  function MantissaField(f: Float8): (m: bv8)
    ensures m < 8
  {
    f & MantissaMask
  }

  predicate SignBitSet(f: Float8) {
    f & SignMask != 0
  }

  predicate IsZero(f: Float8) {
    f == PositiveZero || f == NegativeZero
  }

  predicate IsInf(f: Float8) {
    f == PositiveInfinity || f == NegativeInfinity
  }

  /** Finite means an exponent field below 15; the field is not otherwise inspected. */
  predicate IsFinite(f: Float8) {
    ExponentField(f) < 0x0F
  }

  /** NaN is tested with two masks; the combination singles out 0x7F and 0xFF. */
  predicate IsNaN(f: Float8) {
    (f & 0x7F == 0x7F) && (f & 0x07 == 0x07)
  }

  /** 0 for NaN and both zeros, -1 when the sign bit is set, 1 otherwise. */
  function Sign(f: Float8): (r: int)
    ensures r == 0 <==> IsNaN(f) || f == 0x00 || f == 0x80
    ensures r == -1 <==> f >= 0x80 && f != 0x80 && f != 0xFF
    ensures r == 1 <==> f < 0x80 && f != 0x00 && f != 0x7F
  {
    if IsNaN(f) then 0
    else if IsZero(f) then 0
    else if f & SignMask != 0 then -1
    else 1
  }

  /** Clears the sign bit. */
  function Abs(f: Float8): (r: Float8)
    ensures r < 0x80
    ensures r | (f & 0x80) == f
    ensures f < 0x80 ==> r == f
  {
    f & !SignMask
  }

  /** Flips the sign bit, except that both zeros are returned unchanged. */
  function Neg(f: Float8): (r: Float8)
    ensures IsZero(f) ==> r == f
    ensures !IsZero(f) ==> r & 0x7F == f & 0x7F && (r < 0x80 <==> f >= 0x80)
  {
    if IsZero(f) then f else f ^ SignMask
  }

  function Bits(f: Float8): bv8 {
    f
  }

  function FromBits(bits: bv8): Float8 {
    bits
  }

  // ---------------------------------------------------------------------------
  // Properties of the classification

  /** Each class is exactly the documented pair of patterns, and the three are disjoint. */
  lemma ClassesArePairs(f: Float8)
    ensures IsZero(f) <==> f == 0x00 || f == 0x80
    ensures IsInf(f) <==> f == 0x78 || f == 0xF8
    ensures IsNaN(f) <==> f == 0x7F || f == 0xFF
    ensures !(IsZero(f) && IsInf(f)) && !(IsZero(f) && IsNaN(f)) && !(IsInf(f) && IsNaN(f))
  {
  }

  /** IsFinite is false for both infinities and both NaNs, but also for the six patterns
      0x79..0x7E (and their negatives) that no other predicate classifies. */
  lemma FiniteIsExponentBelow15(f: Float8)
    ensures IsFinite(f) <==> (f & 0x78) != 0x78
    ensures IsInf(f) || IsNaN(f) ==> !IsFinite(f)
    ensures 0x79 <= f & 0x7F <= 0x7E ==> !IsFinite(f) && !IsInf(f) && !IsNaN(f)
  {
  }

  /** Abs is idempotent, and the result keeps every bit but the sign. */
  lemma AbsIdempotent(f: Float8)
    ensures Abs(Abs(f)) == Abs(f)
    ensures Abs(f) & 0x7F == f & 0x7F
  {
  }

  /** Neg is an involution on all 256 patterns. */
  lemma NegInvolution(f: Float8)
    ensures Neg(Neg(f)) == f
    ensures IsNaN(Neg(f)) == IsNaN(f) && IsInf(Neg(f)) == IsInf(f) && IsZero(Neg(f)) == IsZero(f)
  {
  }

  /** Neg swaps the two non-zero signs. */
  lemma NegSign(f: Float8)
    ensures Sign(Neg(f)) == -Sign(f)
  {
  }

  /** Bits and FromBits are inverse identities. */
  lemma BitsRoundTrip(f: Float8, b: bv8)
    ensures FromBits(Bits(f)) == f && Bits(FromBits(b)) == b
    ensures Bits(f) == f
  {
  }
}
