/**
 * The codec between binary32 patterns and 8-bit floats: the encoder with its
 * rebiasing, rounding, saturation and strict-mode errors, and the exact decoder.
 */
module Convert {
  import opened Wrappers
  import opened Float8Types
  import B = Binary32

  /**
   * The final byte composition of the encoder: sign, exponent and mantissa are OR-ed as
   * 32-bit values and the conversion to the 8-bit type keeps the low eight bits. The
   * exponent arrives as the unsigned reinterpretation of the signed rebiased exponent, so
   * a negative exponent sets bits 7..3. Go computes the rebiased exponent in int32 and
   * then reinterprets it; `e32` is the same quantity computed in 32-bit wrap-around
   * arithmetic on the unsigned exponent field, which has the same bits.
   */
  function Compose(sign: bv32, e32: bv32, mant8: bv32): Float8 {
    (((sign << 7) | (e32 << MantissaLen) | mant8) & 0xFF) as bv8
  }

  /** The rebiased exponent of a binary32 pattern: its biased exponent minus 127 plus 7. */
  function RebiasedExponent(f32: bv32): int {
    B.Exponent(f32) as int - Float32Bias + ExponentBias
  }

  /** Encodes a binary32 value; errors are reported only in strict mode. */
  function ToFloat8WithMode(f32: bv32, mode: ConversionMode): Result<Float8, Float8Error> {
    if B.IsZero(f32) then
      Ok(if B.SignBit(f32) then NegativeZero else PositiveZero)
    else if B.IsInf(f32) then
      Ok(if !B.SignBit(f32) then PositiveInfinity else NegativeInfinity)
    else if B.IsNaN(f32) then
      if mode == ModeStrict then Err(ErrNaN) else Ok(NaN)
    else
      var sign := f32 >> 31;
      var exp := B.Exponent(f32) as int;
      var mant := f32 & 0x7F_FFFF;
      if exp == 0 && mant == 0 then
        Ok(if sign != 0 then NegativeZero else PositiveZero)
      else
        var exp8 := exp - Float32Bias + ExponentBias;
        // uint32(exp8)
        var e32 := B.Exponent(f32) - 127 + 7;
        if exp8 > ExponentMax then
          if mode == ModeStrict then Err(Float8Error("convert", f32, "overflow: value too large for float8"))
          else Ok(if sign != 0 then NegativeInfinity else PositiveInfinity)
        else if exp8 < ExponentMin then
          if mode == ModeStrict then Err(Float8Error("convert", f32, "underflow: value too small for float8"))
          else Ok(if sign != 0 then NegativeZero else PositiveZero)
        else
          // keep the top 23 - MantissaLen bits; round on the next one
          var mant8 := mant >> 20;
          if (mant >> 19) & 1 != 0 then
            if mant8 + 1 >= 8 then  // 1 << MantissaLen
              if exp8 + 1 > ExponentMax then
                if mode == ModeStrict then Err(Float8Error("convert", f32, "overflow after rounding"))
                else Ok(if sign != 0 then NegativeInfinity else PositiveInfinity)
              else
                Ok(Compose(sign, e32 + 1, 0))
            else
              Ok(Compose(sign, e32, mant8 + 1))
          else
            Ok(Compose(sign, e32, mant8))
  }

  /** Encodes with a given mode and discards the error: a failed strict conversion gives 0x00. */
  function ToFloat8(f32: bv32, mode: ConversionMode): (r: Float8)
    ensures ToFloat8WithMode(f32, mode).Err? ==> r == PositiveZero
    ensures mode != ModeStrict ==> ToFloat8WithMode(f32, mode) == Ok(r)
    ensures ToFloat8WithMode(f32, mode).Ok? ==> r == ToFloat8WithMode(f32, mode).value
  {
    match ToFloat8WithMode(f32, mode)
    case Ok(v) => v
    case Err(_) => PositiveZero
  }

  /** The decoder. Every non-special byte gets an implicit leading 1, exponent field 0 included. */
  function ToFloat32Algorithmic(f: Float8): (r: bv32)
    ensures IsZero(f) ==> r == (if SignBitSet(f) then B.NegativeZero32 else B.PositiveZero32)
    ensures f == PositiveInfinity ==> r == B.PositiveInfinity32
    ensures f == NegativeInfinity ==> r == B.NegativeInfinity32
    ensures IsNaN(f) ==> B.IsNaN(r)
    ensures !IsZero(f) && !IsInf(f) && !IsNaN(f) ==>
      && B.SignBit(r) == SignBitSet(f)
      && B.Exponent(r) == ExponentField(f) as bv32 + 120
      && B.Mantissa(r) == (MantissaField(f) as bv32) << 20
      && r & 0xF_FFFF == 0
      && !B.IsZero(r) && !B.IsInf(r) && !B.IsNaN(r)
  {
    if IsZero(f) then
      if f == NegativeZero then 0x8000_0000 else 0
    else if IsNaN(f) then
      B.QuietNaN32
    else if f == PositiveInfinity then
      B.PositiveInfinity32
    else if f == NegativeInfinity then
      B.NegativeInfinity32
    else
      var sign := (f as bv32) >> 7;
      var exp8 := ((f as bv32) >> MantissaLen) & 0x0F;
      var mant8 := (f as bv32) & (MantissaMask as bv32);
      var exp32 := exp8 - 7 + 127;
      var mant32 := mant8 << 20;  // 23 - MantissaLen
      (sign << 31) | (exp32 << 23) | mant32
  }

  // ---------------------------------------------------------------------------
  // Properties of the codec

  /** Decoding then encoding gives every byte back in every mode, except the two NaN
      patterns, which come back as 0x7F (or as the NaN error in strict mode). */
  lemma RoundTrip(v: Float8, mode: ConversionMode)
    ensures !IsNaN(v) ==> ToFloat8WithMode(ToFloat32Algorithmic(v), mode) == Ok(v)
    ensures IsNaN(v) ==> ToFloat8WithMode(ToFloat32Algorithmic(v), mode)
                         == (if mode == ModeStrict then Err(ErrNaN) else Ok(NaN))
  {
    if !IsZero(v) && !IsInf(v) && !IsNaN(v) {
      var r := ToFloat32Algorithmic(v);
      DecodedFields(v);
      ComposeFields(v);
      EncodeWithoutRounding(r, mode);
    }
  }

  /** An ordinary pattern in range whose first discarded bit is clear is composed as it is. */
  lemma EncodeWithoutRounding(f32: bv32, mode: ConversionMode)
    requires Ordinary32(f32) && ExponentMin <= RebiasedExponent(f32) <= ExponentMax
    requires (B.Mantissa(f32) >> 19) & 1 == 0
    ensures ToFloat8WithMode(f32, mode) == Ok(Compose(f32 >> 31, B.Exponent(f32) - 120, B.Mantissa(f32) >> 20))
  {
  }

  /** The fields of a decoded ordinary byte, as the encoder reads them. */
  lemma DecodedFields(v: Float8)
    requires !IsZero(v) && !IsInf(v) && !IsNaN(v)
    ensures var r := ToFloat32Algorithmic(v);
            && B.Exponent(r) as int == ExponentField(v) as int + 120
            && r >> 31 == (v >> 7) as bv32
            && (r & 0x7F_FFFF) >> 20 == (MantissaField(v) as bv32)
            && ((r & 0x7F_FFFF) >> 19) & 1 == 0
  {
    var r := ToFloat32Algorithmic(v);
    assert B.Exponent(r) == ExponentField(v) as bv32 + 120;
    assert (ExponentField(v) as bv32 + 120) as int == ExponentField(v) as int + 120;
  }

  /** Composing a byte's own fields gives the byte back. */
  lemma ComposeFields(v: Float8)
    ensures Compose((v >> 7) as bv32, ExponentField(v) as bv32, MantissaField(v) as bv32) == v
  {
  }

  /** Zeros and infinities keep their sign in every mode; NaN becomes 0x7F unless strict. */
  lemma EncodeSpecials(f32: bv32, mode: ConversionMode)
    ensures f32 == B.PositiveZero32 ==> ToFloat8WithMode(f32, mode) == Ok(PositiveZero)
    ensures f32 == B.NegativeZero32 ==> ToFloat8WithMode(f32, mode) == Ok(NegativeZero)
    ensures f32 == B.PositiveInfinity32 ==> ToFloat8WithMode(f32, mode) == Ok(PositiveInfinity)
    ensures f32 == B.NegativeInfinity32 ==> ToFloat8WithMode(f32, mode) == Ok(NegativeInfinity)
    ensures B.IsNaN(f32) ==> ToFloat8WithMode(f32, mode) == (if mode == ModeStrict then Err(ErrNaN) else Ok(NaN))
  {
  }

  /** Only strict mode reports errors, so the default and fast modes always agree. */
  lemma ErrorsOnlyInStrictMode(f32: bv32, mode: ConversionMode)
    ensures ToFloat8WithMode(f32, mode).Err? ==> mode == ModeStrict
    ensures ToFloat8WithMode(f32, ModeDefault) == ToFloat8WithMode(f32, ModeFast)
    ensures ToFloat8WithMode(f32, ModeStrict).Ok? ==> ToFloat8WithMode(f32, ModeStrict) == ToFloat8WithMode(f32, ModeDefault)
  {
  }

  /** The ordinary (not zero, infinite or NaN) binary32 patterns. */
  predicate Ordinary32(f32: bv32) {
    !B.IsZero(f32) && !B.IsInf(f32) && !B.IsNaN(f32)
  }

  /** A rebiased exponent above 15 saturates to the signed infinity, or is an overflow error. */
  lemma EncodeOverflow(f32: bv32, mode: ConversionMode)
    requires Ordinary32(f32) && RebiasedExponent(f32) > ExponentMax
    ensures ToFloat8WithMode(f32, mode) ==
      if mode == ModeStrict then Err(Float8Error("convert", f32, "overflow: value too large for float8"))
      else Ok(if B.SignBit(f32) then NegativeInfinity else PositiveInfinity)
  {
  }

  /** A rebiased exponent below -7 (binary32 subnormals included) flushes to the signed zero,
      or is an underflow error. */
  lemma EncodeUnderflow(f32: bv32, mode: ConversionMode)
    requires Ordinary32(f32) && RebiasedExponent(f32) < ExponentMin
    ensures ToFloat8WithMode(f32, mode) ==
      if mode == ModeStrict then Err(Float8Error("convert", f32, "underflow: value too small for float8"))
      else Ok(if B.SignBit(f32) then NegativeZero else PositiveZero)
  {
  }

  /** The mantissa the encoder keeps before any carry: the top three fraction bits, plus one
      exactly when fraction bit 19 (the first discarded bit) is set. */
  function KeptMantissa(f32: bv32): (k: int)
    ensures 0 <= k <= 8
  {
    var top := (B.Mantissa(f32) >> 20) as int;
    if B.Mantissa(f32) & 0x8_0000 != 0 then top + 1 else top
  }

  /** The exponent after rounding: one more than the rebiased exponent when the kept mantissa carries. */
  function RoundedExponent(f32: bv32): int {
    if KeptMantissa(f32) == 8 then RebiasedExponent(f32) + 1 else RebiasedExponent(f32)
  }

  /** The mantissa after rounding: the kept mantissa, reset to 0 by a carry. */
  function RoundedMantissa(f32: bv32): (m: int)
    ensures 0 <= m < 8
  {
    if KeptMantissa(f32) == 8 then 0 else KeptMantissa(f32)
  }

  /** In range, a carry past exponent 15 saturates to the signed infinity, or is an overflow error. */
  lemma EncodeRoundingOverflow(f32: bv32, mode: ConversionMode)
    requires Ordinary32(f32) && ExponentMin <= RebiasedExponent(f32) <= ExponentMax
    requires RoundedExponent(f32) > ExponentMax
    ensures ToFloat8WithMode(f32, mode) ==
      if mode == ModeStrict then Err(Float8Error("convert", f32, "overflow after rounding"))
      else Ok(if B.SignBit(f32) then NegativeInfinity else PositiveInfinity)
  {
    EncodeCarry(f32, mode);
  }

  /** In range, with a rounded exponent in 0..15, the result's fields are the input's sign,
      the rounded exponent and the rounded mantissa. */
  lemma EncodeRoundedFields(f32: bv32, mode: ConversionMode)
    requires Ordinary32(f32) && ExponentMin <= RebiasedExponent(f32) <= ExponentMax
    requires 0 <= RoundedExponent(f32) <= ExponentMax
    ensures ToFloat8WithMode(f32, mode).Ok?
    ensures var r := ToFloat8WithMode(f32, mode).value;
            && ExponentField(r) as int == RoundedExponent(f32)
            && MantissaField(r) as int == RoundedMantissa(f32)
            && SignBitSet(r) == B.SignBit(f32)
  {
    if KeptMantissa(f32) == 8 {
      EncodeCarry(f32, mode);
      ComposeNonNegative(f32 >> 31, B.Exponent(f32) - 119, 0);
    } else {
      EncodeNoCarry(f32, mode);
      ComposeNonNegative(f32 >> 31, B.Exponent(f32) - 120, KeptMantissa(f32) as bv32);
    }
  }

  /** A negative rounded exponent is not rejected: it wraps into bits 7..3 as exponent + 32,
      which also sets the sign bit whatever the input's sign. */
  lemma EncodeRoundedWraps(f32: bv32, mode: ConversionMode)
    requires Ordinary32(f32) && ExponentMin <= RebiasedExponent(f32) <= ExponentMax
    requires RoundedExponent(f32) < 0
    ensures ToFloat8WithMode(f32, mode).Ok?
    ensures var r := ToFloat8WithMode(f32, mode).value;
            && (r >> 3) as int == RoundedExponent(f32) + 32
            && MantissaField(r) as int == RoundedMantissa(f32)
            && SignBitSet(r)
  {
    if KeptMantissa(f32) == 8 {
      EncodeCarry(f32, mode);
      ComposeNegative(f32 >> 31, B.Exponent(f32) - 119, 0);
    } else {
      EncodeNoCarry(f32, mode);
      ComposeNegative(f32 >> 31, B.Exponent(f32) - 120, KeptMantissa(f32) as bv32);
    }
  }

  /** Without a carry the result is composed from the rebiased exponent and the kept mantissa. */
  lemma EncodeNoCarry(f32: bv32, mode: ConversionMode)
    requires Ordinary32(f32) && ExponentMin <= RebiasedExponent(f32) <= ExponentMax
    requires KeptMantissa(f32) < 8
    ensures ToFloat8WithMode(f32, mode) == Ok(Compose(f32 >> 31, B.Exponent(f32) - 120, KeptMantissa(f32) as bv32))
  {
  }

  /** A carry clears the mantissa and bumps the exponent, overflowing past 15. */
  lemma EncodeCarry(f32: bv32, mode: ConversionMode)
    requires Ordinary32(f32) && ExponentMin <= RebiasedExponent(f32) <= ExponentMax
    requires KeptMantissa(f32) == 8
    ensures RebiasedExponent(f32) + 1 <= ExponentMax ==>
      ToFloat8WithMode(f32, mode) == Ok(Compose(f32 >> 31, B.Exponent(f32) - 119, 0))
    ensures RebiasedExponent(f32) + 1 > ExponentMax ==>
      ToFloat8WithMode(f32, mode) ==
        if mode == ModeStrict then Err(Float8Error("convert", f32, "overflow after rounding"))
        else Ok(if B.SignBit(f32) then NegativeInfinity else PositiveInfinity)
  {
  }

  /** With an exponent in 0..15 the composed byte has exactly the given fields. */
  lemma ComposeNonNegative(sign: bv32, e32: bv32, m: bv32)
    requires sign <= 1 && e32 <= 15 && m < 8
    ensures var r := Compose(sign, e32, m);
            ExponentField(r) as bv32 == e32 && MantissaField(r) as bv32 == m && SignBitSet(r) == (sign == 1)
  {
  }

  /** A negative exponent (its 32-bit reinterpretation, 2^32 - 7 and above) wraps into bits 7..3. */
  lemma ComposeNegative(sign: bv32, e32: bv32, m: bv32)
    requires sign <= 1 && e32 >= 0xFFFF_FFF9 && m < 8
    ensures var r := Compose(sign, e32, m);
            (r >> 3) as bv32 == e32 + 32 && MantissaField(r) as bv32 == m
  {
  }

  /**
   * Observable consequences of the exponent limits, on concrete binary32 inputs:
   * 448.0 is 0x7E, but 256.0 lands on the infinity pattern 0x78 and 480.0 on the NaN
   * pattern 0x7F, because exponent field 15 is shared by finite values and specials;
   * 2^-7 gives exponent field 0 and so the zero pattern 0x00; and 1.25·2^-8 (rebiased
   * exponent -1) wraps into bits 7..3 and gives 0xFA. 1e10 and 1e-10 saturate or flush.
   */
  lemma EncodeExamples(mode: ConversionMode)
    ensures ToFloat8WithMode(0x3F80_0000, mode) == Ok(0x38)    // 1.0
    ensures ToFloat8WithMode(0xBF80_0000, mode) == Ok(0xB8)    // -1.0
    ensures ToFloat8WithMode(0x43E0_0000, mode) == Ok(MaxValue) // 448.0
    ensures ToFloat8WithMode(0x4380_0000, mode) == Ok(PositiveInfinity) // 256.0
    ensures ToFloat8WithMode(0x43F0_0000, mode) == Ok(NaN)     // 480.0
    ensures ToFloat8WithMode(0x3C00_0000, mode) == Ok(PositiveZero) // 2^-7
    ensures ToFloat8WithMode(0x3BA0_0000, mode) == Ok(0xFA)    // 1.25·2^-8
    ensures ToFloat8WithMode(0x3BF8_0000, mode) == Ok(PositiveZero) // 1.9375·2^-8
    ensures ToFloat8WithMode(0xBBF8_0000, mode) == Ok(NegativeZero) // -1.9375·2^-8
    ensures ToFloat8(0x5015_02F9, ModeDefault) == PositiveInfinity // 1e10
    ensures ToFloat8WithMode(0x5015_02F9, ModeStrict).Err?
    ensures ToFloat8(0x2EDB_E6FF, ModeDefault) == PositiveZero  // 1e-10
    ensures ToFloat8WithMode(0x2EDB_E6FF, ModeStrict).Err?
  {
  }
}
