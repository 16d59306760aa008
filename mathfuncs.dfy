/**
 * The mathematical functions: a few guards on special bytes, then the platform's
 * float64 function applied to the decoded value and re-encoded in the default
 * conversion mode (the parameter `mode`). The float64 functions themselves are a
 * parameter, `Library`, each on binary32 patterns (widening, the float64 function,
 * narrowing). Clamp, Sign and CopySign need no library.
 */
module MathFunctions {
  import opened Float8Types
  import opened Convert
  import opened Arithmetic
  import Ordering
  import B = Binary32

  /** `float32(math.F(float64(x)))` for each library function F, on binary32 patterns. */
  datatype Library = Library(
    sqrt: bv32 -> bv32,
    pow: (bv32, bv32) -> bv32,
    exp: bv32 -> bv32,
    log: bv32 -> bv32,
    sin: bv32 -> bv32,
    cos: bv32 -> bv32,
    tan: bv32 -> bv32,
    floor: bv32 -> bv32,
    ceil: bv32 -> bv32,
    round: bv32 -> bv32,
    trunc: bv32 -> bv32,
    mod: (bv32, bv32) -> bv32)

  /** The encoding of 1.0, which the functions return for 0^0, e^0 and cos(0). */
  const One: Float8 := 0x38
  /** The encoding of -1.0. */
  const MinusOne: Float8 := 0xB8

  function Sqrt(f: Float8, lib: Library, mode: ConversionMode): Float8 {
    if f == PositiveZero || f == NegativeZero then PositiveZero
    else if f == PositiveInfinity then PositiveInfinity
    else if Sign(f) < 0 then PositiveZero
    else ToFloat8(lib.sqrt(ToFloat32Algorithmic(f)), mode)
  }

  function Pow(f: Float8, e: Float8, lib: Library, mode: ConversionMode): Float8 {
    if f == PositiveZero || f == NegativeZero then
      if Sign(e) > 0 then PositiveZero
      else if Sign(e) < 0 then PositiveInfinity
      else ToFloat8(B.One32, mode)
    else if f == PositiveInfinity then
      if Sign(e) > 0 then PositiveInfinity
      else if Sign(e) < 0 then PositiveZero
      else ToFloat8(B.One32, mode)
    else ToFloat8(lib.pow(ToFloat32Algorithmic(f), ToFloat32Algorithmic(e)), mode)
  }

  function Exp(f: Float8, lib: Library, mode: ConversionMode): Float8 {
    if f == PositiveZero || f == NegativeZero then ToFloat8(B.One32, mode)
    else if f == PositiveInfinity then PositiveInfinity
    else if f == NegativeInfinity then PositiveZero
    else ToFloat8(lib.exp(ToFloat32Algorithmic(f)), mode)
  }

  function Log(f: Float8, lib: Library, mode: ConversionMode): Float8 {
    if f == PositiveZero || f == NegativeZero then NegativeInfinity
    else if f == PositiveInfinity then PositiveInfinity
    else if Sign(f) < 0 then PositiveZero
    else ToFloat8(lib.log(ToFloat32Algorithmic(f)), mode)
  }

  function Sin(f: Float8, lib: Library, mode: ConversionMode): Float8 {
    if f == PositiveZero || f == NegativeZero then f
    else if IsInf(f) then PositiveZero
    else ToFloat8(lib.sin(ToFloat32Algorithmic(f)), mode)
  }

  function Cos(f: Float8, lib: Library, mode: ConversionMode): Float8 {
    if f == PositiveZero || f == NegativeZero then ToFloat8(B.One32, mode)
    else if IsInf(f) then PositiveZero
    else ToFloat8(lib.cos(ToFloat32Algorithmic(f)), mode)
  }

  function Tan(f: Float8, lib: Library, mode: ConversionMode): Float8 {
    if f == PositiveZero || f == NegativeZero then f
    else if IsInf(f) then PositiveZero
    else ToFloat8(lib.tan(ToFloat32Algorithmic(f)), mode)
  }

  function Floor(f: Float8, lib: Library, mode: ConversionMode): Float8 {
    if IsZero(f) || IsInf(f) then f
    else ToFloat8(lib.floor(ToFloat32Algorithmic(f)), mode)
  }

  function Ceil(f: Float8, lib: Library, mode: ConversionMode): Float8 {
    if IsZero(f) || IsInf(f) then f
    else ToFloat8(lib.ceil(ToFloat32Algorithmic(f)), mode)
  }

  function Round(f: Float8, lib: Library, mode: ConversionMode): Float8 {
    if IsZero(f) || IsInf(f) then f
    else ToFloat8(lib.round(ToFloat32Algorithmic(f)), mode)
  }

  function Trunc(f: Float8, lib: Library, mode: ConversionMode): Float8 {
    if IsZero(f) || IsInf(f) then f
    else ToFloat8(lib.trunc(ToFloat32Algorithmic(f)), mode)
  }

  function Fmod(x: Float8, y: Float8, lib: Library, mode: ConversionMode): Float8 {
    if IsZero(y) then PositiveZero
    else if IsZero(x) then x
    else if IsInf(y) then x
    else if IsInf(x) then PositiveZero
    else ToFloat8(lib.mod(ToFloat32Algorithmic(x), ToFloat32Algorithmic(y)), mode)
  }

  function Clamp(f: Float8, lo: Float8, hi: Float8): Float8 {
    if Ordering.Less(f, lo) then lo
    else if Ordering.Greater(f, hi) then hi
    else f
  }

  /** a + t * (b - a), with the algorithmic operators under one conversion mode. */
  function Lerp(a: Float8, b: Float8, t: Float8, fp: B.Arithmetic, mode: ConversionMode): Float8 {
    var diff := SubAlgorithmic(b, a, fp, mode);
    var scaled := MulAlgorithmic(t, diff, fp, mode);
    AddAlgorithmic(a, scaled, fp, mode)
  }

  /** The byte for -1, 0 or 1 according to the sign of f (0 for NaN and both zeros). */
  function MathSign(f: Float8, mode: ConversionMode): Float8 {
    var s := Sign(f);
    if s == -1 then ToFloat8(B.MinusOne32, mode)
    else if s == 0 then PositiveZero
    else if s == 1 then ToFloat8(B.One32, mode)
    else PositiveZero
  }

  function CopySign(f: Float8, sign: Float8): Float8 {
    if Sign(sign) < 0 then Abs(f) | SignMask else Abs(f)
  }

  // ---------------------------------------------------------------------------
  // The package constants, each the default-mode encoding of the binary32 nearest to it

  const E: Float8 := ToFloat8(0x402D_F854, ModeDefault)
  const Pi: Float8 := ToFloat8(0x4049_0FDB, ModeDefault)
  const Phi: Float8 := ToFloat8(0x3FCF_1BBD, ModeDefault)
  const Sqrt2: Float8 := ToFloat8(0x3FB5_04F3, ModeDefault)
  const SqrtE: Float8 := ToFloat8(0x3FD3_094C, ModeDefault)
  const SqrtPi: Float8 := ToFloat8(0x3FE2_DFC5, ModeDefault)
  const Ln2: Float8 := ToFloat8(0x3F31_7218, ModeDefault)
  const Log2E: Float8 := ToFloat8(0x3FB8_AA3B, ModeDefault)
  const Ln10: Float8 := ToFloat8(0x4013_5D8E, ModeDefault)
  const Log10E: Float8 := ToFloat8(0x3EDE_5BD9, ModeDefault)

  /** The constants are the nearest 8-bit values: e is 2.75, pi 3.25, phi 1.625, sqrt 2
      1.375, sqrt e 1.625, sqrt pi 1.75, ln 2 0.6875, log2 e 1.5, ln 10 2.25 and log10 e
      0.4375. */
  lemma ConstantValues()
    ensures E == 0x43 && Pi == 0x45 && Phi == 0x3D && Sqrt2 == 0x3B && SqrtE == 0x3D
    ensures SqrtPi == 0x3E && Ln2 == 0x33 && Log2E == 0x3C && Ln10 == 0x41 && Log10E == 0x2E
  {
    assert ToFloat8WithMode(0x402D_F854, ModeDefault).value == 0x43;
    assert ToFloat8WithMode(0x4049_0FDB, ModeDefault).value == 0x45;
    assert ToFloat8WithMode(0x3FCF_1BBD, ModeDefault).value == 0x3D;
    assert ToFloat8WithMode(0x3FB5_04F3, ModeDefault).value == 0x3B;
    assert ToFloat8WithMode(0x3FD3_094C, ModeDefault).value == 0x3D;
    assert ToFloat8WithMode(0x3FE2_DFC5, ModeDefault).value == 0x3E;
    assert ToFloat8WithMode(0x3F31_7218, ModeDefault).value == 0x33;
    assert ToFloat8WithMode(0x3FB8_AA3B, ModeDefault).value == 0x3C;
    assert ToFloat8WithMode(0x4013_5D8E, ModeDefault).value == 0x41;
    assert ToFloat8WithMode(0x3EDE_5BD9, ModeDefault).value == 0x2E;
  }

  // ---------------------------------------------------------------------------
  // Properties

  /** 1.0 and -1.0 encode to 0x38 and 0xB8 in every mode, and decode back. */
  lemma OneEncodings(mode: ConversionMode)
    ensures ToFloat8(B.One32, mode) == One && ToFloat8(B.MinusOne32, mode) == MinusOne
    ensures ToFloat32Algorithmic(One) == B.One32 && ToFloat32Algorithmic(MinusOne) == B.MinusOne32
  {
    assert ToFloat8WithMode(B.One32, mode) == ToFloat8WithMode(B.One32, ModeDefault);
    assert ToFloat8WithMode(B.MinusOne32, mode) == ToFloat8WithMode(B.MinusOne32, ModeDefault);
  }

  /** The guards of Sqrt: both zeros give +0 (not -0 for -0), +Inf gives +Inf, and every
      byte with Sign -1 (the negatives, -Inf included, 0xFF excluded) gives +0 rather than a
      NaN; only the remaining bytes reach the library. */
  lemma SqrtGuards(f: Float8, lib: Library, mode: ConversionMode)
    ensures IsZero(f) ==> Sqrt(f, lib, mode) == PositiveZero
    ensures Sqrt(PositiveInfinity, lib, mode) == PositiveInfinity
    ensures SignBitSet(f) && !IsZero(f) && f != 0xFF ==> Sqrt(f, lib, mode) == PositiveZero
    ensures (!SignBitSet(f) && !IsZero(f) && f != PositiveInfinity) || f == 0xFF ==>
      Sqrt(f, lib, mode) == ToFloat8(lib.sqrt(ToFloat32Algorithmic(f)), mode)
  {
    ClassesArePairs(f);
  }

  /** The guards of Log: both zeros give -Inf, +Inf gives +Inf, and every byte with Sign -1
      gives +0 rather than a NaN; only the remaining bytes reach the library. */
  lemma LogGuards(f: Float8, lib: Library, mode: ConversionMode)
    ensures IsZero(f) ==> Log(f, lib, mode) == NegativeInfinity
    ensures Log(PositiveInfinity, lib, mode) == PositiveInfinity
    ensures SignBitSet(f) && !IsZero(f) && f != 0xFF ==> Log(f, lib, mode) == PositiveZero
    ensures (!SignBitSet(f) && !IsZero(f) && f != PositiveInfinity) || f == 0xFF ==>
      Log(f, lib, mode) == ToFloat8(lib.log(ToFloat32Algorithmic(f)), mode)
  {
    ClassesArePairs(f);
  }

  /** The guards of Pow: a zero base gives +0, +Inf or 1 by the sign of the exponent, a +Inf
      base +Inf, +0 or 1; any other base, -Inf and NaN included, reaches the library. */
  lemma PowGuards(f: Float8, e: Float8, lib: Library, mode: ConversionMode)
    ensures IsZero(f) ==> Pow(f, e, lib, mode) == (if Sign(e) > 0 then PositiveZero else if Sign(e) < 0 then PositiveInfinity else One)
    ensures f == PositiveInfinity ==> Pow(f, e, lib, mode) == (if Sign(e) > 0 then PositiveInfinity else if Sign(e) < 0 then PositiveZero else One)
    ensures !IsZero(f) && f != PositiveInfinity ==>
      Pow(f, e, lib, mode) == ToFloat8(lib.pow(ToFloat32Algorithmic(f), ToFloat32Algorithmic(e)), mode)
    ensures IsZero(f) && IsNaN(e) ==> Pow(f, e, lib, mode) == One
  {
    OneEncodings(mode);
  }

  /** The guards of Exp: zeros give 1, +Inf gives +Inf and -Inf gives +0; every other byte,
      NaN included, reaches the library. */
  lemma ExpGuards(f: Float8, lib: Library, mode: ConversionMode)
    ensures IsZero(f) ==> Exp(f, lib, mode) == One
    ensures Exp(PositiveInfinity, lib, mode) == PositiveInfinity && Exp(NegativeInfinity, lib, mode) == PositiveZero
    ensures !IsZero(f) && !IsInf(f) ==> Exp(f, lib, mode) == ToFloat8(lib.exp(ToFloat32Algorithmic(f)), mode)
  {
    OneEncodings(mode);
  }

  /** The guards of Sin, Cos and Tan: zeros give themselves (Sin, Tan) or 1 (Cos), both
      infinities give +0 rather than a NaN; every other byte, NaN included, reaches the library. */
  lemma TrigGuards(f: Float8, lib: Library, mode: ConversionMode)
    ensures IsZero(f) ==> Sin(f, lib, mode) == f && Tan(f, lib, mode) == f && Cos(f, lib, mode) == One
    ensures IsInf(f) ==> Sin(f, lib, mode) == PositiveZero && Cos(f, lib, mode) == PositiveZero && Tan(f, lib, mode) == PositiveZero
    ensures !IsZero(f) && !IsInf(f) ==>
      && Sin(f, lib, mode) == ToFloat8(lib.sin(ToFloat32Algorithmic(f)), mode)
      && Cos(f, lib, mode) == ToFloat8(lib.cos(ToFloat32Algorithmic(f)), mode)
      && Tan(f, lib, mode) == ToFloat8(lib.tan(ToFloat32Algorithmic(f)), mode)
  {
    OneEncodings(mode);
    ClassesArePairs(f);
  }

  /** Floor, Ceil, Round and Trunc leave zeros and infinities unchanged; on every other
      byte, NaN included, they re-encode the library result. */
  lemma IntegerRoundingGuards(f: Float8, lib: Library, mode: ConversionMode)
    ensures IsZero(f) || IsInf(f) ==>
      Floor(f, lib, mode) == f && Ceil(f, lib, mode) == f && Round(f, lib, mode) == f && Trunc(f, lib, mode) == f
    ensures !IsZero(f) && !IsInf(f) ==>
      && Floor(f, lib, mode) == ToFloat8(lib.floor(ToFloat32Algorithmic(f)), mode)
      && Ceil(f, lib, mode) == ToFloat8(lib.ceil(ToFloat32Algorithmic(f)), mode)
      && Round(f, lib, mode) == ToFloat8(lib.round(ToFloat32Algorithmic(f)), mode)
      && Trunc(f, lib, mode) == ToFloat8(lib.trunc(ToFloat32Algorithmic(f)), mode)
  {
  }

  /** When the library function returns its argument (as `math.Floor` does on an integral
      value), the byte is unchanged: decoding and re-encoding are inverse. */
  lemma FloorOfIntegral(f: Float8, lib: Library, mode: ConversionMode)
    requires !IsNaN(f)
    requires lib.floor(ToFloat32Algorithmic(f)) == ToFloat32Algorithmic(f)
    ensures Floor(f, lib, mode) == f
  {
    RoundTrip(f, mode);
  }

  /** Fmod: a zero divisor gives +0 (not NaN), a zero dividend itself, an infinite divisor the
      dividend, an infinite dividend +0; only two other operands reach the library. */
  lemma FmodGuards(x: Float8, y: Float8, lib: Library, mode: ConversionMode)
    ensures IsZero(y) ==> Fmod(x, y, lib, mode) == PositiveZero
    ensures !IsZero(y) && IsZero(x) ==> Fmod(x, y, lib, mode) == x
    ensures !IsZero(y) && !IsZero(x) && IsInf(y) ==> Fmod(x, y, lib, mode) == x
    ensures !IsZero(y) && !IsInf(y) && IsInf(x) ==> Fmod(x, y, lib, mode) == PositiveZero
    ensures !IsZero(x) && !IsZero(y) && !IsInf(x) && !IsInf(y) ==>
      Fmod(x, y, lib, mode) == ToFloat8(lib.mod(ToFloat32Algorithmic(x), ToFloat32Algorithmic(y)), mode)
  {
  }

  /**
   * Clamp: for non-NaN bounds with lo <= hi and a non-NaN f, the result lies in [lo, hi] and
   * is f whenever f already does; a NaN f is returned unchanged.
   */
  lemma ClampBounds(f: Float8, lo: Float8, hi: Float8)
    requires !IsNaN(lo) && !IsNaN(hi) && Ordering.LessEqual(lo, hi)
    ensures IsNaN(f) ==> Clamp(f, lo, hi) == f
    ensures !IsNaN(f) ==> Ordering.LessEqual(lo, Clamp(f, lo, hi)) && Ordering.LessEqual(Clamp(f, lo, hi), hi)
    ensures Ordering.LessEqual(lo, f) && Ordering.LessEqual(f, hi) ==> Clamp(f, lo, hi) == f
    ensures Clamp(f, lo, hi) == f || Clamp(f, lo, hi) == lo || Clamp(f, lo, hi) == hi
  {
    Ordering.DerivedComparisons(lo, hi);
    if !IsNaN(f) {
      Ordering.DerivedComparisons(f, lo);
      Ordering.DerivedComparisons(f, hi);
      Ordering.DerivedComparisons(lo, f);
      Ordering.DerivedComparisons(hi, f);
      Ordering.DerivedComparisons(lo, Clamp(f, lo, hi));
      Ordering.DerivedComparisons(Clamp(f, lo, hi), hi);
    }
  }

  /** MathSign is 1.0, -1.0 or +0 exactly as Sign is 1, -1 or 0, in every mode. */
  lemma MathSignValues(f: Float8, mode: ConversionMode)
    ensures MathSign(f, mode) == One <==> Sign(f) == 1
    ensures MathSign(f, mode) == MinusOne <==> Sign(f) == -1
    ensures MathSign(f, mode) == PositiveZero <==> Sign(f) == 0
  {
    OneEncodings(mode);
  }

  /** CopySign keeps the seven low bits of f and sets the sign bit exactly when the sign
      operand has Sign -1, so -0 and the NaN 0xFF give a positive result. */
  lemma CopySignBits(f: Float8, sign: Float8)
    ensures CopySign(f, sign) & 0x7F == f & 0x7F
    ensures SignBitSet(CopySign(f, sign)) <==> Sign(sign) < 0
    ensures CopySign(f, NegativeZero) == Abs(f) && CopySign(f, 0xFF) == Abs(f)
  {
  }

  /**
   * At t = 0 (either zero) Lerp gives a nonzero a back, as long as b - a is neither a NaN
   * nor an infinity (t * (b - a) is then a zero); a NaN or infinite difference makes the
   * product NaN instead, and a NaN is not absorbed by Add.
   */
  lemma LerpAtZero(a: Float8, b: Float8, t: Float8, fp: B.Arithmetic, mode: ConversionMode)
    requires IsZero(t) && !IsZero(a)
    ensures var d := SubAlgorithmic(b, a, fp, mode);
      (!IsNaN(d) && !IsInf(d) ==> Lerp(a, b, t, fp, mode) == a)
      && (IsNaN(d) || IsInf(d) ==> Lerp(a, b, t, fp, mode) == AddAlgorithmic(a, NaN, fp, mode))
  {
    var d := SubAlgorithmic(b, a, fp, mode);
    MulCases(t, d, fp, mode);
    AddCases(a, MulAlgorithmic(t, d, fp, mode), fp, mode);
  }
}
