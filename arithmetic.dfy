/**
 * The algorithmic arithmetic operators: for each, a chain of special-value branches
 * on the bytes, then the binary32 operation on the decoded operands and a
 * re-encoding through the encoder in the given conversion mode (the package's
 * default mode, which the operators read).
 */
module Arithmetic {
  import opened Wrappers
  import opened Float8Types
  import opened Convert
  import B = Binary32

  function AddAlgorithmic(a: Float8, b: Float8, fp: B.Arithmetic, mode: ConversionMode): Float8 {
    if IsZero(a) then b
    else if IsZero(b) then a
    else if IsInf(a) || IsInf(b) then
      if a == PositiveInfinity && b == NegativeInfinity then PositiveZero
      else if a == NegativeInfinity && b == PositiveInfinity then PositiveZero
      else if IsInf(a) then a
      else b
    else
      ToFloat8(fp.add(ToFloat32Algorithmic(a), ToFloat32Algorithmic(b)), mode)
  }

  function SubAlgorithmic(a: Float8, b: Float8, fp: B.Arithmetic, mode: ConversionMode): Float8 {
    if IsZero(b) then a
    else if IsZero(a) then Neg(b)
    else if IsInf(a) || IsInf(b) then
      if a == b && IsInf(a) then PositiveZero
      else if IsInf(a) then a
      else Neg(b)
    else
      ToFloat8(fp.sub(ToFloat32Algorithmic(a), ToFloat32Algorithmic(b)), mode)
  }

  function MulAlgorithmic(a: Float8, b: Float8, fp: B.Arithmetic, mode: ConversionMode): Float8 {
    if IsNaN(a) || IsNaN(b) then NaN
    else
      var signA := if a & SignMask != 0 then -1 else 1;
      var signB := if b & SignMask != 0 then -1 else 1;
      if (IsInf(a) && IsZero(b)) || (IsZero(a) && IsInf(b)) then NaN
      else if IsZero(a) || IsZero(b) then
        if signA * signB < 0 then NegativeZero else PositiveZero
      else if IsInf(a) || IsInf(b) then
        if signA * signB > 0 then PositiveInfinity else NegativeInfinity
      else
        ToFloat8(fp.mul(ToFloat32Algorithmic(a), ToFloat32Algorithmic(b)), mode)
  }

  function DivAlgorithmic(a: Float8, b: Float8, fp: B.Arithmetic, mode: ConversionMode): Float8 {
    if IsNaN(a) || IsNaN(b) then NaN
    else if IsZero(b) then
      if IsZero(a) then NaN
      else if (a & SignMask != 0) == (b & SignMask != 0) then PositiveInfinity
      else NegativeInfinity
    else if IsZero(a) then
      if (a & SignMask != 0) != (b & SignMask != 0) then NegativeZero
      else PositiveZero
    else if IsInf(a) then
      if IsInf(b) then NaN
      else if (a & SignMask != 0) == (b & SignMask != 0) then PositiveInfinity
      else NegativeInfinity
    else if IsInf(b) then
      if (a & SignMask != 0) == (b & SignMask != 0) then PositiveZero
      else NegativeZero
    else
      var result := fp.div(ToFloat32Algorithmic(a), ToFloat32Algorithmic(b));
      if B.IsInf(result) then
        if (Sign(a) > 0) == (Sign(b) > 0) then PositiveInfinity else NegativeInfinity
      else
        ToFloat8(result, mode)
  }

  /** Neither zero, infinite nor NaN: the operands that reach the binary32 operation. */
  predicate Ordinary(f: Float8) {
    !IsZero(f) && !IsInf(f) && !IsNaN(f)
  }

  /** The signed zero and the signed infinity whose sign is the XOR of the operands' signs. */
  function XorZero(a: Float8, b: Float8): Float8 {
    if SignBitSet(a) != SignBitSet(b) then NegativeZero else PositiveZero
  }

  function XorInfinity(a: Float8, b: Float8): Float8 {
    if SignBitSet(a) != SignBitSet(b) then NegativeInfinity else PositiveInfinity
  }

  // ---------------------------------------------------------------------------
  // Add

  /**
   * Add's branch chain: a zero operand gives the other one (the left zero first, so
   * Add(+0, -0) is -0), opposite infinities give +0, any other infinity wins, and there
   * is no NaN guard: otherwise the binary32 sum is re-encoded.
   */
  lemma AddCases(a: Float8, b: Float8, fp: B.Arithmetic, mode: ConversionMode)
    ensures var r := AddAlgorithmic(a, b, fp, mode);
      && (IsZero(a) ==> r == b)
      && (!IsZero(a) && IsZero(b) ==> r == a)
      && ({a, b} == {PositiveInfinity, NegativeInfinity} ==> r == PositiveZero)
      && (!IsZero(a) && !IsZero(b) && IsInf(a) && b != Neg(a) ==> r == a)
      && (!IsZero(a) && !IsZero(b) && !IsInf(a) && IsInf(b) ==> r == b)
      && (!IsZero(a) && !IsZero(b) && !IsInf(a) && !IsInf(b) ==>
            r == ToFloat8(fp.add(ToFloat32Algorithmic(a), ToFloat32Algorithmic(b)), mode))
  {
    ClassesArePairs(a);
    ClassesArePairs(b);
  }

  /** With a commutative binary32 sum, Add commutes, except that two zeros of different
      signs give the right-hand one. */
  lemma AddCommutes(a: Float8, b: Float8, fp: B.Arithmetic, mode: ConversionMode)
    requires fp.add(ToFloat32Algorithmic(a), ToFloat32Algorithmic(b)) == fp.add(ToFloat32Algorithmic(b), ToFloat32Algorithmic(a))
    ensures IsZero(a) && IsZero(b) ==> AddAlgorithmic(a, b, fp, mode) == b && AddAlgorithmic(b, a, fp, mode) == a
    ensures !(IsZero(a) && IsZero(b)) ==> AddAlgorithmic(a, b, fp, mode) == AddAlgorithmic(b, a, fp, mode)
  {
    ClassesArePairs(a);
    ClassesArePairs(b);
  }

  /** +0 is a left identity for every byte, and a right identity for every byte but -0. */
  lemma AddZeroIdentity(x: Float8, fp: B.Arithmetic, mode: ConversionMode)
    ensures AddAlgorithmic(PositiveZero, x, fp, mode) == x
    ensures x != NegativeZero ==> AddAlgorithmic(x, PositiveZero, fp, mode) == x
    ensures AddAlgorithmic(NegativeZero, PositiveZero, fp, mode) == PositiveZero
  {
  }

  /** Add has no NaN guard: a NaN against an infinity gives the infinity, and a NaN against
      a zero gives the NaN byte unchanged. */
  lemma AddNaNNotDominant(n: Float8, fp: B.Arithmetic, mode: ConversionMode)
    requires IsNaN(n)
    ensures AddAlgorithmic(n, PositiveInfinity, fp, mode) == PositiveInfinity
    ensures AddAlgorithmic(NegativeInfinity, n, fp, mode) == NegativeInfinity
    ensures AddAlgorithmic(n, PositiveZero, fp, mode) == n && AddAlgorithmic(NegativeZero, n, fp, mode) == n
  {
    ClassesArePairs(n);
  }

  /** Against an ordinary operand, a NaN reaches the binary32 sum; if that sum is a NaN, the
      result is 0x7F outside strict mode and 0x00 (the discarded error) in strict mode. */
  lemma AddNaNThroughBinary32(n: Float8, x: Float8, fp: B.Arithmetic, mode: ConversionMode)
    requires IsNaN(n) && Ordinary(x)
    requires B.IsNaN(fp.add(ToFloat32Algorithmic(n), ToFloat32Algorithmic(x)))
    ensures AddAlgorithmic(n, x, fp, mode) == if mode == ModeStrict then PositiveZero else NaN
  {
    ClassesArePairs(n);
    EncodeSpecials(fp.add(ToFloat32Algorithmic(n), ToFloat32Algorithmic(x)), mode);
  }

  /** The scenario 2 + 3: when the binary32 sum is exactly 5.0, Add(2.0, 3.0) is 5.0 (0x4A). */
  lemma AddScenario(fp: B.Arithmetic, mode: ConversionMode)
    requires fp.add(0x4000_0000, 0x4040_0000) == 0x40A0_0000
    ensures AddAlgorithmic(0x40, 0x44, fp, mode) == 0x4A
    ensures ToFloat32Algorithmic(0x4A) == 0x40A0_0000
  {
    assert ToFloat32Algorithmic(0x40) == 0x4000_0000;
    assert ToFloat32Algorithmic(0x44) == 0x4040_0000;
    assert ToFloat8WithMode(0x40A0_0000, mode) == Ok(0x4A);
  }

  // ---------------------------------------------------------------------------
  // Sub

  /**
   * Sub's branch chain: a zero right operand gives the left one, a zero left operand the
   * negated right one, two equal infinities +0, otherwise an infinite left operand itself
   * and an infinite right operand negated; no NaN guard.
   */
  lemma SubCases(a: Float8, b: Float8, fp: B.Arithmetic, mode: ConversionMode)
    ensures var r := SubAlgorithmic(a, b, fp, mode);
      && (IsZero(b) ==> r == a)
      && (IsZero(a) && !IsZero(b) ==> r == Neg(b))
      && (IsInf(a) && a == b ==> r == PositiveZero)
      && (!IsZero(b) && IsInf(a) && a != b ==> r == a)
      && (!IsZero(a) && !IsZero(b) && !IsInf(a) && IsInf(b) ==> r == Neg(b))
      && (!IsZero(a) && !IsZero(b) && !IsInf(a) && !IsInf(b) ==>
            r == ToFloat8(fp.sub(ToFloat32Algorithmic(a), ToFloat32Algorithmic(b)), mode))
  {
    ClassesArePairs(a);
    ClassesArePairs(b);
  }

  /** The decoded pattern of a negated non-NaN byte is the decoded pattern with bit 31 flipped. */
  lemma DecodeNeg(b: Float8)
    requires !IsNaN(b) && !IsZero(b)
    ensures ToFloat32Algorithmic(Neg(b)) == ToFloat32Algorithmic(b) ^ B.SignBit32
  {
    ClassesArePairs(b);
  }

  /**
   * Sub is Add of the negation whenever the binary32 operations agree that x - y is
   * x + (-y), for a non-NaN right operand and unless both operands are zeros (then Sub gives
   * the left zero and the sum the right one).
   */
  lemma SubIsAddNeg(a: Float8, b: Float8, fp: B.Arithmetic, mode: ConversionMode)
    requires !IsNaN(b) && !(IsZero(a) && IsZero(b))
    requires fp.sub(ToFloat32Algorithmic(a), ToFloat32Algorithmic(b))
             == fp.add(ToFloat32Algorithmic(a), ToFloat32Algorithmic(b) ^ B.SignBit32)
    ensures SubAlgorithmic(a, b, fp, mode) == AddAlgorithmic(a, Neg(b), fp, mode)
  {
    ClassesArePairs(a);
    ClassesArePairs(b);
    if !IsZero(b) {
      DecodeNeg(b);
    }
  }

  // ---------------------------------------------------------------------------
  // Mul

  /**
   * Mul: NaN in gives NaN, infinity times zero in either order gives NaN, otherwise a zero
   * operand gives the zero and an infinite operand the infinity signed by the XOR of the
   * sign bits; two ordinary operands go through the binary32 product.
   */
  lemma MulCases(a: Float8, b: Float8, fp: B.Arithmetic, mode: ConversionMode)
    ensures var r := MulAlgorithmic(a, b, fp, mode);
      && (IsNaN(a) || IsNaN(b) ==> r == NaN)
      && ((IsInf(a) && IsZero(b)) || (IsZero(a) && IsInf(b)) ==> r == NaN)
      && (!IsNaN(a) && !IsNaN(b) && !IsInf(a) && !IsInf(b) && (IsZero(a) || IsZero(b)) ==> r == XorZero(a, b))
      && (!IsNaN(a) && !IsNaN(b) && !IsZero(a) && !IsZero(b) && (IsInf(a) || IsInf(b)) ==> r == XorInfinity(a, b))
      && (Ordinary(a) && Ordinary(b) ==>
            r == ToFloat8(fp.mul(ToFloat32Algorithmic(a), ToFloat32Algorithmic(b)), mode))
  {
    ClassesArePairs(a);
    ClassesArePairs(b);
  }

  /** With a commutative binary32 product, Mul commutes exactly. */
  lemma MulCommutes(a: Float8, b: Float8, fp: B.Arithmetic, mode: ConversionMode)
    requires fp.mul(ToFloat32Algorithmic(a), ToFloat32Algorithmic(b)) == fp.mul(ToFloat32Algorithmic(b), ToFloat32Algorithmic(a))
    ensures MulAlgorithmic(a, b, fp, mode) == MulAlgorithmic(b, a, fp, mode)
  {
  }

  // ---------------------------------------------------------------------------
  // Div

  /**
   * Div: NaN in gives NaN, 0/0 and Inf/Inf give NaN; nonzero/zero and Inf/finite give the
   * XOR-signed infinity, zero/nonzero and finite/Inf the XOR-signed zero; two ordinary
   * operands go through the binary32 quotient, an infinite quotient giving the
   * XOR-signed infinity.
   */
  lemma DivCases(a: Float8, b: Float8, fp: B.Arithmetic, mode: ConversionMode)
    ensures var r := DivAlgorithmic(a, b, fp, mode);
      && (IsNaN(a) || IsNaN(b) ==> r == NaN)
      && (IsZero(a) && IsZero(b) ==> r == NaN)
      && (IsInf(a) && IsInf(b) ==> r == NaN)
      && (!IsNaN(a) && !IsZero(a) && IsZero(b) ==> r == XorInfinity(a, b))
      && (!IsNaN(b) && IsZero(a) && !IsZero(b) ==> r == XorZero(a, b))
      && (IsInf(a) && !IsNaN(b) && !IsZero(b) && !IsInf(b) ==> r == XorInfinity(a, b))
      && (!IsNaN(a) && !IsZero(a) && !IsInf(a) && IsInf(b) ==> r == XorZero(a, b))
      && (Ordinary(a) && Ordinary(b) ==>
            var q := fp.div(ToFloat32Algorithmic(a), ToFloat32Algorithmic(b));
            r == if B.IsInf(q) then XorInfinity(a, b) else ToFloat8(q, mode))
  {
    ClassesArePairs(a);
    ClassesArePairs(b);
  }

  /** The division scenarios: 1 / -0 is -Inf, and 448 divided by the encoding of 2^-7
      (which is the zero pattern) is +Inf. */
  lemma DivScenarios(fp: B.Arithmetic, mode: ConversionMode)
    ensures DivAlgorithmic(0x38, NegativeZero, fp, mode) == NegativeInfinity
    ensures DivAlgorithmic(MaxValue, ToFloat8(0x3C00_0000, ModeDefault), fp, mode) == PositiveInfinity
  {
    EncodeExamples(ModeDefault);
  }

  /** Mul and Div are NaN-dominant: a NaN operand always gives 0x7F. */
  lemma MulDivNaNDominant(a: Float8, b: Float8, fp: B.Arithmetic, mode: ConversionMode)
    requires IsNaN(a) || IsNaN(b)
    ensures MulAlgorithmic(a, b, fp, mode) == NaN && DivAlgorithmic(a, b, fp, mode) == NaN
    ensures IsNaN(MulAlgorithmic(b, a, fp, mode)) && IsNaN(DivAlgorithmic(b, a, fp, mode))
  {
  }

  // ---------------------------------------------------------------------------
  // Folding Add over a sequence

  /** Add folded left to right, starting from +0. */
  function Sum(s: seq<Float8>, fp: B.Arithmetic, mode: ConversionMode): Float8 {
    if s == [] then PositiveZero
    else AddAlgorithmic(Sum(s[..|s| - 1], fp, mode), s[|s| - 1], fp, mode)
  }

  /** The empty sum is +0 and a one-element sum is that element. */
  lemma SumSmall(x: Float8, fp: B.Arithmetic, mode: ConversionMode)
    ensures Sum([], fp, mode) == PositiveZero
    ensures Sum([x], fp, mode) == x
  {
    assert [x][..0] == [];
  }

  /** A sum of zeros is a zero: the last zero, since Add of two zeros gives the right one. */
  lemma {:induction false} SumOfZeros(s: seq<Float8>, fp: B.Arithmetic, mode: ConversionMode)
    requires forall i :: 0 <= i < |s| ==> IsZero(s[i])
    ensures IsZero(Sum(s, fp, mode))
    ensures s != [] ==> Sum(s, fp, mode) == s[|s| - 1]
  {
    if s != [] {
      SumOfZeros(s[..|s| - 1], fp, mode);
    }
  }

  /** Extending the sequence by one element adds that element to the running sum. */
  lemma SumAppend(s: seq<Float8>, x: Float8, fp: B.Arithmetic, mode: ConversionMode)
    ensures Sum(s + [x], fp, mode) == AddAlgorithmic(Sum(s, fp, mode), x, fp, mode)
  {
    assert (s + [x])[..|s|] == s;
  }

  /** SumSlice promises NaN for a slice holding a NaN, but a NaN followed by an infinity
      sums to the infinity, and a NaN after a zero sum passes through unchanged. */
  lemma SumNaNNotSticky(fp: B.Arithmetic, mode: ConversionMode)
    ensures Sum([NaN, PositiveInfinity], fp, mode) == PositiveInfinity
    ensures Sum([0xFF], fp, mode) == 0xFF
  {
    assert [NaN, PositiveInfinity][..1] == [NaN];
    SumSmall(NaN, fp, mode);
    SumSmall(0xFF, fp, mode);
  }
}
