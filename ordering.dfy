/**
 * The comparison operations and Min/Max. Two NaN operands or one are unordered and
 * unequal, the two zeros are equal, the infinities bound everything, and two other
 * operands are compared through their decoded binary32 values.
 *
 * The reference the comparisons are proved against is the value each byte denotes, as
 * the decoder reads it: an operand that is neither a zero, an infinity nor a NaN has the
 * value (1 + m/8) * 2^(e - 7) for exponent field e and mantissa field m (the decoder has
 * no subnormals: an exponent field of 0 is 2^-7). Scaled by 2^10 this is the integer
 * (8 + m) * 2^e, which is below 2^20, so the infinities get the keys -2^20 and 2^20.
 */
module Ordering {
  import opened Float8Types
  import opened Convert
  import Arithmetic
  import B = Binary32

  predicate Equal(a: Float8, b: Float8) {
    if IsNaN(a) || IsNaN(b) then false
    else if IsZero(a) && IsZero(b) then true
    else if IsInf(a) || IsInf(b) then
      if IsInf(a) && IsInf(b) then a == b else false
    else a == b
  }

  predicate Less(a: Float8, b: Float8) {
    if IsNaN(a) || IsNaN(b) then false
    else if IsZero(a) && IsZero(b) then false
    else if IsInf(a) && IsInf(b) then a == NegativeInfinity && b == PositiveInfinity
    else if IsInf(a) then a == NegativeInfinity
    else if IsInf(b) then b == PositiveInfinity
    else B.Less(ToFloat32Algorithmic(a), ToFloat32Algorithmic(b))
  }

  predicate Greater(a: Float8, b: Float8) {
    Less(b, a)
  }

  predicate LessEqual(a: Float8, b: Float8) {
    Less(a, b) || Equal(a, b)
  }

  predicate GreaterEqual(a: Float8, b: Float8) {
    Greater(a, b) || Equal(a, b)
  }

  function Min(a: Float8, b: Float8): Float8 {
    if IsNaN(a) || IsNaN(b) then NaN
    else if a == NegativeInfinity || b == NegativeInfinity then NegativeInfinity
    else if a == PositiveInfinity then b
    else if b == PositiveInfinity then a
    else if Less(a, b) then a
    else b
  }

  function Max(a: Float8, b: Float8): Float8 {
    if IsNaN(a) || IsNaN(b) then NaN
    else if a == PositiveInfinity || b == PositiveInfinity then PositiveInfinity
    else if a == NegativeInfinity then b
    else if b == NegativeInfinity then a
    else if Greater(a, b) then a
    else b
  }

  // ---------------------------------------------------------------------------
  // The reference value

  function Pow2(n: nat): (p: nat)
    ensures p >= 1
  {
    if n == 0 then 1 else 2 * Pow2(n - 1)
  }

  lemma {:induction false} Pow2Monotone(i: nat, j: nat)
    requires i <= j
    ensures Pow2(i) <= Pow2(j)
    decreases j
  {
    if i < j {
      Pow2Monotone(i, j - 1);
    }
  }

  /** (8 + m) * 2^e: the value 1.m * 2^e in eighths. */
  function Scaled(e: nat, m: nat): nat {
    (8 + m) * Pow2(e)
  }

  /** The magnitude of the value a byte denotes, times 2^10. */
  function ScaledMagnitude(x: Float8): nat {
    Scaled(ExponentField(x) as nat, MantissaField(x) as nat)
  }

  /** The key of the infinities: 2^20, just above every finite magnitude. */
  const InfinityKey: int := 0x10_0000

  /** The value a non-NaN byte denotes, times 2^10, with the infinities just outside
      the finite range. A NaN has no value; it gets 0 so that the key is total. */
  function OrderKey(x: Float8): int {
    if IsNaN(x) || IsZero(x) then 0
    else if x == PositiveInfinity then InfinityKey
    else if x == NegativeInfinity then -InfinityKey
    else if SignBitSet(x) then -(ScaledMagnitude(x) as int)
    else ScaledMagnitude(x)
  }

  /** The seven bits below the sign are the exponent field followed by the mantissa field. */
  lemma FieldsOfLowBits(x: Float8)
    ensures (x & 0x7F) as int == 8 * ExponentField(x) as int + MantissaField(x) as int
  {
  }

  lemma ScaledBound(e: nat, m: nat)
    requires e < 16 && m < 8
    ensures 8 <= Scaled(e, m) < InfinityKey
  {
    Pow2Monotone(e, 15);
    assert Pow2(15) == 32768;
    assert (8 + m) * Pow2(e) <= 15 * Pow2(e);
  }

  /** Scaled strictly increases with 8 * e + m. */
  lemma ScaledMonotone(e1: nat, m1: nat, e2: nat, m2: nat)
    requires m1 < 8 && m2 < 8 && 8 * e1 + m1 < 8 * e2 + m2
    ensures Scaled(e1, m1) < Scaled(e2, m2)
  {
    var p1, p2 := Pow2(e1), Pow2(e2);
    if e1 == e2 {
      assert m1 < m2;
      MulStrict(8 + m1, 8 + m2, p1);
    } else {
      assert e1 + 1 <= e2;
      Pow2Monotone(e1 + 1, e2);
      assert Pow2(e1 + 1) == 2 * p1;
      MulStrict(8 + m1, 16, p1);
      MulMonotone(8, 2 * p1, p2);
      MulMonotoneLeft(8, 8 + m2, p2);
    }
  }

  lemma MulStrict(x: nat, y: nat, p: nat)
    requires x < y && p >= 1
    ensures x * p < y * p
  {
  }

  lemma MulMonotone(k: nat, p: nat, q: nat)
    requires p <= q
    ensures k * p <= k * q
  {
  }

  lemma MulMonotoneLeft(x: nat, y: nat, p: nat)
    requires x <= y
    ensures x * p <= y * p
  {
  }

  /** Every magnitude lies in [8, 2^20). */
  lemma ScaledMagnitudeBound(x: Float8)
    ensures 8 <= ScaledMagnitude(x) < InfinityKey
  {
    ScaledBound(ExponentField(x) as nat, MantissaField(x) as nat);
  }

  /** The magnitude strictly increases with the seven low bits. */
  lemma ScaledMagnitudeMonotone(x: Float8, y: Float8)
    requires x & 0x7F < y & 0x7F
    ensures ScaledMagnitude(x) < ScaledMagnitude(y)
  {
    FieldsOfLowBits(x);
    FieldsOfLowBits(y);
    ScaledMonotone(ExponentField(x) as nat, MantissaField(x) as nat, ExponentField(y) as nat, MantissaField(y) as nat);
  }

  /** Equal low bits give equal magnitudes. */
  lemma ScaledMagnitudeOfLowBits(x: Float8, y: Float8)
    requires x & 0x7F == y & 0x7F
    ensures ScaledMagnitude(x) == ScaledMagnitude(y)
  {
    assert ExponentField(x) == ExponentField(y) && MantissaField(x) == MantissaField(y);
  }

  // ---------------------------------------------------------------------------
  // The binary32 comparison on decoded operands

  /** Below the sign, the decoded pattern of an ordinary byte is its seven low bits
      offset by 960 (the rebiasing, 120 * 8) and shifted into place. */
  lemma DecodedMagnitude(x: Float8)
    requires Arithmetic.Ordinary(x)
    ensures B.Magnitude(ToFloat32Algorithmic(x)) == (((x & 0x7F) as bv32) + 960) << 20
    ensures B.SignBit(ToFloat32Algorithmic(x)) == SignBitSet(x)
    ensures !B.IsZero(ToFloat32Algorithmic(x)) && !B.IsNaN(ToFloat32Algorithmic(x))
  {
    ClassesArePairs(x);
  }

  /** Sign-magnitude order on bytes that are neither NaNs nor infinities. */
  predicate ByteLess(a: Float8, b: Float8) {
    if SignBitSet(a) != SignBitSet(b) then SignBitSet(a)
    else if !SignBitSet(a) then a & 0x7F < b & 0x7F
    else a & 0x7F > b & 0x7F
  }

  /** On finite non-NaN operands that are not both zeros, the binary32 comparison of the
      decoded values is the sign-magnitude order of the bytes. */
  lemma DecodedLess(a: Float8, b: Float8)
    requires !IsNaN(a) && !IsNaN(b) && !IsInf(a) && !IsInf(b) && !(IsZero(a) && IsZero(b))
    ensures B.Less(ToFloat32Algorithmic(a), ToFloat32Algorithmic(b)) <==> ByteLess(a, b)
  {
    ClassesArePairs(a);
    ClassesArePairs(b);
    if !IsZero(a) {
      DecodedMagnitude(a);
    }
    if !IsZero(b) {
      DecodedMagnitude(b);
    }
  }

  /** The key of a finite non-NaN byte: minus or plus its magnitude, 0 for the zeros. */
  lemma FiniteKey(x: Float8)
    requires !IsNaN(x) && !IsInf(x)
    ensures IsZero(x) <==> x & 0x7F == 0
    ensures IsZero(x) ==> OrderKey(x) == 0
    ensures !IsZero(x) ==> OrderKey(x) == if SignBitSet(x) then -(ScaledMagnitude(x) as int) else ScaledMagnitude(x)
    ensures -InfinityKey < OrderKey(x) < InfinityKey
  {
    ClassesArePairs(x);
    ScaledMagnitudeBound(x);
  }

  /** Sign-magnitude order on bytes is the order of the values they denote. */
  lemma ByteLessIsKeyLess(a: Float8, b: Float8)
    requires !IsNaN(a) && !IsNaN(b) && !IsInf(a) && !IsInf(b) && !(IsZero(a) && IsZero(b))
    ensures ByteLess(a, b) <==> OrderKey(a) < OrderKey(b)
  {
    FiniteKey(a);
    FiniteKey(b);
    ScaledMagnitudeBound(a);
    ScaledMagnitudeBound(b);
    if a & 0x7F < b & 0x7F {
      ScaledMagnitudeMonotone(a, b);
    } else if b & 0x7F < a & 0x7F {
      ScaledMagnitudeMonotone(b, a);
    } else {
      if !IsZero(a) {
        ScaledMagnitudeOfLowBits(a, b);
      }
    }
  }

  // ---------------------------------------------------------------------------
  // The comparisons against the reference value

  /** Less is the order of the denoted values, for every pair of non-NaN operands. */
  lemma LessIsValueOrder(a: Float8, b: Float8)
    requires !IsNaN(a) && !IsNaN(b)
    ensures Less(a, b) <==> OrderKey(a) < OrderKey(b)
  {
    ClassesArePairs(a);
    ClassesArePairs(b);
    if IsZero(a) && IsZero(b) {
    } else if IsInf(a) || IsInf(b) {
      if !IsInf(a) {
        FiniteKey(a);
      }
      if !IsInf(b) {
        FiniteKey(b);
      }
    } else {
      DecodedLess(a, b);
      ByteLessIsKeyLess(a, b);
    }
  }

  /** Two non-NaN bytes with equal keys are the same byte or the two zeros. */
  lemma KeyInjective(a: Float8, b: Float8)
    requires !IsNaN(a) && !IsNaN(b) && OrderKey(a) == OrderKey(b)
    ensures a == b || (IsZero(a) && IsZero(b))
  {
    ClassesArePairs(a);
    ClassesArePairs(b);
    if !IsInf(a) {
      FiniteKey(a);
    }
    if !IsInf(b) {
      FiniteKey(b);
    }
    if !IsInf(a) && !IsInf(b) && !IsZero(a) && !IsZero(b) {
      if a & 0x7F < b & 0x7F {
        ScaledMagnitudeMonotone(a, b);
      } else if b & 0x7F < a & 0x7F {
        ScaledMagnitudeMonotone(b, a);
      }
      ScaledMagnitudeBound(a);
      ScaledMagnitudeBound(b);
      assert a & 0x7F == b & 0x7F && SignBitSet(a) == SignBitSet(b);
    }
  }

  /** Equal is equality of the denoted values, for every pair of non-NaN operands. */
  lemma EqualIsValueEquality(a: Float8, b: Float8)
    requires !IsNaN(a) && !IsNaN(b)
    ensures Equal(a, b) <==> OrderKey(a) == OrderKey(b)
    ensures Equal(a, b) <==> a == b || (IsZero(a) && IsZero(b))
  {
    ClassesArePairs(a);
    ClassesArePairs(b);
    if OrderKey(a) == OrderKey(b) {
      KeyInjective(a, b);
    }
  }

  /** A NaN is unordered: no comparison holds, not even against itself. */
  lemma NaNUnordered(n: Float8, x: Float8)
    requires IsNaN(n)
    ensures !Equal(n, x) && !Equal(x, n) && !Equal(n, n)
    ensures !Less(n, x) && !Less(x, n) && !Greater(n, x) && !Greater(x, n)
    ensures !LessEqual(n, x) && !LessEqual(x, n) && !GreaterEqual(n, x) && !GreaterEqual(x, n)
  {
  }

  /** On non-NaN operands the derived comparisons are the value order too. */
  lemma DerivedComparisons(a: Float8, b: Float8)
    requires !IsNaN(a) && !IsNaN(b)
    ensures Greater(a, b) <==> OrderKey(a) > OrderKey(b)
    ensures LessEqual(a, b) <==> OrderKey(a) <= OrderKey(b)
    ensures GreaterEqual(a, b) <==> OrderKey(a) >= OrderKey(b)
  {
    LessIsValueOrder(a, b);
    LessIsValueOrder(b, a);
    EqualIsValueEquality(a, b);
  }

  /** Exactly one of Less, Equal and Greater holds between two non-NaN operands. */
  lemma Trichotomy(a: Float8, b: Float8)
    requires !IsNaN(a) && !IsNaN(b)
    ensures Less(a, b) || Equal(a, b) || Greater(a, b)
    ensures !(Less(a, b) && Equal(a, b)) && !(Less(a, b) && Greater(a, b)) && !(Equal(a, b) && Greater(a, b))
  {
    DerivedComparisons(a, b);
    LessIsValueOrder(a, b);
    EqualIsValueEquality(a, b);
  }

  /** Less is irreflexive and asymmetric (NaN operands included, since they are never related). */
  lemma LessAsymmetric(a: Float8, b: Float8)
    ensures !Less(a, a)
    ensures Less(a, b) ==> !Less(b, a)
  {
    if !IsNaN(a) && !IsNaN(b) {
      LessIsValueOrder(a, a);
      LessIsValueOrder(a, b);
      LessIsValueOrder(b, a);
    }
  }

  /** Less is transitive. */
  lemma LessTransitive(a: Float8, b: Float8, c: Float8)
    requires Less(a, b) && Less(b, c)
    ensures Less(a, c)
  {
    LessIsValueOrder(a, b);
    LessIsValueOrder(b, c);
    LessIsValueOrder(a, c);
  }

  /** -Inf is below and +Inf above every other non-NaN byte. */
  lemma InfinitiesBound(x: Float8)
    requires !IsNaN(x)
    ensures x != NegativeInfinity ==> Less(NegativeInfinity, x) && !Less(x, NegativeInfinity)
    ensures x != PositiveInfinity ==> Less(x, PositiveInfinity) && !Less(PositiveInfinity, x)
  {
    LessIsValueOrder(NegativeInfinity, x);
    LessIsValueOrder(x, NegativeInfinity);
    LessIsValueOrder(x, PositiveInfinity);
    LessIsValueOrder(PositiveInfinity, x);
    FiniteOrInfKey(x);
  }

  // ---------------------------------------------------------------------------
  // Min and Max

  /** Min gives NaN for a NaN operand and otherwise one of its operands, the one of
      smaller value (the right one when the values are equal). */
  lemma MinIsSmaller(a: Float8, b: Float8)
    ensures IsNaN(a) || IsNaN(b) ==> Min(a, b) == NaN
    ensures !IsNaN(a) && !IsNaN(b) ==>
      && (Min(a, b) == a || Min(a, b) == b)
      && OrderKey(Min(a, b)) == (if OrderKey(a) < OrderKey(b) then OrderKey(a) else OrderKey(b))
      && LessEqual(Min(a, b), a) && LessEqual(Min(a, b), b)
    ensures !IsNaN(a) && !IsNaN(b) && (a == NegativeInfinity || b == NegativeInfinity) ==> Min(a, b) == NegativeInfinity
  {
    if !IsNaN(a) && !IsNaN(b) {
      LessIsValueOrder(a, b);
      FiniteOrInfKey(a);
      FiniteOrInfKey(b);
      DerivedComparisons(Min(a, b), a);
      DerivedComparisons(Min(a, b), b);
    }
  }

  /** Max gives NaN for a NaN operand and otherwise one of its operands, the one of
      larger value (the right one when the values are equal). */
  lemma MaxIsLarger(a: Float8, b: Float8)
    ensures IsNaN(a) || IsNaN(b) ==> Max(a, b) == NaN
    ensures !IsNaN(a) && !IsNaN(b) ==>
      && (Max(a, b) == a || Max(a, b) == b)
      && OrderKey(Max(a, b)) == (if OrderKey(a) > OrderKey(b) then OrderKey(a) else OrderKey(b))
      && GreaterEqual(Max(a, b), a) && GreaterEqual(Max(a, b), b)
    ensures !IsNaN(a) && !IsNaN(b) && (a == PositiveInfinity || b == PositiveInfinity) ==> Max(a, b) == PositiveInfinity
  {
    if !IsNaN(a) && !IsNaN(b) {
      LessIsValueOrder(b, a);
      FiniteOrInfKey(a);
      FiniteOrInfKey(b);
      DerivedComparisons(Max(a, b), a);
      DerivedComparisons(Max(a, b), b);
    }
  }

  /** The keys of non-NaN bytes lie in [-2^20, 2^20], the ends taken by the infinities. */
  lemma FiniteOrInfKey(x: Float8)
    requires !IsNaN(x)
    ensures -InfinityKey <= OrderKey(x) <= InfinityKey
    ensures OrderKey(x) == InfinityKey <==> x == PositiveInfinity
    ensures OrderKey(x) == -InfinityKey <==> x == NegativeInfinity
  {
    ClassesArePairs(x);
    if !IsInf(x) {
      FiniteKey(x);
    }
  }

  /**
   * Min and Max commute up to Equal. As bytes they commute too, except on two zeros,
   * where both return the right-hand operand; with a NaN operand both orders give 0x7F.
   */
  lemma MinMaxCommute(a: Float8, b: Float8)
    ensures Equal(Min(a, b), Min(b, a)) || (IsNaN(Min(a, b)) && IsNaN(Min(b, a)))
    ensures Equal(Max(a, b), Max(b, a)) || (IsNaN(Max(a, b)) && IsNaN(Max(b, a)))
    ensures IsNaN(a) || IsNaN(b) ==> Min(a, b) == NaN && Min(b, a) == NaN && Max(a, b) == NaN && Max(b, a) == NaN
    ensures IsZero(a) && IsZero(b) ==> Min(a, b) == b && Max(a, b) == b
    ensures !IsNaN(a) && !IsNaN(b) && !(IsZero(a) && IsZero(b)) ==> Min(a, b) == Min(b, a) && Max(a, b) == Max(b, a)
  {
    if !IsNaN(a) && !IsNaN(b) {
      MinIsSmaller(a, b);
      MinIsSmaller(b, a);
      MaxIsLarger(a, b);
      MaxIsLarger(b, a);
      EqualIsValueEquality(Min(a, b), Min(b, a));
      EqualIsValueEquality(Max(a, b), Max(b, a));
      if !(IsZero(a) && IsZero(b)) {
        KeyInjective(Min(a, b), Min(b, a));
        KeyInjective(Max(a, b), Max(b, a));
      }
    }
  }
}
