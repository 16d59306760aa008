# float8 — a Dafny model of an 8-bit floating-point package

This project models the core of the Go package `float8`. The package stores an 8-bit
floating-point number in one byte: 1 sign bit, 4 exponent bits with bias 7 and 3 mantissa
bits. It converts between that byte and IEEE-754 binary32, offers arithmetic, comparison
and math functions on it, and can optionally cache conversions and arithmetic in lookup
tables.

A byte is a `bv8` and a binary32 value is its `bv32` bit pattern. The modules follow the
package's files:

- `Float8Types` (types.go) holds the constants, the two mode enumerations, the error
  values and the classification and sign functions.
- `Binary32` describes the binary32 bit fields and the ordering of binary32 values.
  The platform's binary32 `+ - * /` are a parameter `fp: Arithmetic`.
- `Convert` (convert.go) models the encoder `ToFloat8WithMode` on the exact branches of the
  source. This covers the specials, overflow, underflow and round-half-up with carry, and
  the exponent that wraps for small values. It also models the algorithmic decoder.
- `Arithmetic` (arithmetic.go) models the four algorithmic operators and the left fold of
  SumSlice.
- `Ordering` (arithmetic.go) models Equal, Less, Greater, LessEqual, GreaterEqual, Min and
  Max. They are proved against an independent integer order key, ±(8+m)·2^e.
- `MathFunctions` (math.go) models the guards of every math function. The Go math library
  is a parameter `lib: Library`.
- `Runtime` (convert.go, arithmetic.go, float8.go) is the package's mutable state as the
  class `Float8State`:
  - nullable arrays for the conversion table and the four operation tables, and the two
    default modes;
  - table building by loops;
  - the dispatching operators;
  - the slice functions;
  - Configure and GetMemoryUsage.

The package-level variable DefaultConversionMode becomes the `mode` parameter of the pure
functions. In the class it becomes the field `defaultConversionMode`.

Where the code and its comments disagree, the model follows the code:

- Exponent field 15 is not kept for NaN alone, as in E4M3FN. 0x78 and 0xF8 are infinities
  and 0x7F and 0xFF are NaN, so 256.0 encodes to +Inf and 480.0 encodes to NaN.
- IsFinite(0x79 … 0x7E) is false.
- Rounding is round-half-up on the first dropped bit, not round-to-nearest-even.
- The limits ExponentMin −7 and ExponentMax 15 apply to the rebiased exponent. A value in
  [2^-14, 2^-7) therefore passes the underflow check with a negative rebiased exponent.
  When the rounded rebiased exponent is still negative, it wraps into the sign bit:
  1.25·2^-8 encodes to 0xFA. Values from 1.9375·2^-8 up to 2^-7 round up to rebiased
  exponent 0, so they become a signed zero.
- 2^-7 has rebiased exponent 0 and mantissa 0, so it encodes to 0x00, the positive zero.
- Add has no NaN guard: NaN + ±Inf is ±Inf, and NaN + 0 is NaN. So SumSlice does not
  always return NaN when an element is NaN.
- Sqrt(−0) is +0, and Sqrt and Log of a negative are +0. Sin, Cos and Tan of ±Inf are +0,
  and Fmod(x, ±0) is +0.
- ArithmeticLookup without tables falls back to the algorithmic path silently.

## Model

| member | source | states |
|---|---|---|
| Float8Types.Sign | types.go:162-173 | 0 exactly for the two NaNs and both zeros; −1 exactly for the other bytes with the sign bit set; 1 for the rest |
| Float8Types.Abs | types.go:184-186 | the result has the sign bit clear and the same low seven bits; a non-negative byte is unchanged |
| Float8Types.Neg | types.go:189-194 | zeros are unchanged; on any other byte only the sign bit flips |
| Float8Types.ClassesArePairs | types.go:104-148 | zero, infinity and NaN are exactly {0x00,0x80}, {0x78,0xF8}, {0x7F,0xFF}, and they are pairwise disjoint |
| Float8Types.FiniteIsExponentBelow15 | types.go:129-133 | finite iff the exponent field is not 15; infinities and NaNs are not finite; 0x79…0x7E and their negatives belong to no class |
| Float8Types.AbsIdempotent | types.go:184-186 | Abs(Abs(f)) == Abs(f), and the magnitude bits are kept |
| Float8Types.NegInvolution | types.go:189-194 | Neg(Neg(f)) == f, and Neg preserves the NaN, infinity and zero classes |
| Float8Types.NegSign | types.go:162-194 | Sign(Neg(f)) == −Sign(f) |
| Float8Types.BitsRoundTrip | types.go:207-214 | FromBits and Bits are mutually inverse |
| Convert.ToFloat8 | convert.go:25-28 | an encoding error yields +0; a successful encoding, strict mode included, yields the encoder's Ok value; outside strict mode the encoder always succeeds |
| Convert.ToFloat8WithMode | convert.go:49-152 | the encoder, branch for branch; its behaviour is stated by Convert.RoundTrip, EncodeSpecials, ErrorsOnlyInStrictMode, EncodeOverflow, EncodeUnderflow and the rounding lemmas below |
| Convert.ToFloat32Algorithmic | convert.go:173-206 | zeros and infinities map to the binary32 specials of the same sign; NaN maps to a NaN; otherwise the sign is kept, the exponent is rebiased by +120 and the mantissa is shifted into the top three bits, giving an ordinary value |
| Convert.RoundTrip | convert.go:49-206 | encoding the decoding of every non-NaN byte gives back the byte in every mode; a NaN gives the NaN error in strict mode and 0x7F otherwise |
| Convert.EncodeSpecials | convert.go:51-72 | ±0 and ±Inf encode to their byte of the same sign; a NaN is ErrNaN in strict mode and 0x7F otherwise |
| Convert.ErrorsOnlyInStrictMode | convert.go:49-151 | only strict mode fails; default and fast modes agree everywhere; when strict succeeds it agrees with default |
| Convert.EncodeWithoutRounding | convert.go:123-150 | an in-range value whose first dropped bit is 0 encodes by truncating its fields |
| Convert.EncodeOverflow | convert.go:92-105 | a rebiased exponent above 15 (a value of 2^9 or more) is the overflow error in strict mode and the signed infinity otherwise |
| Convert.EncodeUnderflow | convert.go:107-121 | a rebiased exponent below −7 (a value below 2^-14) is the underflow error in strict mode and the signed zero otherwise |
| Convert.KeptMantissa | convert.go:123-131 | the rounded three-bit mantissa lies in 0..8 (8 means a carry) |
| Convert.EncodeNoCarry | convert.go:123-150 | without a carry the encoding is the sign, the exponent and the rounded mantissa |
| Convert.EncodeCarry | convert.go:125-147 | a carry bumps the exponent and clears the mantissa, or overflows after rounding at rebiased exponent 15 |
| Convert.EncodeRoundingOverflow | convert.go:125-147 | a carry beyond rebiased exponent 15 is "overflow after rounding" in strict mode and the signed infinity otherwise |
| Convert.EncodeRoundedFields | convert.go:123-151 | a non-negative rounded exponent becomes the exponent field, the rounded mantissa becomes the mantissa field, and the sign is kept |
| Convert.EncodeRoundedWraps | convert.go:88-151 | a negative rounded exponent wraps: the top five bits hold it plus 32, so the sign bit is set whatever the input's sign |
| Convert.ComposeNonNegative | convert.go:150 | packing a sign, an exponent in 0..15 and a mantissa gives a byte that has exactly those fields |
| Convert.ComposeNegative | convert.go:150 | packing a wrapped negative exponent puts it plus 32 in the top five bits |
| Convert.EncodeExamples | convert.go:49-151 | ±1 become 0x38 and 0xB8; 448 becomes 0x7E; 256 becomes +Inf and 480 becomes NaN; 2^-7 becomes +0 and 1.25·2^-8 becomes 0xFA; ±1.9375·2^-8 round up to ±0; 1e10 and 1e-10 saturate outside strict mode and fail in it |
| Arithmetic.AddAlgorithmic | arithmetic.go:150-179 | addAlgorithmic; its case analysis is Arithmetic.AddCases, with commutativity, the zero identities and the NaN behaviour in the lemmas below |
| Arithmetic.SubAlgorithmic | arithmetic.go:181-207 | subAlgorithmic; its case analysis is Arithmetic.SubCases, and Arithmetic.SubIsAddNeg relates it to Add |
| Arithmetic.MulAlgorithmic | arithmetic.go:209-255 | mulAlgorithmic; its case analysis is Arithmetic.MulCases, with Arithmetic.MulCommutes and MulDivNaNDominant |
| Arithmetic.DivAlgorithmic | arithmetic.go:257-328 | divAlgorithmic; its case analysis is Arithmetic.DivCases, with Arithmetic.DivScenarios and MulDivNaNDominant |
| Arithmetic.Sum | arithmetic.go:567-573 | the left fold of Add from +0 that SumSlice computes; Runtime.Float8State.SumSlice is proved equal to it, and SumSmall, SumAppend, SumOfZeros and SumNaNNotSticky state its properties |
| Arithmetic.AddCases | arithmetic.go:150-179 | Add in every case: a zero operand gives the other operand; +Inf + −Inf gives +0; another infinity wins; otherwise the encoded binary32 sum |
| Arithmetic.AddCommutes | arithmetic.go:150-179 | Add commutes when the binary32 sum commutes, except that two zeros give the right-hand operand |
| Arithmetic.AddZeroIdentity | arithmetic.go:152-157 | +0 is a left identity and a right identity except on −0; −0 + +0 is +0 |
| Arithmetic.AddNaNNotDominant | arithmetic.go:150-171 | NaN + ±Inf is the infinity and NaN + 0 is the NaN: Add has no NaN guard |
| Arithmetic.AddNaNThroughBinary32 | arithmetic.go:173-178 | when the binary32 sum of a NaN and an ordinary value is NaN, the result is 0x7F, or +0 in strict mode |
| Arithmetic.AddScenario | arithmetic.go:173-178 | 2 + 3 gives 0x4A, the byte that decodes to 5 |
| Arithmetic.SubCases | arithmetic.go:181-207 | Sub in every case: a zero subtrahend gives a; a zero minuend gives −b; Inf − Inf of the same sign is +0; otherwise the infinity or the encoded difference |
| Arithmetic.DecodeNeg | convert.go:192-205 | decoding Neg(b) flips exactly the binary32 sign bit |
| Arithmetic.SubIsAddNeg | arithmetic.go:150-207 | when the binary32 difference is the sum with the negation, Sub(a, b) == Add(a, Neg(b)) for non-NaN b, except for two zeros |
| Arithmetic.MulCases | arithmetic.go:209-255 | Mul in every case: NaN dominates; Inf·0 is NaN; zero and infinity results carry the XOR of the signs; otherwise the encoded product |
| Arithmetic.MulCommutes | arithmetic.go:209-255 | Mul commutes when the binary32 product does |
| Arithmetic.DivCases | arithmetic.go:257-328 | Div in every case: NaN dominates; 0/0 and Inf/Inf are NaN; x/0 and Inf/x are the signed infinity; 0/x and x/Inf are the signed zero; a binary32 quotient that overflows to infinity becomes the signed infinity |
| Arithmetic.DivScenarios | arithmetic.go:257-328 | 1 / −0 is −Inf; 448 / 2^-7 is +Inf |
| Arithmetic.MulDivNaNDominant | arithmetic.go:209-262 | a NaN operand on either side makes Mul and Div NaN |
| Arithmetic.SumSmall | arithmetic.go:567-573 | the sum of the empty slice is +0 and the sum of a one-element slice is that element |
| Arithmetic.SumOfZeros | arithmetic.go:567-573 | a sum of zeros is a zero, namely the last element |
| Arithmetic.SumAppend | arithmetic.go:567-573 | a sum extends by one Add per appended element |
| Arithmetic.SumNaNNotSticky | arithmetic.go:547-573 | [NaN, +Inf] sums to +Inf, against the doc comment that any NaN gives NaN |
| Ordering.Equal | arithmetic.go:333-359 | Equal; Ordering.EqualIsValueEquality shows it is equality of values, with both zeros equal, and NaNUnordered shows a NaN equals nothing |
| Ordering.Less | arithmetic.go:362-391 | Less; Ordering.LessIsValueOrder shows it is the order of the integer key on non-NaN bytes, and LessAsymmetric and LessTransitive make it a strict order |
| Ordering.Greater | arithmetic.go:394-396 | Less with the operands swapped; Ordering.DerivedComparisons ties it to the key |
| Ordering.LessEqual | arithmetic.go:399-401 | Less or Equal; Ordering.DerivedComparisons shows it is <= on the key for non-NaN bytes |
| Ordering.GreaterEqual | arithmetic.go:404-406 | Greater or Equal; Ordering.DerivedComparisons shows it is >= on the key for non-NaN bytes |
| Ordering.Min | arithmetic.go:414-438 | Min; Ordering.MinIsSmaller and MinMaxCommute state what it returns |
| Ordering.Max | arithmetic.go:446-470 | Max; Ordering.MaxIsLarger and MinMaxCommute state what it returns |
| Ordering.ScaledMagnitudeBound | convert.go:193-205 | the order key of a finite magnitude lies in [8, 2^20) |
| Ordering.ScaledMagnitudeMonotone | convert.go:193-205 | a larger low-seven-bit pattern has a strictly larger magnitude key |
| Ordering.DecodedMagnitude | convert.go:193-205 | the binary32 magnitude of a decoded ordinary byte is its low seven bits plus 960, shifted left by 20 |
| Ordering.DecodedLess | arithmetic.go:389-390 | binary32 Less on decoded finite bytes is sign-magnitude order on the bytes |
| Ordering.FiniteKey | convert.go:173-206 | a non-NaN finite byte is zero iff its low bits are 0, and its key lies strictly between the infinity keys |
| Ordering.ByteLessIsKeyLess | convert.go:193-205 | sign-magnitude byte order agrees with the integer key |
| Ordering.LessIsValueOrder | arithmetic.go:362-391 | for non-NaN operands, Less(a, b) iff OrderKey(a) < OrderKey(b) |
| Ordering.KeyInjective | arithmetic.go:333-359 | equal keys mean equal bytes or two zeros |
| Ordering.EqualIsValueEquality | arithmetic.go:333-359 | for non-NaN operands, Equal iff the keys are equal iff the bytes are equal or both are zeros |
| Ordering.NaNUnordered | arithmetic.go:333-406 | a NaN is equal to nothing, itself included, and is not ordered against anything |
| Ordering.DerivedComparisons | arithmetic.go:394-406 | Greater, LessEqual and GreaterEqual are >, <= and >= on the keys |
| Ordering.Trichotomy | arithmetic.go:333-406 | for non-NaN operands exactly one of Less, Equal and Greater holds |
| Ordering.LessAsymmetric | arithmetic.go:362-391 | Less is irreflexive and asymmetric |
| Ordering.LessTransitive | arithmetic.go:362-391 | Less is transitive |
| Ordering.InfinitiesBound | arithmetic.go:376-388 | −Inf is below and +Inf above every other non-NaN byte |
| Ordering.MinIsSmaller | arithmetic.go:414-438 | Min is NaN if either operand is; otherwise it is an operand with the smaller key, is LessEqual to both, and is −Inf when either operand is |
| Ordering.MaxIsLarger | arithmetic.go:446-470 | Max is NaN if either operand is; otherwise it is an operand with the larger key, is GreaterEqual to both, and is +Inf when either operand is |
| Ordering.FiniteOrInfKey | arithmetic.go:414-470 | keys are bounded by the infinity keys, and only ±Inf reach them |
| Ordering.MinMaxCommute | arithmetic.go:414-470 | Min and Max commute up to Equal; as bytes they commute unless both operands are zeros, when both return the right-hand operand; a NaN operand gives 0x7F both ways |
| MathFunctions.Sqrt | math.go:21-36 | Sqrt; its guards are MathFunctions.SqrtGuards |
| MathFunctions.Pow | math.go:64-90 | Pow; its guards are MathFunctions.PowGuards |
| MathFunctions.Exp | math.go:93-107 | Exp; its guards are MathFunctions.ExpGuards |
| MathFunctions.Log | math.go:120-135 | Log; its guards are MathFunctions.LogGuards |
| MathFunctions.Sin | math.go:147-158 | Sin; its guards are in MathFunctions.TrigGuards |
| MathFunctions.Cos | math.go:170-181 | Cos; its guards are in MathFunctions.TrigGuards |
| MathFunctions.Tan | math.go:194-205 | Tan; its guards are in MathFunctions.TrigGuards |
| MathFunctions.Floor | math.go:217-225 | Floor; its guards are in MathFunctions.IntegerRoundingGuards, and FloorOfIntegral shows it fixes integral bytes |
| MathFunctions.Ceil | math.go:237-245 | Ceil; its guards are in MathFunctions.IntegerRoundingGuards |
| MathFunctions.Round | math.go:258-266 | Round; its guards are in MathFunctions.IntegerRoundingGuards |
| MathFunctions.Trunc | math.go:279-287 | Trunc; its guards are in MathFunctions.IntegerRoundingGuards |
| MathFunctions.Fmod | math.go:305-327 | Fmod; its guards are MathFunctions.FmodGuards |
| MathFunctions.Clamp | math.go:346-354 | Clamp; MathFunctions.ClampBounds shows the result lies between the bounds |
| MathFunctions.Lerp | math.go:357-362 | a + t·(b − a) through the algorithmic operators; MathFunctions.LerpAtZero states the t = 0 case and Runtime.Float8State.Lerp is proved equal to it |
| MathFunctions.MathSign | math.go:365-377 | Sign as a byte; MathFunctions.MathSignValues shows it is 1, −1 or +0 exactly as Sign is 1, −1 or 0 |
| MathFunctions.CopySign | math.go:380-385 | CopySign; MathFunctions.CopySignBits states the resulting bits |
| MathFunctions.SqrtGuards | math.go:21-36 | ±0 give +0, +Inf gives +Inf, every negative other than 0xFF gives +0, and the rest go to the library |
| MathFunctions.PowGuards | math.go:64-90 | a zero base gives +0, +Inf or 1 by the exponent's sign; a +Inf base gives +Inf, +0 or 1; 0 to the NaN power is 1; the rest go to the library |
| MathFunctions.ExpGuards | math.go:93-107 | zeros give 1, +Inf gives +Inf, −Inf gives +0, and the rest go to the library |
| MathFunctions.LogGuards | math.go:120-135 | zeros give −Inf, +Inf gives +Inf, negatives other than 0xFF give +0, and the rest go to the library |
| MathFunctions.TrigGuards | math.go:147-205 | Sin and Tan keep zeros, Cos of zero is 1, all three give +0 on ±Inf, and the rest go to the library |
| MathFunctions.IntegerRoundingGuards | math.go:217-287 | Floor, Ceil, Round and Trunc keep zeros and infinities and send the rest to the library |
| MathFunctions.FloorOfIntegral | math.go:217-225 | when the library's floor fixes the decoded value, Floor returns the byte itself |
| MathFunctions.FmodGuards | math.go:305-327 | x mod ±0 is +0; 0 mod y is 0; x mod ±Inf is x; ±Inf mod y is +0; the rest go to the library |
| MathFunctions.ConstantValues | math.go:330-341 | E, Pi, Phi, Sqrt2, SqrtE, SqrtPi, Ln2, Log2E, Ln10 and Log10E encode to 0x43, 0x45, 0x3D, 0x3B, 0x3D, 0x3E, 0x33, 0x3C, 0x41 and 0x2E |
| MathFunctions.OneEncodings | math.go:365-377 | binary32 ±1 encode to 0x38 and 0xB8 in every mode, and these bytes decode back to ±1 |
| MathFunctions.ClampBounds | math.go:346-354 | with non-NaN lo <= hi the result lies in [lo, hi], a value already inside is kept, NaN passes through, and the result is f, lo or hi |
| MathFunctions.LerpAtZero | math.go:357-362 | at t = 0 and a ≠ 0 the result is a, unless b − a is NaN or infinite (then 0·(b − a) is NaN) |
| MathFunctions.MathSignValues | math.go:365-377 | the result is 1, −1 or +0 exactly when Sign is 1, −1 or 0 |
| MathFunctions.CopySignBits | math.go:380-385 | the magnitude bits come from f and the sign bit is set iff Sign(sign) < 0, so −0 and 0xFF give a positive result |
| Runtime.Float8State.constructor | convert.go:9 | no tables, default conversion mode, automatic arithmetic mode; the state is valid and coherent |
| Runtime.Float8State.ToFloat32 | convert.go:164-170 | the table lookup and the algorithmic decoding agree |
| Runtime.Float8State.EnableFastConversion | convert.go:292-306 | afterwards the table exists and holds the algorithmic decoding of all 256 bytes; an existing table is kept; nothing else changes |
| Runtime.Float8State.DisableFastConversion | convert.go:308-311 | the conversion table is dropped and nothing else changes |
| Runtime.Float8State.ToSlice8 | convert.go:225-245 | nil gives nil; otherwise a fresh array holding the encoding of each element |
| Runtime.Float8State.ToSlice32 | convert.go:262-279 | nil and empty give nil; otherwise a fresh array holding the decoding of each element |
| Runtime.EncodeAll | convert.go:225-245 | same length, with element i the encoding of element i |
| Runtime.DecodeAll | convert.go:262-279 | same length, with element i the decoding of element i |
| Runtime.SliceRoundTrip | convert.go:225-279 | decoding then encoding a slice gives it back, except that each NaN becomes 0x7F, or 0x00 in strict mode |
| Runtime.NegativeZeroSpecialCase | convert.go:237-241 | the special case for binary32 −0 gives what the encoder gives |
| Runtime.Float8State.AddWithMode | arithmetic.go:45-53 | the result is the algorithmic sum under the effective conversion mode: the tables' mode when Auto or Lookup finds the tables, otherwise the current default |
| Runtime.Float8State.SubWithMode | arithmetic.go:76-84 | as AddWithMode, for the difference |
| Runtime.Float8State.MulWithMode | arithmetic.go:107-115 | as AddWithMode, for the product |
| Runtime.Float8State.DivWithMode | arithmetic.go:138-146 | as AddWithMode, for the quotient |
| Runtime.Float8State.Add | arithmetic.go:25-27 | AddWithMode under the default arithmetic mode |
| Runtime.Float8State.Sub | arithmetic.go:71-73 | SubWithMode under the default arithmetic mode |
| Runtime.Float8State.Mul | arithmetic.go:102-104 | MulWithMode under the default arithmetic mode |
| Runtime.Float8State.Div | arithmetic.go:133-135 | DivWithMode under the default arithmetic mode |
| Runtime.Float8State.DispatchIsAlgorithmic | arithmetic.go:45-146 | with coherent tables, every arithmetic mode gives the algorithmic result under the current default conversion mode |
| Runtime.Float8State.Lerp | math.go:357-362 | the package's Lerp through the dispatching operators is the algorithmic Lerp under the effective mode |
| Runtime.Float8State.EnableFastArithmetic | arithmetic.go:584-586 | afterwards the four tables exist; newly built ones are under the current default conversion mode; existing ones are kept; nothing else changes |
| Runtime.Float8State.DisableFastArithmetic | arithmetic.go:589-594 | all four tables are dropped and nothing else changes |
| Runtime.BuildTables | arithmetic.go:597-620 | four fresh tables, each entry Index(a, b) holding the algorithmic result for (a, b) |
| Runtime.FillRow | arithmetic.go:609-619 | one pass of the inner loop fills row a of all four tables and keeps the earlier rows |
| Runtime.SetEntry | arithmetic.go:610-618 | one store extends the filled prefix of a table by one entry |
| Runtime.TableLookup | arithmetic.go:45-53 | every entry read from full tables is the algorithmic result |
| Runtime.NextRow | arithmetic.go:608-619 | a completed row starts the next one |
| Runtime.IndexUnique | arithmetic.go:610 | distinct byte pairs have distinct positions, each below 65536 |
| Runtime.Float8State.AddSlice | arithmetic.go:494-504 | mismatched lengths are the panic (None); otherwise a fresh array of element-wise sums |
| Runtime.Float8State.MulSlice | arithmetic.go:526-536 | mismatched lengths are the panic (None); otherwise a fresh array of element-wise products |
| Runtime.Float8State.ScaleSlice | arithmetic.go:539-545 | a fresh array with element i equal to s[i] times the scalar |
| Runtime.Float8State.SumSlice | arithmetic.go:567-573 | the result is the left fold of Add from +0 over the slice |
| Runtime.Float8State.GetMemoryUsage | float8.go:58-79 | usage is 0, 1024, 262144 or 263168; it is at least 262144 iff the operation tables exist, and leaves 1024 modulo 65536 iff the conversion table exists |
| Runtime.Float8State.Configure | float8.go:40-55 | the modes and the presence of each table become what was asked, and memory is ConfigMemory(c); newly built operation tables are under the old conversion mode; existing ones are kept |
| Runtime.Float8State.ConfigureCoherent | float8.go:40-55 | as Configure, and afterwards the tables agree with the new conversion mode |
| Runtime.StaleTableScenario | float8.go:40-55 | after Configure with tables on and strict mode, 448 + 448 is +Inf from the table but +0 from the algorithmic path |
| Runtime.CoherentScenario | float8.go:40-55 | after ConfigureCoherent both paths give +0 |
| Runtime.DefaultConfig | float8.go:30-37 | the default configuration; Runtime.DefaultConfigValues states its fields |
| Runtime.ConfigMemory | float8.go:58-79 | the table memory a configuration asks for; Runtime.Float8State.Configure proves GetMemoryUsage equals it afterwards |
| Runtime.One | float8.go:102-104 | the encoding of 1.0 is 0x38 in every mode; it decodes back to 1.0, has Sign 1 and is normal |
| Runtime.IsValid | float8.go:129-132 | every byte is valid; Runtime.IsNormalCases shows normal bytes are valid |
| Runtime.IsNormal | float8.go:135-137 | not a zero and finite; Runtime.IsNormalCases characterises it |
| Runtime.DefaultConfigValues | float8.go:30-37 | the default configuration has no tables, default conversion, automatic arithmetic and zero table memory |
| Runtime.Zero | float8.go:97-99 | a zero with the sign bit clear and Sign 0 |
| Runtime.IsNormalCases | float8.go:129-137 | IsNormal iff not zero and the exponent field is not 15; normal bytes are neither infinite nor NaN and are valid; 0x01 and 0x76 are normal and 448 (0x7E) is not |

## Left out

- The binary32 `+ - * /` of the platform are the parameter `fp`, and the Go math library
  calls (Sqrt, Pow, Exp, Log, Sin, Cos, Tan, Floor, Ceil, Round, Trunc, Mod) are the
  parameter `lib`. The model does not encode IEEE-754 arithmetic itself, so every
  property that reaches such a call holds for any binary32 arithmetic. Commutativity is
  assumed of `fp` only where the lemma says so.
- Binary32 comparison is modelled on the bit patterns, namely sign-magnitude order with
  NaN unordered and −0 equal to +0. It is not derived from the Go runtime.
- The math constants are given as the binary32 patterns of the float64 constants.
  Rounding from float64 to float32 is not modelled.
- Initialize, Parse, GetVersion, DebugInfo and the String, GoString and Error formatting
  produce text or read Go maps and `fmt`, so they are not modelled.
- FromInt, FromFloat64, ToFloat64 and ToInt use float64 and integer casts, so they are
  not modelled.
- Float8Error keeps its operation, value and message. The value is the binary32 bit
  pattern.
- Concurrency and unsynchronised access to the package globals are not modelled.
- Direct assignment to the exported globals DefaultConversionMode and DefaultArithmeticMode
  is an assignment to the public fields `defaultConversionMode` and `defaultArithmeticMode`
  of `Float8State`. A caller allowed to modify the state can make one. It keeps `Valid()`
  but can break `Coherent()`, which is the same stale-table effect that Configure has.
- AddSlice, MulSlice, ScaleSlice and SumSlice take non-null arrays, because a nil Go
  slice behaves there like an empty one. ToSlice8 and ToSlice32 do model nil.
- The panic of AddSlice and MulSlice on a length mismatch is the `None` result.
- Arithmetic: the operators decode with `ToFloat32Algorithmic`, which under `Valid()`
  equals the table-aware `ToFloat32`. So whether the conversion table is present does not
  change any result.

## Findings

| source | as written | input that shows it | evidently intended | confidence | as-written member | corrected member |
|---|---|---|---|---|---|---|
| float8.go:40-55 | Configure builds the arithmetic tables before it assigns DefaultConversionMode. The tables are filled under the previous mode, and tables that already exist are never rebuilt. | From the initial state, Configure with fast arithmetic on and ModeStrict, then Add(448, 448). The table gives +Inf, while the algorithmic path under strict mode gives 0x00. | The tables agree with the configured conversion mode. | medium, not executed | Runtime.StaleTableScenario | Runtime.Float8State.ConfigureCoherent |
