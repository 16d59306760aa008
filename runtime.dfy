/**
 * The package's mutable state: the optional lookup tables (one of 256 decoded binary32
 * values, four of 65536 operation results) and the two package-wide default modes.
 * `Float8State` holds them as fields; the package-level functions that read or change
 * them are its members. The binary32 arithmetic of the platform is fixed per instance.
 *
 * The tables are caches of the algorithmic operations, but an arithmetic table holds the
 * results under the conversion mode in force when it was built (`tableMode`), which the
 * package never records and never revisits: later changes of the default conversion mode
 * reach the algorithmic operators and not the tables.
 */
module Runtime {
  import opened Wrappers
  import opened Float8Types
  import opened Convert
  import opened Arithmetic
  import MathFunctions
  import B = Binary32

  /** Number of entries of an arithmetic table: one per ordered pair of bytes. */
  const PairCount: int := 65536

  /** The position of the pair (a, b) in an arithmetic table: `uint16(a)<<8 | uint16(b)`. */
  function Index(a: int, b: int): int {
    a * 256 + b
  }

  /** The package configuration. */
  datatype Config = Config(
    enableFastArithmetic: bool,
    enableFastConversion: bool,
    defaultMode: ConversionMode,
    arithmeticMode: ArithmeticMode)

  function DefaultConfig(): Config {
    Config(false, false, ModeDefault, ArithmeticAuto)
  }

  /** Bytes of table memory a configuration asks for: 256 four-byte values for the
      conversion table, 65536 one-byte values for each of the four arithmetic tables. */
  function ConfigMemory(c: Config): int {
    (if c.enableFastConversion then 256 * 4 else 0) + (if c.enableFastArithmetic then 4 * PairCount else 0)
  }

  class Float8State {
    const fp: B.Arithmetic
    var conversionTable: array?<bv32>
    var addTable: array?<Float8>
    var subTable: array?<Float8>
    var mulTable: array?<Float8>
    var divTable: array?<Float8>
    var defaultConversionMode: ConversionMode
    var defaultArithmeticMode: ArithmeticMode
    /** The default conversion mode at the time the arithmetic tables were built. */
    ghost var tableMode: ConversionMode

    /**
     * The conversion table, when present, holds the algorithmic decoding of every byte;
     * the four arithmetic tables are present or absent together and, when present, hold
     * the algorithmic result of every pair under `tableMode`.
     */
    ghost predicate Valid()
      reads this, conversionTable, addTable, subTable, mulTable, divTable
    {
      && (conversionTable != null ==> ConversionTableFull(conversionTable))
      && (addTable == null <==> subTable == null)
      && (addTable == null <==> mulTable == null)
      && (addTable == null <==> divTable == null)
      && (addTable != null ==> ArithmeticTablesFull(fp, tableMode, addTable, subTable, mulTable, divTable))
    }

    /** The arithmetic tables, if any, agree with the current default conversion mode. */
    ghost predicate Coherent()
      reads this
    {
      addTable == null || tableMode == defaultConversionMode
    }

    constructor(fp: B.Arithmetic)
      ensures Valid() && Coherent()
      ensures this.fp == fp
      ensures conversionTable == null && addTable == null && subTable == null && mulTable == null && divTable == null
      ensures defaultConversionMode == ModeDefault && defaultArithmeticMode == ArithmeticAuto
    {
      this.fp := fp;
      conversionTable := null;
      addTable := null;
      subTable := null;
      mulTable := null;
      divTable := null;
      defaultConversionMode := ModeDefault;
      defaultArithmeticMode := ArithmeticAuto;
      tableMode := ModeDefault;
    }

    // -------------------------------------------------------------------------
    // Decoding

    /** Decoding reads the table when there is one; either way it is the algorithmic decoding. */
    function ToFloat32(f: Float8): (r: bv32)
      reads this, conversionTable, addTable, subTable, mulTable, divTable
      requires Valid()
      ensures r == ToFloat32Algorithmic(f)
    {
      if conversionTable != null then conversionTable[f as int] else ToFloat32Algorithmic(f)
    }

    /** Builds the conversion table unless it exists already. */
    method EnableFastConversion()
      requires Valid()
      modifies this
      ensures Valid() && conversionTable != null
      ensures old(conversionTable) != null ==> conversionTable == old(conversionTable)
      ensures addTable == old(addTable) && subTable == old(subTable) && mulTable == old(mulTable) && divTable == old(divTable)
      ensures defaultConversionMode == old(defaultConversionMode) && defaultArithmeticMode == old(defaultArithmeticMode)
      ensures tableMode == old(tableMode)
    {
      if conversionTable != null {
        return;
      }
      var t := new bv32[256];
      var i := 0;
      while i < 256
        modifies t
        invariant 0 <= i <= 256
        invariant forall k :: 0 <= k < i ==> t[k] == ToFloat32Algorithmic(k as bv8)
      {
        t[i] := ToFloat32Algorithmic(i as bv8);
        i := i + 1;
      }
      conversionTable := t;
    }

    method DisableFastConversion()
      requires Valid()
      modifies this
      ensures Valid() && conversionTable == null
      ensures addTable == old(addTable) && subTable == old(subTable) && mulTable == old(mulTable) && divTable == old(divTable)
      ensures defaultConversionMode == old(defaultConversionMode) && defaultArithmeticMode == old(defaultArithmeticMode)
      ensures tableMode == old(tableMode)
    {
      conversionTable := null;
    }

    // -------------------------------------------------------------------------
    // Arithmetic tables

    /**
     * Builds the four tables unless the addition table exists already, with the current
     * default conversion mode, which becomes `tableMode`.
     */
    method EnableFastArithmetic()
      requires Valid()
      modifies this
      ensures Valid() && addTable != null
      ensures old(addTable) != null ==>
        && addTable == old(addTable) && subTable == old(subTable) && mulTable == old(mulTable) && divTable == old(divTable)
        && tableMode == old(tableMode)
      ensures old(addTable) == null ==> tableMode == defaultConversionMode
      ensures conversionTable == old(conversionTable)
      ensures defaultConversionMode == old(defaultConversionMode) && defaultArithmeticMode == old(defaultArithmeticMode)
    {
      if addTable != null {
        return;
      }
      var add, sub, mul, div := BuildTables(fp, defaultConversionMode);
      addTable, subTable, mulTable, divTable := add, sub, mul, div;
      tableMode := defaultConversionMode;
    }

    method DisableFastArithmetic()
      requires Valid()
      modifies this
      ensures Valid() && addTable == null && subTable == null && mulTable == null && divTable == null
      ensures conversionTable == old(conversionTable)
      ensures defaultConversionMode == old(defaultConversionMode) && defaultArithmeticMode == old(defaultArithmeticMode)
      ensures tableMode == old(tableMode)
    {
      addTable, subTable, mulTable, divTable := null, null, null, null;
    }

    // -------------------------------------------------------------------------
    // Dispatch

    /** The conversion mode the result of an operation obeys: the table's when the mode
        lets the table be used and the table exists, the current default otherwise. */
    ghost function EffectiveMode(mode: ArithmeticMode): ConversionMode
      reads this
    {
      if (mode == ArithmeticAuto || mode == ArithmeticLookup) && addTable != null then tableMode
      else defaultConversionMode
    }

    function AddWithMode(a: Float8, b: Float8, mode: ArithmeticMode): (r: Float8)
      reads this, conversionTable, addTable, subTable, mulTable, divTable
      requires Valid()
      ensures r == AddAlgorithmic(a, b, fp, EffectiveMode(mode))
    {
      if (mode == ArithmeticAuto || mode == ArithmeticLookup) && addTable != null then
        TableEntry(addTable, a, b)
      else AddAlgorithmic(a, b, fp, defaultConversionMode)
    }

    function SubWithMode(a: Float8, b: Float8, mode: ArithmeticMode): (r: Float8)
      reads this, conversionTable, addTable, subTable, mulTable, divTable
      requires Valid()
      ensures r == SubAlgorithmic(a, b, fp, EffectiveMode(mode))
    {
      if (mode == ArithmeticAuto || mode == ArithmeticLookup) && subTable != null then
        TableEntry(subTable, a, b)
      else SubAlgorithmic(a, b, fp, defaultConversionMode)
    }

    function MulWithMode(a: Float8, b: Float8, mode: ArithmeticMode): (r: Float8)
      reads this, conversionTable, addTable, subTable, mulTable, divTable
      requires Valid()
      ensures r == MulAlgorithmic(a, b, fp, EffectiveMode(mode))
    {
      if (mode == ArithmeticAuto || mode == ArithmeticLookup) && mulTable != null then
        TableEntry(mulTable, a, b)
      else MulAlgorithmic(a, b, fp, defaultConversionMode)
    }

    function DivWithMode(a: Float8, b: Float8, mode: ArithmeticMode): (r: Float8)
      reads this, conversionTable, addTable, subTable, mulTable, divTable
      requires Valid()
      ensures r == DivAlgorithmic(a, b, fp, EffectiveMode(mode))
    {
      if (mode == ArithmeticAuto || mode == ArithmeticLookup) && divTable != null then
        TableEntry(divTable, a, b)
      else DivAlgorithmic(a, b, fp, defaultConversionMode)
    }

    function Add(a: Float8, b: Float8): (r: Float8)
      reads this, conversionTable, addTable, subTable, mulTable, divTable
      requires Valid()
      ensures r == AddAlgorithmic(a, b, fp, EffectiveMode(defaultArithmeticMode))
    {
      AddWithMode(a, b, defaultArithmeticMode)
    }

    function Sub(a: Float8, b: Float8): (r: Float8)
      reads this, conversionTable, addTable, subTable, mulTable, divTable
      requires Valid()
      ensures r == SubAlgorithmic(a, b, fp, EffectiveMode(defaultArithmeticMode))
    {
      SubWithMode(a, b, defaultArithmeticMode)
    }

    function Mul(a: Float8, b: Float8): (r: Float8)
      reads this, conversionTable, addTable, subTable, mulTable, divTable
      requires Valid()
      ensures r == MulAlgorithmic(a, b, fp, EffectiveMode(defaultArithmeticMode))
    {
      MulWithMode(a, b, defaultArithmeticMode)
    }

    function Div(a: Float8, b: Float8): (r: Float8)
      reads this, conversionTable, addTable, subTable, mulTable, divTable
      requires Valid()
      ensures r == DivAlgorithmic(a, b, fp, EffectiveMode(defaultArithmeticMode))
    {
      DivWithMode(a, b, defaultArithmeticMode)
    }

    /** a + t * (b - a), through the dispatching operators. */
    function Lerp(a: Float8, b: Float8, t: Float8): (r: Float8)
      reads this, conversionTable, addTable, subTable, mulTable, divTable
      requires Valid()
      ensures r == MathFunctions.Lerp(a, b, t, fp, EffectiveMode(defaultArithmeticMode))
    {
      var diff := Sub(b, a);
      var scaled := Mul(t, diff);
      Add(a, scaled)
    }

    /** With coherent tables every dispatch mode gives the algorithmic result under the
        current default conversion mode. */
    lemma DispatchIsAlgorithmic(a: Float8, b: Float8, mode: ArithmeticMode)
      requires Valid() && Coherent()
      ensures AddWithMode(a, b, mode) == AddAlgorithmic(a, b, fp, defaultConversionMode)
      ensures SubWithMode(a, b, mode) == SubAlgorithmic(a, b, fp, defaultConversionMode)
      ensures MulWithMode(a, b, mode) == MulAlgorithmic(a, b, fp, defaultConversionMode)
      ensures DivWithMode(a, b, mode) == DivAlgorithmic(a, b, fp, defaultConversionMode)
    {
    }

    // -------------------------------------------------------------------------
    // Configuration

    /** The table memory in use, in bytes. */
    function GetMemoryUsage(): (usage: int)
      reads this, conversionTable, addTable, subTable, mulTable, divTable
      requires Valid()
      ensures usage == 0 || usage == 1024 || usage == 4 * PairCount || usage == 1024 + 4 * PairCount
      ensures usage >= 4 * PairCount <==> addTable != null
      ensures usage % PairCount == 1024 <==> conversionTable != null
    {
      (if conversionTable != null then 256 * 4 else 0)
      + (if addTable != null then PairCount else 0)
      + (if subTable != null then PairCount else 0)
      + (if mulTable != null then PairCount else 0)
      + (if divTable != null then PairCount else 0)
    }

    /**
     * Applies a configuration: tables first (built under the conversion mode in force
     * before the call, and not rebuilt if they exist), then the two default modes.
     */
    method Configure(c: Config)
      requires Valid()
      modifies this
      ensures Valid()
      ensures defaultConversionMode == c.defaultMode && defaultArithmeticMode == c.arithmeticMode
      ensures (conversionTable != null) == c.enableFastConversion
      ensures (addTable != null) == c.enableFastArithmetic
      ensures c.enableFastArithmetic && old(addTable) == null ==> tableMode == old(defaultConversionMode)
      ensures c.enableFastArithmetic && old(addTable) != null ==>
        addTable == old(addTable) && tableMode == old(tableMode)
      ensures GetMemoryUsage() == ConfigMemory(c)
    {
      if c.enableFastArithmetic {
        EnableFastArithmetic();
      } else {
        DisableFastArithmetic();
      }
      if c.enableFastConversion {
        EnableFastConversion();
      } else {
        DisableFastConversion();
      }
      defaultConversionMode := c.defaultMode;
      defaultArithmeticMode := c.arithmeticMode;
    }

    /**
     * Configure with the default mode assigned before the tables are built and with
     * existing arithmetic tables rebuilt: the tables then always agree with the mode.
     */
    method ConfigureCoherent(c: Config)
      requires Valid()
      modifies this
      ensures Valid() && Coherent()
      ensures defaultConversionMode == c.defaultMode && defaultArithmeticMode == c.arithmeticMode
      ensures (conversionTable != null) == c.enableFastConversion
      ensures (addTable != null) == c.enableFastArithmetic
      ensures GetMemoryUsage() == ConfigMemory(c)
    {
      defaultConversionMode := c.defaultMode;
      defaultArithmeticMode := c.arithmeticMode;
      DisableFastArithmetic();
      if c.enableFastArithmetic {
        EnableFastArithmetic();
      }
      if c.enableFastConversion {
        EnableFastConversion();
      } else {
        DisableFastConversion();
      }
    }

    // -------------------------------------------------------------------------
    // Slices

    /** Encodes each binary32 value; a negative zero is mapped to 0x80 directly, which is
        what the encoder gives it anyway. A nil input gives nil. */
    method ToSlice8(f32s: array?<bv32>) returns (r: array?<Float8>)
      requires Valid()
      ensures f32s == null <==> r == null
      ensures r != null ==> fresh(r) && r[..] == EncodeAll(old(f32s[..]), defaultConversionMode)
    {
      if f32s == null {
        return null;
      }
      if f32s.Length == 0 {
        r := new Float8[0];
        return;
      }
      r := new Float8[f32s.Length];
      var i := 0;
      while i < f32s.Length
        invariant 0 <= i <= f32s.Length
        invariant forall k :: 0 <= k < i ==> r[k] == ToFloat8(f32s[k], defaultConversionMode)
      {
        if B.IsZero(f32s[i]) && B.SignBit(f32s[i]) {
          r[i] := NegativeZero;
        } else {
          r[i] := ToFloat8(f32s[i], defaultConversionMode);
        }
        i := i + 1;
      }
      assert r[..] == EncodeAll(f32s[..], defaultConversionMode);
    }

    /** Decodes each byte; nil and empty inputs both give nil. */
    method ToSlice32(f8s: array?<Float8>) returns (r: array?<bv32>)
      requires Valid()
      ensures f8s == null || f8s.Length == 0 <==> r == null
      ensures r != null ==> fresh(r) && r[..] == DecodeAll(old(f8s[..]))
    {
      if f8s == null || f8s.Length == 0 {
        return null;
      }
      r := new bv32[f8s.Length];
      var i := 0;
      while i < f8s.Length
        invariant 0 <= i <= f8s.Length
        invariant forall k :: 0 <= k < i ==> r[k] == ToFloat32Algorithmic(f8s[k])
      {
        r[i] := ToFloat32(f8s[i]);
        i := i + 1;
      }
      assert r[..] == DecodeAll(f8s[..]);
    }

    /** Element-wise Add; mismatched lengths are the panic, modelled as None. */
    method AddSlice(a: array<Float8>, b: array<Float8>) returns (r: Option<array<Float8>>)
      requires Valid()
      ensures a.Length != b.Length <==> r.None?
      ensures r.Some? ==> fresh(r.value) && r.value.Length == a.Length
      ensures r.Some? ==> forall i :: 0 <= i < a.Length ==> r.value[i] == Add(a[i], b[i])
    {
      if a.Length != b.Length {
        return None;
      }
      var result := new Float8[a.Length];
      var i := 0;
      while i < a.Length
        invariant 0 <= i <= a.Length
        invariant forall k :: 0 <= k < i ==> result[k] == Add(a[k], b[k])
      {
        result[i] := Add(a[i], b[i]);
        i := i + 1;
      }
      return Some(result);
    }

    /** Element-wise Mul; mismatched lengths are the panic, modelled as None. */
    method MulSlice(a: array<Float8>, b: array<Float8>) returns (r: Option<array<Float8>>)
      requires Valid()
      ensures a.Length != b.Length <==> r.None?
      ensures r.Some? ==> fresh(r.value) && r.value.Length == a.Length
      ensures r.Some? ==> forall i :: 0 <= i < a.Length ==> r.value[i] == Mul(a[i], b[i])
    {
      if a.Length != b.Length {
        return None;
      }
      var result := new Float8[a.Length];
      var i := 0;
      while i < a.Length
        invariant 0 <= i <= a.Length
        invariant forall k :: 0 <= k < i ==> result[k] == Mul(a[k], b[k])
      {
        result[i] := Mul(a[i], b[i]);
        i := i + 1;
      }
      return Some(result);
    }

    /** Multiplies every element by the scalar, the element on the left. */
    method ScaleSlice(s: array<Float8>, scalar: Float8) returns (r: array<Float8>)
      requires Valid()
      ensures fresh(r) && r.Length == s.Length
      ensures forall i :: 0 <= i < s.Length ==> r[i] == Mul(s[i], scalar)
    {
      r := new Float8[s.Length];
      var i := 0;
      while i < s.Length
        invariant 0 <= i <= s.Length
        invariant forall k :: 0 <= k < i ==> r[k] == Mul(s[k], scalar)
      {
        r[i] := Mul(s[i], scalar);
        i := i + 1;
      }
    }

    /** Adds the elements left to right, starting from +0. */
    method SumSlice(s: array<Float8>) returns (sum: Float8)
      requires Valid()
      ensures sum == Sum(s[..], fp, EffectiveMode(defaultArithmeticMode))
    {
      sum := PositiveZero;
      var i := 0;
      while i < s.Length
        invariant 0 <= i <= s.Length
        invariant sum == Sum(s[..i], fp, EffectiveMode(defaultArithmeticMode))
      {
        assert s[..i + 1] == s[..i] + [s[i]];
        SumAppend(s[..i], s[i], fp, EffectiveMode(defaultArithmeticMode));
        sum := Add(sum, s[i]);
        i := i + 1;
      }
      assert s[..] == s[..s.Length];
    }
  }

  // ---------------------------------------------------------------------------
  // Table contents

  ghost predicate ConversionTableFull(t: array<bv32>)
    reads t
  {
    t.Length == 256 && forall k :: 0 <= k < 256 ==> t[k] == ToFloat32Algorithmic(k as bv8)
  }

  /** Entry (a, b) of a table, as the lookup reads it. */
  function TableEntry(t: array<Float8>, a: Float8, b: Float8): Float8
    reads t
    requires t.Length == PairCount
  {
    t[Index(a as int, b as int)]
  }

  /** The four operations a table can hold. */
  datatype Operation = OpAdd | OpSub | OpMul | OpDiv

  function Apply(op: Operation, a: Float8, b: Float8, fp: B.Arithmetic, mode: ConversionMode): Float8 {
    match op
    case OpAdd => AddAlgorithmic(a, b, fp, mode)
    case OpSub => SubAlgorithmic(a, b, fp, mode)
    case OpMul => MulAlgorithmic(a, b, fp, mode)
    case OpDiv => DivAlgorithmic(a, b, fp, mode)
  }

  /** The pairs before (rows, cols) in row-major order hold the result of op. */
  ghost predicate Filled(t: array<Float8>, op: Operation, fp: B.Arithmetic, mode: ConversionMode, rows: int, cols: int)
    reads t
  {
    t.Length == PairCount &&
    forall i, j :: 0 <= i < 256 && 0 <= j < 256 && (i < rows || (i == rows && j < cols)) ==>
      t[Index(i, j)] == Apply(op, i as bv8, j as bv8, fp, mode)
  }

  ghost predicate ArithmeticTablesFull(fp: B.Arithmetic, mode: ConversionMode,
                                       add: array?<Float8>, sub: array?<Float8>, mul: array?<Float8>, div: array?<Float8>)
    reads add, sub, mul, div
  {
    && add != null && sub != null && mul != null && div != null
    && Filled(add, OpAdd, fp, mode, 256, 0) && Filled(sub, OpSub, fp, mode, 256, 0)
    && Filled(mul, OpMul, fp, mode, 256, 0) && Filled(div, OpDiv, fp, mode, 256, 0)
  }

  /** Every entry looked up in a full table is the algorithmic result. */
  lemma TableLookup(fp: B.Arithmetic, mode: ConversionMode, add: array<Float8>, sub: array<Float8>,
                    mul: array<Float8>, div: array<Float8>, a: Float8, b: Float8)
    requires ArithmeticTablesFull(fp, mode, add, sub, mul, div)
    ensures TableEntry(add, a, b) == AddAlgorithmic(a, b, fp, mode)
    ensures TableEntry(sub, a, b) == SubAlgorithmic(a, b, fp, mode)
    ensures TableEntry(mul, a, b) == MulAlgorithmic(a, b, fp, mode)
    ensures TableEntry(div, a, b) == DivAlgorithmic(a, b, fp, mode)
  {
    assert (a as int) as bv8 == a && (b as int) as bv8 == b;
  }

  /** Stores entry (a, b) of one table. */
  method SetEntry(t: array<Float8>, op: Operation, fp: B.Arithmetic, mode: ConversionMode, a: int, b: int)
    requires 0 <= a < 256 && 0 <= b < 256
    requires Filled(t, op, fp, mode, a, b)
    modifies t
    ensures Filled(t, op, fp, mode, a, b + 1)
  {
    IndexUnique(a, b);
    t[Index(a, b)] := Apply(op, a as bv8, b as bv8, fp, mode);
  }

  /** The nested loop over all pairs that fills the four tables; the inner loop is FillRow. */
  method BuildTables(fp: B.Arithmetic, mode: ConversionMode)
    returns (add: array<Float8>, sub: array<Float8>, mul: array<Float8>, div: array<Float8>)
    ensures fresh(add) && fresh(sub) && fresh(mul) && fresh(div)
    ensures ArithmeticTablesFull(fp, mode, add, sub, mul, div)
  {
    add := new Float8[PairCount];
    sub := new Float8[PairCount];
    mul := new Float8[PairCount];
    div := new Float8[PairCount];
    var a := 0;
    while a < 256
      invariant 0 <= a <= 256
      invariant Filled(add, OpAdd, fp, mode, a, 0) && Filled(sub, OpSub, fp, mode, a, 0)
      invariant Filled(mul, OpMul, fp, mode, a, 0) && Filled(div, OpDiv, fp, mode, a, 0)
    {
      FillRow(add, sub, mul, div, fp, mode, a);
      a := a + 1;
    }
  }

  /** Row a of the four tables: the inner loop over b. */
  method FillRow(add: array<Float8>, sub: array<Float8>, mul: array<Float8>, div: array<Float8>,
                 fp: B.Arithmetic, mode: ConversionMode, a: int)
    requires 0 <= a < 256
    requires add != sub && add != mul && add != div && sub != mul && sub != div && mul != div
    requires Filled(add, OpAdd, fp, mode, a, 0) && Filled(sub, OpSub, fp, mode, a, 0)
    requires Filled(mul, OpMul, fp, mode, a, 0) && Filled(div, OpDiv, fp, mode, a, 0)
    modifies add, sub, mul, div
    ensures Filled(add, OpAdd, fp, mode, a + 1, 0) && Filled(sub, OpSub, fp, mode, a + 1, 0)
    ensures Filled(mul, OpMul, fp, mode, a + 1, 0) && Filled(div, OpDiv, fp, mode, a + 1, 0)
  {
    var b := 0;
    while b < 256
      invariant 0 <= b <= 256
      invariant Filled(add, OpAdd, fp, mode, a, b) && Filled(sub, OpSub, fp, mode, a, b)
      invariant Filled(mul, OpMul, fp, mode, a, b) && Filled(div, OpDiv, fp, mode, a, b)
    {
      SetEntry(add, OpAdd, fp, mode, a, b);
      SetEntry(sub, OpSub, fp, mode, a, b);
      SetEntry(mul, OpMul, fp, mode, a, b);
      SetEntry(div, OpDiv, fp, mode, a, b);
      b := b + 1;
    }
    NextRow(add, OpAdd, fp, mode, a);
    NextRow(sub, OpSub, fp, mode, a);
    NextRow(mul, OpMul, fp, mode, a);
    NextRow(div, OpDiv, fp, mode, a);
  }

  /** A completed row is the start of the next one. */
  lemma NextRow(t: array<Float8>, op: Operation, fp: B.Arithmetic, mode: ConversionMode, a: int)
    requires Filled(t, op, fp, mode, a, 256)
    ensures Filled(t, op, fp, mode, a + 1, 0)
  {
  }

  /** Distinct pairs have distinct positions, and every position is in range. */
  lemma IndexUnique(a: int, b: int)
    requires 0 <= a < 256 && 0 <= b < 256
    ensures 0 <= Index(a, b) < PairCount
    ensures forall i, j :: 0 <= i < 256 && 0 <= j < 256 && (i, j) != (a, b) ==> Index(i, j) != Index(a, b)
  {
  }

  // ---------------------------------------------------------------------------
  // Specifications of the slice conversions

  function EncodeAll(s: seq<bv32>, mode: ConversionMode): (r: seq<Float8>)
    ensures |r| == |s|
    ensures forall i :: 0 <= i < |s| ==> r[i] == ToFloat8(s[i], mode)
  {
    if s == [] then [] else EncodeAll(s[..|s| - 1], mode) + [ToFloat8(s[|s| - 1], mode)]
  }

  function DecodeAll(s: seq<Float8>): (r: seq<bv32>)
    ensures |r| == |s|
    ensures forall i :: 0 <= i < |s| ==> r[i] == ToFloat32Algorithmic(s[i])
  {
    if s == [] then [] else DecodeAll(s[..|s| - 1]) + [ToFloat32Algorithmic(s[|s| - 1])]
  }

  /** Decoding a slice and encoding it back gives the slice, except that each NaN comes
      back as 0x7F, or as 0x00 (the discarded error) in strict mode. */
  lemma SliceRoundTrip(s: seq<Float8>, mode: ConversionMode)
    ensures |EncodeAll(DecodeAll(s), mode)| == |s|
    ensures forall i :: 0 <= i < |s| ==>
      EncodeAll(DecodeAll(s), mode)[i] == if !IsNaN(s[i]) then s[i] else if mode == ModeStrict then PositiveZero else NaN
  {
    forall i | 0 <= i < |s|
      ensures EncodeAll(DecodeAll(s), mode)[i] ==
        if !IsNaN(s[i]) then s[i] else if mode == ModeStrict then PositiveZero else NaN
    {
      RoundTrip(s[i], mode);
    }
  }

  /** The negative-zero special case of ToSlice8 agrees with the encoder. */
  lemma NegativeZeroSpecialCase(x: bv32, mode: ConversionMode)
    requires B.IsZero(x) && B.SignBit(x)
    ensures ToFloat8(x, mode) == NegativeZero
  {
  }

  // ---------------------------------------------------------------------------
  // The stale-table scenario

  /**
   * With a binary32 sum that gives 896 for 448 + 448: configuring from the initial state with
   * the lookup tables on and strict mode builds the tables in default mode, so Add(448, 448)
   * is +Inf from the table while the algorithmic path under the configured strict mode turns
   * the overflow error into 0x00.
   */
  method StaleTableScenario(fp: B.Arithmetic) returns (fromTable: Float8, fromAlgorithm: Float8)
    requires fp.add(0x43E0_0000, 0x43E0_0000) == 0x4460_0000
    ensures fromTable == PositiveInfinity && fromAlgorithm == PositiveZero
  {
    var s := new Float8State(fp);
    s.Configure(Config(true, false, ModeStrict, ArithmeticAuto));
    fromTable := s.Add(MaxValue, MaxValue);
    fromAlgorithm := s.AddWithMode(MaxValue, MaxValue, ArithmeticAlgorithmic);
    assert ToFloat32Algorithmic(MaxValue) == 0x43E0_0000;
    assert ToFloat8WithMode(0x4460_0000, ModeDefault) == Ok(PositiveInfinity);
  }

  /** The same configuration applied coherently gives the strict-mode result from both paths. */
  method CoherentScenario(fp: B.Arithmetic) returns (fromTable: Float8, fromAlgorithm: Float8)
    requires fp.add(0x43E0_0000, 0x43E0_0000) == 0x4460_0000
    ensures fromTable == PositiveZero && fromAlgorithm == PositiveZero
  {
    var s := new Float8State(fp);
    s.ConfigureCoherent(Config(true, false, ModeStrict, ArithmeticAuto));
    fromTable := s.Add(MaxValue, MaxValue);
    fromAlgorithm := s.AddWithMode(MaxValue, MaxValue, ArithmeticAlgorithmic);
    assert ToFloat32Algorithmic(MaxValue) == 0x43E0_0000;
    assert ToFloat8WithMode(0x4460_0000, ModeStrict).Err?;
  }

  // ---------------------------------------------------------------------------
  // Pure members of the package file

  function Zero(): (z: Float8)
    ensures IsZero(z) && !SignBitSet(z) && Sign(z) == 0
  {
    PositiveZero
  }

  /** The byte for 1.0, encoded under the default conversion mode; every mode gives 0x38. */
  function One(mode: ConversionMode): (r: Float8)
    ensures r == 0x38 && ToFloat32Algorithmic(r) == B.One32
    ensures Sign(r) == 1 && IsNormal(r)
  {
    MathFunctions.OneEncodings(mode);
    ToFloat8(B.One32, mode)
  }

  /** Every bit pattern is accepted as valid. */
  function IsValid(f: Float8): bool {
    true
  }

  /** Not a zero and with an exponent field below 15. */
  predicate IsNormal(f: Float8) {
    !IsZero(f) && IsFinite(f)
  }

  /** IsNormal excludes the infinities and NaNs, the unclassified patterns with exponent
      field 15, and both zeros; the 224 other bytes are normal. */
  lemma IsNormalCases(f: Float8)
    ensures IsNormal(f) <==> !IsZero(f) && (f & 0x78) != 0x78
    ensures IsNormal(f) ==> !IsInf(f) && !IsNaN(f) && IsValid(f)
    ensures IsNormal(SmallestPositive) && IsNormal(MaxValue - 8) && !IsNormal(MaxValue)
  {
    FiniteIsExponentBelow15(f);
  }

  /** The default configuration switches both table kinds off, needs no table memory,
      and selects the default conversion mode and automatic arithmetic. */
  lemma DefaultConfigValues()
    ensures !DefaultConfig().enableFastArithmetic && !DefaultConfig().enableFastConversion
    ensures DefaultConfig().defaultMode == ModeDefault && DefaultConfig().arithmeticMode == ArithmeticAuto
    ensures ConfigMemory(DefaultConfig()) == 0
  {
  }
}
