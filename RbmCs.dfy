// The C# CPU-side RBM helper: the quantized sigmoid and softplus lookup
// tables, the .RBM reader, the hidden/visible passes with the per-unit LCG
// sampler, the free energy and visible-vector normalisation.
// Single-precision arithmetic is modelled over the reals; Math.Exp and
// Math.Log are parameters; the bits-to-float reinterpretation is a parameter.

module RbmCs {
  import opened Bytes
  import opened IdxFormat

  // ---------------------------------------------------------------------
  // Lookup tables (class Sigmoid, class LnOnePlusExp)
  // ---------------------------------------------------------------------

  /** Saturation bound shared by both tables: _max. */
  const MAX: real := 15.0
  /** Entries per half table: _count. */
  const COUNT: nat := 2048
  /** (_count - 1) / _max, both in the float and the double version. */
  const SCALE: real := 2047.0 / 15.0
  /** The float literal the softplus table returns at 0, ln 2. */
  const LN2: real := 0.6931471805599453

  /** The index a positive argument below MAX is looked up at: (int)(x * _scale + 0.5f). */
  function TableIndex(x: real): int
  {
    (x * SCALE + 0.5).Floor
  }

  lemma TableIndexInRange(x: real)
    requires 0.0 < x < MAX
    ensures 0 <= TableIndex(x) < COUNT
  {
    assert x * SCALE < 2047.0;
    assert x * SCALE + 0.5 < 2048.0;
  }

  /** The two halves of a table: pos[k] for x = k / scale, neg[k] for x = -k / scale. */
  datatype Table = Table(pos: seq<real>, neg: seq<real>)

  predicate Shaped(t: Table)
  {
    |t.pos| == COUNT && |t.neg| == COUNT
  }

  /** Math.Exp is positive everywhere. */
  ghost predicate PositiveExp(exp: real -> real)
  {
    forall x :: exp(x) > 0.0
  }

  /** 1 / (1 + e^-y). */
  function Logistic(exp: real -> real, y: real): real
    requires PositiveExp(exp)
  {
    assert exp(-y) > 0.0;
    1.0 / (1.0 + exp(-y))
  }

  lemma LogisticRange(exp: real -> real, y: real)
    requires PositiveExp(exp)
    ensures 0.0 < Logistic(exp, y) < 1.0
  {
    assert exp(-y) > 0.0;
  }

  /** ln(1 + e^y). */
  function Softplus(exp: real -> real, ln: real -> real, y: real): real
  {
    ln(1.0 + exp(y))
  }

  /** The static constructor of Sigmoid: pos[k] = 1/(1+e^(-k/s)), neg[k] = 1/(1+e^(k/s)). */
  method BuildSigmoidTable(exp: real -> real) returns (t: Table)
    requires PositiveExp(exp)
    ensures Shaped(t)
    ensures forall k :: 0 <= k < COUNT ==> t.pos[k] == Logistic(exp, k as real / SCALE)
    ensures forall k :: 0 <= k < COUNT ==> t.neg[k] == Logistic(exp, -(k as real) / SCALE)
  {
    var pos: seq<real> := [];
    var neg: seq<real> := [];
    var k := 0;
    while k < COUNT
      invariant 0 <= k <= COUNT
      invariant |pos| == k && |neg| == k
      invariant forall i :: 0 <= i < k ==> pos[i] == Logistic(exp, i as real / SCALE)
      invariant forall i :: 0 <= i < k ==> neg[i] == Logistic(exp, -(i as real) / SCALE)
    {
      var x: real := k as real;
      assert exp(-x / SCALE) > 0.0 && exp(x / SCALE) > 0.0;
      assert -(-x / SCALE) == x / SCALE;
      pos := pos + [1.0 / (1.0 + exp(-x / SCALE))];
      neg := neg + [1.0 / (1.0 + exp(x / SCALE))];
      k := k + 1;
    }
    t := Table(pos, neg);
  }

  /** The static constructor of LnOnePlusExp: pos[k] = ln(1+e^(k/s)), neg[k] = ln(1+e^(-k/s)). */
  method BuildSoftplusTable(exp: real -> real, ln: real -> real) returns (t: Table)
    ensures Shaped(t)
    ensures forall k :: 0 <= k < COUNT ==> t.pos[k] == Softplus(exp, ln, k as real / SCALE)
    ensures forall k :: 0 <= k < COUNT ==> t.neg[k] == Softplus(exp, ln, -(k as real) / SCALE)
  {
    var pos: seq<real> := [];
    var neg: seq<real> := [];
    var k := 0;
    while k < COUNT
      invariant 0 <= k <= COUNT
      invariant |pos| == k && |neg| == k
      invariant forall i :: 0 <= i < k ==> pos[i] == Softplus(exp, ln, i as real / SCALE)
      invariant forall i :: 0 <= i < k ==> neg[i] == Softplus(exp, ln, -(i as real) / SCALE)
    {
      var x: real := k as real;
      pos := pos + [ln(1.0 + exp(x / SCALE))];
      neg := neg + [ln(1.0 + exp(-x / SCALE))];
      k := k + 1;
    }
    t := Table(pos, neg);
  }

  /** Sigmoid.Calc: saturates outside (-15, 15), 0.5 at zero, a table lookup otherwise. */
  function SigmoidCalc(t: Table, x: real): (r: real)
    requires Shaped(t)
    ensures x <= -MAX ==> r == 0.0
    ensures x >= MAX ==> r == 1.0
    ensures x == 0.0 ==> r == 0.5
  {
    if x <= -MAX then 0.0
    else if x >= MAX then 1.0
    else if x > 0.0 then
      TableIndexInRange(x);
      t.pos[TableIndex(x)]
    else if x < 0.0 then
      TableIndexInRange(-x);
      t.neg[TableIndex(-x)]
    else 0.5
  }

  /** LnOnePlusExp.Calc: 0 below -15, the identity above 15, ln 2 at zero, a table lookup otherwise. */
  function SoftplusCalc(t: Table, x: real): (r: real)
    requires Shaped(t)
    ensures x <= -MAX ==> r == 0.0
    ensures x >= MAX ==> r == x
    ensures x == 0.0 ==> r == LN2
  {
    if x <= -MAX then 0.0
    else if x >= MAX then x
    else if x > 0.0 then
      TableIndexInRange(x);
      t.pos[TableIndex(x)]
    else if x < 0.0 then
      TableIndexInRange(-x);
      t.neg[TableIndex(-x)]
    else LN2
  }

  /** Once the table is built from a positive exponential, Sigmoid.Calc is a probability. */
  lemma SigmoidCalcRange(exp: real -> real, t: Table, x: real)
    requires PositiveExp(exp) && Shaped(t)
    requires forall k :: 0 <= k < COUNT ==> t.pos[k] == Logistic(exp, k as real / SCALE)
    requires forall k :: 0 <= k < COUNT ==> t.neg[k] == Logistic(exp, -(k as real) / SCALE)
    ensures 0.0 <= SigmoidCalc(t, x) <= 1.0
  {
    if -MAX < x < 0.0 {
      TableIndexInRange(-x);
      var k := TableIndex(-x);
      LogisticRange(exp, -(k as real) / SCALE);
    } else if 0.0 < x < MAX {
      TableIndexInRange(x);
      var k := TableIndex(x);
      LogisticRange(exp, k as real / SCALE);
    }
  }

  /** With a logarithm that is positive above 1, LnOnePlusExp.Calc never goes negative. */
  lemma SoftplusCalcNonNegative(exp: real -> real, ln: real -> real, t: Table, x: real)
    requires PositiveExp(exp) && Shaped(t)
    requires forall y :: y > 1.0 ==> ln(y) > 0.0
    requires forall k :: 0 <= k < COUNT ==> t.pos[k] == Softplus(exp, ln, k as real / SCALE)
    requires forall k :: 0 <= k < COUNT ==> t.neg[k] == Softplus(exp, ln, -(k as real) / SCALE)
    ensures SoftplusCalc(t, x) >= 0.0
  {
    if -MAX < x < 0.0 {
      TableIndexInRange(-x);
      var y := -(TableIndex(-x) as real) / SCALE;
      assert exp(y) > 0.0;
      assert t.neg[TableIndex(-x)] == ln(1.0 + exp(y));
    } else if 0.0 < x < MAX {
      TableIndexInRange(x);
      var y := TableIndex(x) as real / SCALE;
      assert exp(y) > 0.0;
      assert t.pos[TableIndex(x)] == ln(1.0 + exp(y));
    }
  }

  // ---------------------------------------------------------------------
  // Sums
  // ---------------------------------------------------------------------

  /** a[0]*b[0] + ... + a[n-1]*b[n-1], accumulated left to right as the loops do. */
  function Dot(a: seq<real>, b: seq<real>, n: nat): real
    requires n <= |a| && n <= |b|
  {
    if n == 0 then 0.0 else Dot(a, b, n - 1) + a[n - 1] * b[n - 1]
  }

  /** Column j of a row-major matrix m dotted with b: m[0][j]*b[0] + ... + m[n-1][j]*b[n-1]. */
  function ColumnDot(m: seq<seq<real>>, j: nat, b: seq<real>, n: nat): real
    requires n <= |m| && n <= |b|
    requires forall i :: 0 <= i < n ==> j < |m[i]|
  {
    if n == 0 then 0.0 else ColumnDot(m, j, b, n - 1) + m[n - 1][j] * b[n - 1]
  }

  /** Row j of the transposed matrix dotted with b is column j of the original dotted with b. */
  lemma {:induction false} TransposedDot(vf: seq<seq<real>>, hf: seq<seq<real>>, j: nat, b: seq<real>, n: nat)
    requires j < |vf| && n <= |vf[j]| && n <= |hf| && n <= |b|
    requires forall i :: 0 <= i < n ==> j < |hf[i]| && vf[j][i] == hf[i][j]
    ensures Dot(vf[j], b, n) == ColumnDot(hf, j, b, n)
  {
    if n > 0 {
      TransposedDot(vf, hf, j, b, n - 1);
    }
  }

  /** Sum of the squares (a[i] * b[i])^2: the visible term of the Linear free energy as written. */
  function ProductSquaresAsWritten(a: seq<real>, b: seq<real>, n: nat): real
    requires n <= |a| && n <= |b|
  {
    if n == 0 then 0.0
    else
      var diff := a[n - 1] * b[n - 1];
      ProductSquaresAsWritten(a, b, n - 1) + diff * diff
  }

  /** Sum of the squares (b[i] - a[i])^2: the Gaussian visible term the cited equation intends. */
  function DistanceSquares(a: seq<real>, b: seq<real>, n: nat): real
    requires n <= |a| && n <= |b|
  {
    if n == 0 then 0.0
    else
      var diff := b[n - 1] - a[n - 1];
      DistanceSquares(a, b, n - 1) + diff * diff
  }

  lemma {:induction false} DistanceSquaresNonNegative(a: seq<real>, b: seq<real>, n: nat)
    requires n <= |a| && n <= |b|
    ensures DistanceSquares(a, b, n) >= 0.0
  {
    if n > 0 {
      DistanceSquaresNonNegative(a, b, n - 1);
      var diff := b[n - 1] - a[n - 1];
      assert diff * diff >= 0.0;
    }
  }

  /** The Gaussian term vanishes at the biases, its minimum by DistanceSquaresNonNegative. */
  lemma {:induction false} DistanceSquaresAtBiases(a: seq<real>, n: nat)
    requires n <= |a|
    ensures DistanceSquares(a, a, n) == 0.0
  {
    if n > 0 {
      DistanceSquaresAtBiases(a, n - 1);
      var diff := a[n - 1] - a[n - 1];
      assert diff == 0.0;
      assert diff * diff == 0.0;
    }
  }

  /** As written, the Linear visible term does not vanish at the biases: biases [1] and input [1] give 1. */
  lemma ProductSquaresAtBiases()
    ensures ProductSquaresAsWritten([1.0], [1.0], 1) == 1.0
    ensures DistanceSquares([1.0], [1.0], 1) == 0.0
  {
    assert ProductSquaresAsWritten([1.0], [1.0], 1) == ProductSquaresAsWritten([1.0], [1.0], 0) + (1.0 * 1.0) * (1.0 * 1.0);
    assert DistanceSquares([1.0], [1.0], 1) == DistanceSquares([1.0], [1.0], 0) + (1.0 - 1.0) * (1.0 - 1.0);
  }

  // ---------------------------------------------------------------------
  // The .RBM stream layout read by RBM.Load
  // ---------------------------------------------------------------------

  /** ".RBM" in ASCII. */
  const MAGIC: seq<byte> := [0x2E, 0x52, 0x42, 0x4D]
  /** UnitType.Sigmoid and UnitType.Linear. */
  const SIGMOID: byte := 0x00
  const LINEAR: byte := 0xFF

  predicate HasMagic(s: seq<byte>)
  {
    |s| >= 4 && s[..4] == MAGIC
  }

  /** The two ushort counts, little-endian in the stream whatever the machine. */
  function VisibleCount(s: seq<byte>): nat
    requires |s| >= 9
  {
    Decode(s[5..7], true)
  }

  function HiddenCount(s: seq<byte>): nat
    requires |s| >= 9
  {
    Decode(s[7..9], true)
  }

  /** Means and standard deviations are present only for Linear visible units. */
  function StatsBytes(visibleType: byte, v: nat): nat
  {
    if visibleType == LINEAR then 8 * v else 0
  }

  /** Offset of the visible biases. */
  function BiasesAt(visibleType: byte, v: nat): nat
  {
    9 + StatsBytes(visibleType, v)
  }

  /** Offset of the V rows of H hidden-feature weights. */
  function WeightsAt(visibleType: byte, v: nat, h: nat): nat
  {
    BiasesAt(visibleType, v) + 4 * v + 4 * h
  }

  /** Every ReadUInt8 asserts that the stream has not ended: a magic-carrying stream must hold the whole model. */
  predicate Complete(s: seq<byte>)
  {
    && |s| >= 9
    && var weights := WeightsAt(s[4], VisibleCount(s), HiddenCount(s));
    // the first bound follows from the second; it is stated so that the offsets before the weights need no product
    && weights <= |s|
    && weights + VisibleCount(s) * (4 * HiddenCount(s)) <= |s|
  }

  /** n floats stored little-endian from position pos, each the reinterpretation of its 32-bit pattern. */
  function FloatsAt(s: seq<byte>, pos: nat, n: nat, float: nat -> real): (r: seq<real>)
    requires pos + 4 * n <= |s|
    ensures |r| == n
  {
    if n == 0 then [] else FloatsAt(s, pos, n - 1, float) + [float(Decode(s[pos + 4 * (n - 1) .. pos + 4 * n], true))]
  }

  /** RBM.ReadSingle: count floats, each assembled in the machine's order from four little-endian stream bytes. */
  method ReadSingles(s: seq<byte>, pos: nat, n: nat, float: nat -> real, systemLittle: bool) returns (vals: seq<real>)
    requires pos + 4 * n <= |s|
    ensures vals == FloatsAt(s, pos, n, float)
  {
    vals := [];
    var k := 0;
    while k < n
      invariant 0 <= k <= n
      invariant vals == FloatsAt(s, pos, k, float)
    {
      var chunk := s[pos + 4 * k .. pos + 4 * k + 4];
      vals := vals + [float(CellValue(chunk, true, systemLittle))];
      k := k + 1;
    }
  }

  /** Entry k of a float run is read from its own four bytes. */
  lemma {:induction false} FloatsAtIndex(s: seq<byte>, pos: nat, n: nat, float: nat -> real, k: nat)
    requires pos + 4 * n <= |s| && k < n
    ensures FloatsAt(s, pos, n, float)[k] == float(Decode(s[pos + 4 * k .. pos + 4 * k + 4], true))
  {
    if k < n - 1 {
      FloatsAtIndex(s, pos, n - 1, float, k);
    }
  }

  /** The row-major transposition loop of Load: vf[j][i] = hf[i][j]. */
  method Transpose(hf: seq<seq<real>>, v: nat, h: nat) returns (vf: seq<seq<real>>)
    requires |hf| == v
    requires forall i :: 0 <= i < v ==> |hf[i]| == h
    ensures |vf| == h
    ensures forall j :: 0 <= j < h ==> |vf[j]| == v
    ensures forall i, j :: 0 <= i < v && 0 <= j < h ==> vf[j][i] == hf[i][j]
  {
    vf := [];
    var j := 0;
    while j < h
      invariant 0 <= j <= h
      invariant |vf| == j
      invariant forall j' :: 0 <= j' < j ==> |vf[j']| == v
      invariant forall i, j' :: 0 <= i < v && 0 <= j' < j ==> vf[j'][i] == hf[i][j']
    {
      var row: seq<real> := [];
      var i := 0;
      while i < v
        invariant 0 <= i <= v
        invariant |row| == i
        invariant forall i' :: 0 <= i' < i ==> row[i'] == hf[i'][j]
      {
        row := row + [hf[i][j]];
        i := i + 1;
      }
      vf := vf + [row];
      j := j + 1;
    }
  }

  /** The weights loop of Load: V rows of H floats, one row after another. */
  method ReadRows(s: seq<byte>, pos: nat, v: nat, h: nat, float: nat -> real, systemLittle: bool)
    returns (rows: seq<seq<real>>)
    requires pos + v * (4 * h) <= |s|
    ensures RowsAt(s, pos, v, h, float, rows)
    ensures forall i :: 0 <= i < v ==> |rows[i]| == h
  {
    rows := [];
    var i := 0;
    var at := pos;
    while i < v
      invariant 0 <= i <= v
      invariant at == RowOffset(pos, 4 * h, i)
      invariant |rows| == i
      invariant forall i' :: 0 <= i' < i ==> RowOffset(pos, 4 * h, i') + 4 * h <= |s| && rows[i'] == FloatsAt(s, RowOffset(pos, 4 * h, i'), h, float)
    {
      RowInside(pos, 4 * h, v, i);
      RowOffsetStep(pos, 4 * h, i);
      var row := ReadSingles(s, at, h, float, systemLittle);
      rows := rows + [row];
      at := at + 4 * h;
      i := i + 1;
    }
  }

  /** rows holds the v runs of h floats stored one after another from pos. */
  predicate RowsAt(s: seq<byte>, pos: nat, v: nat, h: nat, float: nat -> real, rows: seq<seq<real>>)
  {
    && |rows| == v
    && forall i :: 0 <= i < v ==>
         && RowOffset(pos, 4 * h, i) + 4 * h <= |s|
         && rows[i] == FloatsAt(s, RowOffset(pos, 4 * h, i), h, float)
  }

  /**
   * The values Load takes from a complete stream: the unit type, the two
   * counts, the means and standard deviations (Linear units only), the
   * biases and the V rows of H weights, in that order.
   */
  predicate LoadedFrom(s: seq<byte>, float: nat -> real, t: byte, v: nat, h: nat, means: seq<real>, stddevs: seq<real>,
                       vb: seq<real>, hb: seq<real>, hf: seq<seq<real>>)
    requires HasMagic(s) && Complete(s)
  {
    && t == s[4] && v == VisibleCount(s) && h == HiddenCount(s)
    && v < 0x1_0000 && h < 0x1_0000
    && (t == LINEAR ==> means == FloatsAt(s, 9, v, float) && stddevs == FloatsAt(s, 9 + 4 * v, v, float))
    && (t != LINEAR ==> means == [] && stddevs == [])
    && vb == FloatsAt(s, BiasesAt(t, v), v, float)
    && hb == FloatsAt(s, BiasesAt(t, v) + 4 * v, h, float)
    && RowsAt(s, WeightsAt(t, v, h), v, h, float, hf)
    && (forall i :: 0 <= i < v ==> |hf[i]| == h)
  }

  lemma RowOffsetStep(base: nat, rowBytes: nat, i: nat)
    ensures RowOffset(base, rowBytes, i + 1) == RowOffset(base, rowBytes, i) + rowBytes
  {
    assert rowBytes * (i + 1) == rowBytes * i + rowBytes;
  }

  /** The reads of Load after the magic: unit type, counts, Linear-only statistics, biases and weights. */
  method ReadBody(s: seq<byte>, float: nat -> real, systemLittle: bool)
    returns (t: byte, v: nat, h: nat, means: seq<real>, stddevs: seq<real>,
             vb: seq<real>, hb: seq<real>, hf: seq<seq<real>>)
    requires HasMagic(s) && Complete(s)
    ensures LoadedFrom(s, float, t, v, h, means, stddevs, vb, hb, hf)
  {
    t := s[4];
    v := CellValue(s[5..7], true, systemLittle);
    h := CellValue(s[7..9], true, systemLittle);
    DecodeBound(s[5..7]);
    DecodeBound(s[7..9]);
    means, stddevs, vb, hb, hf := ReadArrays(s, t, v, h, float, systemLittle);
  }

  /** The float reads of Load after the header: the statistics for Linear units, both biases and the weights. */
  method ReadArrays(s: seq<byte>, t: byte, v: nat, h: nat, float: nat -> real, systemLittle: bool)
    returns (means: seq<real>, stddevs: seq<real>, vb: seq<real>, hb: seq<real>, hf: seq<seq<real>>)
    requires WeightsAt(t, v, h) <= |s| && WeightsAt(t, v, h) + v * (4 * h) <= |s|
    ensures t == LINEAR ==> means == FloatsAt(s, 9, v, float) && stddevs == FloatsAt(s, 9 + 4 * v, v, float)
    ensures t != LINEAR ==> means == [] && stddevs == []
    ensures vb == FloatsAt(s, BiasesAt(t, v), v, float)
    ensures hb == FloatsAt(s, BiasesAt(t, v) + 4 * v, h, float)
    ensures RowsAt(s, WeightsAt(t, v, h), v, h, float, hf)
    ensures forall i :: 0 <= i < v ==> |hf[i]| == h
  {
    means, stddevs := [], [];
    if t == LINEAR {
      means, stddevs := ReadStats(s, v, float, systemLittle);
    }
    var at := BiasesAt(t, v);
    vb := ReadSingles(s, at, v, float, systemLittle);
    hb := ReadSingles(s, at + 4 * v, h, float, systemLittle);
    hf := ReadRows(s, WeightsAt(t, v, h), v, h, float, systemLittle);
  }

  /** The Linear-only reads of Load: V means, then V standard deviations. */
  method ReadStats(s: seq<byte>, v: nat, float: nat -> real, systemLittle: bool) returns (means: seq<real>, stddevs: seq<real>)
    requires 9 + 8 * v <= |s|
    ensures means == FloatsAt(s, 9, v, float) && stddevs == FloatsAt(s, 9 + 4 * v, v, float)
  {
    means := ReadSingles(s, 9, v, float, systemLittle);
    stddevs := ReadSingles(s, 9 + 4 * v, v, float, systemLittle);
  }

  /** The Numerical Recipes LCG step on a uint seed: seed * 1664525 + 1013904223, wrapping. */
  function LcgStep(seed: u32): u32
  {
    Wrap32(seed * 1664525 + 1013904223)
  }

  /** The multiplicative inverse of 1664525 modulo 2^32. */
  const LCG_INVERSE: nat := 4276115653

  function LcgBack(seed: u32): u32
  {
    Wrap32((seed - 1013904223) * LCG_INVERSE)
  }

  /** The LCG step is a bijection on seeds: stepping back undoes it, so distinct seeds stay distinct. */
  lemma LcgStepInvertible(seed: u32)
    ensures LcgBack(LcgStep(seed)) == seed
  {
    var q := (seed * 1664525 + 1013904223) / TWO32;
    assert LcgStep(seed) - 1013904223 == seed * 1664525 - q * TWO32;
    assert 1664525 * LCG_INVERSE == 1 + 1657219 * TWO32;
    var t := seed * 1657219 - q * LCG_INVERSE;
    assert (LcgStep(seed) - 1013904223) * LCG_INVERSE == seed + t * TWO32;
    ModMultiple(seed, t);
  }

  lemma ModMultiple(x: int, t: int)
    requires 0 <= x < TWO32
    ensures (x + t * TWO32) % TWO32 == x
  {
  }

  /** The bit pattern of one hidden state: 1 when the advanced seed falls below p * uint.MaxValue. */
  function State(seed: u32, p: real): real
  {
    if (seed as real) < p * (U32_MAX as real) then 1.0 else 0.0
  }

  // ---------------------------------------------------------------------
  // class RBM
  // ---------------------------------------------------------------------

  class Rbm {
    var visible: nat
    var hidden: nat
    var visibleType: byte
    var means: seq<real>
    var stddevs: seq<real>
    var visibleBiases: seq<real>
    var hiddenBiases: seq<real>
    /** V rows of H weights, as stored. */
    var hiddenFeatures: seq<seq<real>>
    /** H rows of V weights: the transpose Load builds. */
    var visibleFeatures: seq<seq<real>>
    /** One LCG seed per hidden unit. */
    var random: seq<u32>

    ghost predicate Valid()
      reads this
    {
      && visible < 0x1_0000 && hidden < 0x1_0000
      && |visibleBiases| == visible && |hiddenBiases| == hidden
      && |hiddenFeatures| == visible && |visibleFeatures| == hidden && |random| == hidden
      && (forall i :: 0 <= i < visible ==> |hiddenFeatures[i]| == hidden)
      && (forall j :: 0 <= j < hidden ==> |visibleFeatures[j]| == visible)
      && (forall i, j :: 0 <= i < visible && 0 <= j < hidden ==> visibleFeatures[j][i] == hiddenFeatures[i][j])
      && (visibleType == LINEAR ==> |means| == visible && |stddevs| == visible)
    }

    constructor Init(visibleType: byte, visible: nat, hidden: nat, means: seq<real>, stddevs: seq<real>,
                     visibleBiases: seq<real>, hiddenBiases: seq<real>,
                     hiddenFeatures: seq<seq<real>>, visibleFeatures: seq<seq<real>>, random: seq<u32>)
      ensures this.visibleType == visibleType && this.visible == visible && this.hidden == hidden
      ensures this.means == means && this.stddevs == stddevs
      ensures this.visibleBiases == visibleBiases && this.hiddenBiases == hiddenBiases
      ensures this.hiddenFeatures == hiddenFeatures && this.visibleFeatures == visibleFeatures
      ensures this.random == random
    {
      this.visibleType := visibleType;
      this.visible := visible;
      this.hidden := hidden;
      this.means := means;
      this.stddevs := stddevs;
      this.visibleBiases := visibleBiases;
      this.hiddenBiases := hiddenBiases;
      this.hiddenFeatures := hiddenFeatures;
      this.visibleFeatures := visibleFeatures;
      this.random := random;
    }

    /** Hidden unit j's input: its bias plus row j of the transposed weights dotted with the visible vector. */
    function HiddenActivation(j: nat, vs: seq<real>): real
      reads this
      requires Valid() && j < hidden && |vs| >= visible
    {
      hiddenBiases[j] + Dot(visibleFeatures[j], vs, visible)
    }

    /** Visible unit i's input: its bias plus row i of the stored weights dotted with the hidden vector. */
    function VisibleActivation(i: nat, hs: seq<real>): real
      reads this
      requires Valid() && i < visible && |hs| >= hidden
    {
      visibleBiases[i] + Dot(hiddenFeatures[i], hs, hidden)
    }

    /** The hidden term common to both free energies: the sum of LnOnePlusExp over the hidden inputs. */
    function SoftplusSum(soft: Table, vs: seq<real>, n: nat): real
      reads this
      requires Valid() && Shaped(soft) && |vs| >= visible && n <= hidden
    {
      if n == 0 then 0.0 else SoftplusSum(soft, vs, n - 1) + SoftplusCalc(soft, HiddenActivation(n - 1, vs))
    }

    /** Free energy with the Gaussian visible term (v_i - b_i)^2 / 2 for Linear units. */
    function FreeEnergy(soft: Table, vs: seq<real>): real
      reads this
      requires Valid() && Shaped(soft) && |vs| >= visible
    {
      if visibleType == SIGMOID then -Dot(visibleBiases, vs, visible) - SoftplusSum(soft, vs, hidden)
      else if visibleType == LINEAR then 0.5 * DistanceSquares(visibleBiases, vs, visible) - SoftplusSum(soft, vs, hidden)
      else 0.0
    }

    /** Free energy as CalcFreeEnergy computes it: for Linear units the squared term is (b_i * v_i)^2. */
    function FreeEnergyAsWritten(soft: Table, vs: seq<real>): real
      reads this
      requires Valid() && Shaped(soft) && |vs| >= visible
    {
      if visibleType == LINEAR then 0.5 * ProductSquaresAsWritten(visibleBiases, vs, visible) - SoftplusSum(soft, vs, hidden)
      else FreeEnergy(soft, vs)
    }

    /**
     * RBM.Load: null unless the stream starts with ".RBM"; then the unit type,
     * the two counts, the Linear-only means and standard deviations, the biases,
     * the V x H weights, their transpose and one seed per hidden unit (the j-th
     * value drawn from System.Random).
     */
    static method Load(s: seq<byte>, float: nat -> real, draw: nat -> u32, systemLittle: bool) returns (r: Rbm?)
      requires |s| >= 4
      requires HasMagic(s) ==> Complete(s)
      ensures r == null <==> !HasMagic(s)
      ensures r != null ==> fresh(r) && r.Valid()
      ensures r != null ==>
                && HasMagic(s) && Complete(s)
                && LoadedFrom(s, float, r.visibleType, r.visible, r.hidden, r.means, r.stddevs,
                              r.visibleBiases, r.hiddenBiases, r.hiddenFeatures)
                && (forall j :: 0 <= j < r.hidden ==> r.random[j] == draw(j))
    {
      if s[..4] != MAGIC {
        r := null;
        return;
      }
      var t, v, h, means, stddevs, vb, hb, hf := ReadBody(s, float, systemLittle);
      var vf := Transpose(hf, v, h);
      var seeds: seq<u32> := [];
      var j := 0;
      while j < h
        invariant 0 <= j <= h
        invariant |seeds| == j
        invariant forall j' :: 0 <= j' < j ==> seeds[j'] == draw(j')
      {
        seeds := seeds + [draw(j)];
        j := j + 1;
      }
      r := new Rbm.Init(t, v, h, means, stddevs, vb, hb, hf, vf, seeds);
    }

    /** CalcHiddenActivations: h[j] = hidden bias j + sum_i visible_features[j][i] * v[i]; the lengths are asserted. */
    method CalcHiddenActivations(v: array<real>, h: array<real>)
      requires Valid() && v.Length == visible && h.Length == hidden && v != h
      modifies h
      ensures forall j :: 0 <= j < hidden ==> h[j] == HiddenActivation(j, v[..])
    {
      var j := 0;
      while j < hidden
        invariant 0 <= j <= hidden
        invariant forall j' :: 0 <= j' < j ==> h[j'] == HiddenActivation(j', v[..])
      {
        var x := Activate(v, j);
        h[j] := x;
        j := j + 1;
      }
    }

    /** The inner accumulation loop shared by the hidden passes and by CalcFreeEnergy. */
    method Activate(v: array<real>, j: nat) returns (x: real)
      requires Valid() && v.Length >= visible && j < hidden
      ensures x == HiddenActivation(j, v[..])
    {
      x := hiddenBiases[j];
      var i := 0;
      while i < visible
        invariant 0 <= i <= visible
        invariant x == hiddenBiases[j] + Dot(visibleFeatures[j], v[..], i)
      {
        x := x + visibleFeatures[j][i] * v[i];
        i := i + 1;
      }
    }

    /** CalcHiddenProbabilities: the sigmoid of each hidden input. */
    method CalcHiddenProbabilities(sig: Table, v: array<real>, h: array<real>)
      requires Valid() && Shaped(sig) && v.Length >= visible && h.Length >= hidden && v != h
      modifies h
      ensures forall j :: 0 <= j < hidden ==> h[j] == SigmoidCalc(sig, HiddenActivation(j, v[..]))
      ensures forall j :: hidden <= j < h.Length ==> h[j] == old(h[j])
    {
      var j := 0;
      while j < hidden
        invariant 0 <= j <= hidden
        invariant forall j' :: 0 <= j' < j ==> h[j'] == SigmoidCalc(sig, HiddenActivation(j', v[..]))
        invariant forall j' :: hidden <= j' < h.Length ==> h[j'] == old(h[j'])
      {
        var x := Activate(v, j);
        h[j] := SigmoidCalc(sig, x);
        j := j + 1;
      }
    }

    /**
     * CalcHiddenStates: each hidden unit's seed takes one LCG step, and the unit
     * is 1 exactly when the new seed lies below its probability times uint.MaxValue.
     */
    method CalcHiddenStates(sig: Table, v: array<real>, h: array<real>)
      requires Valid() && Shaped(sig) && v.Length >= visible && h.Length >= hidden && v != h
      modifies this`random, h
      ensures Valid() && |random| == hidden
      ensures forall j :: 0 <= j < hidden ==> random[j] == LcgStep(old(random[j]))
      ensures forall j :: 0 <= j < hidden ==> h[j] == State(random[j], SigmoidCalc(sig, HiddenActivation(j, v[..])))
      ensures forall j :: 0 <= j < hidden ==> h[j] == 0.0 || h[j] == 1.0
      ensures forall j :: hidden <= j < h.Length ==> h[j] == old(h[j])
    {
      var seeds := random;
      var j := 0;
      while j < hidden
        modifies h
        invariant 0 <= j <= hidden && |seeds| == hidden
        invariant forall j' :: 0 <= j' < j ==> seeds[j'] == LcgStep(random[j'])
        invariant forall j' :: j <= j' < hidden ==> seeds[j'] == random[j']
        invariant forall j' :: 0 <= j' < j ==> h[j'] == State(seeds[j'], SigmoidCalc(sig, HiddenActivation(j', v[..])))
        invariant forall j' :: hidden <= j' < h.Length ==> h[j'] == old(h[j'])
      {
        var x := Activate(v, j);
        var p := SigmoidCalc(sig, x);
        seeds := seeds[j := LcgStep(seeds[j])];
        h[j] := if (seeds[j] as real) < p * (U32_MAX as real) then 1.0 else 0.0;
        j := j + 1;
      }
      random := seeds;
    }

    /** CalcVisible: each visible input, passed through the sigmoid only for Sigmoid visible units. */
    method CalcVisible(sig: Table, h: array<real>, v: array<real>)
      requires Valid() && Shaped(sig) && h.Length >= hidden && v.Length >= visible && v != h
      modifies v
      ensures forall i :: 0 <= i < visible ==>
                v[i] == (if visibleType == SIGMOID then SigmoidCalc(sig, VisibleActivation(i, h[..])) else VisibleActivation(i, h[..]))
      ensures forall i :: visible <= i < v.Length ==> v[i] == old(v[i])
    {
      var i := 0;
      while i < visible
        invariant 0 <= i <= visible
        invariant forall i' :: 0 <= i' < i ==> v[i'] == VisibleActivation(i', h[..])
        invariant forall i' :: visible <= i' < v.Length ==> v[i'] == old(v[i'])
      {
        var x := visibleBiases[i];
        var j := 0;
        while j < hidden
          invariant 0 <= j <= hidden
          invariant x == visibleBiases[i] + Dot(hiddenFeatures[i], h[..], j)
        {
          x := x + hiddenFeatures[i][j] * h[j];
          j := j + 1;
        }
        v[i] := x;
        i := i + 1;
      }
      if visibleType == SIGMOID {
        i := 0;
        while i < visible
          invariant 0 <= i <= visible
          invariant forall i' :: 0 <= i' < i ==> v[i'] == SigmoidCalc(sig, VisibleActivation(i', h[..]))
          invariant forall i' :: i <= i' < visible ==> v[i'] == VisibleActivation(i', h[..])
          invariant forall i' :: visible <= i' < v.Length ==> v[i'] == old(v[i'])
        {
          v[i] := SigmoidCalc(sig, v[i]);
          i := i + 1;
        }
      }
    }

    /** The hidden loop of CalcFreeEnergy: subtract LnOnePlusExp of each hidden input. */
    method SubtractSoftplus(soft: Table, v: array<real>, f: real) returns (g: real)
      requires Valid() && Shaped(soft) && v.Length >= visible
      ensures g == f - SoftplusSum(soft, v[..], hidden)
    {
      g := f;
      var j := 0;
      while j < hidden
        invariant 0 <= j <= hidden
        invariant g == f - SoftplusSum(soft, v[..], j)
      {
        var x := Activate(v, j);
        g := g - SoftplusCalc(soft, x);
        j := j + 1;
      }
    }

    /** CalcFreeEnergy as written: for Linear units it squares b_i * v_i. */
    method CalcFreeEnergyAsWritten(soft: Table, v: array<real>) returns (f: real)
      requires Valid() && Shaped(soft) && v.Length >= visible
      ensures f == FreeEnergyAsWritten(soft, v[..])
    {
      f := 0.0;
      if visibleType == SIGMOID {
        var i := 0;
        while i < visible
          invariant 0 <= i <= visible
          invariant f == -Dot(visibleBiases, v[..], i)
        {
          f := f - visibleBiases[i] * v[i];
          i := i + 1;
        }
        f := SubtractSoftplus(soft, v, f);
      } else if visibleType == LINEAR {
        var i := 0;
        while i < visible
          invariant 0 <= i <= visible
          invariant f == ProductSquaresAsWritten(visibleBiases, v[..], i)
        {
          var diff := visibleBiases[i] * v[i];
          f := f + diff * diff;
          i := i + 1;
        }
        f := f * 0.5;
        f := SubtractSoftplus(soft, v, f);
      }
    }

    /** CalcFreeEnergy with the Gaussian term (v_i - b_i)^2 for Linear units. */
    method CalcFreeEnergy(soft: Table, v: array<real>) returns (f: real)
      requires Valid() && Shaped(soft) && v.Length >= visible
      ensures f == FreeEnergy(soft, v[..])
    {
      f := 0.0;
      if visibleType == SIGMOID {
        var i := 0;
        while i < visible
          invariant 0 <= i <= visible
          invariant f == -Dot(visibleBiases, v[..], i)
        {
          f := f - visibleBiases[i] * v[i];
          i := i + 1;
        }
        f := SubtractSoftplus(soft, v, f);
      } else if visibleType == LINEAR {
        var i := 0;
        while i < visible
          invariant 0 <= i <= visible
          invariant f == DistanceSquares(visibleBiases, v[..], i)
        {
          var diff := v[i] - visibleBiases[i];
          f := f + diff * diff;
          i := i + 1;
        }
        f := f * 0.5;
        f := SubtractSoftplus(soft, v, f);
      }
    }

    /** NormalizeVisibleVector: v[i] = (v[i] - mean[i]) / stddev[i] for the first V entries. */
    method NormalizeVisibleVector(v: array<real>)
      requires Valid() && visibleType == LINEAR && v.Length >= visible
      requires forall i :: 0 <= i < visible ==> stddevs[i] != 0.0
      modifies v
      ensures forall i :: 0 <= i < visible ==> v[i] == (old(v[i]) - means[i]) / stddevs[i]
      ensures forall i :: visible <= i < v.Length ==> v[i] == old(v[i])
    {
      var i := 0;
      while i < visible
        invariant 0 <= i <= visible
        invariant forall i' :: 0 <= i' < i ==> v[i'] == (old(v[i']) - means[i']) / stddevs[i']
        invariant forall i' :: i <= i' < v.Length ==> v[i'] == old(v[i'])
      {
        v[i] := (v[i] - means[i]) / stddevs[i];
        i := i + 1;
      }
    }
  }

  /** By the transposition Load establishes, hidden unit j's input is column j of the stored V x H weights. */
  lemma HiddenActivationByColumn(r: Rbm, j: nat, vs: seq<real>)
    requires r.Valid() && j < r.hidden && |vs| >= r.visible
    ensures r.HiddenActivation(j, vs) == r.hiddenBiases[j] + ColumnDot(r.hiddenFeatures, j, vs, r.visible)
  {
    TransposedDot(r.visibleFeatures, r.hiddenFeatures, j, vs, r.visible);
  }

  /** A normalised entry scales back to the input: x = n * stddev + mean. */
  lemma NormalizeInverts(x: real, mean: real, sd: real)
    requires sd != 0.0
    ensures ((x - mean) / sd) * sd + mean == x
  {
  }

  lemma DecodeBound(b: seq<byte>)
    requires |b| == 2
    ensures Decode(b, true) < 0x1_0000
  {
    assert Pow256(2) == 0x1_0000;
  }
}
