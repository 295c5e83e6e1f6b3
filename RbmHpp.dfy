// The header-only C++ RBM container: a visible and a hidden count, two bias
// arrays and a row-major V x H weight array, saved to and loaded from the
// binary .RBM layout with raw fwrite/fread of machine-order values.
// Each float is carried as its 32-bit pattern: the container copies bits and
// never computes with them.

module RbmHpp {
  import opened Bytes
  import opened Wrappers
  import opened IdxFormat

  /** ".RBM" in ASCII. */
  const MAGIC: seq<byte> := [0x2E, 0x52, 0x42, 0x4D]

  /** The contents of an RBM, as a value. */
  datatype RbmData = RbmData(visible: nat, hidden: nat, visibleBiases: seq<u32>, hiddenBiases: seq<u32>, weights: seq<u32>)

  /** What the constructor asserts and allocates: both counts non-zero uint16 values, arrays of V, H and V*H floats. */
  predicate WellFormed(d: RbmData)
  {
    && 0 < d.visible < 0x1_0000 && 0 < d.hidden < 0x1_0000
    && |d.visibleBiases| == d.visible && |d.hiddenBiases| == d.hidden
    && |d.weights| == WeightCount(d.visible, d.hidden)
  }

  /** Offsets of the three float runs. */
  function HiddenBiasesAt(v: nat): nat { 8 + 4 * v }
  function WeightsAt(v: nat, h: nat): nat { 8 + 4 * v + 4 * h }
  /** hidden_count * visible_count, the length of the weight run. */
  function WeightCount(v: nat, h: nat): nat { h * v }
  function ImageSize(v: nat, h: nat): nat { WeightsAt(v, h) + 4 * WeightCount(v, h) }

  /** The file Save writes: ".RBM", V, H, the visible biases, the hidden biases, the weights, all in machine order. */
  function Image(d: RbmData, little: bool): (r: seq<byte>)
    ensures |r| == 8 + 4 * |d.visibleBiases| + 4 * |d.hiddenBiases| + 4 * |d.weights|
  {
    MAGIC + Encode(d.visible, 2, little) + Encode(d.hidden, 2, little)
    + EncodeCells(d.visibleBiases, 4, little) + EncodeCells(d.hiddenBiases, 4, little) + EncodeCells(d.weights, 4, little)
  }

  predicate HasMagic(s: seq<byte>)
  {
    |s| >= 4 && s[..4] == MAGIC
  }

  /** The two counts Load reads after the magic. */
  function VisibleCount(s: seq<byte>, little: bool): nat
    requires |s| >= 8
  {
    Decode(s[4..6], little)
  }

  function HiddenCount(s: seq<byte>, little: bool): nat
    requires |s| >= 8
  {
    Decode(s[6..8], little)
  }

  /**
   * What Load demands of a stream that carries the magic: the constructor's
   * asserts on the counts, and every value it freads present.
   */
  predicate Loadable(s: seq<byte>, little: bool)
  {
    && |s| >= 8
    && 0 < VisibleCount(s, little) && 0 < HiddenCount(s, little)
    && WeightsAt(VisibleCount(s, little), HiddenCount(s, little)) <= |s|
    && ImageSize(VisibleCount(s, little), HiddenCount(s, little)) <= |s|
  }

  /** RBM::Load on the bytes of an opened file: NULL on a bad magic, otherwise the counts and the three float runs. */
  function Parse(s: seq<byte>, little: bool): (r: Option<RbmData>)
    requires |s| >= 4 && (HasMagic(s) ==> Loadable(s, little))
    ensures r.None? <==> !HasMagic(s)
  {
    if !HasMagic(s) then None
    else
      var v := VisibleCount(s, little);
      var h := HiddenCount(s, little);
      Some(RbmData(v, h,
                   Patterns(s[8 .. HiddenBiasesAt(v)], v, little),
                   Patterns(s[HiddenBiasesAt(v) .. WeightsAt(v, h)], h, little),
                   Patterns(s[WeightsAt(v, h) .. ImageSize(v, h)], WeightCount(v, h), little)))
  }

  /** n 32-bit patterns stored as consecutive 4-byte images. */
  function Patterns(b: seq<byte>, n: nat, little: bool): (r: seq<u32>)
    requires |b| == 4 * n
    ensures r == DecodeCells(b, 4, n, little)
  {
    assert Pow256(4) == TWO32;
    DecodeCells(b, 4, n, little)
  }

  /** A bad magic loads as NULL whatever follows. */
  lemma ParseRejectsBadMagic(s: seq<byte>, little: bool)
    requires |s| >= 4 && s[..4] != MAGIC
    ensures Parse(s, little) == None
  {
  }

  /** Where each field lies in the saved image. */
  lemma ImageFields(d: RbmData, little: bool)
    requires WellFormed(d)
    ensures |Image(d, little)| == ImageSize(d.visible, d.hidden)
    ensures Image(d, little)[..4] == MAGIC
    ensures Image(d, little)[4..6] == Encode(d.visible, 2, little)
    ensures Image(d, little)[6..8] == Encode(d.hidden, 2, little)
    ensures Image(d, little)[8 .. HiddenBiasesAt(d.visible)] == EncodeCells(d.visibleBiases, 4, little)
    ensures Image(d, little)[HiddenBiasesAt(d.visible) .. WeightsAt(d.visible, d.hidden)] == EncodeCells(d.hiddenBiases, 4, little)
    ensures Image(d, little)[WeightsAt(d.visible, d.hidden) ..] == EncodeCells(d.weights, 4, little)
  {
    var a := MAGIC + Encode(d.visible, 2, little) + Encode(d.hidden, 2, little);
    var b := EncodeCells(d.visibleBiases, 4, little);
    var c := EncodeCells(d.hiddenBiases, 4, little);
    var w := EncodeCells(d.weights, 4, little);
    assert Image(d, little) == a + b + c + w;
    assert |a| == 8 && |b| == 4 * d.visible && |c| == 4 * d.hidden;
    assert a[..4] == MAGIC && a[4..6] == Encode(d.visible, 2, little) && a[6..8] == Encode(d.hidden, 2, little);
    Quarters(a, b, c, w);
  }

  /** The four parts of a concatenation sit at their running offsets. */
  lemma Quarters(a: seq<byte>, b: seq<byte>, c: seq<byte>, w: seq<byte>)
    ensures (a + b + c + w)[..|a|] == a
    ensures (a + b + c + w)[|a| .. |a| + |b|] == b
    ensures (a + b + c + w)[|a| + |b| .. |a| + |b| + |c|] == c
    ensures (a + b + c + w)[|a| + |b| + |c| ..] == w
  {
  }

  /** Load(Save(r)) reproduces the counts, both bias runs and the weights. */
  lemma SaveThenLoad(d: RbmData, little: bool)
    requires WellFormed(d)
    ensures HasMagic(Image(d, little)) && Loadable(Image(d, little), little)
    ensures Parse(Image(d, little), little) == Some(d)
  {
    var s := Image(d, little);
    ImageFields(d, little);
    assert Pow256(2) == 0x1_0000;
    DecodeEncode(d.visible, 2, little);
    DecodeEncode(d.hidden, 2, little);
    assert s[WeightsAt(d.visible, d.hidden) .. ImageSize(d.visible, d.hidden)] == s[WeightsAt(d.visible, d.hidden) ..];
    assert Pow256(4) == TWO32;
    DecodeEncodeCells(d.visibleBiases, 4, little);
    DecodeEncodeCells(d.hiddenBiases, 4, little);
    DecodeEncodeCells(d.weights, 4, little);
  }

  /** The row-major position of weight (i, j) in a V * H run with H weights per visible unit. */
  function WeightIndex(i: nat, j: nat, h: nat): nat
  {
    i * h + j
  }

  /** The row-major index GetWeight uses stays inside the V * H array. */
  lemma WeightIndexInside(i: nat, j: nat, v: nat, h: nat)
    requires i < v && j < h
    ensures WeightIndex(i, j, h) < WeightCount(v, h)
  {
    assert (i + 1) * h == i * h + h;
    assert (i + 1) * h <= v * h;
    assert v * h == h * v;
  }

  /** Distinct (i, j) pairs select distinct weights. */
  lemma WeightIndexInjective(i: nat, j: nat, i': nat, j': nat, h: nat)
    requires j < h && j' < h
    requires WeightIndex(i, j, h) == WeightIndex(i', j', h)
    ensures i == i' && j == j'
  {
    RowsApart(i, i', h);
    RowsApart(i', i, h);
  }

  lemma RowsApart(i: nat, i': nat, h: nat)
    ensures i < i' ==> i * h + h <= i' * h
  {
    if i < i' {
      assert (i + 1) * h == i * h + h;
      assert (i + 1) * h <= i' * h;
    }
  }

  /** The 32-bit pattern of weight (i, j) in a stored file: row-major, at WeightsAt + 4 * (i * H + j). */
  function FileWeight(s: seq<byte>, little: bool, v: nat, h: nat, i: nat, j: nat): nat
    requires ImageSize(v, h) <= |s| && i < v && j < h
  {
    WeightIndexInside(i, j, v, h);
    var at := WeightsAt(v, h) + 4 * WeightIndex(i, j, h);
    Decode(s[at .. at + 4], little)
  }

  /** Weight (i, j) of a saved RBM reads back from its row-major place in the file. */
  lemma WeightInImage(d: RbmData, little: bool, i: nat, j: nat)
    requires WellFormed(d) && i < d.visible && j < d.hidden
    ensures ImageSize(d.visible, d.hidden) <= |Image(d, little)|
    ensures WeightIndex(i, j, d.hidden) < |d.weights|
    ensures FileWeight(Image(d, little), little, d.visible, d.hidden, i, j) == d.weights[WeightIndex(i, j, d.hidden)]
  {
    ImageFields(d, little);
    WeightInFile(Image(d, little), little, d.visible, d.hidden, d.weights, i, j);
  }

  /** In a file whose bytes from WeightsAt on encode the weights, FileWeight (i, j) is the row-major weight. */
  lemma WeightInFile(s: seq<byte>, little: bool, v: nat, h: nat, weights: seq<nat>, i: nat, j: nat)
    requires i < v && j < h && ImageSize(v, h) <= |s| && WeightsAt(v, h) <= |s|
    requires |weights| == WeightCount(v, h) && (forall k :: 0 <= k < |weights| ==> weights[k] < TWO32)
    requires s[WeightsAt(v, h)..] == EncodeCells(weights, 4, little)
    ensures WeightIndex(i, j, h) < |weights|
    ensures FileWeight(s, little, v, h, i, j) == weights[WeightIndex(i, j, h)]
  {
    var k := WeightIndex(i, j, h);
    WeightIndexInside(i, j, v, h);
    CellOfCells(weights, little, k);
    CellInSuffix(s, WeightsAt(v, h), EncodeCells(weights, 4, little), k);
    assert Pow256(4) == TWO32;
    DecodeEncode(weights[k], 4, little);
  }

  /** Cell k of the run that forms the file from position at on is the four bytes at at + 4 * k. */
  lemma CellInSuffix(s: seq<byte>, at: nat, w: seq<byte>, k: nat)
    requires at <= |s| && s[at..] == w && 4 * k + 4 <= |w|
    ensures s[at + 4 * k .. at + 4 * k + 4] == w[4 * k .. 4 * k + 4]
  {
    assert s[at + 4 * k .. at + 4 * k + 4] == s[at..][4 * k .. 4 * k + 4];
  }

  /** Cell k of an encoded run of 4-byte values is the image of vs[k]. */
  lemma {:induction false} CellOfCells(vs: seq<nat>, little: bool, k: nat)
    requires k < |vs|
    ensures 4 * k + 4 <= |EncodeCells(vs, 4, little)|
    ensures EncodeCells(vs, 4, little)[4 * k .. 4 * k + 4] == Encode(vs[k], 4, little)
  {
    var e := EncodeCells(vs, 4, little);
    var tail := EncodeCells(vs[1..], 4, little);
    assert e == Encode(vs[0], 4, little) + tail;
    if k > 0 {
      CellOfCells(vs[1..], little, k - 1);
      assert e[4..] == tail;
      assert e[4 * k .. 4 * k + 4] == e[4..][4 * (k - 1) .. 4 * (k - 1) + 4];
    }
  }

  /** The fread loop for one float run: n machine-order values copied into dest. */
  method ReadInto(dest: array<u32>, s: seq<byte>, pos: nat, n: nat, little: bool)
    requires dest.Length == n && pos + 4 * n <= |s|
    modifies dest
    ensures dest[..] == Patterns(s[pos .. pos + 4 * n], n, little)
  {
    assert n * 4 == 4 * n;
    assert Pow256(4) == TWO32;
    var cells := ReadCells(s, pos, n, 4, little, little);
    var k := 0;
    while k < n
      invariant 0 <= k <= n
      invariant dest[..k] == cells[..k]
    {
      dest[k] := cells[k];
      k := k + 1;
      assert dest[..k] == dest[..k - 1] + [dest[k - 1]];
      assert cells[..k] == cells[..k - 1] + [cells[k - 1]];
    }
    assert dest[..] == dest[..n];
    assert cells == cells[..n];
  }

  class Rbm {
    var visibleCount: nat
    var hiddenCount: nat
    var visibleBiases: array<u32>
    var hiddenBiases: array<u32>
    var weights: array<u32>

    ghost predicate Valid()
      reads this, visibleBiases, hiddenBiases, weights
    {
      && visibleBiases != hiddenBiases && visibleBiases != weights && hiddenBiases != weights
      && WellFormed(Data())
    }

    /** The contents as a value. */
    function Data(): RbmData
      reads this, visibleBiases, hiddenBiases, weights
    {
      RbmData(visibleCount, hiddenCount, visibleBiases[..], hiddenBiases[..], weights[..])
    }

    /** RBM(V, H): asserts both counts non-zero and allocates V, H and V*H floats. */
    constructor (v: nat, h: nat)
      requires 0 < v < 0x1_0000 && 0 < h < 0x1_0000
      ensures visibleCount == v && hiddenCount == h
      ensures fresh(visibleBiases) && fresh(hiddenBiases) && fresh(weights)
      ensures visibleBiases.Length == v && hiddenBiases.Length == h && weights.Length == WeightCount(v, h)
      ensures visibleBiases != hiddenBiases && visibleBiases != weights && hiddenBiases != weights
    {
      visibleCount := v;
      hiddenCount := h;
      visibleBiases := new u32[v];
      hiddenBiases := new u32[h];
      weights := new u32[WeightCount(v, h)];
    }

    /** GetWeight(i, j): the weight between visible unit i and hidden unit j, row-major by visible unit. */
    function GetWeight(i: nat, j: nat): u32
      reads this, visibleBiases, hiddenBiases, weights
      requires Valid() && i < visibleCount && j < hiddenCount
    {
      WeightIndexInside(i, j, visibleCount, hiddenCount);
      weights[WeightIndex(i, j, hiddenCount)]
    }

    /**
     * Save: false when the file cannot be opened; otherwise the bytes written
     * are ".RBM", V, H, the visible biases, the hidden biases and the weights.
     */
    method Save(canOpen: bool, systemLittle: bool) returns (ok: bool, file: seq<byte>)
      requires Valid()
      ensures ok == canOpen
      ensures ok ==> file == Image(Data(), systemLittle)
    {
      if !canOpen {
        return false, [];
      }
      var v := CellsImage([visibleCount], 2, systemLittle, systemLittle);
      var h := CellsImage([hiddenCount], 2, systemLittle, systemLittle);
      assert EncodeCells([visibleCount], 2, systemLittle) == Encode(visibleCount, 2, systemLittle);
      assert EncodeCells([hiddenCount], 2, systemLittle) == Encode(hiddenCount, 2, systemLittle);
      var vb := CellsImage(visibleBiases[..], 4, systemLittle, systemLittle);
      var hb := CellsImage(hiddenBiases[..], 4, systemLittle, systemLittle);
      var w := CellsImage(weights[..], 4, systemLittle, systemLittle);
      file := MAGIC + v + h + vb + hb + w;
      ok := true;
    }

    /**
     * Load: NULL when the file cannot be opened or does not start with ".RBM";
     * otherwise a new RBM holding what Parse reads from the bytes.
     */
    static method Load(f: Option<seq<byte>>, systemLittle: bool) returns (r: Rbm?)
      requires f.Some? ==> |f.value| >= 4 && (HasMagic(f.value) ==> Loadable(f.value, systemLittle))
      ensures r == null <==> f.None? || !HasMagic(f.value)
      ensures r != null ==> fresh(r) && fresh(r.visibleBiases) && fresh(r.hiddenBiases) && fresh(r.weights)
      ensures r != null ==> r.Valid() && Parse(f.value, systemLittle) == Some(r.Data())
    {
      if f.None? {
        return null;
      }
      var s := f.value;
      if s[..4] != MAGIC {
        return null;
      }
      var v := CellValue(s[4..6], systemLittle, systemLittle);
      var h := CellValue(s[6..8], systemLittle, systemLittle);
      assert Pow256(2) == 0x1_0000;
      r := new Rbm(v, h);
      var vbs, hbs, ws := r.visibleBiases, r.hiddenBiases, r.weights;
      ReadInto(vbs, s, 8, v, systemLittle);
      ReadInto(hbs, s, HiddenBiasesAt(v), h, systemLittle);
      ReadInto(ws, s, WeightsAt(v, h), WeightCount(v, h), systemLittle);
      assert Pow256(4) == TWO32;
      assert r.Data() == Parse(s, systemLittle).value;
    }
  }

  /** The weight GetWeight returns for (i, j) is the one Save writes at byte WeightsAt + 4 * (i * H + j). */
  lemma GetWeightSaved(r: Rbm, little: bool, i: nat, j: nat)
    requires r.Valid() && i < r.visibleCount && j < r.hiddenCount
    ensures ImageSize(r.visibleCount, r.hiddenCount) <= |Image(r.Data(), little)|
    ensures FileWeight(Image(r.Data(), little), little, r.visibleCount, r.hiddenCount, i, j) == r.GetWeight(i, j)
  {
    var d := r.Data();
    WeightIndexInside(i, j, r.visibleCount, r.hiddenCount);
    WeightInImage(d, little, i, j);
  }
}
