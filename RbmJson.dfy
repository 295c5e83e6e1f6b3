/**
 * Loading a RestrictedBoltzmannMachine from JSON
 * (source/OMLT/OMLT/source/RestrictedBoltzmannMachine.cpp): the streaming
 * FromJSON, which reads the reader's tokens one by one into the bias and
 * feature arrays, the cJSON FromJSON, which checks the looked-up fields and
 * copies their arrays, and the streaming ToJSON whose output the streaming
 * FromJSON reads back.
 *
 * The model keeps both weight views the source fills: hidden.feature(j) is
 * row j of hiddenFeatures and visible.feature(i) is row i of visibleFeatures,
 * and every weight is written to both.
 */
module RbmJson {
  import opened Bytes
  import opened Wrappers
  import opened Enums
  import opened JsonItems
  import J = JsonReader

  const RBM_TYPE: string := "RestrictedBoltzmannMachine"

  /** A loaded machine as a value: counts, activation types, biases and the hidden-by-visible weights. */
  datatype Model = Model(visibleCount: nat, hiddenCount: nat, visibleType: ActivationFunction, hiddenType: ActivationFunction,
                         visibleBiases: seq<real>, hiddenBiases: seq<real>, weights: seq<seq<real>>)

  /** Array sizes agree with the counts: V visible biases, H hidden biases, H weight rows of V. */
  predicate Shaped(m: Model)
  {
    |m.visibleBiases| == m.visibleCount && |m.hiddenBiases| == m.hiddenCount && |m.weights| == m.hiddenCount &&
    forall j :: 0 <= j < |m.weights| ==> |m.weights[j]| == m.visibleCount
  }

  /** What the streaming loader accepts: counts in 1..2^32-1, known activation types, and the shapes. */
  predicate WellFormed(m: Model)
  {
    0 < m.visibleCount <= U32_MAX && 0 < m.hiddenCount <= U32_MAX &&
    m.visibleType != Invalid && m.hiddenType != Invalid && Shaped(m)
  }

  /** The eleven tokens before the biases: the type check and the four name/value pairs. */
  predicate HeaderAt(items: seq<Item>)
  {
    TokenAt(items, 0, J.BeginObject) && PairAt(items, 1, "Type", J.String) && At(items, 2).text == RBM_TYPE &&
    PairAt(items, 3, "VisibleCount", J.Number) && PairAt(items, 5, "HiddenCount", J.Number) &&
    PairAt(items, 7, "VisibleType", J.String) && PairAt(items, 9, "HiddenType", J.String)
  }

  /** The validation after the header: both counts in 1..2^32-1 and both types known. */
  predicate CountsValid(v: nat, h: nat, vt: ActivationFunction, ht: ActivationFunction)
  {
    !(v > U32_MAX || v == 0 || h > U32_MAX || h == 0 || vt == Invalid || ht == Invalid)
  }

  /** The header as read: the counts and the two types. */
  datatype Header = Header(visibleCount: nat, hiddenCount: nat, visibleType: ActivationFunction, hiddenType: ActivationFunction)

  /** The header of the streaming FromJSON, once validated, up to the VisibleBiases name and its BeginArray. */
  function HeaderOf(items: seq<Item>): (r: Option<Header>)
    ensures r.Some? ==> CountsValid(r.value.visibleCount, r.value.hiddenCount, r.value.visibleType, r.value.hiddenType)
  {
    if !HeaderAt(items) then None
    else
      var v, h := At(items, 4).count, At(items, 6).count;
      var vt, ht := FunctionNamed(At(items, 8).text), FunctionNamed(At(items, 10).text);
      if !CountsValid(v, h, vt, ht) || !PairAt(items, 11, "VisibleBiases", J.BeginArray) then None
      else Some(Header(v, h, vt, ht))
  }

  /** v visible biases from 13, their EndArray, the HiddenBiases pair, h hidden biases, their EndArray and the Weights pair. */
  function BiasesOf(items: seq<Item>, v: nat, h: nat): (r: Option<(seq<real>, seq<real>)>)
    ensures r.Some? ==> |r.value.0| == v && |r.value.1| == h
  {
    match NumbersTo(items, 13, v)
    case None => None
    case Some(vb) =>
      if !TokenAt(items, 13 + v, J.EndArray) || !PairAt(items, 14 + v, "HiddenBiases", J.BeginArray) then None
      else match NumbersTo(items, 16 + v, h)
        case None => None
        case Some(hb) =>
          if !TokenAt(items, 16 + v + h, J.EndArray) || !PairAt(items, 17 + v + h, "Weights", J.BeginArray) then None
          else Some((vb, hb))
  }

  /** h rows of v weights from 19 + v + h, then the closing EndArray and EndObject. */
  function WeightsOf(items: seq<Item>, v: nat, h: nat): (r: Option<seq<seq<real>>>)
    ensures r.Some? ==> |r.value| == h && forall j :: 0 <= j < h ==> |r.value[j]| == v
  {
    match RowsTo(items, 19 + v + h, v, h)
    case None => None
    case Some((w, e)) => if TokenAt(items, e, J.EndArray) && TokenAt(items, e + 1, J.EndObject) then Some(w) else None
  }

  /** What the streaming FromJSON returns for the tokens (None: nullptr). */
  function FromStream(items: seq<Item>): (r: Option<Model>)
    ensures r.Some? ==> WellFormed(r.value)
  {
    match HeaderOf(items)
    case None => None
    case Some(hd) =>
      match BiasesOf(items, hd.visibleCount, hd.hiddenCount)
      case None => None
      case Some((vb, hb)) =>
        match WeightsOf(items, hd.visibleCount, hd.hiddenCount)
        case None => None
        case Some(w) => Some(Model(hd.visibleCount, hd.hiddenCount, hd.visibleType, hd.hiddenType, vb, hb, w))
  }

  /** The C++ object: counts, types, the two bias arrays and the two feature maps. */
  class RestrictedBoltzmannMachine {
    const visibleCount: nat
    const hiddenCount: nat
    const visibleType: ActivationFunction
    const hiddenType: ActivationFunction
    /** visible.biases() */
    const visibleBiases: array<real>
    /** hidden.biases() */
    const hiddenBiases: array<real>
    /** hidden.feature(j)[i], j < H, i < V */
    const hiddenFeatures: array2<real>
    /** visible.feature(i)[j], i < V, j < H */
    const visibleFeatures: array2<real>

    constructor(v: nat, h: nat, vt: ActivationFunction, ht: ActivationFunction)
      ensures visibleCount == v && hiddenCount == h && visibleType == vt && hiddenType == ht
      ensures Sized()
      ensures fresh(visibleBiases) && fresh(hiddenBiases) && fresh(hiddenFeatures) && fresh(visibleFeatures)
    {
      visibleCount, hiddenCount, visibleType, hiddenType := v, h, vt, ht;
      visibleBiases := new real[v];
      hiddenBiases := new real[h];
      hiddenFeatures := new real[h, v];
      visibleFeatures := new real[v, h];
    }

    /** The arrays have the sizes the counts give, and the two bias arrays are different arrays. */
    predicate Sized()
    {
      visibleBiases.Length == visibleCount && hiddenBiases.Length == hiddenCount &&
      hiddenFeatures.Length0 == hiddenCount && hiddenFeatures.Length1 == visibleCount &&
      visibleFeatures.Length0 == visibleCount && visibleFeatures.Length1 == hiddenCount &&
      visibleBiases != hiddenBiases && hiddenFeatures != visibleFeatures
    }

    /**
     * The object holds the value m: the same counts, types and biases, and
     * every weight w[j][i] both at hidden.feature(j)[i] and at
     * visible.feature(i)[j].
     */
    ghost predicate Holds(m: Model)
      reads this, visibleBiases, hiddenBiases, hiddenFeatures, visibleFeatures
    {
      Sized() && Shaped(m) &&
      visibleCount == m.visibleCount && hiddenCount == m.hiddenCount &&
      visibleType == m.visibleType && hiddenType == m.hiddenType &&
      BiasesHold(m.visibleBiases, m.hiddenBiases) && FeaturesHold(m.weights)
    }

    /** The bias arrays hold vb and hb. */
    ghost predicate BiasesHold(vb: seq<real>, hb: seq<real>)
      reads this, visibleBiases, hiddenBiases
    {
      visibleBiases[..] == vb && hiddenBiases[..] == hb
    }

    /** Every weight w[j][i] is at hidden.feature(j)[i] and at visible.feature(i)[j]. */
    ghost predicate FeaturesHold(w: seq<seq<real>>)
      reads this, hiddenFeatures, visibleFeatures
    {
      Sized() && |w| == hiddenCount && (forall j :: 0 <= j < |w| ==> |w[j]| == visibleCount) &&
      forall j, i :: 0 <= j < hiddenCount && 0 <= i < visibleCount ==>
        hiddenFeatures[j, i] == w[j][i] && visibleFeatures[i, j] == w[j][i]
    }
  }

  /** The weights of a loaded machine are symmetric between the two feature maps. */
  lemma HoldsSymmetric(rbm: RestrictedBoltzmannMachine, m: Model)
    requires rbm.Holds(m)
    ensures forall j, i :: 0 <= j < rbm.hiddenCount && 0 <= i < rbm.visibleCount ==>
      rbm.hiddenFeatures[j, i] == rbm.visibleFeatures[i, j]
  {
  }

  /** The bias loop of the streaming FromJSON: n numbers from p into a. */
  method ReadNumbers(items: seq<Item>, p: nat, a: array<real>) returns (ok: bool)
    modifies a
    ensures ok <==> NumbersTo(items, p, a.Length).Some?
    ensures ok ==> a[..] == NumbersTo(items, p, a.Length).value
  {
    for i := 0 to a.Length
      invariant NumbersTo(items, p, i) == Some(a[..i])
    {
      if !TokenAt(items, p + i, J.Number) {
        NumbersStopped(items, p, i + 1, a.Length);
        return false;
      }
      a[i] := At(items, p + i).number;
      assert a[..i + 1] == a[..i] + [a[i]];
    }
    assert a[..a.Length] == a[..];
    return true;
  }

  /** Row j of the weights: a BeginArray, V numbers written to both feature maps, an EndArray. */
  method ReadRow(items: seq<Item>, p: nat, rbm: RestrictedBoltzmannMachine, j: nat) returns (ok: bool)
    requires rbm.Sized() && j < rbm.hiddenCount
    modifies rbm.hiddenFeatures, rbm.visibleFeatures
    ensures ok <==> Row(items, p, rbm.visibleCount).Some?
    ensures ok ==> forall i :: 0 <= i < rbm.visibleCount ==>
      rbm.hiddenFeatures[j, i] == Row(items, p, rbm.visibleCount).value[i] &&
      rbm.visibleFeatures[i, j] == Row(items, p, rbm.visibleCount).value[i]
    ensures forall jj, i :: 0 <= jj < rbm.hiddenCount && 0 <= i < rbm.visibleCount && jj != j ==>
      rbm.hiddenFeatures[jj, i] == old(rbm.hiddenFeatures[jj, i]) && rbm.visibleFeatures[i, jj] == old(rbm.visibleFeatures[i, jj])
  {
    var v := rbm.visibleCount;
    if !TokenAt(items, p, J.BeginArray) {
      return false;
    }
    ghost var row: seq<real> := [];
    for i := 0 to v
      invariant NumbersTo(items, p + 1, i) == Some(row)
      invariant forall ii :: 0 <= ii < i ==> rbm.hiddenFeatures[j, ii] == row[ii] && rbm.visibleFeatures[ii, j] == row[ii]
      invariant forall jj, ii :: 0 <= jj < rbm.hiddenCount && 0 <= ii < v && jj != j ==>
        rbm.hiddenFeatures[jj, ii] == old(rbm.hiddenFeatures[jj, ii]) && rbm.visibleFeatures[ii, jj] == old(rbm.visibleFeatures[ii, jj])
    {
      if !TokenAt(items, p + 1 + i, J.Number) {
        NumbersStopped(items, p + 1, i + 1, v);
        return false;
      }
      var w := At(items, p + 1 + i).number;
      rbm.hiddenFeatures[j, i] := w;
      rbm.visibleFeatures[i, j] := w;
      row := row + [w];
    }
    return TokenAt(items, p + 1 + v, J.EndArray);
  }

  /** The bias part of the streaming FromJSON: both bias loops and the tokens around them. */
  method ReadBiases(items: seq<Item>, rbm: RestrictedBoltzmannMachine) returns (ok: bool)
    requires rbm.Sized()
    modifies rbm.visibleBiases, rbm.hiddenBiases
    ensures ok <==> BiasesOf(items, rbm.visibleCount, rbm.hiddenCount).Some?
    ensures ok ==> rbm.BiasesHold(BiasesOf(items, rbm.visibleCount, rbm.hiddenCount).value.0, BiasesOf(items, rbm.visibleCount, rbm.hiddenCount).value.1)
  {
    var v, h := rbm.visibleCount, rbm.hiddenCount;
    ok := ReadNumbers(items, 13, rbm.visibleBiases);
    if !ok || !TokenAt(items, 13 + v, J.EndArray) || !PairAt(items, 14 + v, "HiddenBiases", J.BeginArray) {
      return false;
    }
    ok := ReadNumbers(items, 16 + v, rbm.hiddenBiases);
    ok := ok && TokenAt(items, 16 + v + h, J.EndArray) && PairAt(items, 17 + v + h, "Weights", J.BeginArray);
  }

  /** The weight part of the streaming FromJSON: the rows, then EndArray and EndObject. */
  method ReadWeights(items: seq<Item>, rbm: RestrictedBoltzmannMachine) returns (ok: bool)
    requires rbm.Sized()
    modifies rbm.hiddenFeatures, rbm.visibleFeatures
    ensures ok <==> WeightsOf(items, rbm.visibleCount, rbm.hiddenCount).Some?
    ensures ok ==> rbm.FeaturesHold(WeightsOf(items, rbm.visibleCount, rbm.hiddenCount).value)
  {
    var e, rows := ReadRows(items, 19 + rbm.visibleCount + rbm.hiddenCount, rbm);
    ok := e.Some? && TokenAt(items, e.value, J.EndArray) && TokenAt(items, e.value + 1, J.EndObject);
  }

  /** The header part of the streaming FromJSON, with the validation of lines 303-311. */
  method ReadHeader(items: seq<Item>) returns (hd: Option<Header>)
    ensures hd == HeaderOf(items)
  {
    if !HeaderAt(items) {
      return None;
    }
    var v, h := At(items, 4).count, At(items, 6).count;
    var vt := ParseFunction(At(items, 8).text);
    var ht := ParseFunction(At(items, 10).text);
    if v > U32_MAX || v == 0 || h > U32_MAX || h == 0 || vt == Invalid || ht == Invalid {
      return None;
    }
    if !PairAt(items, 11, "VisibleBiases", J.BeginArray) {
      return None;
    }
    return Some(Header(v, h, vt, ht));
  }

  /**
   * The streaming FromJSON: the header and its validation, then the biases
   * and the weights token by token. It gives nullptr exactly when
   * FromStream gives None, and otherwise a new machine holding its value.
   */
  method ReadStream(items: seq<Item>) returns (rbm: RestrictedBoltzmannMachine?)
    ensures rbm == null <==> FromStream(items).None?
    ensures rbm != null ==> fresh(rbm) && rbm.Holds(FromStream(items).value)
  {
    var hd := ReadHeader(items);
    if hd.None? {
      return null;
    }
    var machine := new RestrictedBoltzmannMachine(hd.value.visibleCount, hd.value.hiddenCount, hd.value.visibleType, hd.value.hiddenType);
    var ok := ReadBiases(items, machine);
    if !ok {
      return null;
    }
    ghost var b := BiasesOf(items, machine.visibleCount, machine.hiddenCount).value;
    ok := ReadWeights(items, machine);
    if !ok {
      return null;
    }
    ghost var m := Model(machine.visibleCount, machine.hiddenCount, machine.visibleType, machine.hiddenType, b.0, b.1,
                         WeightsOf(items, machine.visibleCount, machine.hiddenCount).value);
    assert FromStream(items) == Some(m);
    assert machine.BiasesHold(b.0, b.1);
    return machine;
  }

  /** The weight loop: H rows, each into both feature maps; the position after them, or None. */
  method ReadRows(items: seq<Item>, p: nat, rbm: RestrictedBoltzmannMachine) returns (e: Option<nat>, ghost rows: seq<seq<real>>)
    requires rbm.Sized()
    modifies rbm.hiddenFeatures, rbm.visibleFeatures
    ensures e.None? <==> RowsTo(items, p, rbm.visibleCount, rbm.hiddenCount).None?
    ensures e.Some? ==> RowsTo(items, p, rbm.visibleCount, rbm.hiddenCount) == Some((rows, e.value))
    ensures e.Some? ==> forall j, i :: 0 <= j < rbm.hiddenCount && 0 <= i < rbm.visibleCount ==>
      rbm.hiddenFeatures[j, i] == rows[j][i] && rbm.visibleFeatures[i, j] == rows[j][i]
  {
    var v := rbm.visibleCount;
    var q := p;
    rows := [];
    for j := 0 to rbm.hiddenCount
      invariant RowsTo(items, p, v, j) == Some((rows, q))
      invariant forall jj, i :: 0 <= jj < j && 0 <= i < v ==>
        rbm.hiddenFeatures[jj, i] == rows[jj][i] && rbm.visibleFeatures[i, jj] == rows[jj][i]
    {
      var ok := ReadRow(items, q, rbm, j);
      if !ok {
        RowsStopped(items, p, v, j + 1, rbm.hiddenCount);
        return None, rows;
      }
      rows := rows + [Row(items, q, v).value];
      q := q + v + 2;
    }
    return Some(q), rows;
  }

  /** The header part of the streaming ToJSON, up to the VisibleBiases name. */
  function HeaderItems(m: Model): (r: seq<Item>)
    requires m.visibleType != Invalid && m.hiddenType != Invalid
    ensures |r| == 12
  {
    [BEGIN_OBJECT, NameItem("Type"), StringItem(RBM_TYPE),
     NameItem("VisibleCount"), CountItem(m.visibleCount), NameItem("HiddenCount"), CountItem(m.hiddenCount),
     NameItem("VisibleType"), StringItem(NameOf(m.visibleType)), NameItem("HiddenType"), StringItem(NameOf(m.hiddenType)),
     NameItem("VisibleBiases")]
  }

  /** From the HiddenBiases name to the BeginArray of the weights. */
  function MiddleItems(m: Model): (r: seq<Item>)
    ensures |r| == |m.hiddenBiases| + 5
  {
    [NameItem("HiddenBiases")] + ArrayItems(m.hiddenBiases) + [NameItem("Weights"), BEGIN_ARRAY]
  }

  /** The weight rows, then the closing EndArray and EndObject. */
  function WeightItems(m: Model): seq<Item>
  {
    RowsItemsTo(m.weights, |m.weights|) + [END_ARRAY, END_OBJECT]
  }

  /** The tokens the streaming ToJSON writes for m. */
  function ToStream(m: Model): seq<Item>
    requires m.visibleType != Invalid && m.hiddenType != Invalid
  {
    HeaderItems(m) + ArrayItems(m.visibleBiases) + MiddleItems(m) + WeightItems(m)
  }

  lemma SegmentAt(items: seq<Item>, p: nat, seg: seq<Item>, i: nat)
    requires Segment(items, p, seg) && i < |seg|
    ensures At(items, p + i) == seg[i]
  {
  }

  lemma HeaderTokens(items: seq<Item>, m: Model)
    requires m.visibleType != Invalid && m.hiddenType != Invalid
    requires Segment(items, 0, HeaderItems(m)) && TokenAt(items, 12, J.BeginArray)
    ensures HeaderAt(items) && PairAt(items, 11, "VisibleBiases", J.BeginArray)
    ensures At(items, 4).count == m.visibleCount && At(items, 6).count == m.hiddenCount
    ensures At(items, 8).text == NameOf(m.visibleType) && At(items, 10).text == NameOf(m.hiddenType)
  {
    var a := HeaderItems(m);
    SegmentAt(items, 0, a, 0);
    SegmentAt(items, 0, a, 1);
    SegmentAt(items, 0, a, 2);
    SegmentAt(items, 0, a, 3);
    SegmentAt(items, 0, a, 4);
    SegmentAt(items, 0, a, 5);
    SegmentAt(items, 0, a, 6);
    SegmentAt(items, 0, a, 7);
    SegmentAt(items, 0, a, 8);
    SegmentAt(items, 0, a, 9);
    SegmentAt(items, 0, a, 10);
    SegmentAt(items, 0, a, 11);
  }

  lemma HeaderRead(items: seq<Item>, m: Model)
    requires WellFormed(m) && Segment(items, 0, HeaderItems(m)) && TokenAt(items, 12, J.BeginArray)
    ensures HeaderOf(items) == Some(Header(m.visibleCount, m.hiddenCount, m.visibleType, m.hiddenType))
  {
    HeaderTokens(items, m);
    ParseName(m.visibleType);
    ParseName(m.hiddenType);
  }

  lemma BiasesRead(items: seq<Item>, m: Model)
    requires WellFormed(m)
    requires Segment(items, 12, ArrayItems(m.visibleBiases))
    requires Segment(items, 14 + m.visibleCount, MiddleItems(m))
    ensures BiasesOf(items, m.visibleCount, m.hiddenCount) == Some((m.visibleBiases, m.hiddenBiases))
  {
    var v, h := m.visibleCount, m.hiddenCount;
    RowRead(items, 12, m.visibleBiases);
    var c := MiddleItems(m);
    SegmentSplit(items, 14 + v, [NameItem("HiddenBiases")] + ArrayItems(m.hiddenBiases), [NameItem("Weights"), BEGIN_ARRAY]);
    SegmentSplit(items, 14 + v, [NameItem("HiddenBiases")], ArrayItems(m.hiddenBiases));
    RowRead(items, 15 + v, m.hiddenBiases);
    SegmentAt(items, 14 + v, c, 0);
    SegmentAt(items, 14 + v, c, 3 + h);
    SegmentAt(items, 14 + v, c, 4 + h);
  }

  lemma WeightsRead(items: seq<Item>, m: Model)
    requires WellFormed(m)
    requires Segment(items, 19 + m.visibleCount + m.hiddenCount, WeightItems(m))
    ensures WeightsOf(items, m.visibleCount, m.hiddenCount) == Some(m.weights)
  {
    var p := 19 + m.visibleCount + m.hiddenCount;
    var f := RowsItemsTo(m.weights, |m.weights|);
    SegmentSplit(items, p, f, [END_ARRAY, END_OBJECT]);
    RowsRead(items, p, m.weights, m.visibleCount, |m.weights|);
    assert m.weights[..|m.weights|] == m.weights;
    SegmentAt(items, p + |f|, [END_ARRAY, END_OBJECT], 0);
    SegmentAt(items, p + |f|, [END_ARRAY, END_OBJECT], 1);
  }

  /** Tokens laid out as the streaming ToJSON writes them read back as m. */
  lemma StreamRead(items: seq<Item>, m: Model)
    requires WellFormed(m)
    requires Segment(items, 0, HeaderItems(m)) && Segment(items, 12, ArrayItems(m.visibleBiases))
    requires Segment(items, 14 + m.visibleCount, MiddleItems(m)) && Segment(items, 19 + m.visibleCount + m.hiddenCount, WeightItems(m))
    ensures FromStream(items) == Some(m)
  {
    SegmentAt(items, 12, ArrayItems(m.visibleBiases), 0);
    HeaderRead(items, m);
    BiasesRead(items, m);
    WeightsRead(items, m);
  }

  /** The streaming FromJSON reads back what the streaming ToJSON writes. */
  lemma StreamRoundTrip(m: Model)
    requires WellFormed(m)
    ensures FromStream(ToStream(m)) == Some(m)
  {
    var items := ToStream(m);
    var a, b, c, f := HeaderItems(m), ArrayItems(m.visibleBiases), MiddleItems(m), WeightItems(m);
    assert Segment(items, 0, a + b + c + f);
    SegmentSplit(items, 0, a + b + c, f);
    SegmentSplit(items, 0, a + b, c);
    SegmentSplit(items, 0, a, b);
    StreamRead(items, m);
  }

  /**
   * What a successful streaming load read: the header tokens with the Type
   * string, the counts and type names it took the machine's from; and a
   * header whose counts or types fail the validation gives nullptr.
   */
  lemma StreamHeader(items: seq<Item>)
    ensures FromStream(items).Some? ==> (HeaderAt(items) && PairAt(items, 11, "VisibleBiases", J.BeginArray) &&
      FromStream(items).value.visibleCount == At(items, 4).count && FromStream(items).value.hiddenCount == At(items, 6).count &&
      FromStream(items).value.visibleType == FunctionNamed(At(items, 8).text) &&
      FromStream(items).value.hiddenType == FunctionNamed(At(items, 10).text))
    ensures !CountsValid(At(items, 4).count, At(items, 6).count, FunctionNamed(At(items, 8).text), FunctionNamed(At(items, 10).text)) ==>
      FromStream(items).None?
  {
  }

  // The cJSON FromJSON.

  /**
   * A parsed cJSON object as FromJSON sees it: what each cJSON_GetObjectItem
   * lookup finds (None: a null pointer), the counts as valueint and the
   * arrays as their numbers.
   */
  datatype RbmDocument = RbmDocument(typeName: Option<string>, visibleCount: Option<int>, hiddenCount: Option<int>,
                                     visibleType: Option<string>, hiddenType: Option<string>,
                                     visibleBiases: Option<seq<real>>, hiddenBiases: Option<seq<real>>,
                                     weights: Option<seq<seq<real>>>)

  predicate AllPresent(d: RbmDocument)
  {
    d.typeName.Some? && d.visibleCount.Some? && d.hiddenCount.Some? && d.visibleType.Some? && d.hiddenType.Some? &&
    d.visibleBiases.Some? && d.hiddenBiases.Some? && d.weights.Some?
  }

  /** The type loop of the cJSON FromJSON after k names: it has no break, so the last equal name wins. */
  function LastNamedTo(name: string, k: nat): (f: ActivationFunction)
    requires k <= |NAMES|
  {
    if k == 0 then Invalid
    else if name == NAMES[k - 1] then FunctionAt(k - 1)
    else LastNamedTo(name, k - 1)
  }

  lemma {:induction false} LastNamedToFinds(name: string, k: nat)
    requires k <= |NAMES|
    ensures LastNamedTo(name, k) != Invalid <==> name in NAMES[..k]
    ensures LastNamedTo(name, k) != Invalid ==> NAMES[Ordinal(LastNamedTo(name, k))] == name
  {
    if k > 0 {
      LastNamedToFinds(name, k - 1);
      assert NAMES[..k] == NAMES[..k - 1] + [NAMES[k - 1]];
      assert Ordinal(FunctionAt(k - 1)) == k - 1;
    }
  }

  /** As the names are distinct, the last match is the first: the cJSON loop agrees with ParseFunction. */
  lemma LastNamedIsFirst(name: string)
    ensures LastNamedTo(name, |NAMES|) == FunctionNamed(name)
  {
    LastNamedToFinds(name, |NAMES|);
    assert NAMES[..|NAMES|] == NAMES;
    NamesDistinct();
    var f, g := LastNamedTo(name, |NAMES|), FunctionNamed(name);
    if f != Invalid {
      assert Ordinal(f) == Ordinal(g);
      assert FunctionAt(Ordinal(f)) == FunctionAt(Ordinal(g));
    }
  }

  /** Every row of w has n numbers: the size test of the copy loop. */
  predicate RowsSized(w: seq<seq<real>>, n: nat)
  {
    forall j :: 0 <= j < |w| ==> |w[j]| == n
  }

  /**
   * The checks before the copy: every field present, the Type string, the
   * counts taken from valueint into a uint32_t, both types found, and the
   * three array sizes. When rejectEmpty holds a zero count is refused too,
   * as the streaming loader does.
   */
  function DocumentHeader(d: RbmDocument, rejectEmpty: bool): (r: Option<Header>)
    ensures r.Some? ==> (AllPresent(d) && d.typeName.value == RBM_TYPE &&
      r.value.visibleCount <= U32_MAX && r.value.hiddenCount <= U32_MAX &&
      r.value.visibleType != Invalid && r.value.hiddenType != Invalid &&
      |d.visibleBiases.value| == r.value.visibleCount && |d.hiddenBiases.value| == r.value.hiddenCount &&
      |d.weights.value| == r.value.hiddenCount)
    ensures r.Some? && rejectEmpty ==> r.value.visibleCount > 0 && r.value.hiddenCount > 0
  {
    if !AllPresent(d) || d.typeName.value != RBM_TYPE then None
    else
      var v, h := Wrap32(d.visibleCount.value) as nat, Wrap32(d.hiddenCount.value) as nat;
      var vt, ht := LastNamedTo(d.visibleType.value, |NAMES|), LastNamedTo(d.hiddenType.value, |NAMES|);
      if vt == Invalid || ht == Invalid then None
      else if rejectEmpty && (v == 0 || h == 0) then None
      else if |d.visibleBiases.value| == v && |d.hiddenBiases.value| == h && |d.weights.value| == h then Some(Header(v, h, vt, ht))
      else None
  }

  /** What the cJSON FromJSON returns (None: nullptr); rejectEmpty as in DocumentHeader. */
  function FromDocument(doc: Option<RbmDocument>, rejectEmpty: bool): (r: Option<Model>)
    ensures r.Some? ==> Shaped(r.value) && r.value.visibleType != Invalid && r.value.hiddenType != Invalid
    ensures r.Some? && rejectEmpty ==> WellFormed(r.value)
  {
    if doc.None? then None
    else match DocumentHeader(doc.value, rejectEmpty)
      case None => None
      case Some(hd) =>
        var d := doc.value;
        if RowsSized(d.weights.value, hd.visibleCount)
        then Some(Model(hd.visibleCount, hd.hiddenCount, hd.visibleType, hd.hiddenType, d.visibleBiases.value, d.hiddenBiases.value, d.weights.value))
        else None
  }

  /** The cJSON object holding a model's fields, as the streaming ToJSON output parses. */
  function DocumentOf(m: Model): RbmDocument
    requires m.visibleType != Invalid && m.hiddenType != Invalid
  {
    RbmDocument(Some(RBM_TYPE), Some(m.visibleCount), Some(m.hiddenCount), Some(NameOf(m.visibleType)), Some(NameOf(m.hiddenType)),
                Some(m.visibleBiases), Some(m.hiddenBiases), Some(m.weights))
  }

  /** The cJSON loader reads a well-formed model's document back, with or without the zero-count check. */
  lemma DocumentRoundTrip(m: Model, rejectEmpty: bool)
    requires WellFormed(m)
    ensures FromDocument(Some(DocumentOf(m)), rejectEmpty) == Some(m)
  {
    LastNamedIsFirst(NameOf(m.visibleType));
    LastNamedIsFirst(NameOf(m.hiddenType));
    ParseName(m.visibleType);
    ParseName(m.hiddenType);
  }

  /** The zero-count check changes only the loads of a machine with no visible or no hidden units. */
  lemma EmptyCheckOnly(doc: Option<RbmDocument>)
    ensures FromDocument(doc, true) ==
      (if FromDocument(doc, false).Some? && (FromDocument(doc, false).value.visibleCount == 0 || FromDocument(doc, false).value.hiddenCount == 0)
       then None else FromDocument(doc, false))
  {
  }

  /**
   * The cJSON FromJSON as written has no zero-count test: a document with
   * zero counts and empty arrays loads as a machine with no units, which the
   * streaming loader refuses.
   */
  lemma EmptyMachineAccepted()
    ensures var d := RbmDocument(Some(RBM_TYPE), Some(0), Some(0), Some(NameOf(Sigmoid)), Some(NameOf(Sigmoid)), Some([]), Some([]), Some([]));
      FromDocument(Some(d), false) == Some(Model(0, 0, Sigmoid, Sigmoid, [], [], [])) && FromDocument(Some(d), true).None?
  {
    LastNamedIsFirst(NameOf(Sigmoid));
    ParseName(Sigmoid);
  }

  /** The type loop of the cJSON FromJSON: every name is compared and no break is taken. */
  method LookupLast(name: string) returns (f: ActivationFunction)
    ensures f == LastNamedTo(name, |NAMES|)
  {
    f := Invalid;
    for k := 0 to |NAMES|
      invariant f == LastNamedTo(name, k)
    {
      if name == NAMES[k] {
        f := FunctionAt(k);
      }
    }
  }

  /** The checks of the cJSON FromJSON, with the zero-count test of the streaming loader. */
  method CheckDocument(d: RbmDocument) returns (hd: Option<Header>)
    ensures hd == DocumentHeader(d, true)
  {
    if !AllPresent(d) || d.typeName.value != RBM_TYPE {
      return None;
    }
    var v, h := Wrap32(d.visibleCount.value) as nat, Wrap32(d.hiddenCount.value) as nat;
    var vt := LookupLast(d.visibleType.value);
    var ht := LookupLast(d.hiddenType.value);
    if vt == Invalid || ht == Invalid || v == 0 || h == 0 {
      return None;
    }
    if |d.visibleBiases.value| == v && |d.hiddenBiases.value| == h && |d.weights.value| == h {
      return Some(Header(v, h, vt, ht));
    }
    return None;
  }

  /** A bias copy loop: a[i] = the i-th number of the array. */
  method CopyNumbers(xs: seq<real>, a: array<real>)
    requires |xs| == a.Length
    modifies a
    ensures a[..] == xs
  {
    for i := 0 to a.Length
      invariant a[..i] == xs[..i]
    {
      a[i] := xs[i];
    }
    assert a[..a.Length] == a[..];
  }

  /** The weight copy loop: each row's size is checked, then its numbers go to both feature maps. */
  method CopyRows(w: seq<seq<real>>, rbm: RestrictedBoltzmannMachine) returns (ok: bool)
    requires rbm.Sized() && |w| == rbm.hiddenCount
    modifies rbm.hiddenFeatures, rbm.visibleFeatures
    ensures ok <==> RowsSized(w, rbm.visibleCount)
    ensures ok ==> rbm.FeaturesHold(w)
  {
    var v := rbm.visibleCount;
    for j := 0 to |w|
      invariant RowsSized(w[..j], v)
      invariant forall jj, i :: 0 <= jj < j && 0 <= i < v ==>
        rbm.hiddenFeatures[jj, i] == w[jj][i] && rbm.visibleFeatures[i, jj] == w[jj][i]
    {
      if |w[j]| != v {
        assert !RowsSized(w, v) by {
          assert |w[j]| != v;
        }
        return false;
      }
      for i := 0 to v
        invariant forall jj, ii :: 0 <= jj < j && 0 <= ii < v ==>
          rbm.hiddenFeatures[jj, ii] == w[jj][ii] && rbm.visibleFeatures[ii, jj] == w[jj][ii]
        invariant forall ii :: 0 <= ii < i ==> rbm.hiddenFeatures[j, ii] == w[j][ii] && rbm.visibleFeatures[ii, j] == w[j][ii]
      {
        rbm.hiddenFeatures[j, i] := w[j][i];
        rbm.visibleFeatures[i, j] := w[j][i];
      }
      assert w[..j + 1] == w[..j] + [w[j]];
    }
    assert w[..|w|] == w;
    return true;
  }

  /**
   * The cJSON FromJSON, with the zero-count test: nullptr exactly when
   * FromDocument(doc, true) is None, and otherwise a new machine holding
   * its value.
   */
  method ReadDocument(doc: Option<RbmDocument>) returns (rbm: RestrictedBoltzmannMachine?)
    ensures rbm == null <==> FromDocument(doc, true).None?
    ensures rbm != null ==> fresh(rbm) && rbm.Holds(FromDocument(doc, true).value)
  {
    if doc.None? {
      return null;
    }
    var d := doc.value;
    var hd := CheckDocument(d);
    if hd.None? {
      return null;
    }
    var machine := new RestrictedBoltzmannMachine(hd.value.visibleCount, hd.value.hiddenCount, hd.value.visibleType, hd.value.hiddenType);
    CopyNumbers(d.visibleBiases.value, machine.visibleBiases);
    CopyNumbers(d.hiddenBiases.value, machine.hiddenBiases);
    assert machine.BiasesHold(d.visibleBiases.value, d.hiddenBiases.value);
    var ok := CopyRows(d.weights.value, machine);
    if !ok {
      return null;
    }
    return machine;
  }
}
