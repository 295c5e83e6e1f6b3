/**
 * The MultilayerPerceptron of trunk/source/OMLT/OMLT/source/MultilayerPerceptron.cpp:
 * its layer list and the activation buffers between layers, AddLayer,
 * FeedForward, the streaming ToJSON, and the two FromJSON loaders (the
 * streaming one over cppJSONStream tokens and the one over a parsed cJSON
 * object).
 */
module Mlp {
  import opened Bytes
  import opened Wrappers
  import opened Enums
  import opened JsonItems
  import opened OmltCommon
  import J = JsonReader

  const MLP_TYPE: string := "MultilayerPerceptron"

  /** A layer: its sizes, its activation function, one bias per output and one weight row of `inputs` per output. */
  datatype Layer = Layer(inputs: u32, outputs: u32, activation: ActivationFunction, biases: seq<real>, weights: seq<seq<real>>)

  /** The arrays of a layer have the sizes its counts give. */
  predicate LayerShaped(l: Layer)
  {
    |l.biases| == l.outputs as nat && |l.weights| == l.outputs as nat &&
    forall j :: 0 <= j < |l.weights| ==> |l.weights[j]| == l.inputs as nat
  }

  /** What the streaming loader accepts for one layer: non-zero sizes, a known function, the shapes. */
  predicate LayerFits(l: Layer)
  {
    l.inputs > 0 && l.outputs > 0 && l.activation != Invalid && LayerShaped(l)
  }

  /** Each layer's outputs feed the next layer's inputs. */
  ghost predicate Chained(ls: seq<Layer>)
  {
    forall i, j :: 0 <= i < j < |ls| && j == i + 1 ==> ls[i].outputs == ls[j].inputs
  }

  /** Whether AddLayer takes l after the layers ls: the first layer always, later ones when they chain. */
  predicate Accepts(ls: seq<Layer>, l: Layer)
  {
    ls == [] || ls[|ls| - 1].outputs == l.inputs
  }

  /** The zero-filled buffer AddLayer allocates in front of a layer: BlockCount(inputs) * 4 floats. */
  function InputBuffer(inputs: u32): (r: seq<real>)
    ensures |r| >= inputs as nat && forall i :: 0 <= i < |r| ==> r[i] == 0.0
  {
    seq(4 * BlockCount(inputs) as nat, _ => 0.0)
  }

  /**
   * The network: `_layers`, and `_activations` with null at both ends and
   * one float buffer in front of each later layer. A buffer is modelled by
   * the values last written to it.
   */
  class MultilayerPerceptron {
    var layers: seq<Layer>
    var activations: seq<Option<seq<real>>>

    /**
     * One more activation slot than layers, and two while there are none;
     * null at the input and at the output end; the layers chain; every slot
     * between two layers holds a buffer.
     */
    ghost predicate Valid()
      reads this
    {
      |activations| == (if layers == [] then 2 else |layers| + 1) &&
      activations[0] == None && activations[|activations| - 1] == None &&
      Chained(layers) &&
      forall k :: 0 < k < |activations| - 1 ==> activations[k].Some?
    }

    constructor()
      ensures Valid() && layers == [] && activations == [None, None]
    {
      layers := [];
      activations := [None, None];
    }

    /**
     * AddLayer: a layer whose inputs differ from the last layer's outputs is
     * refused and nothing changes; otherwise it is appended, and unless it
     * is the first, a zeroed input buffer for it takes the old output slot
     * and a new null output slot follows.
     */
    method AddLayer(l: Layer) returns (added: bool)
      requires Valid()
      modifies this
      ensures Valid()
      ensures added <==> Accepts(old(layers), l)
      ensures added ==> layers == old(layers) + [l]
      ensures !added ==> layers == old(layers) && activations == old(activations)
      ensures added && old(layers) == [] ==> activations == old(activations)
      ensures added && old(layers) != [] ==>
        activations == old(activations)[..|old(activations)| - 1] + [Some(InputBuffer(l.inputs)), None]
    {
      if |layers| > 0 {
        if layers[|layers| - 1].outputs != l.inputs {
          return false;
        }
        var buffer := InputBuffer(l.inputs);
        activations := activations[..|activations| - 1] + [Some(buffer), None];
      }
      layers := layers + [l];
      return true;
    }

    /**
     * FeedForward(input, output, last_layer): the input and output vectors
     * take the two end slots, and layer k, for k up to last_layer, computes
     * slot k + 1 from slot k (FeatureMap::CalcFeatureVector is the parameter
     * compute); then both ends are null again. Only a pass through the last
     * layer writes the output vector: with last_layer below it the result
     * stays in the scratch buffer in front of layer last_layer + 1.
     */
    method FeedForward(input: seq<real>, output: seq<real>, lastLayer: nat, compute: (Layer, seq<real>) -> seq<real>)
      returns (outputAfter: seq<real>)
      requires Valid() && lastLayer < |layers|
      modifies this`activations
      ensures Valid() && |activations| == |old(activations)|
      ensures outputAfter == if lastLayer == |layers| - 1 then Forward(layers, input, |layers|, compute) else output
      ensures forall k :: 0 < k < |activations| - 1 ==>
        activations[k] == if k <= lastLayer + 1 then Some(Forward(layers, input, k, compute)) else old(activations)[k]
    {
      var last := |activations| - 1;
      var acts := activations[0 := Some(input)][last := Some(output)];
      for k := 0 to lastLayer + 1
        invariant |acts| == last + 1 && acts[0] == Some(input)
        invariant forall j :: 1 <= j <= k ==> acts[j] == Some(Forward(layers, input, j, compute))
        invariant forall j :: k < j < last ==> acts[j] == activations[j]
        invariant k < last ==> acts[last] == Some(output)
      {
        var v := compute(layers[k], acts[k].value);
        acts := acts[k + 1 := Some(v)];
      }
      outputAfter := acts[last].value;
      activations := acts[0 := None][last := None];
    }

    /** FeedForward(input, output): through every layer; its last_layer is size() - 1, which needs a layer. */
    method FeedForwardAll(input: seq<real>, output: seq<real>, compute: (Layer, seq<real>) -> seq<real>)
      returns (outputAfter: seq<real>)
      requires Valid() && |layers| > 0
      modifies this`activations
      ensures Valid() && |activations| == |old(activations)|
      ensures outputAfter == Forward(layers, input, |layers|, compute)
      ensures forall k :: 0 < k < |activations| - 1 ==> activations[k] == Some(Forward(layers, input, k, compute))
    {
      outputAfter := FeedForward(input, output, |layers| - 1, compute);
    }
  }

  /** The input passed through the first n layers. */
  function Forward(ls: seq<Layer>, input: seq<real>, n: nat, compute: (Layer, seq<real>) -> seq<real>): seq<real>
    requires n <= |ls|
  {
    if n == 0 then input else compute(ls[n - 1], Forward(ls, input, n - 1, compute))
  }

  /** Feeding through a first layers and then the next b from there is feeding through a + b layers. */
  lemma {:induction false} ForwardSplit(ls: seq<Layer>, input: seq<real>, a: nat, b: nat, compute: (Layer, seq<real>) -> seq<real>)
    requires a + b <= |ls|
    ensures Forward(ls, input, a + b, compute) == Forward(ls[a..], Forward(ls, input, a, compute), b, compute)
  {
    if b > 0 {
      ForwardSplit(ls, input, a, b - 1, compute);
      assert ls[a..][b - 1] == ls[a + b - 1];
    }
  }

  /**
   * When every layer computes `outputs` values, the network's result has the
   * size of the last layer's outputs.
   */
  lemma {:induction false} ForwardSize(ls: seq<Layer>, input: seq<real>, n: nat, compute: (Layer, seq<real>) -> seq<real>)
    requires 0 < n <= |ls|
    requires forall l, x :: |compute(l, x)| == l.outputs as nat
    ensures |Forward(ls, input, n, compute)| == ls[n - 1].outputs as nat
  {
  }

  /** Adding layers one by one with AddLayer keeps the chained ones and stops growing at the first that does not chain. */
  lemma {:induction false} AddChains(ls: seq<Layer>, l: Layer)
    requires Chained(ls) && Accepts(ls, l)
    ensures Chained(ls + [l])
  {
  }

  // The streaming FromJSON.

  /** The tokens before the first layer: the object, the Type check and the Layers array. */
  predicate HeaderAt(items: seq<Item>)
  {
    TokenAt(items, 0, J.BeginObject) && PairAt(items, 1, "Type", J.String) && At(items, 2).text == MLP_TYPE &&
    PairAt(items, 3, "Layers", J.BeginArray)
  }

  /** A layer's three name/value pairs, validated, up to the BeginArray of its biases. */
  function LayerHeadAt(items: seq<Item>, p: nat): (r: Option<(u32, u32, ActivationFunction)>)
    ensures r.Some? ==> r.value.0 > 0 && r.value.1 > 0 && r.value.2 != Invalid
  {
    if !(PairAt(items, p + 1, "Inputs", J.Number) && PairAt(items, p + 3, "Outputs", J.Number) &&
         PairAt(items, p + 5, "Function", J.String))
    then None
    else
      var i, o, f := At(items, p + 2).count, At(items, p + 4).count, FunctionNamed(At(items, p + 6).text);
      if i > U32_MAX || i == 0 || o > U32_MAX || o == 0 || f == Invalid || !PairAt(items, p + 7, "Biases", J.BeginArray) then None
      else Some((i as u32, o as u32, f))
  }

  /** o biases from p + 9, their EndArray, the Weights pair, o rows of i, and the weights' EndArray; then the position after it. */
  function LayerArraysAt(items: seq<Item>, p: nat, i: nat, o: nat): (r: Option<(seq<real>, seq<seq<real>>, nat)>)
    requires o > 0
    ensures r.Some? ==> p < r.value.2 <= |items|
  {
    match NumbersTo(items, p + 9, o)
    case None => None
    case Some(b) =>
      if !TokenAt(items, p + 9 + o, J.EndArray) || !PairAt(items, p + 10 + o, "Weights", J.BeginArray) then None
      else match RowsTo(items, p + 12 + o, i, o)
        case None => None
        case Some((w, e)) =>
          if TokenAt(items, e, J.EndArray) then TokenInside(items, e, J.EndArray); Some((b, w, e + 1)) else None
  }

  /**
   * One layer from its BeginObject at p, and the position of the next token
   * to read. As written (endObject false) the layer's EndObject is left for
   * the loop; with endObject it is consumed.
   */
  function LayerAt(items: seq<Item>, p: nat, endObject: bool): (r: Option<(Layer, nat)>)
    ensures r.Some? ==> p < r.value.1 <= |items|
  {
    match LayerHeadAt(items, p)
    case None => None
    case Some((i, o, f)) =>
      match LayerArraysAt(items, p, i as nat, o as nat)
      case None => None
      case Some((b, w, q)) =>
        if !endObject then Some((Layer(i, o, f, b, w), q))
        else if TokenAt(items, q, J.EndObject) then TokenInside(items, q, J.EndObject); Some((Layer(i, o, f, b, w), q + 1))
        else None
  }

  /** The arrays read have the sizes the layer's counts give. */
  lemma LayerArraysShaped(items: seq<Item>, p: nat, i: nat, o: nat)
    requires o > 0 && LayerArraysAt(items, p, i, o).Some?
    ensures |LayerArraysAt(items, p, i, o).value.0| == o && |LayerArraysAt(items, p, i, o).value.1| == o
    ensures forall j :: 0 <= j < o ==> |LayerArraysAt(items, p, i, o).value.1[j]| == i
  {
  }

  /** Every layer the loader reads has non-zero sizes, a known function and arrays of those sizes. */
  lemma LayerAtFits(items: seq<Item>, p: nat, endObject: bool)
    requires LayerAt(items, p, endObject).Some?
    ensures LayerFits(LayerAt(items, p, endObject).value.0)
  {
    var (i, o, f) := LayerHeadAt(items, p).value;
    LayerArraysShaped(items, p, i as nat, o as nat);
  }

  /**
   * The layer loop from position p with the layers acc already added: an
   * EndArray ends it (and the object's EndObject must follow), anything but
   * a BeginObject fails. As written the result of AddLayer is ignored, so a
   * layer that does not chain is dropped; corrected, it fails the load, and
   * each layer's EndObject is consumed.
   */
  function LayersFrom(items: seq<Item>, p: nat, acc: seq<Layer>, corrected: bool): Option<seq<Layer>>
    requires p <= |items|
    decreases |items| - p, 1
  {
    if TokenAt(items, p, J.EndArray) then (if TokenAt(items, p + 1, J.EndObject) then Some(acc) else None)
    else if !TokenAt(items, p, J.BeginObject) then None
    else LayerThen(items, p, acc, corrected)
  }

  /** One pass of the loop from a layer's BeginObject at p: read the layer, add it, and go on. */
  function LayerThen(items: seq<Item>, p: nat, acc: seq<Layer>, corrected: bool): Option<seq<Layer>>
    requires p <= |items|
    decreases |items| - p, 0
  {
    match LayerAt(items, p, corrected)
    case None => None
    case Some((l, q)) =>
      if Accepts(acc, l) then LayersFrom(items, q, acc + [l], corrected)
      else if corrected then None
      else LayersFrom(items, q, acc, corrected)
  }

  /**
   * A layer AddLayer refuses: the loop as written ignores the refusal and
   * goes on without the layer, the corrected loop fails the load.
   */
  lemma RefusedLayerDropped(items: seq<Item>, p: nat, acc: seq<Layer>, corrected: bool)
    requires p <= |items| && LayerAt(items, p, corrected).Some? && !Accepts(acc, LayerAt(items, p, corrected).value.0)
    ensures corrected ==> LayerThen(items, p, acc, corrected).None?
    ensures !corrected ==> LayerThen(items, p, acc, corrected) == LayersFrom(items, LayerAt(items, p, corrected).value.1, acc, corrected)
  {
  }

  /** Starting from chained layers, the loop only ends with chained layers: AddLayer keeps the chain. */
  lemma {:induction false} LayersFromChained(items: seq<Item>, p: nat, acc: seq<Layer>, corrected: bool)
    requires p <= |items| && Chained(acc)
    ensures LayersFrom(items, p, acc, corrected).Some? ==> Chained(LayersFrom(items, p, acc, corrected).value)
    decreases |items| - p
  {
    if !TokenAt(items, p, J.EndArray) && TokenAt(items, p, J.BeginObject) && LayerAt(items, p, corrected).Some? {
      assert LayersFrom(items, p, acc, corrected) == LayerThen(items, p, acc, corrected);
      var (l, q) := LayerAt(items, p, corrected).value;
      if Accepts(acc, l) {
        AddChains(acc, l);
        LayersFromChained(items, q, acc + [l], corrected);
      } else if !corrected {
        LayersFromChained(items, q, acc, corrected);
      }
    }
  }

  /** What the streaming FromJSON returns (None: nullptr); corrected as in LayersFrom. */
  function FromStream(items: seq<Item>, corrected: bool): (r: Option<seq<Layer>>)
    ensures r.Some? ==> Chained(r.value)
  {
    if HeaderAt(items) then
      TokenInside(items, 4, J.BeginArray);
      LayersFromChained(items, 5, [], corrected);
      LayersFrom(items, 5, [], corrected)
    else None
  }

  /** A run of n numbers from p, read one TryGetToken(Number) at a time. */
  method ReadNumbers(items: seq<Item>, p: nat, n: nat) returns (xs: Option<seq<real>>)
    ensures xs == NumbersTo(items, p, n)
  {
    var read: seq<real> := [];
    for k := 0 to n
      invariant NumbersTo(items, p, k) == Some(read)
    {
      if !TokenAt(items, p + k, J.Number) {
        NumbersStopped(items, p, k + 1, n);
        return None;
      }
      read := read + [At(items, p + k).number];
    }
    return Some(read);
  }

  /** One weight row: TryGetToken(BeginArray), n numbers, TryGetToken(EndArray). */
  method ReadRow(items: seq<Item>, p: nat, n: nat) returns (r: Option<seq<real>>)
    ensures r == Row(items, p, n)
  {
    if !TokenAt(items, p, J.BeginArray) {
      return None;
    }
    var xs := ReadNumbers(items, p + 1, n);
    if xs.None? || !TokenAt(items, p + 1 + n, J.EndArray) {
      return None;
    }
    TokenInside(items, p + 1 + n, J.EndArray);
    return xs;
  }

  /** The weight loop of one layer: o rows, each a BeginArray, i numbers and an EndArray. */
  method ReadRows(items: seq<Item>, p: nat, i: nat, o: nat) returns (r: Option<(seq<seq<real>>, nat)>)
    ensures r == RowsTo(items, p, i, o)
  {
    var rows: seq<seq<real>> := [];
    var q := p;
    for j := 0 to o
      invariant RowsTo(items, p, i, j) == Some((rows, q))
    {
      var row := ReadRow(items, q, i);
      if row.None? {
        RowsStopped(items, p, i, j + 1, o);
        return None;
      }
      rows := rows + [row.value];
      q := q + i + 2;
    }
    return Some((rows, q));
  }

  /** A layer's pairs and the validation of lines 295-303. */
  method ReadLayerHead(items: seq<Item>, p: nat) returns (r: Option<(u32, u32, ActivationFunction)>)
    ensures r == LayerHeadAt(items, p)
  {
    if !(PairAt(items, p + 1, "Inputs", J.Number) && PairAt(items, p + 3, "Outputs", J.Number) &&
         PairAt(items, p + 5, "Function", J.String)) {
      return None;
    }
    var i, o := At(items, p + 2).count, At(items, p + 4).count;
    var f := ParseFunction(At(items, p + 6).text);
    if i > U32_MAX || i == 0 || o > U32_MAX || o == 0 || f == Invalid || !PairAt(items, p + 7, "Biases", J.BeginArray) {
      return None;
    }
    return Some((i as u32, o as u32, f));
  }

  /** A layer's bias loop and weight loops with the tokens around them. */
  method ReadLayerArrays(items: seq<Item>, p: nat, i: nat, o: nat) returns (r: Option<(seq<real>, seq<seq<real>>, nat)>)
    requires o > 0
    ensures r == LayerArraysAt(items, p, i, o)
  {
    var b := ReadNumbers(items, p + 9, o);
    if b.None? || !TokenAt(items, p + 9 + o, J.EndArray) || !PairAt(items, p + 10 + o, "Weights", J.BeginArray) {
      return None;
    }
    var w := ReadRows(items, p + 12 + o, i, o);
    if w.None? || !TokenAt(items, w.value.1, J.EndArray) {
      return None;
    }
    TokenInside(items, w.value.1, J.EndArray);
    return Some((b.value, w.value.0, w.value.1 + 1));
  }

  /** The body of the layer loop for one layer, with its EndObject consumed. */
  method ReadLayer(items: seq<Item>, p: nat) returns (r: Option<(Layer, nat)>)
    ensures r == LayerAt(items, p, true)
  {
    var head := ReadLayerHead(items, p);
    if head.None? {
      return None;
    }
    var (i, o, f) := head.value;
    var arrays := ReadLayerArrays(items, p, i as nat, o as nat);
    if arrays.None? {
      return None;
    }
    var (b, w, q) := arrays.value;
    if !TokenAt(items, q, J.EndObject) {
      return None;
    }
    TokenInside(items, q, J.EndObject);
    return Some((Layer(i, o, f, b, w), q + 1));
  }

  /**
   * The streaming FromJSON, with each layer's EndObject consumed and a
   * refused AddLayer failing the load: nullptr exactly when the corrected
   * FromStream is None, and otherwise a new network holding its layers.
   */
  method ReadStream(items: seq<Item>) returns (mlp: MultilayerPerceptron?)
    ensures mlp == null <==> FromStream(items, true).None?
    ensures mlp != null ==> fresh(mlp) && mlp.Valid() && mlp.layers == FromStream(items, true).value
  {
    if !HeaderAt(items) {
      return null;
    }
    TokenInside(items, 4, J.BeginArray);
    mlp := new MultilayerPerceptron();
    var p := 5;
    while true
      invariant p <= |items| && fresh(mlp) && mlp.Valid()
      invariant LayersFrom(items, p, mlp.layers, true) == FromStream(items, true)
      decreases |items| - p
    {
      if TokenAt(items, p, J.EndArray) {
        if TokenAt(items, p + 1, J.EndObject) {
          return mlp;
        }
        return null;
      }
      if !TokenAt(items, p, J.BeginObject) {
        return null;
      }
      assert LayersFrom(items, p, mlp.layers, true) == LayerThen(items, p, mlp.layers, true);
      var r := ReadLayer(items, p);
      if r.None? {
        return null;
      }
      var added := mlp.AddLayer(r.value.0);
      if !added {
        return null;
      }
      p := r.value.1;
    }
  }

  // The streaming ToJSON.

  const HEAD_ITEMS: seq<Item> := [BEGIN_OBJECT, NameItem("Type"), StringItem(MLP_TYPE), NameItem("Layers"), BEGIN_ARRAY]

  /** A layer's pairs up to the Biases name. */
  function LayerHeadItems(l: Layer): (r: seq<Item>)
    requires l.activation != Invalid
    ensures |r| == 8
  {
    [BEGIN_OBJECT, NameItem("Inputs"), CountItem(l.inputs as nat), NameItem("Outputs"), CountItem(l.outputs as nat),
     NameItem("Function"), StringItem(NameOf(l.activation)), NameItem("Biases")]
  }

  /** A layer's weight rows and the closing EndArray and EndObject. */
  function LayerTailItems(l: Layer): seq<Item>
  {
    RowsItemsTo(l.weights, |l.weights|) + [END_ARRAY, END_OBJECT]
  }

  /** One layer as the streaming ToJSON writes it. */
  function LayerItems(l: Layer): seq<Item>
    requires l.activation != Invalid
  {
    LayerHeadItems(l) + ArrayItems(l.biases) + [NameItem("Weights"), BEGIN_ARRAY] + LayerTailItems(l)
  }

  predicate AllNamed(ls: seq<Layer>)
  {
    forall k :: 0 <= k < |ls| ==> ls[k].activation != Invalid
  }

  /** The layers from k on. */
  function LayersItemsFrom(ls: seq<Layer>, k: nat): seq<Item>
    requires AllNamed(ls)
    decreases |ls| - k
  {
    if k >= |ls| then [] else LayerItems(ls[k]) + LayersItemsFrom(ls, k + 1)
  }

  /** The tokens the streaming ToJSON writes for the layers ls. */
  function ToStream(ls: seq<Layer>): seq<Item>
    requires AllNamed(ls)
  {
    HEAD_ITEMS + LayersItemsFrom(ls, 0) + [END_ARRAY, END_OBJECT]
  }

  lemma {:induction false} SegmentAt(items: seq<Item>, p: nat, seg: seq<Item>, i: nat)
    requires Segment(items, p, seg) && i < |seg|
    ensures At(items, p + i) == seg[i]
  {
  }

  lemma {:induction false} LayerHeadRead(items: seq<Item>, p: nat, l: Layer)
    requires LayerFits(l) && Segment(items, p, LayerHeadItems(l)) && TokenAt(items, p + 8, J.BeginArray)
    ensures TokenAt(items, p, J.BeginObject)
    ensures LayerHeadAt(items, p) == Some((l.inputs, l.outputs, l.activation))
  {
    var a := LayerHeadItems(l);
    SegmentAt(items, p, a, 0);
    SegmentAt(items, p, a, 1);
    SegmentAt(items, p, a, 2);
    SegmentAt(items, p, a, 3);
    SegmentAt(items, p, a, 4);
    SegmentAt(items, p, a, 5);
    SegmentAt(items, p, a, 6);
    SegmentAt(items, p, a, 7);
    ParseName(l.activation);
  }

  lemma {:induction false} LayerArraysRead(items: seq<Item>, p: nat, l: Layer)
    requires LayerFits(l)
    requires Segment(items, p + 8, ArrayItems(l.biases))
    requires Segment(items, p + 10 + l.outputs as nat, [NameItem("Weights"), BEGIN_ARRAY])
    requires Segment(items, p + 12 + l.outputs as nat, LayerTailItems(l))
    ensures LayerArraysAt(items, p, l.inputs as nat, l.outputs as nat) ==
      Some((l.biases, l.weights, p + 12 + l.outputs as nat + |RowsItemsTo(l.weights, |l.weights|)| + 1))
  {
    var o := l.outputs as nat;
    RowRead(items, p + 8, l.biases);
    SegmentAt(items, p + 10 + o, [NameItem("Weights"), BEGIN_ARRAY], 0);
    SegmentAt(items, p + 10 + o, [NameItem("Weights"), BEGIN_ARRAY], 1);
    var f := RowsItemsTo(l.weights, |l.weights|);
    SegmentSplit(items, p + 12 + o, f, [END_ARRAY, END_OBJECT]);
    RowsRead(items, p + 12 + o, l.weights, l.inputs as nat, |l.weights|);
    TakeAll(l.weights);
    SegmentAt(items, p + 12 + o + |f|, [END_ARRAY, END_OBJECT], 0);
  }

  /** Where the pieces of a written layer sit. */
  lemma {:induction false} LayerPieces(items: seq<Item>, p: nat, l: Layer)
    requires LayerFits(l) && Segment(items, p, LayerItems(l))
    ensures Segment(items, p, LayerHeadItems(l)) && Segment(items, p + 8, ArrayItems(l.biases))
    ensures Segment(items, p + 10 + l.outputs as nat, [NameItem("Weights"), BEGIN_ARRAY])
    ensures Segment(items, p + 12 + l.outputs as nat, LayerTailItems(l))
  {
    var a, b, c, d := LayerHeadItems(l), ArrayItems(l.biases), [NameItem("Weights"), BEGIN_ARRAY], LayerTailItems(l);
    SegmentSplit(items, p, a + b + c, d);
    SegmentSplit(items, p, a + b, c);
    SegmentSplit(items, p, a, b);
  }

  /** A written layer reads back; the next token is its EndObject, which only the corrected loop consumes. */
  lemma {:induction false} LayerRead(items: seq<Item>, p: nat, l: Layer, endObject: bool)
    requires LayerFits(l) && Segment(items, p, LayerItems(l))
    ensures TokenAt(items, p, J.BeginObject)
    ensures TokenAt(items, p + |LayerItems(l)| - 1, J.EndObject)
    ensures LayerAt(items, p, endObject) == Some((l, p + |LayerItems(l)| - (if endObject then 0 else 1)))
  {
    LayerPieces(items, p, l);
    SegmentAt(items, p + 8, ArrayItems(l.biases), 0);
    LayerHeadRead(items, p, l);
    LayerArraysRead(items, p, l);
    var f := RowsItemsTo(l.weights, |l.weights|);
    SegmentSplit(items, p + 12 + l.outputs as nat, f, [END_ARRAY, END_OBJECT]);
    SegmentAt(items, p + 12 + l.outputs as nat + |f|, [END_ARRAY, END_OBJECT], 1);
  }

  /** Every layer is one the streaming loader accepts. */
  predicate AllFit(ls: seq<Layer>)
  {
    forall j :: 0 <= j < |ls| ==> LayerFits(ls[j])
  }

  /** The layers from k on written from p, followed by the EndArray and EndObject that close the list and the object. */
  predicate WrittenFrom(items: seq<Item>, p: nat, ls: seq<Layer>, k: nat)
    requires AllNamed(ls)
    decreases |ls| - k
  {
    if k >= |ls| then Segment(items, p, [END_ARRAY, END_OBJECT])
    else Segment(items, p, LayerItems(ls[k])) && WrittenFrom(items, p + |LayerItems(ls[k])|, ls, k + 1)
  }

  lemma {:induction false} WrittenFromSplit(items: seq<Item>, p: nat, ls: seq<Layer>, k: nat)
    requires k <= |ls| && AllNamed(ls) && Segment(items, p, LayersItemsFrom(ls, k))
    requires Segment(items, p + |LayersItemsFrom(ls, k)|, [END_ARRAY, END_OBJECT])
    ensures WrittenFrom(items, p, ls, k)
    decreases |ls| - k
  {
    if k < |ls| {
      SegmentSplit(items, p, LayerItems(ls[k]), LayersItemsFrom(ls, k + 1));
      WrittenFromSplit(items, p + |LayerItems(ls[k])|, ls, k + 1);
    }
  }

  /** As written, the first layer reads back and leaves its EndObject as the next token. */
  lemma {:induction false} FirstLayerAsWritten(items: seq<Item>, p: nat, ls: seq<Layer>)
    requires 0 < |ls| && AllFit(ls) && Segment(items, p, LayersItemsFrom(ls, 0))
    ensures p + |LayerItems(ls[0])| <= |items| && TokenAt(items, p, J.BeginObject)
    ensures TokenAt(items, p + |LayerItems(ls[0])| - 1, J.EndObject)
    ensures LayerAt(items, p, false) == Some((ls[0], (p + |LayerItems(ls[0])| - 1) as nat))
  {
    assert LayerFits(ls[0]);
    SegmentSplit(items, p, LayerItems(ls[0]), LayersItemsFrom(ls, 1));
    LayerRead(items, p, ls[0], false);
  }

  /** One pass of the layer loop over a layer that AddLayer takes. */
  lemma {:induction false} LayersFromStep(items: seq<Item>, p: nat, acc: seq<Layer>, l: Layer, q: nat, corrected: bool)
    requires p <= |items| && TokenAt(items, p, J.BeginObject) && LayerAt(items, p, corrected) == Some((l, q))
    requires Accepts(acc, l)
    ensures q <= |items| && LayersFrom(items, p, acc, corrected) == LayersFrom(items, q, acc + [l], corrected)
  {
    assert LayersFrom(items, p, acc, corrected) == LayerThen(items, p, acc, corrected);
  }

  /** The layer loop fails on a token that is neither BeginObject nor EndArray. */
  lemma {:induction false} LayersFromStuck(items: seq<Item>, p: nat, acc: seq<Layer>, corrected: bool)
    requires p <= |items| && TokenAt(items, p, J.EndObject)
    ensures LayersFrom(items, p, acc, corrected).None?
  {
  }

  lemma {:induction false} ChainedPrefix(ls: seq<Layer>, k: nat)
    requires k < |ls| && Chained(ls)
    ensures Accepts(ls[..k], ls[k])
  {
  }

  lemma {:induction false} LayersFromSame(items: seq<Item>, p: nat, a: seq<Layer>, b: seq<Layer>)
    requires p <= |items| && a == b
    ensures LayersFrom(items, p, a, true) == LayersFrom(items, p, b, true)
  {
  }

  lemma {:induction false} TakeSnoc<T>(s: seq<T>, k: nat)
    requires k < |s|
    ensures s[..k] + [s[k]] == s[..k + 1]
  {
  }

  lemma {:induction false} TakeAll<T>(s: seq<T>)
    ensures s[..|s|] == s
  {
  }

  /** The corrected loop over a written layer that chains onto acc adds it and goes on after it. */
  lemma {:induction false} LayerStep(items: seq<Item>, p: nat, acc: seq<Layer>, l: Layer)
    requires LayerFits(l) && Segment(items, p, LayerItems(l)) && Accepts(acc, l)
    ensures p + |LayerItems(l)| <= |items|
    ensures LayersFrom(items, p, acc, true) == LayersFrom(items, p + |LayerItems(l)|, acc + [l], true)
  {
    LayerRead(items, p, l, true);
    LayersFromStep(items, p, acc, l, (p + |LayerItems(l)|) as nat, true);
  }

  /** The corrected loop over the written layer k gives what it gives from the next layer on, with layer k added. */
  lemma {:induction false} LayerReadStep(items: seq<Item>, p: nat, acc: seq<Layer>, l: Layer, next: seq<Layer>)
    requires LayerFits(l) && Accepts(acc, l) && Segment(items, p, LayerItems(l)) && acc + [l] == next
    ensures p + |LayerItems(l)| <= |items|
    ensures LayersFrom(items, p, acc, true) == LayersFrom(items, p + |LayerItems(l)|, next, true)
  {
    LayerStep(items, p, acc, l);
    LayersFromSame(items, p + |LayerItems(l)|, acc + [l], next);
  }

  /** The corrected layer loop reads back written chained layers from k on. */
  lemma {:induction false} LayersRead(items: seq<Item>, p: nat, ls: seq<Layer>, k: nat)
    requires k <= |ls| && Chained(ls) && AllFit(ls) && WrittenFrom(items, p, ls, k)
    ensures p <= |items| && LayersFrom(items, p, ls[..k], true) == Some(ls)
    decreases |ls| - k
  {
    if k == |ls| {
      LayersReadDone(items, p, ls);
    } else {
      var q := WrittenFromNext(items, p, ls, k);
      LayersRead(items, q, ls, k + 1);
      LayersReadLink(items, p, ls, k);
    }
  }

  /** Past written layer k, the layers from k + 1 are written. */
  lemma {:induction false} WrittenFromNext(items: seq<Item>, p: nat, ls: seq<Layer>, k: nat) returns (q: nat)
    requires k < |ls| && AllFit(ls) && WrittenFrom(items, p, ls, k)
    ensures AllNamed(ls) && q == p + |LayerItems(ls[k])| && Segment(items, p, LayerItems(ls[k])) && WrittenFrom(items, q, ls, k + 1)
  {
    q := p + |LayerItems(ls[k])|;
  }

  /** After the last written layer, the EndArray and EndObject end the loop with all the layers. */
  lemma {:induction false} LayersReadDone(items: seq<Item>, p: nat, ls: seq<Layer>)
    requires Segment(items, p, [END_ARRAY, END_OBJECT])
    ensures p <= |items| && LayersFrom(items, p, ls[..|ls|], true) == Some(ls)
  {
    SegmentAt(items, p, [END_ARRAY, END_OBJECT], 0);
    SegmentAt(items, p, [END_ARRAY, END_OBJECT], 1);
    TakeAll(ls);
  }

  /** Layer k of chained, fitting layers: it fits, it continues the first k, and adding it gives the first k + 1. */
  lemma {:induction false} PrefixFacts(ls: seq<Layer>, k: nat)
    requires k < |ls| && Chained(ls) && AllFit(ls)
    ensures LayerFits(ls[k]) && Accepts(ls[..k], ls[k]) && ls[..k] + [ls[k]] == ls[..k + 1]
  {
    ChainedPrefix(ls, k);
    TakeSnoc(ls, k);
  }

  lemma {:induction false} LayersReadLink(items: seq<Item>, p: nat, ls: seq<Layer>, k: nat)
    requires k < |ls| && Chained(ls) && AllFit(ls) && AllNamed(ls) && Segment(items, p, LayerItems(ls[k]))
    requires p + |LayerItems(ls[k])| <= |items| && LayersFrom(items, p + |LayerItems(ls[k])|, ls[..k + 1], true) == Some(ls)
    ensures p <= |items| && LayersFrom(items, p, ls[..k], true) == Some(ls)
  {
    PrefixFacts(ls, k);
    LayersReadMore(items, p, ls[..k], ls[k], ls[..k + 1], Some(ls));
  }

  /** One more written layer in front of a loop that gives r. */
  lemma {:induction false} LayersReadMore(items: seq<Item>, p: nat, acc: seq<Layer>, l: Layer, next: seq<Layer>, r: Option<seq<Layer>>)
    requires LayerFits(l) && Accepts(acc, l) && Segment(items, p, LayerItems(l)) && acc + [l] == next
    requires p + |LayerItems(l)| <= |items| && LayersFrom(items, p + |LayerItems(l)|, next, true) == r
    ensures p <= |items| && LayersFrom(items, p, acc, true) == r
  {
    LayerReadStep(items, p, acc, l, next);
  }

  lemma {:induction false} HeadRead(items: seq<Item>)
    requires Segment(items, 0, HEAD_ITEMS)
    ensures HeaderAt(items)
  {
    SegmentAt(items, 0, HEAD_ITEMS, 0);
    SegmentAt(items, 0, HEAD_ITEMS, 1);
    SegmentAt(items, 0, HEAD_ITEMS, 2);
    SegmentAt(items, 0, HEAD_ITEMS, 3);
    SegmentAt(items, 0, HEAD_ITEMS, 4);
  }

  lemma {:induction false} ToStreamParts(ls: seq<Layer>)
    requires AllNamed(ls)
    ensures Segment(ToStream(ls), 0, HEAD_ITEMS) && Segment(ToStream(ls), 5, LayersItemsFrom(ls, 0))
    ensures Segment(ToStream(ls), 5 + |LayersItemsFrom(ls, 0)|, [END_ARRAY, END_OBJECT])
  {
    var items := ToStream(ls);
    assert Segment(items, 0, HEAD_ITEMS + LayersItemsFrom(ls, 0) + [END_ARRAY, END_OBJECT]);
    SegmentSplit(items, 0, HEAD_ITEMS + LayersItemsFrom(ls, 0), [END_ARRAY, END_OBJECT]);
    SegmentSplit(items, 0, HEAD_ITEMS, LayersItemsFrom(ls, 0));
  }

  lemma {:induction false} StreamRead(items: seq<Item>, ls: seq<Layer>)
    requires Chained(ls) && AllFit(ls)
    requires Segment(items, 0, HEAD_ITEMS) && Segment(items, 5, LayersItemsFrom(ls, 0))
    requires Segment(items, 5 + |LayersItemsFrom(ls, 0)|, [END_ARRAY, END_OBJECT])
    ensures FromStream(items, true) == Some(ls)
  {
    HeadRead(items);
    TokenInside(items, 4, J.BeginArray);
    WrittenFromSplit(items, 5, ls, 0);
    LayersRead(items, 5, ls, 0);
    assert ls[..0] == [];
  }

  /** The corrected streaming FromJSON reads back what the streaming ToJSON writes for chained valid layers. */
  lemma {:induction false} StreamRoundTrip(ls: seq<Layer>)
    requires Chained(ls) && AllFit(ls)
    ensures FromStream(ToStream(ls), true) == Some(ls)
  {
    ToStreamParts(ls);
    StreamRead(ToStream(ls), ls);
  }

  lemma {:induction false} FirstLayerStuck(items: seq<Item>, ls: seq<Layer>)
    requires |ls| > 0 && AllFit(ls)
    requires Segment(items, 0, HEAD_ITEMS) && Segment(items, 5, LayersItemsFrom(ls, 0))
    ensures FromStream(items, false).None?
  {
    HeadRead(items);
    TokenInside(items, 4, J.BeginArray);
    FirstLayerAsWritten(items, 5, ls);
    var q := (5 + |LayerItems(ls[0])| - 1) as nat;
    LayersFromStep(items, 5, [], ls[0], q, false);
    LayersFromStuck(items, q, [ls[0]], false);
  }

  /**
   * The streaming FromJSON as written reads back nothing the streaming
   * ToJSON writes for a network with a layer: after the first layer the
   * loop meets that layer's EndObject where it wants BeginObject or EndArray.
   */
  lemma {:induction false} WrittenNotReadBack(ls: seq<Layer>)
    requires |ls| > 0 && AllFit(ls)
    ensures FromStream(ToStream(ls), false).None?
  {
    ToStreamParts(ls);
    FirstLayerStuck(ToStream(ls), ls);
  }

  /** Only an empty network survives the as-written streaming load of its own output. */
  lemma {:induction false} EmptyReadBack()
    ensures FromStream(ToStream([]), false) == Some([]) && FromStream(ToStream([]), true) == Some([])
  {
    StreamRoundTrip([]);
    ToStreamParts([]);
    HeadRead(ToStream([]));
    TokenInside(ToStream([]), 4, J.BeginArray);
    LayersRead(ToStream([]), 5, [], 0);
    SegmentAt(ToStream([]), 5, [END_ARRAY, END_OBJECT], 0);
    SegmentAt(ToStream([]), 5, [END_ARRAY, END_OBJECT], 1);
  }

  // The cJSON FromJSON.

  /** cJSON's valueint: a C int. */
  type CInt = x: int | -0x8000_0000 <= x < 0x8000_0000

  /** A layer object as the cJSON FromJSON sees it: each lookup (None: null), counts as valueint. */
  datatype LayerDocument = LayerDocument(inputs: Option<CInt>, outputs: Option<CInt>, activation: Option<string>,
                                         biases: Option<seq<real>>, weights: Option<seq<seq<real>>>)

  /** The root object: the Type string and the Layers array (None: the lookup gave null). */
  datatype MlpDocument = MlpDocument(typeName: Option<string>, layers: Option<seq<LayerDocument>>)

  predicate LayerPresent(d: LayerDocument)
  {
    d.inputs.Some? && d.outputs.Some? && d.activation.Some? && d.biases.Some? && d.weights.Some?
  }

  /** valueint taken into a uint32_t, for a size it is compared equal to. */
  lemma {:induction false} WrapSize(x: CInt, n: nat)
    requires x == n
    ensures Wrap32(x) as nat == n
  {
  }

  /** Every row of w has n weights. */
  predicate RowsOf(w: seq<seq<real>>, n: nat)
  {
    forall j :: 0 <= j < |w| ==> |w[j]| == n
  }

  /** What one pass of the cJSON layer loop does: fail the load, skip the layer object, or add the layer. */
  datatype Outcome = Fail | Skip | Add(layer: Layer)

  /**
   * One layer object after the layers acc. A missing field, an unknown
   * function or a weight row of the wrong size fails the load. As written a
   * layer whose bias or row count differs from Outputs is skipped and
   * AddLayer's refusal is ignored; corrected, both fail the load.
   */
  function LayerOutcome(acc: seq<Layer>, d: LayerDocument, corrected: bool): (r: Outcome)
    ensures r.Add? ==> Accepts(acc, r.layer) && LayerShaped(r.layer) && r.layer.activation != Invalid
    ensures r.Skip? ==> !corrected
  {
    if !LayerPresent(d) then Fail
    else
      var f := FunctionNamed(d.activation.value);
      if f == Invalid then Fail
      else if !(|d.biases.value| == d.outputs.value && |d.weights.value| == d.outputs.value) then (if corrected then Fail else Skip)
      else
        WrapSize(d.outputs.value, |d.biases.value|);
        var l := Layer(Wrap32(d.inputs.value), Wrap32(d.outputs.value), f, d.biases.value, d.weights.value);
        if !RowsOf(l.weights, l.inputs as nat) then Fail
        else if Accepts(acc, l) then Add(l)
        else if corrected then Fail
        else Skip
  }

  /** The cJSON layer loop over the first k layer objects. */
  function DocumentLayersTo(ds: seq<LayerDocument>, k: nat, corrected: bool): Option<seq<Layer>>
    requires k <= |ds|
    decreases k, 1
  {
    if k == 0 then Some([]) else DocumentPass(ds, k, corrected)
  }

  /** The loop's pass over the layer object k - 1, after the passes before it. */
  function DocumentPass(ds: seq<LayerDocument>, k: nat, corrected: bool): Option<seq<Layer>>
    requires 0 < k <= |ds|
    decreases k, 0
  {
    match DocumentLayersTo(ds, k - 1, corrected)
    case None => None
    case Some(acc) =>
      match LayerOutcome(acc, ds[k - 1], corrected)
      case Fail => None
      case Skip => Some(acc)
      case Add(l) => Some(acc + [l])
  }

  /** The loop only loads layers that chain, with a known function and the arrays their counts give. */
  lemma {:induction false} DocumentLayersShaped(ds: seq<LayerDocument>, k: nat, corrected: bool)
    requires k <= |ds|
    ensures DocumentLayersTo(ds, k, corrected).Some? ==>
      Chained(DocumentLayersTo(ds, k, corrected).value) &&
      forall j :: 0 <= j < |DocumentLayersTo(ds, k, corrected).value| ==>
        LayerShaped(DocumentLayersTo(ds, k, corrected).value[j]) && DocumentLayersTo(ds, k, corrected).value[j].activation != Invalid
  {
    if k > 0 {
      assert DocumentLayersTo(ds, k, corrected) == DocumentPass(ds, k, corrected);
      DocumentLayersShaped(ds, k - 1, corrected);
      if DocumentLayersTo(ds, k - 1, corrected).Some? {
        var acc := DocumentLayersTo(ds, k - 1, corrected).value;
        var r := LayerOutcome(acc, ds[k - 1], corrected);
        if r.Add? {
          AddChains(acc, r.layer);
        }
      }
    }
  }

  /** A pass that adds a layer appends it to what the earlier passes loaded. */
  lemma {:induction false} DocumentAdd(ds: seq<LayerDocument>, k: nat, acc: seq<Layer>, l: Layer, corrected: bool)
    requires 0 < k <= |ds| && DocumentLayersTo(ds, k - 1, corrected) == Some(acc)
    requires LayerOutcome(acc, ds[k - 1], corrected) == Add(l)
    ensures DocumentLayersTo(ds, k, corrected) == Some(acc + [l])
  {
    assert DocumentLayersTo(ds, k, corrected) == DocumentPass(ds, k, corrected);
  }

  /** A pass that skips its layer object leaves what the earlier passes loaded. */
  lemma {:induction false} DocumentSkip(ds: seq<LayerDocument>, k: nat, acc: seq<Layer>, corrected: bool)
    requires 0 < k <= |ds| && DocumentLayersTo(ds, k - 1, corrected) == Some(acc)
    requires LayerOutcome(acc, ds[k - 1], corrected) == Skip
    ensures DocumentLayersTo(ds, k, corrected) == Some(acc)
  {
    assert DocumentLayersTo(ds, k, corrected) == DocumentPass(ds, k, corrected);
  }

  /** A pass that fails ends the load with nothing. */
  lemma {:induction false} DocumentFail(ds: seq<LayerDocument>, k: nat, acc: seq<Layer>, corrected: bool)
    requires 0 < k <= |ds| && DocumentLayersTo(ds, k - 1, corrected) == Some(acc)
    requires LayerOutcome(acc, ds[k - 1], corrected) == Fail
    ensures DocumentLayersTo(ds, k, corrected).None?
  {
    assert DocumentLayersTo(ds, k, corrected) == DocumentPass(ds, k, corrected);
  }

  /** What the cJSON FromJSON returns (None: nullptr). A missing Type, which the source dereferences, is taken as a mismatch. */
  function FromDocument(doc: Option<MlpDocument>, corrected: bool): (r: Option<seq<Layer>>)
    ensures r.Some? ==> Chained(r.value)
  {
    if doc.None? || doc.value.typeName != Some(MLP_TYPE) || doc.value.layers.None? then None
    else
      DocumentLayersShaped(doc.value.layers.value, |doc.value.layers.value|, corrected);
      DocumentLayersTo(doc.value.layers.value, |doc.value.layers.value|, corrected)
  }

  /** A layer the cJSON ToJSON can write: a known function, sizes that fit a C int, and the shapes. */
  predicate Documentable(l: Layer)
  {
    l.activation != Invalid && l.inputs < 0x8000_0000 && l.outputs < 0x8000_0000 && LayerShaped(l)
  }

  /** The layer object ToJSON builds for l. */
  function LayerDocumentOf(l: Layer): LayerDocument
    requires Documentable(l)
  {
    LayerDocument(Some(l.inputs as int), Some(l.outputs as int), Some(NameOf(l.activation)), Some(l.biases), Some(l.weights))
  }

  /** The object ToJSON builds for a layer that chains onto acc is added as that layer. */
  lemma {:induction false} LayerDocumentAdds(acc: seq<Layer>, l: Layer, corrected: bool)
    requires Documentable(l) && Accepts(acc, l)
    ensures LayerOutcome(acc, LayerDocumentOf(l), corrected) == Add(l)
  {
    ParseName(l.activation);
  }

  lemma {:induction false} DocumentLayersRead(ls: seq<Layer>, ds: seq<LayerDocument>, k: nat, corrected: bool)
    requires k <= |ls| && |ds| == |ls| && Chained(ls)
    requires forall j :: 0 <= j < |ls| ==> Documentable(ls[j]) && ds[j] == LayerDocumentOf(ls[j])
    ensures DocumentLayersTo(ds, k, corrected) == Some(ls[..k])
  {
    if k > 0 {
      DocumentLayersRead(ls, ds, k - 1, corrected);
      var l := ls[k - 1];
      assert Accepts(ls[..k - 1], l);
      LayerDocumentAdds(ls[..k - 1], l, corrected);
      DocumentAdd(ds, k, ls[..k - 1], l, corrected);
      TakeSnoc(ls, k - 1);
    }
  }

  function LayerDocumentsTo(ls: seq<Layer>, k: nat): (r: seq<LayerDocument>)
    requires k <= |ls| && forall j :: 0 <= j < |ls| ==> Documentable(ls[j])
    ensures |r| == k && forall j :: 0 <= j < k ==> r[j] == LayerDocumentOf(ls[j])
  {
    if k == 0 then [] else LayerDocumentsTo(ls, k - 1) + [LayerDocumentOf(ls[k - 1])]
  }

  /** Both cJSON loaders read back the object ToJSON builds for chained writable layers. */
  lemma {:induction false} DocumentRoundTrip(ls: seq<Layer>, corrected: bool)
    requires Chained(ls) && forall j :: 0 <= j < |ls| ==> Documentable(ls[j])
    ensures FromDocument(Some(MlpDocument(Some(MLP_TYPE), Some(LayerDocumentsTo(ls, |ls|)))), corrected) == Some(ls)
  {
    DocumentLayersRead(ls, LayerDocumentsTo(ls, |ls|), |ls|, corrected);
    assert ls[..|ls|] == ls;
  }

  /** The corrected loop only refuses more: whatever it loads, the as-written loop loads too. */
  lemma {:induction false} CorrectedAgrees(ds: seq<LayerDocument>, k: nat)
    requires k <= |ds|
    ensures DocumentLayersTo(ds, k, true).Some? ==> DocumentLayersTo(ds, k, false) == DocumentLayersTo(ds, k, true)
  {
    if k > 0 {
      assert DocumentLayersTo(ds, k, true) == DocumentPass(ds, k, true);
      assert DocumentLayersTo(ds, k, false) == DocumentPass(ds, k, false);
      CorrectedAgrees(ds, k - 1);
    }
  }

  const ONE_LINEAR: LayerDocument :=
    LayerDocument(Some(1), Some(1), Some(NameOf(Linear)), Some([0.0]), Some([[0.0]]))
  const TWO_LINEAR: LayerDocument :=
    LayerDocument(Some(2), Some(1), Some(NameOf(Linear)), Some([0.0]), Some([[0.0, 0.0]]))
  const SHORT_BIASES: LayerDocument :=
    LayerDocument(Some(1), Some(1), Some(NameOf(Linear)), Some([]), Some([[0.0]]))

  /**
   * As written, a second layer with 2 inputs after a layer with 1 output is
   * refused by AddLayer and the load still succeeds, with one layer; the
   * corrected load fails.
   */
  lemma {:induction false} MismatchDropped()
    ensures FromDocument(Some(MlpDocument(Some(MLP_TYPE), Some([ONE_LINEAR, TWO_LINEAR]))), false) ==
      Some([Layer(1, 1, Linear, [0.0], [[0.0]])])
    ensures FromDocument(Some(MlpDocument(Some(MLP_TYPE), Some([ONE_LINEAR, TWO_LINEAR]))), true).None?
  {
    var one, two := Layer(1, 1, Linear, [0.0], [[0.0]]), Layer(2, 1, Linear, [0.0], [[0.0, 0.0]]);
    var ds := [ONE_LINEAR, TWO_LINEAR];
    ParseName(Linear);
    assert Wrap32(1) == 1 && Wrap32(2) == 2;
    assert RowsOf(one.weights, 1) && RowsOf(two.weights, 2);
    assert LayerOutcome([], ds[0], false) == Add(one) && LayerOutcome([], ds[0], true) == Add(one);
    DocumentAdd(ds, 1, [], one, false);
    DocumentAdd(ds, 1, [], one, true);
    assert [] + [one] == [one];
    assert LayerOutcome([one], ds[1], false) == Skip && LayerOutcome([one], ds[1], true) == Fail;
    DocumentSkip(ds, 2, [one], false);
    DocumentFail(ds, 2, [one], true);
  }

  /** As written, a layer with no bias for its one output is skipped and the load succeeds without it; corrected, it fails. */
  lemma {:induction false} ShortLayerSkipped()
    ensures FromDocument(Some(MlpDocument(Some(MLP_TYPE), Some([SHORT_BIASES]))), false) == Some([])
    ensures FromDocument(Some(MlpDocument(Some(MLP_TYPE), Some([SHORT_BIASES]))), true).None?
  {
    ParseName(Linear);
    var ds := [SHORT_BIASES];
    assert LayerOutcome([], ds[0], false) == Skip && LayerOutcome([], ds[0], true) == Fail;
    DocumentSkip(ds, 1, [], false);
    DocumentFail(ds, 1, [], true);
  }
}
