/**
 * The buildmlp tool (trunk/source/Tools/buildmlp/buildmlp.cpp): a state
 * machine over the command line collects model files, each with the
 * transpose setting and layer range in force, and the output file; the
 * models are then turned into MLP layers whose dimensions must chain.
 * Reading and parsing model files, and opening the output, are parameters
 * (`load`, `canOpen`); sscanf("%u") is `scan`. Weights are not modelled:
 * a layer is its shape.
 */
module BuildMlp {
  import opened Bytes
  import opened Wrappers
  import opened Enums

  datatype Flag = NotAFlag | Forward | Transpose | Output | Layers

  /** parse_flag's table, in order. */
  function FlagAt(k: nat): Flag
    requires k < 4
  {
    match k
    case 0 => Forward
    case 1 => Transpose
    case 2 => Output
    case _ => Layers
  }

  function Spelling(k: nat): string
    requires k < 4
  {
    match k
    case 0 => "-f"
    case 1 => "-t"
    case 2 => "-o"
    case _ => "-n"
  }

  /** The flag of the first table entry from k on spelled exactly token. */
  function FlagFrom(token: string, k: nat): (f: Flag)
    requires k <= 4
    decreases 4 - k
  {
    if k == 4 then NotAFlag
    else if token == Spelling(k) then FlagAt(k)
    else FlagFrom(token, k + 1)
  }

  function ParseFlag(token: string): Flag
  {
    FlagFrom(token, 0)
  }

  lemma {:induction false} FlagFromSpelling(token: string, k: nat)
    requires k <= 4
    ensures FlagFrom(token, k) != NotAFlag <==> exists i :: k <= i < 4 && token == Spelling(i)
    ensures forall i :: k <= i < 4 && token == Spelling(i) ==> FlagFrom(token, k) == FlagAt(i)
    decreases 4 - k
  {
    if k < 4 {
      FlagFromSpelling(token, k + 1);
      if token == Spelling(k) {
        forall i | k < i < 4
          ensures token != Spelling(i)
        {
          assert Spelling(i) != Spelling(k);
        }
      }
    }
  }

  /** parse_flag: the four spellings give their flags; any other token is not a flag. */
  lemma ParseFlagSpellings(token: string)
    ensures ParseFlag(token) != NotAFlag <==> exists i :: 0 <= i < 4 && token == Spelling(i)
    ensures forall i :: 0 <= i < 4 && token == Spelling(i) ==> ParseFlag(token) == FlagAt(i)
  {
    FlagFromSpelling(token, 0);
  }

  /** parse_flag's loop. */
  method FindFlag(token: string) returns (f: Flag)
    ensures f == ParseFlag(token)
  {
    for k := 0 to 4
      invariant FlagFrom(token, k) == ParseFlag(token)
    {
      if token == Spelling(k) {
        return FlagAt(k);
      }
    }
    return NotAFlag;
  }

  /** START and FILENAME are the same state. */
  datatype State = Error | Filename | F | T | N | Idx | Count | O | OutFilename

  /** The state after a token whose flag is f. */
  function Next(s: State, f: Flag): State
  {
    match s
    case Filename =>
      (match f
       case Forward => F
       case Transpose => T
       case Layers => N
       case Output => O
       case NotAFlag => Filename)
    case F => (if f == Layers then N else if f == NotAFlag then Filename else Error)
    case T => (if f == NotAFlag then Filename else Error)
    case N => Idx
    case Idx => Count
    case Count => Filename
    case O => OutFilename
    case OutFilename => Error
    case Error => Error
  }

  datatype Layer = Layer(filename: string, transposed: bool, idx: u32, count: u32)

  /** The loop's variables: the state, the pending settings, the layers so far and the output. */
  datatype Machine = Machine(state: State, transposed: bool, idx: u32, count: u32, layers: seq<Layer>, output: Option<string>)

  const START: Machine := Machine(Filename, false, 0, 0, [], None)

  /** One token: None when the loop returns -1 on it. */
  function Step(m: Machine, token: string, scan: string -> Option<u32>, canOpen: string -> bool): Option<Machine>
  {
    match Next(m.state, ParseFlag(token))
    case Error => None
    case Filename =>
      Some(m.(state := Filename, layers := m.layers + [Layer(token, m.transposed, m.idx, m.count)], idx := 0, count := 0))
    case F => Some(m.(state := F, transposed := false))
    case T => Some(m.(state := T, transposed := true))
    case N => Some(m.(state := N))
    case Idx => if scan(token).None? then None else Some(m.(state := Idx, idx := scan(token).value))
    case Count =>
      if scan(token).None? || scan(token).value == 0 then None else Some(m.(state := Count, count := scan(token).value))
    case O => Some(m.(state := O))
    case OutFilename => if !canOpen(token) then None else Some(m.(state := OutFilename, output := Some(token)))
  }

  /** The machine after the tokens args (argv[1..]), or None once it has failed. */
  function Run(args: seq<string>, scan: string -> Option<u32>, canOpen: string -> bool): Option<Machine>
  {
    if args == [] then Some(START)
    else match Run(args[..|args| - 1], scan, canOpen)
      case None => None
      case Some(m) => Step(m, args[|args| - 1], scan, canOpen)
  }

  lemma RunSnoc(args: seq<string>, token: string, scan: string -> Option<u32>, canOpen: string -> bool)
    ensures Run(args + [token], scan, canOpen) ==
      if Run(args, scan, canOpen).None? then None else Step(Run(args, scan, canOpen).value, token, scan, canOpen)
  {
    assert (args + [token])[..|args|] == args;
  }

  /**
   * The file fopen'd with "wb" (and so truncated) while the command line is
   * read: the output of the longest prefix of the tokens the loop accepts,
   * since an error after "-o FILE" returns with FILE already open.
   */
  function Opened(args: seq<string>, scan: string -> Option<u32>, canOpen: string -> bool): Option<string>
  {
    match Run(args, scan, canOpen)
    case Some(m) => m.output
    case None => if args == [] then None else Opened(args[..|args| - 1], scan, canOpen)
  }

  /** Tokens after the loop has failed open nothing. */
  lemma {:induction false} StaysOpened(args: seq<string>, n: nat, scan: string -> Option<u32>, canOpen: string -> bool)
    requires n <= |args| && Run(args[..n], scan, canOpen).None?
    ensures Opened(args, scan, canOpen) == Opened(args[..n], scan, canOpen)
    decreases |args| - n
  {
    if n < |args| {
      assert args[..n + 1] == args[..n] + [args[n]];
      assert args[..n + 1][..n] == args[..n];
      RunSnoc(args[..n], args[n], scan, canOpen);
      StaysOpened(args, n + 1, scan, canOpen);
    } else {
      assert args[..n] == args;
    }
  }

  /**
   * Any token after "-o FILE" is an error, and FILE is left truncated: the
   * loop returns -1 after fopen has emptied it.
   */
  lemma ErrorAfterOutputEmpties(args: seq<string>, token: string, scan: string -> Option<u32>, canOpen: string -> bool)
    requires Run(args, scan, canOpen).Some? && Run(args, scan, canOpen).value.output.Some?
    ensures Run(args + [token], scan, canOpen).None?
    ensures Opened(args + [token], scan, canOpen) == Run(args, scan, canOpen).value.output
  {
    NothingAfterOutput(args, token, scan, canOpen);
    assert (args + [token])[..|args|] == args;
  }

  /** The loop of main over the command line, with the file it opened with "wb". */
  method ParseArguments(args: seq<string>, scan: string -> Option<u32>, canOpen: string -> bool)
    returns (r: Option<Machine>, truncated: Option<string>)
    ensures r == Run(args, scan, canOpen)
    ensures truncated == Opened(args, scan, canOpen)
  {
    var m := START;
    truncated := None;
    for k := 0 to |args|
      invariant Run(args[..k], scan, canOpen) == Some(m)
      invariant truncated == m.output == Opened(args[..k], scan, canOpen)
    {
      assert args[..k + 1] == args[..k] + [args[k]];
      RunSnoc(args[..k], args[k], scan, canOpen);
      var flag := FindFlag(args[k]);
      var next := Next(m.state, flag);
      match next {
        case Error =>
          StaysFailed(args, k + 1, scan, canOpen);
          FailsHere(args, k, m, scan, canOpen);
          return None, truncated;
        case Filename =>
          m := m.(state := Filename, layers := m.layers + [Layer(args[k], m.transposed, m.idx, m.count)], idx := 0, count := 0);
        case F =>
          m := m.(state := F, transposed := false);
        case T =>
          m := m.(state := T, transposed := true);
        case N =>
          m := m.(state := N);
        case Idx =>
          var v := scan(args[k]);
          if v.None? {
            StaysFailed(args, k + 1, scan, canOpen);
            FailsHere(args, k, m, scan, canOpen);
            return None, truncated;
          }
          m := m.(state := Idx, idx := v.value);
        case Count =>
          var v := scan(args[k]);
          if v.None? || v.value == 0 {
            StaysFailed(args, k + 1, scan, canOpen);
            FailsHere(args, k, m, scan, canOpen);
            return None, truncated;
          }
          m := m.(state := Count, count := v.value);
        case O =>
          m := m.(state := O);
        case OutFilename =>
          if !canOpen(args[k]) {
            StaysFailed(args, k + 1, scan, canOpen);
            FailsHere(args, k, m, scan, canOpen);
            return None, truncated;
          }
          m := m.(state := OutFilename, output := Some(args[k]));
          truncated := m.output;
      }
    }
    assert args[..|args|] == args;
    return Some(m), truncated;
  }

  /** The token at k is refused: the file opened so far is the one left. */
  lemma FailsHere(args: seq<string>, k: nat, m: Machine, scan: string -> Option<u32>, canOpen: string -> bool)
    requires k < |args| && Run(args[..k], scan, canOpen) == Some(m) && Step(m, args[k], scan, canOpen).None?
    ensures Opened(args, scan, canOpen) == m.output
  {
    assert args[..k + 1] == args[..k] + [args[k]];
    assert args[..k + 1][..k] == args[..k];
    RunSnoc(args[..k], args[k], scan, canOpen);
    StaysOpened(args, k + 1, scan, canOpen);
  }

  /** A failed run stays failed whatever follows. */
  lemma {:induction false} StaysFailed(args: seq<string>, n: nat, scan: string -> Option<u32>, canOpen: string -> bool)
    requires n <= |args| && Run(args[..n], scan, canOpen).None?
    ensures Run(args, scan, canOpen).None?
    decreases |args| - n
  {
    if n < |args| {
      assert args[..n + 1] == args[..n] + [args[n]];
      RunSnoc(args[..n], args[n], scan, canOpen);
      StaysFailed(args, n + 1, scan, canOpen);
    } else {
      assert args[..n] == args;
    }
  }

  /**
   * What the run keeps between tokens: idx and count are only pending in the
   * IDX and COUNT states, the output is set exactly in OUT_FILENAME, and
   * every layer either has no range (0, 0) or a positive count.
   */
  predicate Sound(m: Machine)
  {
    m.state != Error &&
    (m.state != Idx && m.state != Count ==> m.idx == 0 && m.count == 0) &&
    (m.state == Idx ==> m.count == 0) &&
    (m.state == Count ==> m.count > 0) &&
    (m.output.Some? <==> m.state == OutFilename) &&
    forall k :: 0 <= k < |m.layers| ==> m.layers[k].count > 0 || (m.layers[k].idx == 0 && m.layers[k].count == 0)
  }

  /** Every token keeps Sound. */
  lemma StepSound(m: Machine, token: string, scan: string -> Option<u32>, canOpen: string -> bool)
    requires Sound(m) && Step(m, token, scan, canOpen).Some?
    ensures Sound(Step(m, token, scan, canOpen).value)
  {
    var m' := Step(m, token, scan, canOpen).value;
    if Next(m.state, ParseFlag(token)) == Filename {
      assert m'.layers == m.layers + [Layer(token, m.transposed, m.idx, m.count)];
      assert m.state == Filename || m.state == F || m.state == T || m.state == Count;
    }
  }

  lemma {:induction false} RunSound(args: seq<string>, scan: string -> Option<u32>, canOpen: string -> bool)
    requires Run(args, scan, canOpen).Some?
    ensures Sound(Run(args, scan, canOpen).value)
  {
    if args != [] {
      var n := |args| - 1;
      assert args == args[..n] + [args[n]];
      RunSnoc(args[..n], args[n], scan, canOpen);
      RunSound(args[..n], scan, canOpen);
      StepSound(Run(args[..n], scan, canOpen).value, args[n], scan, canOpen);
    }
  }

  /** After the output file name, any further token is an error. */
  lemma NothingAfterOutput(args: seq<string>, token: string, scan: string -> Option<u32>, canOpen: string -> bool)
    requires Run(args, scan, canOpen).Some? && Run(args, scan, canOpen).value.output.Some?
    ensures Run(args + [token], scan, canOpen).None?
  {
    RunSound(args, scan, canOpen);
    RunSnoc(args, token, scan, canOpen);
  }

  /** Tokens that are not flags are model files, added untransposed with no range and in order. */
  lemma {:induction false} PlainFiles(args: seq<string>, scan: string -> Option<u32>, canOpen: string -> bool)
    requires forall k :: 0 <= k < |args| ==> ParseFlag(args[k]) == NotAFlag
    ensures Run(args, scan, canOpen).Some?
    ensures var m := Run(args, scan, canOpen).value;
      m.state == Filename && !m.transposed && m.output.None? &&
      |m.layers| == |args| && forall k :: 0 <= k < |args| ==> m.layers[k] == Layer(args[k], false, 0, 0)
  {
    if args != [] {
      var n := |args| - 1;
      assert args == args[..n] + [args[n]];
      RunSnoc(args[..n], args[n], scan, canOpen);
      PlainFiles(args[..n], scan, canOpen);
    }
  }

  lemma StepsOfRange(m: Machine, index: string, count: string, scan: string -> Option<u32>, canOpen: string -> bool)
    requires m.state == Filename && scan(index).Some? && scan(count).Some? && scan(count).value > 0
    ensures Step(m, "-n", scan, canOpen) == Some(m.(state := N))
    ensures Step(m.(state := N), index, scan, canOpen) == Some(m.(state := Idx, idx := scan(index).value))
    ensures Step(m.(state := Idx, idx := scan(index).value), count, scan, canOpen) ==
      Some(m.(state := Count, idx := scan(index).value, count := scan(count).value))
  {
    ParseFlagSpellings("-n");
    assert Spelling(3) == "-n";
  }

  /** "-n INDEX COUNT" after a file sets the pending range. */
  lemma RangeGiven(args: seq<string>, index: string, count: string, scan: string -> Option<u32>, canOpen: string -> bool)
    requires Run(args, scan, canOpen).Some? && Run(args, scan, canOpen).value.state == Filename
    requires scan(index).Some? && scan(count).Some? && scan(count).value > 0
    ensures var m := Run(args, scan, canOpen).value;
      Run(args + ["-n", index, count], scan, canOpen) ==
        Some(m.(state := Count, idx := scan(index).value, count := scan(count).value))
  {
    var m := Run(args, scan, canOpen).value;
    StepsOfRange(m, index, count, scan, canOpen);
    RunSnoc(args, "-n", scan, canOpen);
    var a1 := args + ["-n"];
    assert a1 + [index] == args + ["-n", index];
    RunSnoc(a1, index, scan, canOpen);
    var a2 := args + ["-n", index];
    assert a2 + [count] == args + ["-n", index, count];
    RunSnoc(a2, count, scan, canOpen);
  }

  /** "-n INDEX COUNT FILE" after a file adds FILE with that range, leaving transposition alone. */
  lemma RangedFile(args: seq<string>, index: string, count: string, file: string, scan: string -> Option<u32>, canOpen: string -> bool)
    requires Run(args, scan, canOpen).Some? && Run(args, scan, canOpen).value.state == Filename
    requires scan(index).Some? && scan(count).Some? && scan(count).value > 0
    ensures var m := Run(args, scan, canOpen).value;
      Run(args + ["-n", index, count, file], scan, canOpen) ==
        Some(m.(layers := m.layers + [Layer(file, m.transposed, scan(index).value, scan(count).value)]))
  {
    RunSound(args, scan, canOpen);
    RangeGiven(args, index, count, scan, canOpen);
    assert args + ["-n", index, count] + [file] == args + ["-n", index, count, file];
    RunSnoc(args + ["-n", index, count], file, scan, canOpen);
  }

  /** "-t FILE" after a file adds FILE transposed, and later files stay transposed. */
  lemma TransposedFile(args: seq<string>, file: string, scan: string -> Option<u32>, canOpen: string -> bool)
    requires Run(args, scan, canOpen).Some? && Run(args, scan, canOpen).value.state == Filename
    requires ParseFlag(file) == NotAFlag
    ensures var m := Run(args, scan, canOpen).value;
      Run(args + ["-t", file], scan, canOpen) ==
        Some(m.(transposed := true, layers := m.layers + [Layer(file, true, 0, 0)]))
  {
    RunSound(args, scan, canOpen);
    ParseFlagSpellings("-t");
    assert Spelling(1) == "-t";
    RunSnoc(args, "-t", scan, canOpen);
    assert args + ["-t"] + [file] == args + ["-t", file];
    RunSnoc(args + ["-t"], file, scan, canOpen);
  }

  /**
   * As written, main goes on after the loop whatever state it ended in: a
   * lone model file parses with no output file, and main then writes the
   * MLP through a null FILE*.
   */
  lemma MissingOutputParses(file: string, scan: string -> Option<u32>, canOpen: string -> bool)
    requires ParseFlag(file) == NotAFlag
    ensures Run([file], scan, canOpen) == Some(Machine(Filename, false, 0, 0, [Layer(file, false, 0, 0)], None))
  {
    assert [file][..0] == [];
    assert Run([], scan, canOpen) == Some(START);
    assert Next(Filename, ParseFlag(file)) == Filename;
    assert [] + [Layer(file, false, 0, 0)] == [Layer(file, false, 0, 0)];
    assert Step(START, file, scan, canOpen) == Some(Machine(Filename, false, 0, 0, [Layer(file, false, 0, 0)], None));
  }

  /** A layer of the MLP being built, by its dimensions and activation. */
  datatype Shape = Shape(inputs: u32, outputs: u32, activation: ActivationFunction)

  datatype Model =
    | RbmModel(visibleCount: u32, hiddenCount: u32, visibleType: ActivationFunction, hiddenType: ActivationFunction)
    | AeModel(visibleCount: u32, hiddenCount: u32, hiddenType: ActivationFunction, outputType: ActivationFunction)
    | MlpModel(layers: seq<Shape>)

  /**
   * The layer indices the copy loop visits for an MLP file with a range, as
   * written: k from idx while k < idx + count in uint32; nothing checks them
   * against the MLP's layer count.
   */
  function RangeAsWritten(idx: u32, count: u32): (r: seq<nat>)
  {
    var end := Wrap32(idx + count);
    if end <= idx then [] else seq(end - idx, i => idx + i)
  }

  /** Asking layers 1 and 2 of a two-layer MLP reads past its last layer. */
  lemma RangePastLastLayer()
    ensures RangeAsWritten(1, 2) == [1, 2] && 2 >= |[Shape(4, 3, Sigmoid), Shape(3, 2, Sigmoid)]|
  {
  }

  /**
   * The MLP layers one model file contributes, with a range past the MLP's
   * layers refused: an RBM or autoencoder gives one layer (visible→hidden,
   * or hidden→visible when transposed), an MLP its layers idx..idx+count-1,
   * or all of them without a range, and cannot be transposed.
   */
  function LayersOf(layer: Layer, model: Model): (r: Option<seq<Shape>>)
    ensures model.MlpModel? ==> (r.Some? <==> !layer.transposed && (layer.count == 0 || layer.idx + layer.count <= |model.layers|))
    ensures r.Some? && !model.MlpModel? ==> |r.value| == 1
    ensures r.Some? && model.MlpModel? ==> forall k :: 0 <= k < |r.value| ==> r.value[k] in model.layers
  {
    match model
    case RbmModel(v, h, vt, ht) => Some(if layer.transposed then [Shape(h, v, vt)] else [Shape(v, h, ht)])
    case AeModel(v, h, ht, ot) => Some(if layer.transposed then [Shape(h, v, ot)] else [Shape(v, h, ht)])
    case MlpModel(ls) =>
      if layer.transposed then None
      else if layer.count == 0 then Some(ls)
      else if layer.idx + layer.count <= |ls| then Some(ls[layer.idx..layer.idx + layer.count])
      else None
  }

  /** Every model file's layers in command-line order, or None when one is refused. */
  function AllLayers(layers: seq<Layer>, models: seq<Model>): Option<seq<Shape>>
    requires |layers| == |models|
  {
    if layers == [] then Some([])
    else
      var n := |layers| - 1;
      var before := AllLayers(layers[..n], models[..n]);
      var these := LayersOf(layers[n], models[n]);
      if before.None? || these.None? then None else Some(before.value + these.value)
  }

  /** The collection succeeds exactly when no model file is refused. */
  lemma {:induction false} AllLayersSome(layers: seq<Layer>, models: seq<Model>)
    requires |layers| == |models|
    ensures AllLayers(layers, models).Some? <==> forall k :: 0 <= k < |layers| ==> LayersOf(layers[k], models[k]).Some?
  {
    if layers != [] {
      var n := |layers| - 1;
      AllLayersSome(layers[..n], models[..n]);
      assert forall k :: 0 <= k < n ==> layers[..n][k] == layers[k] && models[..n][k] == models[k];
    }
  }

  /** The dimension check: each layer's outputs feed the next layer's inputs. */
  predicate Chained(shapes: seq<Shape>)
  {
    forall k :: 1 <= k < |shapes| ==> shapes[k - 1].outputs == shapes[k].inputs
  }

  /** The "ensure the dimensions all line up" loop. */
  method CheckDimensions(shapes: seq<Shape>) returns (ok: bool)
    ensures ok <==> Chained(shapes)
  {
    if shapes == [] {
      return true;
    }
    for k := 1 to |shapes|
      invariant forall i :: 1 <= i < k ==> shapes[i - 1].outputs == shapes[i].inputs
    {
      if shapes[k - 1].outputs != shapes[k].inputs {
        return false;
      }
    }
    return true;
  }

  /** The construction loop over the model files. */
  method CollectLayers(layers: seq<Layer>, models: seq<Model>) returns (r: Option<seq<Shape>>)
    requires |layers| == |models|
    ensures r == AllLayers(layers, models)
    ensures r.Some? <==> forall k :: 0 <= k < |layers| ==> LayersOf(layers[k], models[k]).Some?
  {
    AllLayersSome(layers, models);
    var shapes: seq<Shape> := [];
    for i := 0 to |layers|
      invariant AllLayers(layers[..i], models[..i]) == Some(shapes)
    {
      assert layers[..i + 1][..i] == layers[..i] && models[..i + 1][..i] == models[..i];
      var these := LayersOf(layers[i], models[i]);
      if these.None? {
        Refused(layers, models, i + 1);
        return None;
      }
      shapes := shapes + these.value;
    }
    assert layers[..|layers|] == layers && models[..|models|] == models;
    return Some(shapes);
  }

  lemma {:induction false} Refused(layers: seq<Layer>, models: seq<Model>, n: nat)
    requires |layers| == |models| && n <= |layers| && AllLayers(layers[..n], models[..n]).None?
    ensures AllLayers(layers, models).None?
    decreases |layers| - n
  {
    if n < |layers| {
      assert layers[..n + 1][..n] == layers[..n] && models[..n + 1][..n] == models[..n];
      Refused(layers, models, n + 1);
    } else {
      assert layers[..n] == layers && models[..n] == models;
    }
  }

  datatype Outcome =
    | Written(output: string, mlp: seq<Shape>)
    | Usage
    | BadArguments
    | NoOutput
    | CannotLoad(file: string)
    | CannotBuild
    | InconsistentDimensions

  /**
   * main, with an output file required: parse the command line, load every
   * model file (None: unreadable or unparsable), build the layers and check
   * that their dimensions chain. `emptied` is the file left truncated to
   * nothing: the output is opened with "wb" while the command line is read,
   * so every error after that leaves it empty.
   */
  method Build(args: seq<string>, scan: string -> Option<u32>, canOpen: string -> bool, load: string -> Option<Model>)
    returns (r: Outcome, emptied: Option<string>)
    ensures args == [] ==> r == Usage
    ensures r == BadArguments <==> args != [] && Run(args, scan, canOpen).None?
    ensures r == NoOutput <==> args != [] && Run(args, scan, canOpen).Some? && Run(args, scan, canOpen).value.output.None?
    ensures r.Written? <==>
      args != [] && Run(args, scan, canOpen).Some? && Run(args, scan, canOpen).value.output.Some? &&
      Plan(Run(args, scan, canOpen).value, load).Some? && Chained(Plan(Run(args, scan, canOpen).value, load).value)
    ensures r.Written? ==>
      r.output == Run(args, scan, canOpen).value.output.value && Some(r.mlp) == Plan(Run(args, scan, canOpen).value, load)
    ensures emptied == if r.Written? then None else Opened(args, scan, canOpen)
    ensures (r.CannotLoad? || r == CannotBuild || r == InconsistentDimensions) ==>
      emptied.Some? && emptied == Run(args, scan, canOpen).value.output
  {
    emptied := None;
    if args == [] {
      return Usage, emptied;
    }
    var parsed, truncated := ParseArguments(args, scan, canOpen);
    emptied := truncated;
    if parsed.None? {
      return BadArguments, emptied;
    }
    var m := parsed.value;
    if m.state != OutFilename {
      RunSound(args, scan, canOpen);
      return NoOutput, emptied;
    }
    RunSound(args, scan, canOpen);
    var models: seq<Model> := [];
    for i := 0 to |m.layers|
      invariant |models| == i && forall k :: 0 <= k < i ==> load(m.layers[k].filename) == Some(models[k])
    {
      var model := load(m.layers[i].filename);
      if model.None? {
        assert Plan(m, load).None?;
        return CannotLoad(m.layers[i].filename), emptied;
      }
      models := models + [model.value];
    }
    assert models == Loaded(m.layers, load);
    assert Plan(m, load) == AllLayers(m.layers, models);
    var shapes := CollectLayers(m.layers, models);
    if shapes.None? {
      return CannotBuild, emptied;
    }
    var ok := CheckDimensions(shapes.value);
    if !ok {
      return InconsistentDimensions, emptied;
    }
    return Written(m.output.value, shapes.value), None;
  }

  /** The loaded models, in layer order (each load assumed to succeed). */
  function Loaded(layers: seq<Layer>, load: string -> Option<Model>): (r: seq<Model>)
    ensures |r| == |layers|
  {
    seq(|layers|, k requires 0 <= k < |layers| => if load(layers[k].filename).Some? then load(layers[k].filename).value else MlpModel([]))
  }

  /** The layers main would write for the parsed command line: None when a file cannot be loaded or its layers are refused. */
  function Plan(m: Machine, load: string -> Option<Model>): (r: Option<seq<Shape>>)
    ensures r.Some? ==> forall k :: 0 <= k < |m.layers| ==> load(m.layers[k].filename).Some?
  {
    if forall k :: 0 <= k < |m.layers| ==> load(m.layers[k].filename).Some? then AllLayers(m.layers, Loaded(m.layers, load))
    else None
  }
}
