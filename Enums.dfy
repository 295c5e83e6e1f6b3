/**
 * Activation functions and their names (source/OMLT/OMLT/source/Enums.cpp).
 * ParseFunction is a linear search over the table of names.
 */
module Enums {
  datatype ActivationFunction = Linear | RectifiedLinear | Sigmoid | Softmax | Invalid

  /** ActivationFunctionNames, in enum order. */
  const NAMES: seq<string> := ["Linear", "RectifiedLinear", "Sigmoid", "Softmax"]

  /** The enum value numbered k. */
  function FunctionAt(k: nat): (f: ActivationFunction)
    requires k < |NAMES|
    ensures f != Invalid
  {
    [Linear, RectifiedLinear, Sigmoid, Softmax][k]
  }

  /** The position of a valid function in the table. */
  function Ordinal(f: ActivationFunction): (k: nat)
    requires f != Invalid
    ensures k < |NAMES| && FunctionAt(k) == f
  {
    match f
    case Linear => 0
    case RectifiedLinear => 1
    case Sigmoid => 2
    case Softmax => 3
  }

  function NameOf(f: ActivationFunction): string
    requires f != Invalid
  {
    NAMES[Ordinal(f)]
  }

  /** The names are pairwise different, so the first match is the only one. */
  lemma NamesDistinct()
    ensures forall i, j :: 0 <= i < j < |NAMES| ==> NAMES[i] != NAMES[j]
  {
    assert NAMES[0][0] == 'L' && NAMES[1][0] == 'R' && NAMES[2][0] == 'S' && NAMES[3][0] == 'S';
    assert NAMES[2][1] == 'i' && NAMES[3][1] == 'o';
  }

  /** The first function from position k on whose name is name, or Invalid. */
  function SearchFrom(name: string, k: nat): (f: ActivationFunction)
    requires k <= |NAMES|
    decreases |NAMES| - k
  {
    if k == |NAMES| then Invalid
    else if name == NAMES[k] then FunctionAt(k)
    else
      SearchFrom(name, k + 1)
  }

  /** What ParseFunction returns for a name. */
  lemma {:induction false} SearchFromMeaning(name: string, k: nat)
    requires k <= |NAMES|
    ensures SearchFrom(name, k) != Invalid <==> name in NAMES[k..]
    ensures SearchFrom(name, k) != Invalid ==> k <= Ordinal(SearchFrom(name, k)) && NAMES[Ordinal(SearchFrom(name, k))] == name
    ensures SearchFrom(name, k) != Invalid ==> forall i :: k <= i < Ordinal(SearchFrom(name, k)) ==> NAMES[i] != name
    decreases |NAMES| - k
  {
    if k < |NAMES| && name != NAMES[k] {
      assert NAMES[k..] == [NAMES[k]] + NAMES[k + 1..];
      SearchFromMeaning(name, k + 1);
    }
  }

  function FunctionNamed(name: string): (f: ActivationFunction)
    ensures f != Invalid <==> name in NAMES
    ensures f != Invalid ==> NAMES[Ordinal(f)] == name
  {
    SearchFromMeaning(name, 0);
    assert NAMES[0..] == NAMES;
    SearchFrom(name, 0)
  }

  /** The loop of ParseFunction: the names are compared in table order and the first equal one wins. */
  method ParseFunction(name: string) returns (f: ActivationFunction)
    ensures f == FunctionNamed(name)
  {
    for k := 0 to |NAMES|
      invariant SearchFrom(name, k) == SearchFrom(name, 0)
    {
      if name == NAMES[k] {
        return FunctionAt(k);
      }
    }
    return Invalid;
  }

  /** Parsing the name of a function gives that function back. */
  lemma ParseName(f: ActivationFunction)
    requires f != Invalid
    ensures FunctionNamed(NameOf(f)) == f
  {
    NamesDistinct();
  }

  /** A name outside the table parses as Invalid. */
  lemma UnknownName()
    ensures FunctionNamed("Tanh") == Invalid
  {
    assert "Tanh" !in NAMES by {
      assert "Tanh"[0] == 'T';
    }
  }
}
