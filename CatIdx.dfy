/**
 * The catidx tool (trunk/source/Tools/catidx/catidx.cpp): two or more IDX
 * files with the same data format and row dimensions are concatenated, in
 * argument order, into one little-endian file. `inputs` holds the result of
 * loading each argument but the last (None: Load failed); the last argument
 * names the output, which can be created when canCreate holds.
 */
module CatIdx {
  import opened Bytes
  import opened Wrappers
  import opened IdxTable

  /** The consistency test an input failed. */
  datatype Check = Load | Format | DimensionCount | Dimensions

  datatype Problem = Problem(check: Check, at: nat)

  datatype Outcome = Concatenated(output: Table) | Usage | Rejected(problem: Problem) | CannotCreate

  /** Same dimension count, and the same size in every dimension after the row count. */
  predicate SameRowShape(a: seq<nat>, b: seq<nat>)
  {
    |a| == |b| && forall j :: 1 <= j < |a| ==> a[j] == b[j]
  }

  /** Input k loaded and, after the first, agrees with the first in format and row dimensions. */
  predicate Fits(inputs: seq<Option<Table>>, k: nat)
    requires k < |inputs|
  {
    inputs[k].Some? &&
    (k == 0 || (inputs[0].Some? && inputs[k].value.format == inputs[0].value.format &&
      SameRowShape(inputs[0].value.dims, inputs[k].value.dims)))
  }

  /** The tests on a later input, in the order the loop makes them. */
  function Compare(first: Table, t: Table): Option<Check>
  {
    if t.format != first.format then Some(Format)
    else if |t.dims| != |first.dims| then Some(DimensionCount)
    else if !SameRowShape(first.dims, t.dims) then Some(Dimensions)
    else None
  }

  /** The first failed test among inputs k and after. */
  function FirstProblem(inputs: seq<Option<Table>>, k: nat): Option<Problem>
    requires k <= |inputs| && (k == 0 || inputs[0].Some?)
    decreases |inputs| - k
  {
    if k == |inputs| then None
    else if inputs[k].None? then Some(Problem(Load, k))
    else if k > 0 && Compare(inputs[0].value, inputs[k].value).Some? then
      Some(Problem(Compare(inputs[0].value, inputs[k].value).value, k))
    else FirstProblem(inputs, k + 1)
  }

  /** No test fails exactly when every input from k on fits. */
  lemma {:induction false} NoProblem(inputs: seq<Option<Table>>, k: nat)
    requires k <= |inputs| && (k == 0 || inputs[0].Some?)
    ensures FirstProblem(inputs, k).None? <==> forall i :: k <= i < |inputs| ==> Fits(inputs, i)
    decreases |inputs| - k
  {
    if k < |inputs| && inputs[k].Some? {
      if k > 0 && Compare(inputs[0].value, inputs[k].value).Some? {
        assert !Fits(inputs, k);
      } else {
        assert Fits(inputs, k);
        NoProblem(inputs, k + 1);
      }
    } else if k < |inputs| {
      assert !Fits(inputs, k);
    }
  }

  /** A reported problem is the first input from k on that does not fit, and names the test it failed. */
  lemma {:induction false} ProblemIsFirst(inputs: seq<Option<Table>>, k: nat)
    requires k <= |inputs| && (k == 0 || inputs[0].Some?)
    requires FirstProblem(inputs, k).Some?
    ensures var e := FirstProblem(inputs, k).value;
      k <= e.at < |inputs| && !Fits(inputs, e.at) && (forall i :: k <= i < e.at ==> Fits(inputs, i)) &&
      (e.check == Load <==> inputs[e.at].None?) &&
      (e.check == Format ==> inputs[e.at].value.format != inputs[0].value.format) &&
      (e.check == DimensionCount ==> |inputs[e.at].value.dims| != |inputs[0].value.dims|) &&
      (e.check == Dimensions ==> exists j :: 1 <= j < |inputs[0].value.dims| && j < |inputs[e.at].value.dims| && inputs[e.at].value.dims[j] != inputs[0].value.dims[j])
    decreases |inputs| - k
  {
    if inputs[k].Some? && !(k > 0 && Compare(inputs[0].value, inputs[k].value).Some?) {
      ProblemIsFirst(inputs, k + 1);
    }
  }

  /** Every input's rows, in argument order. */
  function AllRows(inputs: seq<Option<Table>>): seq<seq<nat>>
  {
    if inputs == [] then []
    else AllRows(inputs[..|inputs| - 1]) + (if inputs[|inputs| - 1].Some? then inputs[|inputs| - 1].value.rows else [])
  }

  /** The sum of the inputs' row counts. */
  function TotalRows(inputs: seq<Option<Table>>): nat
  {
    if inputs == [] then 0
    else TotalRows(inputs[..|inputs| - 1]) + (if inputs[|inputs| - 1].Some? then |inputs[|inputs| - 1].value.rows| else 0)
  }

  lemma {:induction false} AllRowsCount(inputs: seq<Option<Table>>)
    ensures |AllRows(inputs)| == TotalRows(inputs)
  {
    if inputs != [] {
      AllRowsCount(inputs[..|inputs| - 1]);
    }
  }

  lemma AllRowsSnoc(inputs: seq<Option<Table>>, i: nat)
    requires i < |inputs|
    ensures AllRows(inputs[..i + 1]) == AllRows(inputs[..i]) + (if inputs[i].Some? then inputs[i].value.rows else [])
  {
    assert inputs[..i + 1][..i] == inputs[..i];
  }

  /** Rows kept by AddRow, which refuses every row once the count is 2^32 - 1. */
  function Capped(rows: seq<seq<nat>>): (r: seq<seq<nat>>)
    ensures |r| <= U32_MAX && r <= rows
    ensures |rows| <= U32_MAX ==> r == rows
  {
    if |rows| <= U32_MAX then rows else rows[..U32_MAX]
  }

  lemma CappedSnoc(rows: seq<seq<nat>>, row: seq<nat>)
    ensures Capped(rows + [row]) == if |Capped(rows)| < U32_MAX then Capped(rows) + [row] else Capped(rows)
  {
    if |rows| > U32_MAX {
      assert (rows + [row])[..U32_MAX] == rows[..U32_MAX];
    }
  }

  /** The concatenated output, given every input fits: the first's format and row dimensions, little-endian. */
  function Output(inputs: seq<Option<Table>>): Table
    requires |inputs| > 0 && inputs[0].Some? && |inputs[0].value.dims| >= 1
  {
    var rows := Capped(AllRows(inputs));
    Table(true, inputs[0].value.format, [|rows|] + inputs[0].value.dims[1..], rows)
  }

  /** Inputs that all fit have rows of the first's row length, so the output is a consistent file. */
  lemma {:induction false} RowsOfFitting(inputs: seq<Option<Table>>, n: nat)
    requires 0 < n <= |inputs| && forall k :: 0 <= k < |inputs| ==> inputs[k].Some? ==> Consistent(inputs[k].value)
    requires forall i :: 0 <= i < |inputs| ==> Fits(inputs, i)
    ensures Fits(inputs, 0) && |inputs[0].value.dims| >= 1
    ensures forall k :: 0 <= k < |AllRows(inputs[..n])| ==> |AllRows(inputs[..n])[k]| == RowLength(inputs[0].value.dims)
  {
    AllRowsSnoc(inputs, n - 1);
    assert Fits(inputs, 0) && Fits(inputs, n - 1);
    assert Consistent(inputs[0].value) && Consistent(inputs[n - 1].value);
    assert inputs[n - 1].value.dims[1..] == inputs[0].value.dims[1..];
    if n > 1 {
      RowsOfFitting(inputs, n - 1);
    } else {
      assert inputs[..0] == [];
    }
  }

  lemma OutputConsistent(inputs: seq<Option<Table>>)
    requires |inputs| > 0 && forall k :: 0 <= k < |inputs| ==> inputs[k].Some? ==> Consistent(inputs[k].value)
    requires forall i :: 0 <= i < |inputs| ==> Fits(inputs, i)
    ensures Fits(inputs, 0) && |inputs[0].value.dims| >= 1 && Consistent(Output(inputs))
  {
    RowsOfFitting(inputs, |inputs|);
    assert inputs[..|inputs|] == inputs;
    var d := inputs[0].value.dims;
    assert ([|Capped(AllRows(inputs))|] + d[1..])[1..] == d[1..];
  }

  /** Below 2^32 - 1 rows in all, the output holds every input row, and its row count is their sum. */
  lemma {:induction false} NothingDropped(inputs: seq<Option<Table>>)
    requires TotalRows(inputs) <= U32_MAX
    requires |inputs| > 0 && inputs[0].Some? && |inputs[0].value.dims| >= 1
    ensures Output(inputs).rows == AllRows(inputs) && Output(inputs).dims[0] == TotalRows(inputs)
  {
    AllRowsCount(inputs);
  }

  /** main: usage, then the consistency loop, then the output file and the copy loop. */
  method Concatenate(inputs: seq<Option<Table>>, canCreate: bool) returns (r: Outcome)
    requires forall k :: 0 <= k < |inputs| ==> inputs[k].Some? ==> Consistent(inputs[k].value)
    ensures |inputs| < 2 ==> r == Usage
    ensures |inputs| >= 2 && FirstProblem(inputs, 0).Some? ==> r == Rejected(FirstProblem(inputs, 0).value)
    ensures r.Concatenated? <==> |inputs| >= 2 && canCreate && forall i :: 0 <= i < |inputs| ==> Fits(inputs, i)
    ensures r == CannotCreate <==> |inputs| >= 2 && !canCreate && forall i :: 0 <= i < |inputs| ==> Fits(inputs, i)
    ensures r.Concatenated? ==> Fits(inputs, 0) && |inputs[0].value.dims| >= 1 && r.output == Output(inputs) && Consistent(r.output)
  {
    NoProblem(inputs, 0);
    if |inputs| < 2 {
      return Usage;
    }
    var k := 0;
    while k < |inputs|
      invariant 0 <= k <= |inputs| && (k > 0 ==> inputs[0].Some?)
      invariant FirstProblem(inputs, 0) == FirstProblem(inputs, k)
    {
      if inputs[k].None? {
        return Rejected(Problem(Load, k));
      }
      if k > 0 {
        var first, t := inputs[0].value, inputs[k].value;
        if t.format != first.format {
          return Rejected(Problem(Format, k));
        }
        if |t.dims| != |first.dims| {
          return Rejected(Problem(DimensionCount, k));
        }
        var j := 1;
        while j < |first.dims|
          invariant 1 <= j <= |first.dims|
          invariant forall i :: 1 <= i < j ==> t.dims[i] == first.dims[i]
        {
          if t.dims[j] != first.dims[j] {
            return Rejected(Problem(Dimensions, k));
          }
          j := j + 1;
        }
      }
      k := k + 1;
    }
    if !canCreate {
      return CannotCreate;
    }
    var out: seq<seq<nat>> := [];
    for i := 0 to |inputs|
      invariant out == Capped(AllRows(inputs[..i]))
    {
      assert Fits(inputs, i);
      var rows := inputs[i].value.rows;
      AllRowsSnoc(inputs, i);
      for k := 0 to |rows|
        invariant out == Capped(AllRows(inputs[..i]) + rows[..k])
      {
        assert rows[..k + 1] == rows[..k] + [rows[k]];
        assert AllRows(inputs[..i]) + rows[..k + 1] == (AllRows(inputs[..i]) + rows[..k]) + [rows[k]];
        CappedSnoc(AllRows(inputs[..i]) + rows[..k], rows[k]);
        if |out| < U32_MAX {
          out := out + [rows[k]];
        }
      }
      assert rows[..|rows|] == rows;
    }
    assert inputs[..|inputs|] == inputs;
    OutputConsistent(inputs);
    r := Concatenated(Table(true, inputs[0].value.format, [|out|] + inputs[0].value.dims[1..], out));
  }
}
