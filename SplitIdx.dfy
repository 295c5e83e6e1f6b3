/**
 * The splitidx tool (trunk/source/Tools/splitidx/splitidx.cpp): rows
 * from .. from + count - 1 of the input are copied to a new file. FROM and
 * COUNT are the results of sscanf("%u"): None when the scan failed, else the
 * uint32 it stored.
 */
module SplitIdx {
  import opened Bytes
  import opened Wrappers
  import opened IdxTable

  datatype Outcome =
    | Split(output: Table)
    | Usage
    | CannotLoad
    | CannotCreate
    | BadFrom
    | FromOutOfRange
    | BadCount
    | CountOutOfRange

  /**
   * The count test as written: from + count is a uint32 sum, so a count
   * that wraps it around passes the test.
   */
  predicate CountAcceptedAsWritten(from: u32, count: u32, rows: u32)
  {
    Wrap32(from + count) <= rows
  }

  /** The count test as intended: the copied rows all exist. */
  predicate CountAccepted(from: u32, count: u32, rows: u32)
  {
    from + count <= rows
  }

  /**
   * With two rows, FROM 1 and COUNT 2^32 - 1 the sum wraps to 0 and is
   * accepted, and the copy loop then asks for rows up to 2^32 - 1.
   */
  lemma WrappedCountAccepted()
    ensures CountAcceptedAsWritten(1, U32_MAX, 2) && !CountAccepted(1, U32_MAX, 2)
  {
  }

  /** The two tests agree whenever the sum does not wrap. */
  lemma CountTestsAgree(from: u32, count: u32, rows: u32)
    requires from + count < TWO32
    ensures CountAcceptedAsWritten(from, count, rows) <==> CountAccepted(from, count, rows)
  {
  }

  /** The copy loop: output row i is input row from + i. */
  method CopyRange(rows: seq<seq<nat>>, from: nat, count: nat) returns (out: seq<seq<nat>>)
    requires from + count <= |rows|
    ensures out == rows[from..from + count]
  {
    out := [];
    for i := 0 to count
      invariant out == rows[from..from + i]
    {
      assert rows[from..from + i + 1] == rows[from..from + i] + [rows[from + i]];
      out := out + [rows[from + i]];
    }
  }

  /**
   * main, with the count test corrected. The checks come in the source's
   * order: arguments, load, create, FROM, then COUNT only when a fifth
   * argument is given; without one every row from FROM on is copied.
   * `left` is the output file main leaves behind: Create writes a header
   * with no rows at once, and the file is closed on every path, so a run
   * that fails after Create leaves an empty table of the input's format.
   */
  method SplitFile(argc: int, input: Option<Table>, canCreate: bool, from: Option<u32>, count: Option<u32>)
    returns (r: Outcome, left: Option<Table>)
    requires input.Some? ==> Consistent(input.value)
    ensures argc < 4 ==> r == Usage
    ensures r.Split? <==>
      argc >= 4 && input.Some? && canCreate && from.Some? && from.value < |input.value.rows| &&
      (argc == 5 ==> count.Some? && CountAccepted(from.value, count.value, |input.value.rows|))
    ensures r == FromOutOfRange <==>
      argc >= 4 && input.Some? && canCreate && from.Some? && from.value >= |input.value.rows|
    ensures r == CountOutOfRange <==>
      argc == 5 && input.Some? && canCreate && from.Some? && from.value < |input.value.rows| &&
      count.Some? && !CountAccepted(from.value, count.value, |input.value.rows|)
    ensures r.Split? ==>
      var t := input.value;
      var n := if argc == 5 then count.value else |t.rows| - from.value;
      r.output == FlatTable(t.little, t.format, RowLength(t.dims), t.rows[from.value..from.value + n]) &&
      Consistent(r.output)
    ensures left.Some? <==> argc >= 4 && input.Some? && canCreate
    ensures r.Split? ==> left == Some(r.output)
    ensures !r.Split? && left.Some? ==>
      var t := input.value;
      left.value == FlatTable(t.little, t.format, RowLength(t.dims), []) && Consistent(left.value)
  {
    left := None;
    if argc < 4 {
      return Usage, left;
    }
    if input.None? {
      return CannotLoad, left;
    }
    if !canCreate {
      return CannotCreate, left;
    }
    var t := input.value;
    FlatConsistent(t.little, t.format, RowLength(t.dims), []);
    left := Some(FlatTable(t.little, t.format, RowLength(t.dims), []));
    if from.None? {
      return BadFrom, left;
    }
    var start := from.value;
    if start >= |t.rows| {
      return FromOutOfRange, left;
    }
    var n: nat;
    if argc == 5 {
      if count.None? {
        return BadCount, left;
      }
      if !CountAccepted(start, count.value, |t.rows|) {
        return CountOutOfRange, left;
      }
      n := count.value;
    } else {
      n := |t.rows| - start;
    }
    var rows := CopyRange(t.rows, start, n);
    FlatConsistent(t.little, t.format, RowLength(t.dims), rows);
    r := Split(FlatTable(t.little, t.format, RowLength(t.dims), rows));
    left := Some(r.output);
  }
}
