/**
 * An IDX file as the command-line tools see it through the C++ container
 * (IdxCpp): its byte order, cell format and dimension list, and its rows of
 * cells. The tools only ever read whole rows and append whole rows.
 */
module IdxTable {
  import opened Bytes
  import opened IdxFormat

  datatype Table = Table(little: bool, format: DataFormat, dims: seq<nat>, rows: seq<seq<nat>>)

  /** GetRowLength: the uint32 product of every dimension after the row count. */
  function RowLength(dims: seq<nat>): u32
    requires |dims| >= 1
  {
    Product32(dims[1..])
  }

  /** What a loaded file holds: a row count matching its rows, each row of the row length. */
  predicate Consistent(t: Table)
  {
    1 <= |t.dims| < 256 && t.dims[0] == |t.rows| && |t.rows| < TWO32 &&
    forall k :: 0 <= k < |t.rows| ==> |t.rows[k]| == RowLength(t.dims)
  }

  /**
   * The file Create(name, endianness, format, row_length) and a run of AddRow
   * calls leave behind: one flat row dimension of the given length.
   */
  function FlatTable(little: bool, format: DataFormat, rowLength: u32, rows: seq<seq<nat>>): Table
  {
    Table(little, format, [|rows|, rowLength], rows)
  }

  /** A flat table of fewer than 2^32 rows of the given length is consistent. */
  lemma FlatConsistent(little: bool, format: DataFormat, rowLength: u32, rows: seq<seq<nat>>)
    requires |rows| < TWO32 && forall k :: 0 <= k < |rows| ==> |rows[k]| == rowLength
    ensures Consistent(FlatTable(little, format, rowLength, rows))
  {
    var ds := [|rows|, rowLength];
    assert ds[1..] == [rowLength];
    assert [rowLength][..0] == [];
    assert Product32([rowLength]) == Wrap32(Product32([]) * rowLength) == rowLength;
  }
}
