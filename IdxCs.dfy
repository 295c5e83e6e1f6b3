/**
 * The C# IDX container (trunk/helpers/IDX.cs): a stream holding an IDX header
 * followed by fixed-size rows. The stream is the field `stream`; the stream
 * position is implied by each operation, which always seeks before it reads
 * or writes. Debug.Assert conditions are preconditions. System endianness is
 * the constant `systemLittle`.
 */
module IdxCs {
  import opened Bytes
  import opened IdxFormat
  import opened Wrappers

  /** Whether the stored endianness value is the little-endian marker. */
  predicate IsLittle(e: int) { e == LITTLE_ENDIAN }

  predicate ValidEndianness(e: int) { e == BIG_ENDIAN || e == LITTLE_ENDIAN }

  /** The marker as the read constructor decodes it: 255 times the first byte plus the second. */
  function EndiannessAsWritten(b0: byte, b1: byte): int
  {
    255 * b0 + b1
  }

  /** Only the big-endian marker 00 00 passes the constructor's endianness assert. */
  lemma EndiannessAsWrittenRejectsLittle(b0: byte, b1: byte)
    ensures ValidEndianness(EndiannessAsWritten(b0, b1)) <==> b0 == 0 && b1 == 0
    ensures EndiannessAsWritten(0xFF, 0xFF) == 65280
  {
  }

  /** The marker decoded as the 16-bit value the write constructor stores. */
  function Endianness(b0: byte, b1: byte): int
  {
    256 * b0 + b1
  }

  /** The corrected decoding accepts exactly the two markers, with their meaning. */
  lemma EndiannessMarkers(b0: byte, b1: byte)
    ensures ValidEndianness(Endianness(b0, b1)) <==> ParseMarker(b0, b1).Some?
    ensures ValidEndianness(Endianness(b0, b1)) ==> ParseMarker(b0, b1) == Some(IsLittle(Endianness(b0, b1)))
    ensures Endianness(0xFF, 0xFF) == LITTLE_ENDIAN && Endianness(0, 0) == BIG_ENDIAN
  {
  }

  /** Bytes per cell by format code; an unknown code leaves the row length unmultiplied. */
  function CellFactor(code: byte): (r: nat)
    ensures IsFormatCode(code) ==> ParseFormat(code).Some? && r == Width(ParseFormat(code).value)
    ensures !IsFormatCode(code) ==> r == 1
  {
    if code == 0x08 || code == 0x09 then 1
    else if code == 0x0B then 2
    else if code == 0x0C || code == 0x0D then 4
    else if code == 0x0E then 8
    else 1
  }

  /** ReadUInt32: four stream bytes assembled in memory (reversed when the orders differ) and read as a machine uint. */
  method ReadUInt32(b: seq<byte>, e: int, systemLittle: bool) returns (r: u32)
    requires |b| == 4 && ValidEndianness(e)
    ensures r == Decode(b, IsLittle(e))
  {
    var buff := if IsLittle(e) == systemLittle then b else Reverse(b);
    SwapRule(b, IsLittle(e), systemLittle);
    r := Decode(buff, systemLittle);
  }

  /** WriteUInt32: the four bytes put on the stream, the machine image reversed when the orders differ. */
  method WriteUInt32(i: u32, e: int, systemLittle: bool) returns (r: seq<byte>)
    requires ValidEndianness(e)
    ensures r == Encode(i, 4, IsLittle(e))
  {
    var buff := Encode(i, 4, systemLittle);
    SwapRuleWrite(i, 4, IsLittle(e), systemLittle);
    r := if IsLittle(e) == systemLittle then buff else Reverse(buff);
  }

  /** A uint32 written by WriteUInt32 reads back by ReadUInt32 as the same value. */
  lemma ReadWriteUInt32(i: u32, e: int)
    requires ValidEndianness(e)
    ensures Decode(Encode(i, 4, IsLittle(e)), IsLittle(e)) == i
  {
    assert Pow256(4) == TWO32;
    DecodeEncode(i, 4, IsLittle(e));
  }

  /** The dimension cells of a new file: a row count of 0, then the row dimensions. */
  function HeaderCells(rowDims: seq<u32>): (r: seq<nat>)
    ensures |r| == 1 + |rowDims| && r[0] == 0 && r[1..] == rowDims
  {
    [0] + rowDims
  }

  /** The header the write constructor emits. */
  function HeaderImage(e: int, format: byte, rowDims: seq<u32>): (r: seq<byte>)
    requires ValidEndianness(e) && |rowDims| < 255
    ensures |r| == 8 + 4 * |rowDims|
  {
    MarkerBytes(IsLittle(e)) + [format, 1 + |rowDims|] + EncodeCells(HeaderCells(rowDims), 4, IsLittle(e))
  }

  datatype CsHeader = CsHeader(endianness: int, format: byte, dims: seq<nat>, rowLength: u32, rowLengthBytes: u32, headerSize: nat)

  /** What the read constructor's asserts demand of the stream. */
  predicate Readable(s: seq<byte>)
  {
    |s| >= 4 && ValidEndianness(Endianness(s[0], s[1])) && s[3] > 0 && |s| >= 4 + 4 * (s[3] as nat)
  }

  /** The header fields the read constructor derives from the stream. */
  function ParseHeader(s: seq<byte>): (h: CsHeader)
    requires Readable(s)
    ensures |h.dims| == s[3] as nat && h.headerSize == 4 + 4 * (s[3] as nat)
  {
    var e := Endianness(s[0], s[1]);
    var n := s[3] as nat;
    var dims := DecodeCells(s[4 .. 4 + 4 * n], 4, n, IsLittle(e));
    var rl := Product32(dims[1..]);
    CsHeader(e, s[2], dims, rl, Wrap32(rl * CellFactor(s[2])), 4 + 4 * n)
  }

  lemma ParseHeaderFields(s: seq<byte>)
    requires Readable(s)
    ensures ParseHeader(s).dims == DecodeCells(s[4 .. 4 + 4 * (s[3] as nat)], 4, s[3] as nat, IsLittle(Endianness(s[0], s[1])))
    ensures ParseHeader(s).rowLength == Product32(ParseHeader(s).dims[1..])
  {
  }

  /** The bytes of a header image, field by field. */
  lemma HeaderImageBytes(e: int, format: byte, rowDims: seq<u32>)
    requires ValidEndianness(e) && |rowDims| < 255
    ensures var h := HeaderImage(e, format, rowDims);
      Endianness(h[0], h[1]) == e && h[2] == format && h[3] as nat == 1 + |rowDims| &&
      h[4..] == EncodeCells(HeaderCells(rowDims), 4, IsLittle(e))
  {
    var little := IsLittle(e);
    var m := MarkerBytes(little);
    var h := HeaderImage(e, format, rowDims);
    assert h == m + [format, 1 + |rowDims|] + EncodeCells(HeaderCells(rowDims), 4, little);
    HeaderFieldsAt(m, format, 1 + |rowDims|, EncodeCells(HeaderCells(rowDims), 4, little), h);
    MarkerEndianness(m, little);
  }

  lemma HeaderFieldsAt(m: seq<byte>, format: byte, n: byte, body: seq<byte>, h: seq<byte>)
    requires |m| == 2 && h == m + [format, n] + body
    ensures h[0] == m[0] && h[1] == m[1] && h[2] == format && h[3] == n && h[4..] == body
  {
  }

  lemma MarkerEndianness(m: seq<byte>, little: bool)
    requires m == MarkerBytes(little)
    ensures Endianness(m[0], m[1]) == if little then LITTLE_ENDIAN else BIG_ENDIAN
  {
    if little { assert m == [0xFF, 0xFF]; } else { assert m == [0, 0]; }
  }

  /** A stream that starts with a header image parses to that image's fields. */
  lemma {:induction false} ParsePrefix(h: seq<byte>, rest: seq<byte>)
    requires |h| >= 4 && ValidEndianness(Endianness(h[0], h[1])) && h[3] > 0 && |h| == 4 + 4 * (h[3] as nat)
    ensures Readable(h + rest)
    ensures ParseHeader(h + rest) == ParseHeader(h)
  {
    var s := h + rest;
    assert s[..|h|] == h;
    assert s[4 .. 4 + 4 * (h[3] as nat)] == h[4 .. 4 + 4 * (h[3] as nat)];
  }

  /** Reading back a freshly written header gives the writer's geometry and a row count of 0. */
  lemma {:induction false} ParseHeaderImage(e: int, format: byte, rowDims: seq<u32>, rest: seq<byte>)
    requires ValidEndianness(e) && 1 < |rowDims| < 255
    ensures Readable(HeaderImage(e, format, rowDims) + rest)
    ensures var h := ParseHeader(HeaderImage(e, format, rowDims) + rest);
      h.endianness == e && h.format == format && h.dims == HeaderCells(rowDims) &&
      h.rowLength == Product(rowDims) % TWO32 && h.headerSize == |HeaderImage(e, format, rowDims)|
  {
    var h := HeaderImage(e, format, rowDims);
    var cells := HeaderCells(rowDims);
    HeaderImageBytes(e, format, rowDims);
    ParsePrefix(h, rest);
    assert h[4 .. 4 + 4 * (h[3] as nat)] == EncodeCells(cells, 4, IsLittle(e));
    U32CellsFit(cells);
    DecodeEncodeCells(cells, 4, IsLittle(e));
    ParseHeaderFields(h);
    assert cells[1..] == rowDims;
    Product32IsProductMod(rowDims);
  }

  lemma U32CellsFit(cells: seq<u32>)
    ensures forall k :: 0 <= k < |cells| ==> cells[k] < Pow256(4)
  {
    assert Pow256(4) == TWO32;
  }

  /** The dimensions read so far, as cells of the header. */
  function DimsPrefix(s: seq<byte>, k: nat): seq<nat>
    requires Readable(s) && k <= s[3] as nat
  {
    DecodeCells(s[4 .. 4 + 4 * k], 4, k, IsLittle(Endianness(s[0], s[1])))
  }

  lemma DimsPrefixStep(s: seq<byte>, k: nat)
    requires Readable(s) && k < s[3] as nat
    ensures DimsPrefix(s, k + 1) == DimsPrefix(s, k) + [Decode(s[4 + 4 * k .. 8 + 4 * k], IsLittle(Endianness(s[0], s[1])))]
  {
    DecodeCellsSnoc(s[4 .. 4 + 4 * k], s[4 + 4 * k .. 8 + 4 * k], 4, k, IsLittle(Endianness(s[0], s[1])));
    assert s[4 .. 4 + 4 * k] + s[4 + 4 * k .. 8 + 4 * k] == s[4 .. 4 + 4 * (k + 1)];
  }

  /** The header loop of the read constructor: the row count, then the product of the remaining dimensions. */
  method ReadDimensions(s: seq<byte>, sysLittle: bool) returns (rows: u32, rowLength: u32)
    requires Readable(s)
    ensures rows == DimsPrefix(s, s[3] as nat)[0]
    ensures rowLength == Product32(DimsPrefix(s, s[3] as nat)[1..])
  {
    var e := Endianness(s[0], s[1]);
    var dimensions := s[3] as nat;
    rows := ReadUInt32(s[4..8], e, sysLittle);
    DimsPrefixStep(s, 0);
    assert DimsPrefix(s, 0) == [];
    var rl: u32 := 1;
    var k := 1;
    while k < dimensions
      invariant 1 <= k <= dimensions
      invariant DimsPrefix(s, k)[0] == rows
      invariant rl == Product32(DimsPrefix(s, k)[1..])
    {
      var d := ReadUInt32(s[4 + 4 * k .. 8 + 4 * k], e, sysLittle);
      DimsPrefixStep(s, k);
      ghost var read := DimsPrefix(s, k);
      assert (read + [d])[1..] == read[1..] + [d];
      Product32Snoc(read[1..], d);
      rl := Wrap32(rl * d);
      k := k + 1;
    }
    rowLength := rl;
  }

  /** The write constructor's header output: marker, format, dimension count, a zero row count, the dimensions. */
  method WriteCsHeader(e: int, format: byte, rowDims: seq<u32>, sysLittle: bool) returns (header: seq<byte>)
    requires ValidEndianness(e) && |rowDims| < 255
    ensures header == HeaderImage(e, format, rowDims)
  {
    var prefix := MarkerBytes(IsLittle(e)) + [format, 1 + |rowDims|];
    var cells := CellsImage(HeaderCells(rowDims), 4, IsLittle(e), sysLittle);
    header := prefix + cells;
  }

  class Idx {
    var stream: seq<byte>
    var rows: u32
    var rowLength: u32
    var endianness: int
    const systemLittle: bool
    var format: byte
    var headerSize: u32
    var rowLengthBytes: u32
    var writing: bool

    predicate Valid()
      reads this
    {
      ValidEndianness(endianness)
    }

    /** Where row `index` starts; the uint arithmetic wraps. */
    function RowPosition(index: int): u32
      reads this
    {
      Wrap32(headerSize + Wrap32(rowLengthBytes * index))
    }

    /** The reading constructor: parses the header from the start of the stream. */
    constructor Read(s: seq<byte>, inWriting: bool, sysLittle: bool)
      requires Readable(s)
      ensures Valid()
      ensures stream == s && writing == inWriting && systemLittle == sysLittle
      ensures var h := ParseHeader(s);
        endianness == h.endianness && format == h.format && rows == h.dims[0] &&
        rowLength == h.rowLength && rowLengthBytes == h.rowLengthBytes && headerSize == h.headerSize
    {
      stream := s;
      writing := inWriting;
      systemLittle := sysLittle;
      var e := Endianness(s[0], s[1]);
      endianness := e;
      format := s[2];
      var first, rl := ReadDimensions(s, sysLittle);
      rows := first;
      rowLength := rl;
      rowLengthBytes := Wrap32(rl * CellFactor(s[2]));
      headerSize := 4 + 4 * (s[3] as nat);
    }

    /** The writing constructor: validates its arguments and writes a header with row count 0. */
    constructor Create(s: seq<byte>, sysLittle: bool, e: int, inFormat: byte, rowDims: seq<u32>)
      requires ValidEndianness(e) && IsFormatCode(inFormat)
      requires 1 < |rowDims| < 255
      requires forall i :: 0 <= i < |rowDims| ==> rowDims[i] > 0
      ensures Valid() && writing && systemLittle == sysLittle
      ensures endianness == e && format == inFormat && rows == 0
      ensures rowLength == Product(rowDims) % TWO32
      ensures rowLengthBytes == (rowLength * Width(ParseFormat(inFormat).value)) % TWO32
      ensures headerSize == |HeaderImage(e, inFormat, rowDims)|
      ensures stream == Splice(s, 0, HeaderImage(e, inFormat, rowDims))
    {
      writing := true;
      systemLittle := sysLittle;
      endianness := e;
      format := inFormat;
      var rl := RowLengthOf(rowDims);
      Product32IsProductMod(rowDims);
      rowLength := rl;
      rowLengthBytes := Wrap32(rl * CellFactor(inFormat));
      rows := 0;
      var header := WriteCsHeader(e, inFormat, rowDims, sysLittle);
      stream := Splice(s, 0, header);
      headerSize := |header|;
    }

    /** Appends one zero-filled row at header + row_bytes * rows and returns its index. */
    method AddRow() returns (index: u32)
      requires Valid() && writing && rows != U32_MAX
      modifies this`stream, this`rows
      ensures index == old(rows) && rows == old(rows) + 1
      ensures stream == Splice(old(stream), RowPosition(old(rows)), Zeros(rowLengthBytes))
    {
      var pos := RowPosition(rows);
      stream := Splice(stream, pos, Zeros(rowLengthBytes));
      index := rows;
      rows := rows + 1;
    }

    /** AddRows as written: each new row is filled with _row_length zero bytes. */
    method AddRowsAsWritten(count: u32)
      requires Valid() && writing && count != 0 && rows + count < TWO32
      modifies this`stream, this`rows
      ensures rows == old(rows) + count
      ensures stream == Splice(old(stream), RowPosition(old(rows)), Zeros(count * rowLength))
    {
      var pos := RowPosition(rows);
      stream := Splice(stream, pos, Zeros(count * rowLength));
      rows := rows + count;
    }

    /** AddRows as intended: each new row is filled with row_bytes zero bytes, like AddRow. */
    method AddRows(count: u32)
      requires Valid() && writing && count != 0 && rows + count < TWO32
      modifies this`stream, this`rows
      ensures rows == old(rows) + count
      ensures stream == Splice(old(stream), RowPosition(old(rows)), Zeros(count * rowLengthBytes))
    {
      var pos := RowPosition(rows);
      stream := Splice(stream, pos, Zeros(count * rowLengthBytes));
      rows := rows + count;
    }

    /** Cell width of the current format (the ReadRow/WriteRow overload that matches it). */
    function CellWidth(): nat
      reads this
    {
      CellFactor(format)
    }

    /**
     * ReadRow for the byte, sbyte, short, int and float overloads: each cell's
     * bytes are taken in stream order, or reversed when the file's byte order
     * is not the machine's, and the cell is the machine value of those bytes.
     */
    method ReadRow(index: u32) returns (cells: seq<nat>)
      requires Valid() && index < rows
      requires IsFormatCode(format) && format != 0x0E
      requires RowPosition(index) + rowLength * CellWidth() <= |stream|
      ensures |cells| == rowLength
      ensures cells == DecodeCells(stream[RowPosition(index) .. RowPosition(index) + rowLength * CellWidth()],
                                   CellWidth(), rowLength, IsLittle(endianness))
    {
      cells := ReadCells(stream, RowPosition(index), rowLength, CellWidth(), IsLittle(endianness), systemLittle);
    }

    /** The bytes a WriteRow overload emits for a row: each cell's machine image, reversed when orders differ. */
    method RowImage(cells: seq<nat>) returns (image: seq<byte>)
      requires Valid()
      ensures image == EncodeCells(cells, CellWidth(), IsLittle(endianness))
    {
      image := CellsImage(cells, CellWidth(), IsLittle(endianness), systemLittle);
    }

    /** How WriteRow leaves the row count, as written: the byte and float overloads add one. */
    static function RowsAfterWriteRowAsWritten(format: byte, rows: u32): int
    {
      if format == 0x08 || format == 0x0D then rows + 1 else rows
    }

    /** Where WriteRow puts the row, as written: the byte overload seeks to row `rows`, the others to row `index`. */
    function WritePositionAsWritten(index: u32, rows: u32): u32
      reads this
    {
      if format == 0x08 then RowPosition(rows) else RowPosition(index)
    }

    /** WriteRow as written: the byte overload writes at the end (row `rows`), and the byte and float overloads count a new row. */
    method WriteRowAsWritten(index: u32, cells: seq<nat>)
      requires Valid() && writing && index < rows && |cells| == rowLength
      requires IsFormatCode(format)
      requires RowsAfterWriteRowAsWritten(format, rows) < TWO32
      modifies this`stream, this`rows
      ensures rows == RowsAfterWriteRowAsWritten(format, old(rows))
      ensures stream == Splice(old(stream), WritePositionAsWritten(index, old(rows)),
                               EncodeCells(cells, CellWidth(), IsLittle(endianness)))
    {
      var image := RowImage(cells);
      var pos := WritePositionAsWritten(index, rows);
      stream := Splice(stream, pos, image);
      rows := RowsAfterWriteRowAsWritten(format, rows);
    }

    /** WriteRow as intended: overwrites row `index` in place and leaves the row count alone. */
    method WriteRow(index: u32, cells: seq<nat>)
      requires Valid() && writing && index < rows && |cells| == rowLength
      requires IsFormatCode(format)
      modifies this`stream
      ensures stream == Splice(old(stream), RowPosition(index), EncodeCells(cells, CellWidth(), IsLittle(endianness)))
    {
      var image := RowImage(cells);
      stream := Splice(stream, RowPosition(index), image);
    }
  }

  /** The as-written AddRows leaves a one-row SInt32 file with one byte where four belong. */
  lemma AddRowsAsWrittenTruncates()
    ensures var rowDims := [1, 1];
      var h := HeaderImage(BIG_ENDIAN, 0x0C, rowDims);
      var rowLength := Product(rowDims) % TWO32;
      var rowBytes := rowLength * CellFactor(0x0C);
      |Splice(h, |h|, Zeros(1 * rowLength))| < |h| + rowBytes &&
      |Splice(h, |h|, Zeros(1 * rowBytes))| == |h| + rowBytes
  {
    assert Product([1, 1]) == 1 by {
      assert [1, 1][..1] == [1];
      assert [1][..0] == [];
    }
  }

  /** With the as-written WriteRow a float file with one row claims two rows after rewriting row 0. */
  lemma WriteRowAsWrittenCountsRow()
    ensures Idx.RowsAfterWriteRowAsWritten(0x0D, 1) == 2
    ensures Idx.RowsAfterWriteRowAsWritten(0x08, 1) == 2
    ensures forall f: byte :: IsFormatCode(f) && f != 0x08 && f != 0x0D ==> Idx.RowsAfterWriteRowAsWritten(f, 1) == 1
  {
  }
}
