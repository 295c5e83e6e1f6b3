/**
 * The C++ IDX container (source/OMLT/OMLT/include/IDX.hpp). The open FILE is
 * the byte sequence `file`; every operation seeks before it reads or writes,
 * so the file position is not state. `_row_dimensions[0]` is the row count,
 * kept only in memory until Close rewrites the header. A file that cannot be
 * opened is the `None` (or `false`) argument of Load and Create.
 */
module IdxCpp {
  import opened Bytes
  import opened IdxFormat
  import opened Wrappers

  /** What a header must hold to be written and read back: one to 255 dimensions, each a uint32. */
  predicate WellFormed(h: Header)
  {
    1 <= |h.dims| < 256 && forall k :: 0 <= k < |h.dims| ==> h.dims[k] < TWO32
  }

  /** The uint8 _row_dimensions_count that Create stores for n row dimensions: n + 1, wrapped. */
  function StoredCount(n: nat): (r: nat)
    ensures r < 256
    ensures r == n + 1 <==> n < 255
  {
    (n + 1) % 256
  }

  /** Bytes per row: the uint32 product of the row dimensions, widened to int64 and times the cell width. */
  function RowBytes(format: DataFormat, dims: seq<nat>): nat
    requires |dims| >= 1
  {
    (Product(dims[1..]) % TWO32) * Width(format)
  }

  /**
   * The header Load accepts, or None. A file shorter than its header always
   * fails the size test (its size is below HeaderSize). With a dimension
   * count of 0 the size test reads the row count from a zero-sized
   * allocation, which is undefined; the model rejects that header.
   */
  function LoadHeader(f: seq<byte>): Option<Header>
  {
    if |f| < 4 || ParseMarker(f[0], f[1]).None? || ParseFormat(f[2]).None? then None
    else
      var n := f[3] as nat;
      if n == 0 || |f| < HeaderSize(n) then None
      else
        var h := Header(ParseMarker(f[0], f[1]).value, ParseFormat(f[2]).value,
                        DecodeCells(f[4 .. 4 + 4 * n], 4, n, ParseMarker(f[0], f[1]).value));
        if |f| == HeaderSize(n) + h.dims[0] * RowBytes(h.format, h.dims) then Some(h) else None
  }

  /** Load returns NULL for a marker other than 00 00 or FF FF and for an unknown format byte. */
  lemma LoadRejectsBadHeader(f: seq<byte>)
    requires |f| >= 4
    requires !(f[0] == f[1] == 0 || f[0] == f[1] == 0xFF) || !IsFormatCode(f[2])
    ensures LoadHeader(f).None?
  {
  }

  /** A header Load accepts is the file's first HeaderSize bytes, and the rest is exactly rows whole rows. */
  lemma LoadAccepted(f: seq<byte>)
    requires LoadHeader(f).Some?
    ensures var h := LoadHeader(f).value;
      WellFormed(h) &&
      |f| == HeaderSize(|h.dims|) + h.dims[0] * RowBytes(h.format, h.dims) &&
      f[..HeaderSize(|h.dims|)] == HeaderBytes(h)
  {
    var h := LoadHeader(f).value;
    var n := f[3] as nat;
    U32Cells(h.dims);
    EncodeDecodeCells(f[4 .. 4 + 4 * n], 4, n, h.little);
    assert MarkerBytes(h.little) == f[..2];
    assert f[..HeaderSize(n)] == f[..2] + [f[2], f[3]] + f[4 .. 4 + 4 * n];
  }

  /** A written header followed by the row data loads back as that header, exactly when the data is rows whole rows. */
  lemma LoadHeaderBytes(h: Header, rest: seq<byte>)
    requires WellFormed(h)
    ensures LoadHeader(HeaderBytes(h) + rest) == if |rest| == h.dims[0] * RowBytes(h.format, h.dims) then Some(h) else None
  {
    var f := HeaderBytes(h) + rest;
    var n := |h.dims|;
    var m := MarkerBytes(h.little);
    assert f == m + [Code(h.format), n] + EncodeCells(h.dims, 4, h.little) + rest;
    assert f[0] == m[0] && f[1] == m[1] && f[2] == Code(h.format) && f[3] as nat == n;
    ParseMarkerBytes(h.little);
    ParseFormatCode(h.format);
    assert f[4 .. 4 + 4 * n] == EncodeCells(h.dims, 4, h.little);
    assert Pow256(4) == TWO32;
    DecodeEncodeCells(h.dims, 4, h.little);
  }

  /** Closing a file opened for writing and loading it again gives back every header field. */
  lemma CloseThenLoad(f: seq<byte>, h: Header)
    requires WellFormed(h)
    requires |f| == HeaderSize(|h.dims|) + h.dims[0] * RowBytes(h.format, h.dims)
    ensures LoadHeader(HeaderBytes(h) + f[HeaderSize(|h.dims|)..]) == Some(h)
  {
    LoadHeaderBytes(h, f[HeaderSize(|h.dims|)..]);
  }

  /** A row written over bytes pos .. pos + |cells| * w reads back as the same cells. */
  lemma WriteThenReadRow(pre: seq<byte>, cells: seq<nat>, post: seq<byte>, w: nat, little: bool)
    requires forall k :: 0 <= k < |cells| ==> cells[k] < Pow256(w)
    ensures var f := pre + EncodeCells(cells, w, little) + post;
      DecodeCells(f[|pre| .. |pre| + |cells| * w], w, |cells|, little) == cells
  {
    var f := pre + EncodeCells(cells, w, little) + post;
    assert f[|pre| .. |pre| + |cells| * w] == EncodeCells(cells, w, little);
    DecodeEncodeCells(cells, w, little);
  }

  /** The uint32 overflow test of AddRows: rows + count wraps below rows exactly when it reaches 2^32. */
  lemma OverflowTest(rows: u32, count: u32)
    ensures Wrap32(rows + count) < rows <==> rows + count >= TWO32
  {
  }

  /** The stateful part of IDX.hpp. */
  class Idx {
    var file: seq<byte>
    var little: bool
    var format: DataFormat
    var dims: seq<nat>
    var rowLength: u32
    var rowLengthBytes: nat
    var writing: bool
    /** Load opens with "rb" or "rb+", which can be read; Create opens with "wb", which cannot. */
    var readable: bool
    var isOpen: bool
    const systemLittle: bool

    /** The geometry matches the dimension list and the file holds the header and exactly rows whole rows. */
    ghost predicate Valid()
      reads this
    {
      WellFormed(Header(little, format, dims)) &&
      rowLength == Product(dims[1..]) % TWO32 &&
      rowLengthBytes == RowBytes(format, dims) &&
      HeaderSize(|dims|) <= |file| == HeaderSize(|dims|) + dims[0] * rowLengthBytes
    }

    function CurrentHeader(): Header
      reads this
    {
      Header(little, format, dims)
    }

    /** Where row `row` starts: HeaderSize() + row * row_bytes, in int64. */
    function RowStart(row: nat): nat
      reads this
    {
      HeaderSize(|dims|) + row * rowLengthBytes
    }

    constructor Init(f: seq<byte>, l: bool, fmt: DataFormat, ds: seq<nat>, rl: u32, rb: nat, w: bool, rd: bool, sys: bool)
      ensures file == f && little == l && format == fmt && dims == ds
      ensures rowLength == rl && rowLengthBytes == rb && writing == w && readable == rd && isOpen && systemLittle == sys
    {
      file := f;
      little := l;
      format := fmt;
      dims := ds;
      rowLength := rl;
      rowLengthBytes := rb;
      writing := w;
      readable := rd;
      isOpen := true;
      systemLittle := sys;
    }

    /** Load: parses the header, checks the size and opens for reading or for reading and writing. */
    static method Load(f: Option<seq<byte>>, inWriting: bool, sysLittle: bool) returns (r: Idx?)
      ensures r == null <==> f.None? || LoadHeader(f.value).None?
      ensures r != null ==> (fresh(r) && r.Valid() && r.isOpen && r.file == f.value &&
        LoadHeader(f.value) == Some(r.CurrentHeader()) && r.writing == inWriting && r.readable && r.systemLittle == sysLittle)
    {
      if f.None? {
        r := null;
        return;
      }
      var h, rl := ReadHeader(f.value, sysLittle);
      if h.None? {
        r := null;
        return;
      }
      r := new Idx.Init(f.value, h.value.little, h.value.format, h.value.dims, rl, rl * Width(h.value.format), inWriting, true, sysLittle);
      LoadAccepted(f.value);
    }

    /**
     * Create: validates the endianness and format, truncates the file and
     * writes a header with row count 0. The dimension count is stored in the
     * uint8 _row_dimensions_count as row_dimensions_count + 1, so only the
     * first (count + 1) mod 256 - 1 row dimensions reach the header, while
     * the row length multiplies all of them. A stored count of 0 leaves no
     * slot for the row count, and storing it there is undefined: NULL here.
     */
    static method Create(canOpen: bool, sysLittle: bool, e: int, formatCode: byte, rowDims: seq<u32>) returns (r: Idx?)
      requires |rowDims| < TWO32
      ensures r == null <==>
        !canOpen || (e != BIG_ENDIAN && e != LITTLE_ENDIAN) || !IsFormatCode(formatCode) || StoredCount(|rowDims|) == 0
      ensures r != null ==> (fresh(r) && r.isOpen && r.writing && !r.readable && r.systemLittle == sysLittle &&
        r.little == (e == LITTLE_ENDIAN) && Code(r.format) == formatCode &&
        r.dims == [0] + rowDims[..StoredCount(|rowDims|) - 1] &&
        r.rowLength == Product(rowDims) % TWO32 && r.rowLengthBytes == r.rowLength * Width(r.format) &&
        r.file == HeaderBytes(r.CurrentHeader()))
      ensures r != null && |rowDims| < 255 ==> r.Valid() && r.dims == [0] + rowDims
    {
      if !canOpen || (e != BIG_ENDIAN && e != LITTLE_ENDIAN) {
        r := null;
        return;
      }
      var fmt := ParseFormat(formatCode);
      if fmt.None? {
        r := null;
        return;
      }
      var count := StoredCount(|rowDims|);
      if count == 0 {
        r := null;
        return;
      }
      var ds: seq<nat> := [0];
      for k := 1 to count
        invariant ds == [0] + rowDims[..k - 1]
      {
        assert rowDims[..k] == rowDims[..k - 1] + [rowDims[k - 1]];
        ds := ds + [rowDims[k - 1]];
      }
      var rl := RowLengthOf(rowDims);
      var h := Header(e == LITTLE_ENDIAN, fmt.value, ds);
      var image := WriteHeader(h, sysLittle);
      r := new Idx.Init(image, h.little, h.format, ds, rl, rl * Width(fmt.value), true, false, sysLittle);
      if |rowDims| < 255 {
        assert rowDims[..count - 1] == rowDims && ds[1..] == rowDims;
      }
    }

    /** AddRows: fails when not writing or when the row count would wrap; otherwise appends count zeroed rows. */
    method AddRows(count: u32) returns (ok: bool)
      requires Valid() && isOpen
      modifies this`file, this`dims
      ensures Valid()
      ensures ok <==> writing && old(dims[0]) + count < TWO32
      ensures ok ==> file == old(file) + Zeros(count * rowLengthBytes) && dims == old(dims)[0 := old(dims[0]) + count]
      ensures !ok ==> file == old(file) && dims == old(dims)
    {
      if !writing {
        return false;
      }
      OverflowTest(dims[0], count);
      if Wrap32(dims[0] + count) < dims[0] {
        return false;
      }
      var empty := EmptyRows(count, rowLengthBytes);
      file := file + empty;
      RowsAdd(dims[0], count, rowLengthBytes);
      SameRowGeometry(dims, dims[0 := dims[0] + count]);
      dims := dims[0 := dims[0] + count];
      ok := true;
    }

    /** AddRow(): one zeroed row, as AddRows(1). */
    method AddRow() returns (ok: bool)
      requires Valid() && isOpen
      modifies this`file, this`dims
      ensures Valid()
      ensures ok <==> writing && old(dims[0]) + 1 < TWO32
      ensures ok ==> file == old(file) + Zeros(rowLengthBytes) && dims == old(dims)[0 := old(dims[0]) + 1]
      ensures !ok ==> file == old(file) && dims == old(dims)
    {
      ok := AddRows(1);
    }

    /** AddRow(buffer): fails when not writing or when the row count would wrap; otherwise appends the row's image. */
    method AddRowFrom(cells: seq<nat>) returns (ok: bool)
      requires Valid() && isOpen && |cells| == rowLength
      modifies this`file, this`dims
      ensures Valid()
      ensures ok <==> writing && old(dims[0]) + 1 < TWO32
      ensures ok ==> file == old(file) + EncodeCells(cells, Width(format), little) && dims == old(dims)[0 := old(dims[0]) + 1]
      ensures !ok ==> file == old(file) && dims == old(dims)
    {
      if !writing {
        return false;
      }
      OverflowTest(dims[0], 1);
      if Wrap32(dims[0] + 1) < dims[0] {
        return false;
      }
      var image := CellsImage(cells, Width(format), little, systemLittle);
      file := file + image;
      RowsAdd(dims[0], 1, rowLengthBytes);
      SameRowGeometry(dims, dims[0 := dims[0] + 1]);
      dims := dims[0 := dims[0] + 1];
      ok := true;
    }

    /** WriteRow: fails when not writing or for a row past the count; otherwise overwrites that row in place. */
    method WriteRow(row: u32, cells: seq<nat>) returns (ok: bool)
      requires Valid() && isOpen && |cells| == rowLength
      modifies this`file
      ensures Valid()
      ensures ok <==> writing && row < dims[0]
      ensures ok ==> RowStart(row) + rowLengthBytes <= |file|
      ensures ok ==> file == old(file)[..RowStart(row)] + EncodeCells(cells, Width(format), little) + old(file)[RowStart(row) + rowLengthBytes..]
      ensures !ok ==> file == old(file)
    {
      if !writing || row >= dims[0] {
        return false;
      }
      CellInRow(row, dims[0], rowLengthBytes);
      var image := CellsImage(cells, Width(format), little, systemLittle);
      file := file[..RowStart(row)] + image + file[RowStart(row) + rowLengthBytes..];
      ok := true;
    }

    /** Whether read_row assembles each cell from fgetc bytes, reversed, instead of one fread. */
    function SwapsOnRead(): bool
      reads this
    {
      Width(format) != 1 && little != systemLittle
    }

    /**
     * ReadRow: fails for a row past the count; otherwise reads that row into
     * the caller's buffer. On a stream opened by Create ("wb") nothing can be
     * read: fread leaves the buffer as it was, and every fgetc of the
     * swapping loop returns EOF, whose low byte 0xFF fills each cell.
     */
    method ReadRow(row: u32, buffer: seq<nat>) returns (ok: bool, cells: seq<nat>)
      requires Valid() && isOpen && |buffer| == rowLength
      ensures ok <==> row < dims[0]
      ensures !ok ==> cells == buffer
      ensures ok && readable ==> (RowStart(row) + rowLengthBytes <= |file| &&
        cells == DecodeCells(file[RowStart(row) .. RowStart(row) + rowLengthBytes], Width(format), rowLength, little))
      ensures ok && !readable && !SwapsOnRead() ==> cells == buffer
      ensures ok && !readable && SwapsOnRead() ==> cells == EofRow(rowLength, Width(format))
    {
      if row >= dims[0] {
        return false, buffer;
      }
      ok := true;
      if readable {
        CellInRow(row, dims[0], rowLengthBytes);
        cells := ReadCells(file, RowStart(row), rowLength, Width(format), little, systemLittle);
      } else if SwapsOnRead() {
        cells := EofCells(rowLength, Width(format));
      } else {
        cells := buffer;
      }
    }

    /** Close: when writing, rewrites the header with the current row count; then closes the file. */
    method Close() returns (ok: bool)
      requires Valid() && isOpen
      modifies this`file, this`isOpen
      ensures Valid() && ok && !isOpen
      ensures writing ==> file == HeaderBytes(CurrentHeader()) + old(file)[HeaderSize(|dims|)..]
      ensures !writing ==> file == old(file)
    {
      if writing {
        var image := WriteHeader(CurrentHeader(), systemLittle);
        file := image + file[|image|..];
      }
      isOpen := false;
      ok := true;
    }
  }

  /** Load's header parse: marker, format, dimension count, the dimensions, the row length, then the size test. */
  method ReadHeader(s: seq<byte>, sysLittle: bool) returns (h: Option<Header>, rl: u32)
    ensures h == LoadHeader(s)
    ensures h.Some? ==> rl == Product(h.value.dims[1..]) % TWO32
  {
    rl := 0;
    if |s| < 4 {
      return None, rl;
    }
    var marker := ParseMarker(s[0], s[1]);
    var fmt := ParseFormat(s[2]);
    if marker.None? || fmt.None? {
      return None, rl;
    }
    var n := s[3] as nat;
    if n == 0 || |s| < HeaderSize(n) {
      return None, rl;
    }
    var ds := ReadCells(s, 4, n, 4, marker.value, sysLittle);
    assert 4 + n * 4 == 4 + 4 * n;
    assert ds == DecodeCells(s[4 .. 4 + 4 * n], 4, n, marker.value);
    rl := RowLengthOf(ds[1..]);
    if |s| != HeaderSize(n) + ds[0] * (rl * Width(fmt.value)) {
      return None, rl;
    }
    h := Some(Header(marker.value, fmt.value, ds));
  }

  /** n cells of w bytes 0xFF each: every cell holds the largest w-byte value. */
  function EofRow(n: nat, w: nat): seq<nat>
  {
    seq(n, _ => Pow256(w) - 1)
  }

  /** The swapping read_row loop on a stream that cannot be read: each of the w fgetc calls per cell gives 0xFF. */
  method EofCells(n: nat, w: nat) returns (cells: seq<nat>)
    requires w >= 1
    ensures cells == EofRow(n, w)
  {
    cells := [];
    for k := 0 to n
      invariant cells == seq(k, _ => Pow256(w) - 1)
    {
      var val: seq<byte> := [];
      for i := 0 to w
        invariant val == seq(i, _ => 0xFF)
      {
        val := val + [0xFF];
      }
      AllOnes(w);
      cells := cells + [DecodeLE(val)];
    }
  }

  /** w bytes of 0xFF read as the largest w-byte value, in either byte order. */
  lemma {:induction false} AllOnes(w: nat)
    ensures DecodeLE(seq(w, _ => 0xFF)) == Pow256(w) - 1
  {
    if w > 0 {
      AllOnes(w - 1);
      assert seq(w, _ => 0xFF)[1..] == seq(w - 1, _ => 0xFF);
    }
  }

  /** The zeroed rows AddRows writes: one empty row of rowBytes bytes per iteration. */
  method EmptyRows(count: nat, rowBytes: nat) returns (z: seq<byte>)
    ensures z == Zeros(count * rowBytes)
  {
    z := [];
    var k: nat := 0;
    while k < count
      invariant k <= count
      invariant z == Zeros(k * rowBytes)
    {
      MulStep(k, rowBytes);
      ZerosAdd(k * rowBytes, rowBytes);
      z := z + Zeros(rowBytes);
      k := k + 1;
    }
  }

  /** Changing only the row count leaves the row dimensions, hence the row length. */
  lemma SameRowGeometry(ds: seq<nat>, es: seq<nat>)
    requires |ds| == |es| >= 1 && forall k :: 1 <= k < |ds| ==> ds[k] == es[k]
    ensures ds[1..] == es[1..]
  {
  }

  lemma RowsAdd(rows: nat, count: nat, rowBytes: nat)
    ensures (rows + count) * rowBytes == rows * rowBytes + count * rowBytes
  {
  }
}
