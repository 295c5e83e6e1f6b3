/**
 * The Python IDX container (helpers/IDX.py). The open file object is the byte
 * sequence `file` with `isOpen` standing for `__file != None`; every method
 * seeks before it reads or writes. Integers are Python's, so the row length
 * is the exact product of the row dimensions. A struct or index error inside
 * `load` or `create` is caught there and returns None; the model returns None
 * on exactly those inputs.
 */
module IdxPy {
  import opened Bytes
  import opened IdxFormat
  import opened Wrappers

  /** Bytes per row: the exact product of the row dimensions times the cell width. */
  function RowBytes(format: DataFormat, dims: seq<nat>): nat
    requires |dims| >= 1
  {
    Product(dims[1..]) * Width(format)
  }

  /** Bytes of row data a header describes: the row count times the row bytes. */
  function DataSize(h: Header): nat
    requires |h.dims| >= 1
  {
    h.dims[0] * RowBytes(h.format, h.dims)
  }

  /**
   * The header `load` accepts, or None. Short reads make struct.unpack raise,
   * and a dimension count of 0 makes `__row_dimensions[0]` raise; both are
   * caught and give None.
   */
  function LoadHeader(f: seq<byte>): Option<Header>
  {
    if |f| < 4 || ParseMarker(f[0], f[1]).None? || ParseFormat(f[2]).None? then None
    else
      var n := f[3] as nat;
      if |f| < HeaderSize(n) || n == 0 then None
      else
        var h := Header(ParseMarker(f[0], f[1]).value, ParseFormat(f[2]).value,
                        DecodeCells(f[4 .. 4 + 4 * n], 4, n, ParseMarker(f[0], f[1]).value));
        if |f| == HeaderSize(n) + DataSize(h) then Some(h) else None
  }

  /** `load` returns None for an endianness other than 0x0000 or 0xFFFF and for an unknown format byte. */
  lemma LoadRejectsBadHeader(f: seq<byte>)
    requires |f| >= 4
    requires !(f[0] == f[1] == 0 || f[0] == f[1] == 0xFF) || !IsFormatCode(f[2])
    ensures LoadHeader(f).None?
  {
  }

  /** `load` returns None unless the measured size is the row count times the row bytes plus the header size. */
  lemma LoadChecksSize(f: seq<byte>)
    requires LoadHeader(f).Some?
    ensures var h := LoadHeader(f).value;
      |f| == HeaderSize(|h.dims|) + DataSize(h)
  {
  }

  /**
   * How a header and its rows sit in an open file: the marker, format and
   * dimension count, the row dimensions from byte 8 on, and exactly rows whole
   * rows after the header. The row count at bytes 4..8 is only rewritten by
   * `close`, so it is not constrained.
   */
  predicate Stored(f: seq<byte>, h: Header)
  {
    1 <= |h.dims| < 256 &&
    (forall k :: 1 <= k < |h.dims| ==> h.dims[k] < TWO32) &&
    |f| == HeaderSize(|h.dims|) + DataSize(h) &&
    f[..4] == MarkerBytes(h.little) + [Code(h.format), |h.dims|] &&
    f[8 .. HeaderSize(|h.dims|)] == EncodeCells(h.dims[1..], 4, h.little)
  }

  /** A file `load` accepts stores the header it returns. */
  lemma LoadStored(f: seq<byte>)
    requires LoadHeader(f).Some?
    ensures Stored(f, LoadHeader(f).value)
  {
    var h := LoadHeader(f).value;
    var n := |h.dims|;
    StoredCells(f, n, h.little, h.dims);
    assert MarkerBytes(h.little) == f[..2];
    assert f[..4] == f[..2] + [f[2], f[3]];
  }

  /** The n dimensions decoded from byte 4 on fit a uint32, and the bytes from 8 on re-encode all but the first. */
  lemma StoredCells(f: seq<byte>, n: nat, little: bool, dims: seq<nat>)
    requires 1 <= n && 4 + 4 * n <= |f| && dims == DecodeCells(f[4 .. 4 + 4 * n], 4, n, little)
    ensures |dims| == n && (forall k :: 1 <= k < n ==> dims[k] < TWO32)
    ensures f[8 .. 4 + 4 * n] == EncodeCells(dims[1..], 4, little)
  {
    var c := f[4 .. 4 + 4 * n];
    assert Pow256(4) == TWO32;
    EncodeDecodeCells(c, 4, n, little);
    HeaderCellsSplit(dims, little);
    assert c[4..] == f[8 .. 4 + 4 * n];
  }

  /** The dimension list's image is the row count's four bytes followed by the row dimensions'. */
  lemma HeaderCellsSplit(dims: seq<nat>, little: bool)
    requires |dims| >= 1
    ensures EncodeCells(dims, 4, little)[..4] == Encode(dims[0], 4, little)
    ensures EncodeCells(dims, 4, little)[4..] == EncodeCells(dims[1..], 4, little)
  {
  }

  /** Writing the row count at byte offset 4 of a stored file yields a file `load` reads back as that header. */
  lemma CloseThenLoad(f: seq<byte>, h: Header)
    requires Stored(f, h) && h.dims[0] < TWO32
    ensures LoadHeader(f[..4] + Encode(h.dims[0], 4, h.little) + f[8..]) == Some(h)
  {
    var rest := f[HeaderSize(|h.dims|)..];
    RestoredHeader(f, h);
    LoadHeaderBytes(h, rest);
  }

  /** The file with its row count rewritten is the complete header followed by the rows. */
  lemma RestoredHeader(f: seq<byte>, h: Header)
    requires Stored(f, h) && h.dims[0] < TWO32
    ensures f[..4] + Encode(h.dims[0], 4, h.little) + f[8..] == HeaderBytes(h) + f[HeaderSize(|h.dims|)..]
  {
    var front := MarkerBytes(h.little) + [Code(h.format), |h.dims|];
    var count := Encode(h.dims[0], 4, h.little);
    var cells := EncodeCells(h.dims[1..], 4, h.little);
    HeaderCellsSplit(h.dims, h.little);
    JoinAtFour(EncodeCells(h.dims, 4, h.little), count, cells);
    SpliceCount(f, front, count, cells, HeaderSize(|h.dims|));
  }

  /** A byte string is its first four bytes followed by the rest. */
  lemma JoinAtFour(s: seq<byte>, a: seq<byte>, b: seq<byte>)
    requires |s| >= 4 && s[..4] == a && s[4..] == b
    ensures s == a + b
  {
  }

  /** Putting four new bytes at offset 4 of a file whose header is front, then cells, up to hs. */
  lemma SpliceCount(f: seq<byte>, front: seq<byte>, count: seq<byte>, cells: seq<byte>, hs: nat)
    requires |front| == 4 && |count| == 4 && 8 <= hs <= |f|
    requires f[..4] == front && f[8 .. hs] == cells
    ensures f[..4] + count + f[8..] == front + (count + cells) + f[hs..]
  {
    assert f[8..] == cells + f[hs..];
  }

  /** A written header followed by the row data loads back as that header, exactly when the data is rows whole rows. */
  lemma LoadHeaderBytes(h: Header, rest: seq<byte>)
    requires 1 <= |h.dims| < 256 && forall k :: 0 <= k < |h.dims| ==> h.dims[k] < TWO32
    ensures LoadHeader(HeaderBytes(h) + rest) == if |rest| == DataSize(h) then Some(h) else None
  {
    var f := HeaderBytes(h) + rest;
    var n := |h.dims|;
    var m := MarkerBytes(h.little);
    assert f == m + [Code(h.format), n] + EncodeCells(h.dims, 4, h.little) + rest;
    assert f[0] == m[0] && f[1] == m[1] && f[2] == Code(h.format) && f[3] as nat == n;
    ParseMarkerBytes(h.little);
    ParseFormatCode(h.format);
    assert f[4 .. 4 + 4 * n] == EncodeCells(h.dims, 4, h.little);
    assert Pow256(4) == TWO32;
    DecodeEncodeCells(h.dims, 4, h.little);
  }

  /** After `add_row` has appended a row but failed to count it, the file no longer loads. */
  lemma UncountedRowBreaksFile(f: seq<byte>, row: seq<byte>)
    requires LoadHeader(f).Some?
    requires |row| == RowBytes(LoadHeader(f).value.format, LoadHeader(f).value.dims) > 0
    ensures LoadHeader(f + row).None?
  {
    var h := LoadHeader(f).value;
    var n := |h.dims|;
    assert (f + row)[..|f|] == f;
    assert (f + row)[4 .. 4 + 4 * n] == f[4 .. 4 + 4 * n];
  }

  /** What `add_row` and `write_row` do: return True, False or None, or raise TypeError or struct.error. */
  datatype Outcome = Returned(ok: bool) | ReturnedNone | TypeError | StructError

  /** struct.pack takes the row: every cell, a bit pattern, fits the format's cell width. */
  predicate Packable(cells: seq<nat>, format: DataFormat)
  {
    forall k :: 0 <= k < |cells| ==> cells[k] < Pow256(Width(format))
  }

  class Idx {
    var file: seq<byte>
    var isOpen: bool
    var writable: bool
    var little: bool
    var format: DataFormat
    var dims: seq<nat>
    /** `load` stores the dimensions as the tuple struct.unpack returns; `create` builds a list. */
    var dimsIsTuple: bool
    var headerSize: nat
    var rowLength: nat
    var rowLengthBytes: nat

    function CurrentHeader(): Header
      reads this
    {
      Header(little, format, dims)
    }

    ghost predicate Valid()
      reads this
    {
      Stored(file, CurrentHeader()) &&
      headerSize == HeaderSize(|dims|) &&
      rowLength == Product(dims[1..]) &&
      rowLengthBytes == RowBytes(format, dims)
    }

    /** row_count(): the first dimension. */
    function RowCount(): nat
      reads this
      requires |dims| >= 1
    {
      dims[0]
    }

    function RowOffset(index: nat): nat
      reads this
    {
      headerSize + rowLengthBytes * index
    }

    constructor Init(f: seq<byte>, w: bool, h: Header, tuple: bool, rl: nat)
      requires |h.dims| >= 1
      ensures file == f && isOpen && writable == w && CurrentHeader() == h && dimsIsTuple == tuple
      ensures headerSize == HeaderSize(|h.dims|) && rowLength == rl && rowLengthBytes == rl * Width(h.format)
    {
      file := f;
      isOpen := true;
      writable := w;
      little := h.little;
      format := h.format;
      dims := h.dims;
      dimsIsTuple := tuple;
      headerSize := HeaderSize(|h.dims|);
      rowLength := rl;
      rowLengthBytes := rl * Width(h.format);
    }

    /** load: None when the file cannot be opened or its header is rejected. */
    static method Load(f: Option<seq<byte>>, writable: bool) returns (r: Idx?)
      ensures r == null <==> f.None? || LoadHeader(f.value).None?
      ensures r != null ==> (fresh(r) && r.Valid() && r.isOpen && r.file == f.value && r.writable == writable &&
        r.dimsIsTuple && LoadHeader(f.value) == Some(r.CurrentHeader()))
    {
      if f.None? {
        r := null;
        return;
      }
      var h, rl := ReadHeader(f.value);
      if h.None? {
        r := null;
        return;
      }
      LoadStored(f.value);
      r := new Idx.Init(f.value, writable, h.value, true, rl);
    }

    /** create: None for an invalid endianness or format, or when a header field does not fit its struct code. */
    static method Create(canOpen: bool, e: int, formatCode: int, rowDims: seq<int>) returns (r: Idx?)
      ensures r == null <==> (!canOpen || (e != BIG_ENDIAN && e != LITTLE_ENDIAN) ||
        !(0 <= formatCode < 256 && IsFormatCode(formatCode)) ||
        |rowDims| >= 255 || exists k :: 0 <= k < |rowDims| && !(0 <= rowDims[k] < TWO32))
      ensures r != null ==> (fresh(r) && r.Valid() && r.isOpen && r.writable && !r.dimsIsTuple &&
        r.little == (e == LITTLE_ENDIAN) && Code(r.format) == formatCode &&
        r.dims == [0] + rowDims && r.file == HeaderBytes(r.CurrentHeader()))
    {
      if !canOpen || (e != BIG_ENDIAN && e != LITTLE_ENDIAN) || !(0 <= formatCode < 256) {
        r := null;
        return;
      }
      var fmt := ParseFormat(formatCode);
      if fmt.None? {
        r := null;
        return;
      }
      var ds: seq<int> := [0];
      var i := 0;
      while i < |rowDims|
        invariant 0 <= i <= |rowDims|
        invariant ds == [0] + rowDims[..i]
      {
        ds := ds + [rowDims[i]];
        i := i + 1;
      }
      assert rowDims[..|rowDims|] == rowDims;
      var fits := DimsFit(ds);
      FitsMeans(ds);
      if |ds| >= 256 || !fits {
        r := null;
        return;
      }
      var dn: seq<nat> := ds;
      var rl := ExactRowLength(dn);
      var h := Header(e == LITTLE_ENDIAN, fmt.value, dn);
      var image := WriteHeader(h, true);
      NewFileStored(h);
      r := new Idx.Init(image, true, h, false, rl);
    }

    /** read_row: None for an index outside 0 .. row_count - 1, else the row's cells. */
    method ReadRow(index: int) returns (r: Option<seq<nat>>)
      requires Valid() && isOpen
      ensures r.None? <==> index < 0 || index >= RowCount()
      ensures r.Some? ==> RowOffset(index) + rowLengthBytes <= |file|
      ensures r.Some? ==> r.value == DecodeCells(file[RowOffset(index) .. RowOffset(index) + rowLengthBytes], Width(format), rowLength, little)
    {
      if index < 0 || index >= RowCount() {
        return None;
      }
      RowFits(index, dims[0], rowLengthBytes);
      var chunk := file[RowOffset(index) .. RowOffset(index) + rowLengthBytes];
      r := Some(DecodeCells(chunk, Width(format), rowLength, little));
    }

    /**
     * add_row as written: struct.pack raises before anything is written when
     * a cell does not fit; after `load` the count is a tuple, so the
     * increment raises once the row is on disk.
     */
    method AddRowAsWritten(cells: seq<nat>) returns (o: Outcome)
      requires Valid() && isOpen
      modifies this`file, this`dims
      ensures o != ReturnedNone
      ensures o == Returned(false) <==> !writable || |cells| != rowLength
      ensures o == StructError <==> writable && |cells| == rowLength && !Packable(cells, format)
      ensures o == TypeError <==> writable && |cells| == rowLength && Packable(cells, format) && dimsIsTuple
      ensures o == Returned(false) || o == StructError ==> file == old(file) && dims == old(dims)
      ensures o == TypeError ==> file == old(file) + EncodeCells(cells, Width(format), little) && dims == old(dims)
      ensures o == Returned(true) ==> Valid()
      ensures o == Returned(true) ==> file == old(file) + EncodeCells(cells, Width(format), little)
      ensures o == Returned(true) ==> dims == old(dims)[0 := old(dims[0]) + 1]
    {
      if !writable || |cells| != rowLength {
        o := Returned(false);
      } else if !Packable(cells, format) {
        o := StructError;
      } else {
        var row := EncodeCells(cells, Width(format), little);
        AppendRowStored(file, row, CurrentHeader());
        file := file + row;
        if dimsIsTuple {
          o := TypeError;
        } else {
          dims := dims[0 := dims[0] + 1];
          o := Returned(true);
        }
      }
    }

    /** add_row as intended: the row count is a list whether the file was loaded or created. */
    method AddRow(cells: seq<nat>) returns (o: Outcome)
      requires Valid() && isOpen
      modifies this`file, this`dims
      ensures Valid()
      ensures o == Returned(false) <==> !writable || |cells| != rowLength
      ensures o == StructError <==> writable && |cells| == rowLength && !Packable(cells, format)
      ensures o == Returned(true) <==> writable && |cells| == rowLength && Packable(cells, format)
      ensures o == Returned(true) ==>
        file == old(file) + EncodeCells(cells, Width(format), little) && dims == old(dims)[0 := old(dims[0]) + 1]
      ensures o != Returned(true) ==> file == old(file) && dims == old(dims)
    {
      if !writable || |cells| != rowLength {
        o := Returned(false);
      } else if !Packable(cells, format) {
        o := StructError;
      } else {
        var row := EncodeCells(cells, Width(format), little);
        AppendRowStored(file, row, CurrentHeader());
        file := file + row;
        dims := dims[0 := dims[0] + 1];
        o := Returned(true);
      }
    }

    /**
     * write_row: False when not writable, for a bad index or a bad length;
     * struct.error when a cell does not fit; otherwise it overwrites the row
     * and returns None.
     */
    method WriteRow(index: int, cells: seq<nat>) returns (o: Outcome)
      requires Valid() && isOpen
      modifies this`file
      ensures Valid() && dims == old(dims)
      ensures o == Returned(false) <==> !writable || index < 0 || index >= RowCount() || |cells| != rowLength
      ensures o == StructError <==> writable && 0 <= index < RowCount() && |cells| == rowLength && !Packable(cells, format)
      ensures o == ReturnedNone <==> writable && 0 <= index < RowCount() && |cells| == rowLength && Packable(cells, format)
      ensures o == ReturnedNone ==> RowOffset(index) + rowLengthBytes <= |file|
      ensures o == ReturnedNone ==>
        file == old(file)[..RowOffset(index)] + EncodeCells(cells, Width(format), little) + old(file)[RowOffset(index) + rowLengthBytes..]
      ensures o != ReturnedNone ==> file == old(file)
    {
      if !writable || index < 0 || index >= RowCount() || |cells| != rowLength {
        return Returned(false);
      }
      if !Packable(cells, format) {
        return StructError;
      }
      RowFits(index, dims[0], rowLengthBytes);
      var pos := RowOffset(index);
      var image := EncodeCells(cells, Width(format), little);
      assert |image| == rowLengthBytes;
      OverwriteRowStored(file, pos, image, CurrentHeader());
      file := file[..pos] + image + file[pos + |image|..];
      o := ReturnedNone;
    }

    /**
     * close: when writable, writes the row count at byte offset 4; then drops
     * the file object. A row count that does not fit the "I" code makes
     * struct.pack raise first, and the file stays open and unchanged.
     */
    method Close() returns (o: Outcome)
      requires |dims| >= 1 && |file| >= 8
      modifies this`file, this`isOpen
      ensures o == StructError <==> old(isOpen) && writable && dims[0] >= TWO32
      ensures o == StructError ==> isOpen && file == old(file)
      ensures o != StructError ==> o == ReturnedNone && !isOpen
      ensures o != StructError && old(isOpen) && writable ==> file == old(file)[..4] + Encode(dims[0], 4, little) + old(file)[8..]
      ensures !(old(isOpen) && writable) ==> file == old(file)
    {
      if isOpen {
        if writable {
          if dims[0] >= TWO32 {
            return StructError;
          }
          file := file[..4] + Encode(dims[0], 4, little) + file[8..];
        }
        isOpen := false;
      }
      o := ReturnedNone;
    }
  }

  /** load's header parse: marker, format, dimension count, dimensions, row length, then the size test. */
  method ReadHeader(s: seq<byte>) returns (h: Option<Header>, rl: nat)
    ensures h == LoadHeader(s)
    ensures h.Some? ==> rl == Product(h.value.dims[1..])
  {
    rl := 0;
    if |s| < 4 {
      return None, rl;
    }
    var marker := ParseMarker(s[0], s[1]);
    var fmt := ParseFormat(s[2]);
    if marker.None? || fmt.None? {
      return None, rl;
    }
    var n := s[3] as nat;
    if |s| < HeaderSize(n) || n == 0 {
      return None, rl;
    }
    var ds := DecodeCells(s[4 .. 4 + 4 * n], 4, n, marker.value);
    rl := ExactRowLength(ds);
    if |s| != HeaderSize(n) + ds[0] * (rl * Width(fmt.value)) {
      return None, rl;
    }
    h := Some(Header(marker.value, fmt.value, ds));
  }

  /** The row-length loop over dimensions 1 .. n - 1, in Python integers. */
  method ExactRowLength(ds: seq<nat>) returns (rl: nat)
    requires |ds| >= 1
    ensures rl == Product(ds[1..])
  {
    rl := 1;
    var k := 1;
    while k < |ds|
      invariant 1 <= k <= |ds|
      invariant rl == Product(ds[1..k])
    {
      assert ds[1..k + 1][..k - 1] == ds[1..k];
      rl := rl * ds[k];
      k := k + 1;
    }
    assert ds[1..|ds|] == ds[1..];
  }

  /** Whether every dimension packs as a uint32. */
  method DimsFit(ds: seq<int>) returns (fits: bool)
    ensures fits <==> forall k :: 0 <= k < |ds| ==> 0 <= ds[k] < TWO32
  {
    fits := true;
    var k := 0;
    while k < |ds|
      invariant 0 <= k <= |ds|
      invariant fits <==> forall j :: 0 <= j < k ==> 0 <= ds[j] < TWO32
    {
      if !(0 <= ds[k] < TWO32) {
        fits := false;
      }
      k := k + 1;
    }
  }

  lemma FitsMeans(ds: seq<int>)
    requires |ds| >= 1 && ds[0] == 0
    ensures (forall k :: 0 <= k < |ds| ==> 0 <= ds[k] < TWO32) <==> forall k :: 1 <= k < |ds| ==> 0 <= ds[k] < TWO32
  {
  }

  lemma RowFits(index: nat, rows: nat, rowBytes: nat)
    requires index < rows
    ensures 0 <= rowBytes * index && rowBytes * index + rowBytes <= rows * rowBytes
  {
    MulStep(index, rowBytes);
    assert (index + 1) * rowBytes <= rows * rowBytes;
  }

  /** A new file, header only, stores its header with row count 0. */
  lemma NewFileStored(h: Header)
    requires 1 <= |h.dims| < 256 && h.dims[0] == 0 && forall k :: 1 <= k < |h.dims| ==> h.dims[k] < TWO32
    ensures Stored(HeaderBytes(h), h)
  {
    var f := HeaderBytes(h);
    HeaderCellsSplit(h.dims, h.little);
    assert f == MarkerBytes(h.little) + [Code(h.format), |h.dims|] + EncodeCells(h.dims, 4, h.little);
    assert f[8..] == EncodeCells(h.dims, 4, h.little)[4..];
  }

  /** Appending one row and counting it keeps the file stored. */
  lemma AppendRowStored(f: seq<byte>, row: seq<byte>, h: Header)
    requires Stored(f, h) && |row| == RowBytes(h.format, h.dims)
    ensures Stored(f + row, Header(h.little, h.format, h.dims[0 := h.dims[0] + 1]))
    ensures var d := h.dims[0 := h.dims[0] + 1];
      |d| == |h.dims| && d[1..] == h.dims[1..] && RowBytes(h.format, d) == RowBytes(h.format, h.dims)
  {
    var h2 := h.(dims := h.dims[0 := h.dims[0] + 1]);
    assert h2.dims[1..] == h.dims[1..];
    MulStep(h.dims[0], RowBytes(h.format, h.dims));
    assert (f + row)[..HeaderSize(|h.dims|)] == f[..HeaderSize(|h.dims|)];
  }

  /** Overwriting a row inside the data keeps the file stored. */
  lemma OverwriteRowStored(f: seq<byte>, pos: nat, row: seq<byte>, h: Header)
    requires Stored(f, h) && HeaderSize(|h.dims|) <= pos && pos + |row| <= |f|
    ensures Stored(f[..pos] + row + f[pos + |row|..], h)
  {
    var g := f[..pos] + row + f[pos + |row|..];
    assert g[..HeaderSize(|h.dims|)] == f[..HeaderSize(|h.dims|)];
  }
}
