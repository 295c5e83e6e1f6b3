/**
 * What the three IDX containers share: the endianness marker, the data-format
 * codes with their cell widths, and the row geometry derived from the
 * dimension list (row count first, then the row dimensions).
 */
module IdxFormat {
  import opened Bytes
  import opened Wrappers

  const BIG_ENDIAN: int := 0x0000
  const LITTLE_ENDIAN: int := 0xFFFF

  datatype DataFormat = UInt8 | SInt8 | SInt16 | SInt32 | Single | Double

  function Code(f: DataFormat): byte
  {
    match f
    case UInt8 => 0x08
    case SInt8 => 0x09
    case SInt16 => 0x0B
    case SInt32 => 0x0C
    case Single => 0x0D
    case Double => 0x0E
  }

  predicate IsFormatCode(c: int)
  {
    c == 0x08 || c == 0x09 || c == 0x0B || c == 0x0C || c == 0x0D || c == 0x0E
  }

  /** The format a header byte names, or None for any other byte. */
  function ParseFormat(c: byte): (r: Option<DataFormat>)
    ensures r.None? <==> !IsFormatCode(c)
    ensures r.Some? ==> Code(r.value) == c
  {
    if c == 0x08 then Some(UInt8)
    else if c == 0x09 then Some(SInt8)
    else if c == 0x0B then Some(SInt16)
    else if c == 0x0C then Some(SInt32)
    else if c == 0x0D then Some(Single)
    else if c == 0x0E then Some(Double)
    else None
  }

  lemma ParseFormatCode(f: DataFormat)
    ensures ParseFormat(Code(f)) == Some(f)
  {
  }

  /** Bytes per cell: 1, 1, 2, 4, 4 and 8. */
  function Width(f: DataFormat): (r: nat)
    ensures r == 1 || r == 2 || r == 4 || r == 8
    ensures r == 1 <==> (f == UInt8 || f == SInt8)
    ensures r == 8 <==> f == Double
  {
    match f
    case UInt8 => 1
    case SInt8 => 1
    case SInt16 => 2
    case SInt32 => 4
    case Single => 4
    case Double => 8
  }

  /**
   * The two-byte endianness marker read as one 16-bit value, whichever byte
   * order it is read in: 00 00 is big-endian, FF FF little-endian, anything
   * else is no marker. The result says whether the file is little-endian.
   */
  function ParseMarker(b0: byte, b1: byte): (r: Option<bool>)
    ensures r == Some(false) <==> 256 * b0 + b1 == BIG_ENDIAN
    ensures r == Some(true) <==> 256 * b0 + b1 == LITTLE_ENDIAN
    ensures r.Some? <==> 256 * b1 + b0 == BIG_ENDIAN || 256 * b1 + b0 == LITTLE_ENDIAN
  {
    if b0 == 0 && b1 == 0 then Some(false)
    else if b0 == 0xFF && b1 == 0xFF then Some(true)
    else None
  }

  function MarkerBytes(little: bool): (r: seq<byte>)
    ensures |r| == 2
  {
    if little then [0xFF, 0xFF] else [0x00, 0x00]
  }

  lemma ParseMarkerBytes(little: bool)
    ensures ParseMarker(MarkerBytes(little)[0], MarkerBytes(little)[1]) == Some(little)
  {
  }

  /** Exact product of a list of dimensions. */
  function Product(ds: seq<nat>): nat
  {
    if ds == [] then 1 else Product(ds[..|ds| - 1]) * ds[|ds| - 1]
  }

  /** The product as a uint32 loop computes it: one wrapping multiply per dimension. */
  function Product32(ds: seq<nat>): u32
  {
    if ds == [] then 1 else Wrap32(Product32(ds[..|ds| - 1]) * ds[|ds| - 1])
  }

  /** Wrapping at every step gives the exact product modulo 2^32. */
  lemma {:induction false} Product32IsProductMod(ds: seq<nat>)
    ensures Product32(ds) == Product(ds) % TWO32
  {
    if ds != [] {
      Product32IsProductMod(ds[..|ds| - 1]);
      ModMul(Product(ds[..|ds| - 1]), ds[|ds| - 1]);
    }
  }

  lemma Product32Snoc(ds: seq<nat>, d: nat)
    ensures Product32(ds + [d]) == Wrap32(Product32(ds) * d)
  {
    assert (ds + [d])[..|ds|] == ds;
  }

  /** The row-length loop of the containers: one wrapping uint32 multiply per dimension. */
  method RowLengthOf(ds: seq<nat>) returns (rl: u32)
    ensures rl == Product(ds) % TWO32
  {
    rl := 1;
    var i := 0;
    while i < |ds|
      invariant 0 <= i <= |ds|
      invariant rl == Product32(ds[..i])
    {
      assert ds[..i + 1] == ds[..i] + [ds[i]];
      Product32Snoc(ds[..i], ds[i]);
      rl := Wrap32(rl * ds[i]);
      i := i + 1;
    }
    assert ds[..|ds|] == ds;
    Product32IsProductMod(ds);
  }

  lemma ModMul(a: nat, d: nat)
    ensures ((a % TWO32) * d) % TWO32 == (a * d) % TWO32
  {
    var q, m := a / TWO32, a % TWO32;
    assert a == q * TWO32 + m;
    assert a * d == (q * d) * TWO32 + m * d;
  }

  lemma ProductPositive(ds: seq<nat>)
    requires forall k :: 0 <= k < |ds| ==> ds[k] > 0
    ensures Product(ds) > 0
  {
    if ds != [] {
      ProductPositive(ds[..|ds| - 1]);
    }
  }

  /** The header fields of an IDX file: byte order, cell format and the dimension list (row count first). */
  datatype Header = Header(little: bool, format: DataFormat, dims: seq<nat>)

  /** HeaderSize: marker, format, dimension count, then four bytes per dimension. */
  function HeaderSize(count: nat): nat
  {
    2 + 1 + 1 + 4 * count
  }

  /** The header as the C++ and Python writers emit it: the 16-bit marker, the format code, the dimension count and each dimension as a uint32. */
  function HeaderBytes(h: Header): (r: seq<byte>)
    requires |h.dims| < 256
    ensures |r| == HeaderSize(|h.dims|)
  {
    MarkerBytes(h.little) + [Code(h.format), |h.dims|] + EncodeCells(h.dims, 4, h.little)
  }

  /** WriteHeader: each field through write<T>, which swaps bytes when the orders differ. */
  method WriteHeader(h: Header, sysLittle: bool) returns (image: seq<byte>)
    requires |h.dims| < 256
    ensures image == HeaderBytes(h)
  {
    var cells := CellsImage(h.dims, 4, h.little, sysLittle);
    image := MarkerBytes(h.little) + [Code(h.format), |h.dims|] + cells;
  }

  lemma U32Cells(dims: seq<nat>)
    requires forall k :: 0 <= k < |dims| ==> dims[k] < Pow256(4)
    ensures forall k :: 0 <= k < |dims| ==> dims[k] < TWO32
  {
    assert Pow256(4) == TWO32;
  }

  /** Offset of row `index` in a file whose header has `header` bytes. */
  function RowOffset(header: nat, rowBytes: nat, index: nat): nat
  {
    header + rowBytes * index
  }

  /** A file whose length is exactly header plus rows whole rows holds every row below rows. */
  lemma RowInside(header: nat, rowBytes: nat, rows: nat, index: nat)
    requires index < rows
    ensures RowOffset(header, rowBytes, index) + rowBytes <= header + rows * rowBytes
  {
    assert rowBytes * index + rowBytes == rowBytes * (index + 1);
    assert rowBytes * (index + 1) <= rowBytes * rows;
  }
  /** One cell as a WriteRow overload emits it: the machine image, reversed when the orders differ. */
  function CellImage(v: nat, w: nat, fileLittle: bool, systemLittle: bool): (r: seq<byte>)
    ensures r == Encode(v, w, fileLittle)
  {
    SwapRuleWrite(v, w, fileLittle, systemLittle);
    var machine := Encode(v, w, systemLittle);
    if fileLittle == systemLittle then machine else Reverse(machine)
  }

  /** One cell as a ReadRow overload assembles it: the stream bytes, reversed when the orders differ, read as a machine value. */
  function CellValue(chunk: seq<byte>, fileLittle: bool, systemLittle: bool): (r: nat)
    ensures r == Decode(chunk, fileLittle)
  {
    SwapRule(chunk, fileLittle, systemLittle);
    Decode(if fileLittle == systemLittle then chunk else Reverse(chunk), systemLittle)
  }

  /**
   * The per-cell read loop shared by the C# ReadRow overloads and the C++
   * read_row template: n cells of w bytes from position pos, each taken in
   * stream order or reversed when the file's byte order is not the machine's.
   */
  method ReadCells(stream: seq<byte>, pos: nat, n: nat, w: nat, fileLittle: bool, systemLittle: bool)
    returns (cells: seq<nat>)
    requires pos + n * w <= |stream|
    ensures cells == DecodeCells(stream[pos .. pos + n * w], w, n, fileLittle)
  {
    cells := [];
    var k := 0;
    var at := pos;
    while k < n
      invariant 0 <= k <= n
      invariant at == pos + k * w
      invariant cells == DecodeCells(stream[pos .. at], w, k, fileLittle)
    {
      CellInRow(k, n, w);
      var chunk := stream[at .. at + w];
      DecodeCellsSnoc(stream[pos .. at], chunk, w, k, fileLittle);
      assert stream[pos .. at] + chunk == stream[pos .. at + w];
      cells := cells + [CellValue(chunk, fileLittle, systemLittle)];
      at := at + w;
      k := k + 1;
    }
  }

  /** The per-cell write loop shared by the C# WriteRow overloads and the C++ write_row template. */
  method CellsImage(cells: seq<nat>, w: nat, fileLittle: bool, systemLittle: bool) returns (image: seq<byte>)
    ensures image == EncodeCells(cells, w, fileLittle)
  {
    image := [];
    var k := 0;
    while k < |cells|
      invariant 0 <= k <= |cells|
      invariant image == EncodeCells(cells[..k], w, fileLittle)
    {
      EncodeCellsSnoc(cells[..k], cells[k], w, fileLittle);
      assert cells[..k + 1] == cells[..k] + [cells[k]];
      image := image + CellImage(cells[k], w, fileLittle, systemLittle);
      k := k + 1;
    }
    assert cells[..|cells|] == cells;
  }

  /** Row writes and row reads use the same swap rule, so a row written at pos reads back unchanged. */
  lemma {:induction false} RowRoundTrip(s: seq<byte>, pos: nat, cells: seq<nat>, w: nat, little: bool)
    requires forall k :: 0 <= k < |cells| ==> cells[k] < Pow256(w)
    ensures pos + |cells| * w <= |Splice(s, pos, EncodeCells(cells, w, little))|
    ensures DecodeCells(Splice(s, pos, EncodeCells(cells, w, little))[pos .. pos + |cells| * w], w, |cells|, little) == cells
  {
    DecodeEncodeCells(cells, w, little);
  }

  lemma CellInRow(k: nat, n: nat, w: nat)
    requires k < n
    ensures (k + 1) * w == k * w + w
    ensures k * w + w <= n * w
  {
    MulStep(k, w);
    assert (k + 1) * w <= n * w;
  }
}
