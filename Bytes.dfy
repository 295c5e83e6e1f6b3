/**
 * Bytes, unsigned 32-bit arithmetic and the little/big-endian codec that the
 * IDX containers and the .RBM format share.
 */
module Bytes {
  type byte = x: int | 0 <= x < 256

  const TWO32: int := 0x1_0000_0000
  const U32_MAX: int := 0xFFFF_FFFF
  type u32 = x: int | 0 <= x < 0x1_0000_0000

  /** Unsigned 32-bit wrap-around of an exact integer; negative values wrap too. */
  function Wrap32(x: int): u32
  {
    x % TWO32
  }

  function Pow256(n: nat): (r: nat)
    ensures r > 0
  {
    if n == 0 then 1 else 256 * Pow256(n - 1)
  }

  function Zeros(n: nat): (r: seq<byte>)
    ensures |r| == n
    ensures forall i :: 0 <= i < n ==> r[i] == 0
  {
    if n == 0 then [] else [0] + Zeros(n - 1)
  }

  function Reverse<T>(s: seq<T>): (r: seq<T>)
    ensures |r| == |s|
  {
    if s == [] then [] else Reverse(s[1..]) + [s[0]]
  }

  lemma {:induction false} ReverseAt<T>(s: seq<T>, i: nat)
    requires i < |s|
    ensures Reverse(s)[i] == s[|s| - 1 - i]
  {
    if i < |s| - 1 {
      ReverseAt(s[1..], i);
    }
  }

  lemma ReverseReverse<T>(s: seq<T>)
    ensures Reverse(Reverse(s)) == s
  {
    forall i | 0 <= i < |s|
      ensures Reverse(Reverse(s))[i] == s[i]
    {
      ReverseAt(Reverse(s), i);
      ReverseAt(s, |s| - 1 - i);
    }
  }

  /** Value of a byte string read least significant byte first. */
  function DecodeLE(b: seq<byte>): (r: nat)
    ensures r < Pow256(|b|)
  {
    if b == [] then 0 else b[0] + 256 * DecodeLE(b[1..])
  }

  /** The w least significant bytes of v, least significant first. */
  function EncodeLE(v: nat, w: nat): (r: seq<byte>)
    ensures |r| == w
  {
    if w == 0 then [] else [v % 256] + EncodeLE(v / 256, w - 1)
  }

  lemma {:induction false} DecodeEncodeLE(v: nat, w: nat)
    requires v < Pow256(w)
    ensures DecodeLE(EncodeLE(v, w)) == v
  {
    if w > 0 {
      DecodeEncodeLE(v / 256, w - 1);
      assert EncodeLE(v, w)[1..] == EncodeLE(v / 256, w - 1);
    }
  }

  lemma {:induction false} EncodeDecodeLE(b: seq<byte>)
    ensures EncodeLE(DecodeLE(b), |b|) == b
  {
    if b != [] {
      EncodeDecodeLE(b[1..]);
      assert DecodeLE(b) / 256 == DecodeLE(b[1..]);
      assert DecodeLE(b) % 256 == b[0];
    }
  }

  /** Value of a byte string stored in the given byte order. */
  function Decode(b: seq<byte>, little: bool): (r: nat)
    ensures r < Pow256(|b|)
  {
    if little then DecodeLE(b) else DecodeLE(Reverse(b))
  }

  /** The w-byte image of v in the given byte order. */
  function Encode(v: nat, w: nat, little: bool): (r: seq<byte>)
    ensures |r| == w
  {
    if little then EncodeLE(v, w) else Reverse(EncodeLE(v, w))
  }

  lemma DecodeEncode(v: nat, w: nat, little: bool)
    requires v < Pow256(w)
    ensures Decode(Encode(v, w, little), little) == v
  {
    DecodeEncodeLE(v, w);
    if !little { ReverseReverse(EncodeLE(v, w)); }
  }

  lemma EncodeDecode(b: seq<byte>, little: bool)
    ensures Encode(Decode(b, little), |b|, little) == b
  {
    if little {
      EncodeDecodeLE(b);
    } else {
      EncodeDecodeLE(Reverse(b));
      ReverseReverse(b);
    }
  }

  /**
   * The byte-swap rule every IDX reader uses: bytes taken in file order, or
   * reversed when the file's byte order is not the machine's, and then read in
   * the machine's order, give the value the file's own byte order denotes.
   */
  lemma {:induction false} SwapRule(b: seq<byte>, fileLittle: bool, systemLittle: bool)
    ensures Decode(if fileLittle == systemLittle then b else Reverse(b), systemLittle) == Decode(b, fileLittle)
  {
    if fileLittle != systemLittle && !systemLittle {
      ReverseReverse(b);
    }
  }

  /** The same rule for writing: the machine image, reversed when the orders differ, is the file image. */
  lemma {:induction false} SwapRuleWrite(v: nat, w: nat, fileLittle: bool, systemLittle: bool)
    ensures (if fileLittle == systemLittle then Encode(v, w, systemLittle) else Reverse(Encode(v, w, systemLittle)))
            == Encode(v, w, fileLittle)
  {
    if fileLittle != systemLittle && !systemLittle {
      ReverseReverse(EncodeLE(v, w));
    }
  }

  lemma MulStep(n: nat, w: nat)
    ensures (n + 1) * w == n * w + w
    ensures n * w >= 0
  {
  }

  /** Concatenated w-byte images of the cells of a row. */
  function EncodeCells(vs: seq<nat>, w: nat, little: bool): (r: seq<byte>)
    ensures |r| == |vs| * w
  {
    if vs == [] then []
    else
      MulStep(|vs| - 1, w);
      Encode(vs[0], w, little) + EncodeCells(vs[1..], w, little)
  }

  /** The n cells of a row stored as consecutive w-byte images in the given byte order. */
  function DecodeCells(b: seq<byte>, w: nat, n: nat, little: bool): (r: seq<nat>)
    requires |b| == n * w
    ensures |r| == n
    ensures forall k :: 0 <= k < n ==> r[k] < Pow256(w)
  {
    if n == 0 then []
    else
      MulStep(n - 1, w);
      [Decode(b[..w], little)] + DecodeCells(b[w..], w, n - 1, little)
  }

  lemma {:induction false} DecodeEncodeCells(vs: seq<nat>, w: nat, little: bool)
    requires forall k :: 0 <= k < |vs| ==> vs[k] < Pow256(w)
    ensures DecodeCells(EncodeCells(vs, w, little), w, |vs|, little) == vs
  {
    if vs != [] {
      var b := EncodeCells(vs, w, little);
      MulStep(|vs| - 1, w);
      assert b[..w] == Encode(vs[0], w, little);
      assert b[w..] == EncodeCells(vs[1..], w, little);
      DecodeEncode(vs[0], w, little);
      DecodeEncodeCells(vs[1..], w, little);
    }
  }

  lemma {:induction false} EncodeDecodeCells(b: seq<byte>, w: nat, n: nat, little: bool)
    requires |b| == n * w
    ensures EncodeCells(DecodeCells(b, w, n, little), w, little) == b
  {
    if n > 0 {
      MulStep(n - 1, w);
      var cells := DecodeCells(b, w, n, little);
      var rest := DecodeCells(b[w..], w, n - 1, little);
      assert cells == [Decode(b[..w], little)] + rest;
      assert cells[1..] == rest;
      EncodeDecode(b[..w], little);
      EncodeDecodeCells(b[w..], w, n - 1, little);
      assert EncodeCells(cells, w, little) == Encode(cells[0], w, little) + EncodeCells(rest, w, little);
      assert b == b[..w] + b[w..];
    }
  }

  lemma {:induction false} ZerosAdd(a: nat, b: nat)
    ensures Zeros(a) + Zeros(b) == Zeros(a + b)
  {
    assert Zeros(a) + Zeros(b) == Zeros(a + b);
  }

  /** Appending one cell image to a row image appends one decoded cell. */
  lemma {:induction false} DecodeCellsSnoc(b: seq<byte>, c: seq<byte>, w: nat, n: nat, little: bool)
    requires |b| == n * w && |c| == w
    ensures |b + c| == (n + 1) * w
    ensures DecodeCells(b + c, w, n + 1, little) == DecodeCells(b, w, n, little) + [Decode(c, little)]
  {
    MulStep(n, w);
    if n > 0 {
      MulStep(n - 1, w);
      assert (b + c)[..w] == b[..w];
      assert (b + c)[w..] == b[w..] + c;
      DecodeCellsSnoc(b[w..], c, w, n - 1, little);
    } else {
      assert b + c == c && c[..w] == c && c[w..] == [];
      assert DecodeCells(c, w, 1, little) == [Decode(c, little)] + DecodeCells([], w, 0, little);
    }
  }

  lemma {:induction false} EncodeCellsSnoc(vs: seq<nat>, v: nat, w: nat, little: bool)
    ensures EncodeCells(vs + [v], w, little) == EncodeCells(vs, w, little) + Encode(v, w, little)
  {
    if vs == [] {
      assert [v][1..] == [];
    } else {
      assert (vs + [v])[1..] == vs[1..] + [v];
      EncodeCellsSnoc(vs[1..], v, w, little);
    }
  }

  function Max(a: int, b: int): int { if a < b then b else a }

  /**
   * A stream after writing b at position pos: b lands at pos, a gap past the
   * old end reads as zeros, everything else is unchanged.
   */
  function Splice(s: seq<byte>, pos: nat, b: seq<byte>): (r: seq<byte>)
    ensures |r| == Max(|s|, pos + |b|)
    ensures r[pos .. pos + |b|] == b
    ensures forall i :: 0 <= i < |r| && !(pos <= i < pos + |b|) ==> r[i] == (if i < |s| then s[i] else 0)
  {
    var padded := if pos <= |s| then s else s + Zeros(pos - |s|);
    assert |padded| >= pos;
    var tail := if pos + |b| <= |padded| then padded[pos + |b|..] else [];
    var r := padded[..pos] + b + tail;
    assert r[pos .. pos + |b|] == b;
    r
  }

  /** Writing inside the stream keeps its length and the bytes before the write. */
  lemma SpliceInside(s: seq<byte>, pos: nat, b: seq<byte>)
    requires pos + |b| <= |s|
    ensures |Splice(s, pos, b)| == |s|
    ensures Splice(s, pos, b)[..pos] == s[..pos]
    ensures Splice(s, pos, b)[pos + |b|..] == s[pos + |b|..]
  {
  }

  /** Writing at the end of a stream appends. */
  lemma SpliceAtEnd(s: seq<byte>, b: seq<byte>)
    ensures Splice(s, |s|, b) == s + b
  {
    var r := Splice(s, |s|, b);
    assert r[..|s|] == s;
    assert r[|s|..] == b;
    assert r == r[..|s|] + r[|s|..];
  }
}
