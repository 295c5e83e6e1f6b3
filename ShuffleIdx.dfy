/**
 * The shuffleidx tool (trunk/source/Tools/shuffleidx/shuffleidx.cpp): an
 * index buffer is filled with 0..n-1 and Fisher-Yates shuffled, then the
 * output file gets input row index[k] as its row k. The generator is the
 * `draw` parameter: the k-th swap partner is draw(t) mod (k + 1), which
 * ranges over every j in [0, k] as draw does.
 */
module ShuffleIdx {
  import opened Bytes
  import opened Wrappers
  import opened IdxTable

  /** 0, 1, ..., n - 1 */
  function Iota(n: nat): (r: seq<nat>)
    ensures |r| == n && forall k :: 0 <= k < n ==> r[k] == k
  {
    seq(n, k => k)
  }

  /** Every entry of p is a row index of rows. */
  predicate Indexes<T>(p: seq<nat>, rows: seq<T>)
  {
    forall k :: 0 <= k < |p| ==> p[k] < |rows|
  }

  /** The rows picked by p, in p's order. */
  function Select<T>(rows: seq<T>, p: seq<nat>): seq<T>
    requires Indexes(p, rows)
  {
    seq(|p|, k requires 0 <= k < |p| => rows[p[k]])
  }

  lemma SelectAppend<T>(rows: seq<T>, a: seq<nat>, b: seq<nat>)
    requires Indexes(a, rows) && Indexes(b, rows)
    ensures Indexes(a + b, rows) && Select(rows, a + b) == Select(rows, a) + Select(rows, b)
  {
  }

  /** Picking by the identity copies the rows. */
  lemma SelectIota<T>(rows: seq<T>)
    ensures Indexes(Iota(|rows|), rows) && Select(rows, Iota(|rows|)) == rows
  {
  }

  /** Picking around one index x: the picks of the rest, plus row x. */
  lemma SelectAround<T>(rows: seq<T>, a: seq<nat>, x: nat, b: seq<nat>)
    requires Indexes(a + [x] + b, rows)
    ensures Indexes(a + b, rows) && x < |rows|
    ensures multiset(Select(rows, a + [x] + b)) == multiset(Select(rows, a + b)) + multiset{rows[x]}
  {
    assert (a + [x] + b)[|a|] == x;
    assert forall k :: 0 <= k < |a| ==> (a + [x] + b)[k] == a[k];
    assert forall k :: 0 <= k < |b| ==> (a + [x] + b)[|a| + 1 + k] == b[k];
    SelectAppend(rows, a + [x], b);
    SelectAppend(rows, a, [x]);
    SelectAppend(rows, a, b);
  }

  /** Removing the element at i leaves the multiset less that element. */
  lemma RemoveAt(q: seq<nat>, i: nat)
    requires i < |q|
    ensures q == q[..i] + [q[i]] + q[i + 1..]
    ensures multiset(q[..i] + q[i + 1..]) == multiset(q) - multiset{q[i]}
  {
    assert q == q[..i] + [q[i]] + q[i + 1..];
  }

  /** Two index lists holding the same indices pick the same rows, up to order. */
  lemma {:induction false} SamePicks<T>(rows: seq<T>, p: seq<nat>, q: seq<nat>)
    requires Indexes(p, rows) && Indexes(q, rows) && multiset(p) == multiset(q)
    ensures multiset(Select(rows, p)) == multiset(Select(rows, q))
    decreases |p|
  {
    if p != [] {
      var x := p[0];
      assert x in multiset(q);
      var i :| 0 <= i < |q| && q[i] == x;
      RemoveAt(q, i);
      RemoveAt(p, 0);
      var q1, q2 := q[..i], q[i + 1..];
      SelectAround(rows, q1, x, q2);
      assert [] + [x] + p[1..] == p;
      SelectAround(rows, [], x, p[1..]);
      assert [] + p[1..] == p[1..];
      SamePicks(rows, p[1..], q1 + q2);
    }
  }

  /** A permutation of 0..n-1 only holds row indices, and picks every row exactly as often as it occurs. */
  lemma PermutedCopy<T>(rows: seq<T>, p: seq<nat>)
    requires multiset(p) == multiset(Iota(|rows|))
    ensures Indexes(p, rows) && |Select(rows, p)| == |rows|
    ensures multiset(Select(rows, p)) == multiset(rows)
  {
    forall k | 0 <= k < |p|
      ensures p[k] < |rows|
    {
      assert p[k] in multiset(Iota(|rows|));
    }
    assert |p| == |multiset(p)| == |Iota(|rows|)|;
    SelectIota(rows);
    SamePicks(rows, p, Iota(|rows|));
  }

  /**
   * The first k of the shuffle loop as written: GetRowCount() - 1 in uint32.
   * With no rows it is 2^32 - 1, so the loop runs and its first swap is at
   * index_buffer[2^32 - 1] of an empty buffer.
   */
  function FirstPosition(rowCount: u32): u32
  {
    Wrap32(rowCount - 1)
  }

  lemma EmptyInputSwapsOutside()
    ensures FirstPosition(0) == U32_MAX && FirstPosition(0) > 0
  {
  }

  /** swap(p[i], p[k]) */
  function Swapped(p: seq<nat>, i: nat, k: nat): seq<nat>
    requires i < |p| && k < |p|
  {
    p[i := p[k]][k := p[i]]
  }

  /** A swap exchanges two entries: the length and the multiset stay. */
  lemma SwapPermutes(p: seq<nat>, i: nat, k: nat)
    requires i < |p| && k < |p|
    ensures |Swapped(p, i, k)| == |p| && multiset(Swapped(p, i, k)) == multiset(p)
  {
    if i != k {
      assert multiset(p[i := p[k]]) == multiset(p) - multiset{p[i]} + multiset{p[k]};
    }
  }

  /** The swap partner of position k for the draw x: a position in [0, k]. */
  function Partner(x: nat, k: nat): (j: nat)
    ensures j <= k
  {
    x % (k + 1)
  }

  /**
   * The index buffer after the swaps for positions k, k - 1, ..., 1, the
   * swap at position k being the t-th: index[j] and index[k] trade places
   * for j = draw(t) mod (k + 1).
   */
  function SwapsFrom(p: seq<nat>, k: nat, t: nat, draw: nat -> nat): seq<nat>
    requires k < |p|
    decreases k
  {
    if k == 0 then p
    else
      SwapsFrom(Swapped(p, Partner(draw(t), k), k), k - 1, t + 1, draw)
  }

  /** One turn of the swap loop: the swap at k, then those below it. */
  lemma SwapStep(before: seq<nat>, after: seq<nat>, k: nat, t: nat, draw: nat -> nat)
    requires 0 < k < |before| && after == Swapped(before, Partner(draw(t), k), k)
    ensures SwapsFrom(before, k, t, draw) == SwapsFrom(after, k - 1, t + 1, draw)
  {
  }

  /**
   * The order shuffleidx writes rows in: the identity, then the swaps for k
   * from n - 1 down to 1. It depends on the row count and the generator
   * alone, so files of equal length are shuffled alike (the generator is
   * seeded with the constant 1).
   */
  function ShuffleOrder(n: nat, draw: nat -> nat): seq<nat>
  {
    if n == 0 then [] else SwapsFrom(Iota(n), n - 1, 0, draw)
  }

  /** The swaps only exchange entries: the length and the multiset stay. */
  lemma {:induction false} SwapsFromPermutes(p: seq<nat>, k: nat, t: nat, draw: nat -> nat)
    requires k < |p|
    ensures |SwapsFrom(p, k, t, draw)| == |p| && multiset(SwapsFrom(p, k, t, draw)) == multiset(p)
    decreases k
  {
    if k > 0 {
      var j := Partner(draw(t), k);
      SwapPermutes(p, j, k);
      SwapsFromPermutes(Swapped(p, j, k), k - 1, t + 1, draw);
    }
  }

  /** The shuffled order is a permutation of 0..n-1. */
  lemma ShuffleOrderPermutes(n: nat, draw: nat -> nat)
    ensures |ShuffleOrder(n, draw)| == n && multiset(ShuffleOrder(n, draw)) == multiset(Iota(n))
  {
    if n > 0 {
      SwapsFromPermutes(Iota(n), n - 1, 0, draw);
    }
  }

  /** The first loop: index_buffer[k] = k for every k. */
  method FillIdentity(index: array<nat>)
    modifies index
    ensures index[..] == Iota(index.Length)
  {
    for k := 0 to index.Length
      invariant forall i :: 0 <= i < k ==> index[i] == i
    {
      index[k] := k;
    }
  }

  /**
   * The index buffer: the identity, then for k from n - 1 down to 1 a swap of
   * position k with a position j in [0, k]. The swap loop is skipped for an
   * empty file.
   */
  method ShuffledIndices(n: nat, draw: nat -> nat) returns (p: seq<nat>)
    requires n < TWO32
    ensures p == ShuffleOrder(n, draw)
    ensures |p| == n && multiset(p) == multiset(Iota(n))
  {
    var index := new nat[n];
    FillIdentity(index);
    if n > 0 {
      var k := n - 1;
      var t := 0;
      while k > 0
        invariant 0 <= k < n
        invariant SwapsFrom(index[..], k, t, draw) == ShuffleOrder(n, draw)
      {
        var j := Partner(draw(t), k);
        ghost var before := index[..];
        index[j], index[k] := index[k], index[j];
        assert index[..] == Swapped(before, j, k);
        SwapStep(before, index[..], k, t, draw);
        k := k - 1;
        t := t + 1;
      }
    }
    p := index[..];
    ShuffleOrderPermutes(n, draw);
  }

  /** The write loop: row k of the output is input row p[k]. */
  method CopyRows<T>(rows: seq<T>, p: seq<nat>) returns (out: seq<T>)
    requires Indexes(p, rows)
    ensures |out| == |p| && forall k :: 0 <= k < |p| ==> out[k] == rows[p[k]]
  {
    out := [];
    for k := 0 to |p|
      invariant |out| == k && forall i :: 0 <= i < k ==> out[i] == rows[p[i]]
    {
      out := out + [rows[p[k]]];
    }
  }

  datatype Outcome = Shuffled(output: Table) | Usage | CannotLoad | CannotCreate

  /**
   * main: argc must be 3, the input must load (None: it did not) and the
   * output must be created (canCreate). The output keeps the input's byte
   * order and format, is created with the flat row length, and holds the
   * input's rows in the shuffled order `order`.
   */
  method Shuffle(argc: int, input: Option<Table>, canCreate: bool, draw: nat -> nat) returns (r: Outcome, order: seq<nat>)
    requires input.Some? ==> Consistent(input.value)
    ensures r.Shuffled? <==> argc == 3 && input.Some? && canCreate
    ensures !r.Shuffled? ==> r == (if argc != 3 then Usage else if input.None? then CannotLoad else CannotCreate)
    ensures r.Shuffled? ==>
      order == ShuffleOrder(|input.value.rows|, draw) &&
      multiset(order) == multiset(Iota(|input.value.rows|)) && Indexes(order, input.value.rows) &&
      r.output == FlatTable(input.value.little, input.value.format, RowLength(input.value.dims), Select(input.value.rows, order))
    ensures r.Shuffled? ==> Consistent(r.output) && multiset(r.output.rows) == multiset(input.value.rows)
  {
    order := [];
    if argc != 3 {
      return Usage, order;
    }
    if input.None? {
      return CannotLoad, order;
    }
    if !canCreate {
      return CannotCreate, order;
    }
    var t := input.value;
    order := ShuffledIndices(|t.rows|, draw);
    PermutedCopy(t.rows, order);
    var rows := CopyRows(t.rows, order);
    assert rows == Select(t.rows, order);
    FlatConsistent(t.little, t.format, RowLength(t.dims), rows);
    r := Shuffled(FlatTable(t.little, t.format, RowLength(t.dims), rows));
  }
}
