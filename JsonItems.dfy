/**
 * The view the OMLT model loaders have of cppJSONStream's Reader: the
 * successive results of next(), each with what readString, readUInt and
 * readDouble return right after it. Past the end of the list next() only
 * gives Invalid, as the reader does once it has failed. The token-level
 * macros of trunk/extern/cppJSONStream/cppJSONStream.hpp (TryGetToken,
 * TryGetNameValuePair) are predicates on this list.
 */
module JsonItems {
  import opened Wrappers
  import J = JsonReader

  /** One call of next(): the token, and the string, unsigned and double the reader then holds. */
  datatype Item = Item(token: J.Token, text: string, count: nat, number: real)

  const NOTHING: Item := Item(J.Invalid, "", 0, 0.0)

  function At(items: seq<Item>, p: nat): (r: Item)
    ensures p >= |items| ==> r == NOTHING
  {
    if p < |items| then items[p] else NOTHING
  }

  /** TryGetToken(tok) at position p. */
  predicate TokenAt(items: seq<Item>, p: nat, tok: J.Token)
  {
    At(items, p).token == tok
  }

  /** TryGetNameValuePair(name, tok) at p: a ValueName spelled name, then tok. */
  predicate PairAt(items: seq<Item>, p: nat, name: string, tok: J.Token)
  {
    TokenAt(items, p, J.ValueName) && At(items, p).text == name && TokenAt(items, p + 1, tok)
  }

  /** A token other than Invalid lies inside the list. */
  lemma TokenInside(items: seq<Item>, p: nat, tok: J.Token)
    requires TokenAt(items, p, tok) && tok != J.Invalid
    ensures p < |items|
  {
  }

  /** The loop `for k < n: TryGetToken(Number); x[k] = readDouble()` from p, stopped after k numbers. */
  function NumbersTo(items: seq<Item>, p: nat, k: nat): (r: Option<seq<real>>)
    ensures r.Some? ==> |r.value| == k
  {
    if k == 0 then Some([])
    else match NumbersTo(items, p, k - 1)
      case None => None
      case Some(xs) => if TokenAt(items, p + k - 1, J.Number) then Some(xs + [At(items, p + k - 1).number]) else None
  }

  /** The loop succeeds exactly when the k tokens from p are numbers, and reads their values in order. */
  lemma {:induction false} NumbersToMeaning(items: seq<Item>, p: nat, k: nat)
    ensures NumbersTo(items, p, k).Some? <==> forall q :: p <= q < p + k ==> TokenAt(items, q, J.Number)
    ensures NumbersTo(items, p, k).Some? ==> forall q :: p <= q < p + k ==> NumbersTo(items, p, k).value[q - p] == At(items, q).number
  {
    if k > 0 {
      NumbersToMeaning(items, p, k - 1);
    }
  }

  /** One array of n numbers from p: BeginArray, the numbers, EndArray. */
  function Row(items: seq<Item>, p: nat, n: nat): (r: Option<seq<real>>)
    ensures r.Some? ==> |r.value| == n && p + n + 1 < |items|
  {
    if TokenAt(items, p, J.BeginArray) && NumbersTo(items, p + 1, n).Some? && TokenAt(items, p + 1 + n, J.EndArray)
    then TokenInside(items, p + 1 + n, J.EndArray); Some(NumbersTo(items, p + 1, n).value)
    else None
  }

  /** k arrays of n numbers each from p, and the position after them. */
  function RowsTo(items: seq<Item>, p: nat, n: nat, k: nat): (r: Option<(seq<seq<real>>, nat)>)
    ensures r.Some? ==> |r.value.0| == k && (forall j :: 0 <= j < k ==> |r.value.0[j]| == n) && p <= r.value.1 && (k > 0 ==> r.value.1 <= |items|)
  {
    if k == 0 then Some(([], p))
    else match RowsTo(items, p, n, k - 1)
      case None => None
      case Some((rows, q)) =>
        match Row(items, q, n)
        case None => None
        case Some(row) => Some((rows + [row], q + n + 2))
  }

  /** A loop that has failed stays failed: fewer numbers or rows read leave the rest unread. */
  lemma {:induction false} RowsStopped(items: seq<Item>, p: nat, n: nat, k: nat, h: nat)
    requires k <= h && RowsTo(items, p, n, k).None?
    ensures RowsTo(items, p, n, h).None?
    decreases h - k
  {
    if k < h {
      RowsStopped(items, p, n, k + 1, h);
    }
  }

  lemma {:induction false} NumbersStopped(items: seq<Item>, p: nat, k: nat, h: nat)
    requires k <= h && NumbersTo(items, p, k).None?
    ensures NumbersTo(items, p, h).None?
    decreases h - k
  {
    if k < h {
      NumbersStopped(items, p, k + 1, h);
    }
  }

  /** What the writer puts out for a name, a string, an unsigned count and a float. */
  function NameItem(s: string): Item { Item(J.ValueName, s, 0, 0.0) }
  function StringItem(s: string): Item { Item(J.String, s, 0, 0.0) }
  function CountItem(n: nat): Item { Item(J.Number, "", n, n as real) }
  function NumberItem(x: real): Item { Item(J.Number, "", 0, x) }
  const BEGIN_OBJECT: Item := Item(J.BeginObject, "", 0, 0.0)
  const END_OBJECT: Item := Item(J.EndObject, "", 0, 0.0)
  const BEGIN_ARRAY: Item := Item(J.BeginArray, "", 0, 0.0)
  const END_ARRAY: Item := Item(J.EndArray, "", 0, 0.0)

  /** write_array(float*, n) as items: its numbers between BeginArray and EndArray. */
  function NumberItems(xs: seq<real>): (r: seq<Item>)
    ensures |r| == |xs| && forall i :: 0 <= i < |xs| ==> r[i] == NumberItem(xs[i])
  {
    seq(|xs|, i requires 0 <= i < |xs| => NumberItem(xs[i]))
  }

  function ArrayItems(xs: seq<real>): (r: seq<Item>)
    ensures |r| == |xs| + 2
  {
    [BEGIN_ARRAY] + NumberItems(xs) + [END_ARRAY]
  }

  /** The first k rows, each written by write_array. */
  function RowsItemsTo(rows: seq<seq<real>>, k: nat): seq<Item>
    requires k <= |rows|
  {
    if k == 0 then [] else RowsItemsTo(rows, k - 1) + ArrayItems(rows[k - 1])
  }

  /** `seg` sits in items from position p on. */
  predicate Segment(items: seq<Item>, p: nat, seg: seq<Item>)
  {
    p + |seg| <= |items| && forall i {:trigger seg[i]} :: 0 <= i < |seg| ==> items[p + i] == seg[i]
  }

  lemma SegmentSplit(items: seq<Item>, p: nat, a: seq<Item>, b: seq<Item>)
    requires Segment(items, p, a + b)
    ensures Segment(items, p, a) && Segment(items, p + |a|, b)
  {
    assert forall i :: 0 <= i < |a| ==> (a + b)[i] == a[i];
    assert forall i :: 0 <= i < |b| ==> (a + b)[|a| + i] == b[i];
  }

  lemma {:induction false} NumbersReadTo(items: seq<Item>, p: nat, xs: seq<real>, k: nat)
    requires k <= |xs| && Segment(items, p, NumberItems(xs))
    ensures NumbersTo(items, p, k) == Some(xs[..k])
  {
    if k > 0 {
      NumbersReadTo(items, p, xs, k - 1);
      assert items[p + (k - 1)] == NumberItems(xs)[k - 1];
      assert xs[..k] == xs[..k - 1] + [xs[k - 1]];
    }
  }

  /** Reading back written numbers gives the numbers. */
  lemma NumbersRead(items: seq<Item>, p: nat, xs: seq<real>)
    requires Segment(items, p, NumberItems(xs))
    ensures NumbersTo(items, p, |xs|) == Some(xs)
  {
    NumbersReadTo(items, p, xs, |xs|);
    assert xs[..|xs|] == xs;
  }

  /** Reading back a written array gives its numbers. */
  lemma RowRead(items: seq<Item>, p: nat, xs: seq<real>)
    requires Segment(items, p, ArrayItems(xs))
    ensures Row(items, p, |xs|) == Some(xs)
  {
    var a := ArrayItems(xs);
    assert a[0] == BEGIN_ARRAY && a[|xs| + 1] == END_ARRAY;
    assert items[p] == BEGIN_ARRAY && items[p + 1 + |xs|] == END_ARRAY;
    SegmentSplit(items, p, [BEGIN_ARRAY] + NumberItems(xs), [END_ARRAY]);
    SegmentSplit(items, p, [BEGIN_ARRAY], NumberItems(xs));
    NumbersRead(items, p + 1, xs);
  }

  /** Reading back written rows of n numbers gives the rows, and ends right after them. */
  lemma {:induction false} RowsRead(items: seq<Item>, p: nat, rows: seq<seq<real>>, n: nat, k: nat)
    requires k <= |rows| && (forall j :: 0 <= j < |rows| ==> |rows[j]| == n)
    requires Segment(items, p, RowsItemsTo(rows, k))
    ensures RowsTo(items, p, n, k) == Some((rows[..k], p + |RowsItemsTo(rows, k)|))
  {
    if k > 0 {
      SegmentSplit(items, p, RowsItemsTo(rows, k - 1), ArrayItems(rows[k - 1]));
      RowsRead(items, p, rows, n, k - 1);
      var q := p + |RowsItemsTo(rows, k - 1)|;
      RowRead(items, q, rows[k - 1]);
      assert rows[..k] == rows[..k - 1] + [rows[k - 1]];
    }
  }
}
