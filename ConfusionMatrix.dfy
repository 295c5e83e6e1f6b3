/**
 * The confusion matrix of source/OMLT/OMLT/include/ConfusionMatrix.h: a
 * classes x classes array of uint32 counters, row = actual class, column =
 * predicted class, plus the number of samples added. Every counter and every
 * sum wraps modulo 2^32 as a uint32 does.
 */
module ConfusionMatrix {
  import opened Bytes

  /** Wrapping after every step of a sum is the same as wrapping once at the end. */
  lemma WrapAdd(a: int, b: int)
    ensures Wrap32(Wrap32(a) + b) == Wrap32(a + b)
  {
    var q := a / TWO32;
    assert a == q * TWO32 + Wrap32(a);
    assert a + b == q * TWO32 + (Wrap32(a) + b);
  }

  function Square(n: nat): nat
  {
    n * n
  }

  /** operator(): the flat position of cell (actual, predicted). */
  function Cell(n: nat, i: nat, j: nat): (k: nat)
    requires i < n && j < n
    ensures k < Square(n)
  {
    assert i * n + j < (i + 1) * n <= n * n;
    i * n + j
  }

  predicate Shaped(m: seq<u32>, n: nat)
  {
    |m| == Square(n)
  }

  function Entry(m: seq<u32>, n: nat, i: nat, j: nat): nat
    requires Shaped(m, n) && i < n && j < n
  {
    m[Cell(n, i, j)]
  }

  /** Row i over its first j columns. */
  function RowSum(m: seq<u32>, n: nat, i: nat, j: nat): nat
    requires Shaped(m, n) && i < n && j <= n
  {
    if j == 0 then 0 else RowSum(m, n, i, j - 1) + Entry(m, n, i, j - 1)
  }

  /** Row i over its first j columns, column c left out. */
  function RowExcept(m: seq<u32>, n: nat, i: nat, c: nat, j: nat): nat
    requires Shaped(m, n) && i < n && j <= n
  {
    if j == 0 then 0 else RowExcept(m, n, i, c, j - 1) + (if j - 1 == c then 0 else Entry(m, n, i, j - 1))
  }

  /** Column c over its first i rows, row c left out. */
  function ColumnExcept(m: seq<u32>, n: nat, c: nat, i: nat): nat
    requires Shaped(m, n) && c < n && i <= n
  {
    if i == 0 then 0 else ColumnExcept(m, n, c, i - 1) + (if i - 1 == c then 0 else Entry(m, n, i - 1, c))
  }

  /** The cells of the first i rows that are neither in row c nor in column c. */
  function Rest(m: seq<u32>, n: nat, c: nat, i: nat): nat
    requires Shaped(m, n) && i <= n
  {
    if i == 0 then 0 else Rest(m, n, c, i - 1) + (if i - 1 == c then 0 else RowExcept(m, n, i - 1, c, n))
  }

  /** All cells of the first i rows. */
  function Total(m: seq<u32>, n: nat, i: nat): nat
    requires Shaped(m, n) && i <= n
  {
    if i == 0 then 0 else Total(m, n, i - 1) + RowSum(m, n, i - 1, n)
  }

  lemma {:induction false} RowSplit(m: seq<u32>, n: nat, i: nat, c: nat, j: nat)
    requires Shaped(m, n) && i < n && c < n && j <= n
    ensures RowSum(m, n, i, j) == RowExcept(m, n, i, c, j) + (if c < j then Entry(m, n, i, c) else 0)
  {
    if j > 0 {
      RowSplit(m, n, i, c, j - 1);
    }
  }

  lemma {:induction false} TotalSplit(m: seq<u32>, n: nat, c: nat, i: nat)
    requires Shaped(m, n) && c < n && i <= n
    ensures Total(m, n, i) == Rest(m, n, c, i) + ColumnExcept(m, n, c, i) + (if c < i then RowSum(m, n, c, n) else 0)
  {
    if i > 0 {
      TotalSplit(m, n, c, i - 1);
      RowSplit(m, n, i - 1, c, n);
    }
  }

  /**
   * True positives, false positives, false negatives and true negatives of
   * any class partition the matrix: together they are every cell once.
   */
  lemma Partition(m: seq<u32>, n: nat, c: nat)
    requires Shaped(m, n) && c < n
    ensures Entry(m, n, c, c) + ColumnExcept(m, n, c, n) + RowExcept(m, n, c, c, n) + Rest(m, n, c, n) == Total(m, n, n)
  {
    TotalSplit(m, n, c, n);
    RowSplit(m, n, c, c, n);
  }

  /** Changing one cell changes that cell's row and no other. */
  lemma {:induction false} RowSumUpdate(m: seq<u32>, n: nat, a: nat, p: nat, v: u32, i: nat, j: nat)
    requires Shaped(m, n) && a < n && p < n && i < n && j <= n
    ensures Shaped(m[Cell(n, a, p) := v], n)
    ensures RowSum(m[Cell(n, a, p) := v], n, i, j) ==
      RowSum(m, n, i, j) + (if i == a && p < j then v - m[Cell(n, a, p)] else 0)
  {
    if j > 0 {
      RowSumUpdate(m, n, a, p, v, i, j - 1);
      CellsDiffer(n, a, p, i, j - 1);
    }
  }

  lemma CellsDiffer(n: nat, a: nat, p: nat, i: nat, j: nat)
    requires a < n && p < n && i < n && j < n
    ensures Cell(n, a, p) == Cell(n, i, j) <==> a == i && p == j
  {
    if a < i {
      assert a * n + p < (a + 1) * n <= i * n;
    } else if i < a {
      assert i * n + j < (i + 1) * n <= a * n;
    }
  }

  lemma {:induction false} TotalUpdate(m: seq<u32>, n: nat, a: nat, p: nat, v: u32, i: nat)
    requires Shaped(m, n) && a < n && p < n && i <= n
    ensures Shaped(m[Cell(n, a, p) := v], n)
    ensures Total(m[Cell(n, a, p) := v], n, i) == Total(m, n, i) + (if a < i then v - m[Cell(n, a, p)] else 0)
  {
    if i > 0 {
      TotalUpdate(m, n, a, p, v, i - 1);
      RowSumUpdate(m, n, a, p, v, i - 1, n);
    }
  }

  /** Incrementing one counter, with its wrap-around, adds one to the wrapped total. */
  lemma IncrementTotal(m: seq<u32>, n: nat, a: nat, p: nat)
    requires Shaped(m, n) && a < n && p < n
    ensures Shaped(m[Cell(n, a, p) := Wrap32(m[Cell(n, a, p)] as int + 1)], n)
    ensures Wrap32(Total(m[Cell(n, a, p) := Wrap32(m[Cell(n, a, p)] as int + 1)], n, n)) == Wrap32(Total(m, n, n) + 1)
  {
    var old_ := m[Cell(n, a, p)];
    TotalUpdate(m, n, a, p, Wrap32(old_ as int + 1), n);
    if old_ == U32_MAX {
      assert Total(m[Cell(n, a, p) := 0], n, n) + TWO32 == Total(m, n, n) + 1;
    }
  }

  class ConfusionMatrix {
    const classes: nat
    const data: array<u32>
    var count: u32

    ghost predicate Valid()
      reads this, data
    {
      Shaped(data[..], classes) && count == Wrap32(Total(data[..], classes, classes))
    }

    /** The counters start at zero; the array of classes * classes cells is allocated without wrap-around. */
    constructor(inClasses: nat)
      requires Square(inClasses) < TWO32
      ensures Valid() && classes == inClasses && count == 0
      ensures forall k :: 0 <= k < data.Length ==> data[k] == 0
    {
      classes := inClasses;
      data := new u32[Square(inClasses)](_ => 0);
      count := 0;
      new;
      ZeroTotal(data[..], inClasses, inClasses);
    }

    /** Add: one more sample of class actual predicted as class predicted. */
    method Add(actual: nat, predicted: nat)
      requires Valid() && actual < classes && predicted < classes
      modifies this, data
      ensures Valid()
      ensures data[..] == old(data[..])[Cell(classes, actual, predicted) := Wrap32(old(data[Cell(classes, actual, predicted)]) as int + 1)]
      ensures count == Wrap32(old(count) as int + 1)
    {
      var k := Cell(classes, actual, predicted);
      IncrementTotal(data[..], classes, actual, predicted);
      WrapAdd(Total(data[..], classes, classes), 1);
      data[k] := Wrap32(data[k] as int + 1);
      count := Wrap32(count as int + 1);
    }

    function At(i: nat, j: nat): nat
      reads this, data
      requires Valid() && i < classes && j < classes
    {
      Entry(data[..], classes, i, j)
    }

    method TruePositive(c: nat) returns (tp: u32)
      requires Valid() && c < classes
      ensures tp == At(c, c)
    {
      tp := data[Cell(classes, c, c)];
    }

    /** Column c without its diagonal cell: the samples wrongly predicted as c. */
    method FalsePositive(c: nat) returns (fp: u32)
      requires Valid() && c < classes
      ensures fp == Wrap32(ColumnExcept(data[..], classes, c, classes))
    {
      fp := 0;
      for i := 0 to classes
        invariant fp == Wrap32(ColumnExcept(data[..], classes, c, i))
      {
        if i != c {
          WrapAdd(ColumnExcept(data[..], classes, c, i), data[Cell(classes, i, c)]);
          fp := Wrap32(fp as int + data[Cell(classes, i, c)]);
        }
      }
    }

    /** Row c without its diagonal cell: the samples of class c predicted as something else. */
    method FalseNegative(c: nat) returns (fn: u32)
      requires Valid() && c < classes
      ensures fn == Wrap32(RowExcept(data[..], classes, c, c, classes))
    {
      fn := 0;
      for j := 0 to classes
        invariant fn == Wrap32(RowExcept(data[..], classes, c, c, j))
      {
        if j != c {
          WrapAdd(RowExcept(data[..], classes, c, c, j), data[Cell(classes, c, j)]);
          fn := Wrap32(fn as int + data[Cell(classes, c, j)]);
        }
      }
    }

    /** Every cell outside row c and column c. */
    method TrueNegative(c: nat) returns (tn: u32)
      requires Valid() && c < classes
      ensures tn == Wrap32(Rest(data[..], classes, c, classes))
    {
      tn := 0;
      for i := 0 to classes
        invariant tn == Wrap32(Rest(data[..], classes, c, i))
      {
        for j := 0 to classes
          invariant tn == Wrap32(Rest(data[..], classes, c, i) + (if i == c then 0 else RowExcept(data[..], classes, i, c, j)))
        {
          if i != c && j != c {
            WrapAdd(Rest(data[..], classes, c, i) + RowExcept(data[..], classes, i, c, j), data[Cell(classes, i, j)]);
            tn := Wrap32(tn as int + data[Cell(classes, i, j)]);
          }
        }
      }
    }
  }

  lemma {:induction false} ZeroRows(m: seq<u32>, n: nat, i: nat, j: nat)
    requires Shaped(m, n) && i < n && j <= n && forall k :: 0 <= k < |m| ==> m[k] == 0
    ensures RowSum(m, n, i, j) == 0
  {
    if j > 0 {
      ZeroRows(m, n, i, j - 1);
    }
  }

  lemma {:induction false} ZeroTotal(m: seq<u32>, n: nat, i: nat)
    requires Shaped(m, n) && i <= n && forall k :: 0 <= k < |m| ==> m[k] == 0
    ensures Total(m, n, i) == 0
  {
    if i > 0 {
      ZeroTotal(m, n, i - 1);
      ZeroRows(m, n, i - 1, n);
    }
  }

  lemma WrapSum4(a: int, b: int, c: int, d: int)
    ensures Wrap32(Wrap32(a) + Wrap32(b) + Wrap32(c) + Wrap32(d)) == Wrap32(a + b + c + d)
  {
    WrapAdd(a, Wrap32(b) + Wrap32(c) + Wrap32(d));
    WrapAdd(b, a + Wrap32(c) + Wrap32(d));
    WrapAdd(c, a + b + Wrap32(d));
    WrapAdd(d, a + b + c);
  }

  /** The four counts of a class, each wrapped as the queries return it, add up modulo 2^32 to the number of samples added. */
  lemma CountsAddUp(m: seq<u32>, n: nat, c: nat, count: u32)
    requires Shaped(m, n) && c < n && count == Wrap32(Total(m, n, n))
    ensures Wrap32(Entry(m, n, c, c) + Wrap32(ColumnExcept(m, n, c, n)) + Wrap32(RowExcept(m, n, c, c, n)) + Wrap32(Rest(m, n, c, n))) == count
  {
    Partition(m, n, c);
    AddUpWrapped(Entry(m, n, c, c), ColumnExcept(m, n, c, n), RowExcept(m, n, c, c, n), Rest(m, n, c, n), Total(m, n, n));
  }

  lemma AddUpWrapped(tp: nat, fp: int, fn: int, tn: int, total: int)
    requires tp < TWO32 && tp + fp + fn + tn == total
    ensures Wrap32(tp + Wrap32(fp) + Wrap32(fn) + Wrap32(tn)) == Wrap32(total)
  {
    WrapSum4(tp, fp, fn, tn);
    assert Wrap32(tp) == tp;
  }
}
