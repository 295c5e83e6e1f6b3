/**
 * The moving average of source/OMLT/OMLT/source/MovingAverage.cpp: a ring
 * buffer of the last `size` entries with a running sum. Floats are reals, so
 * the running sum does not drift.
 */
module MovingAverage {
  import opened Bytes

  /** A float quotient: a number, or the NaN that 0.0f / 0.0f gives. */
  datatype Average = Mean(value: real) | NotANumber

  function Sum(s: seq<real>): real
  {
    if s == [] then 0.0 else s[0] + Sum(s[1..])
  }

  function Zeroes(n: nat): (r: seq<real>)
    ensures |r| == n && forall k :: 0 <= k < n ==> r[k] == 0.0
  {
    seq(n, _ => 0.0)
  }

  /** The last n entries of the history, with zeros in front while fewer than n have been added. */
  function Window(history: seq<real>, n: nat): (r: seq<real>)
    ensures |r| == n
  {
    if |history| >= n then history[|history| - n..] else Zeroes(n - |history|) + history
  }

  /** The buffer read from the oldest slot, at index, round to the newest. */
  function Rotation(buffer: seq<real>, index: nat): (r: seq<real>)
    requires index <= |buffer|
    ensures |r| == |buffer|
  {
    buffer[index..] + buffer[..index]
  }

  lemma {:induction false} SumAppend(a: seq<real>, b: seq<real>)
    ensures Sum(a + b) == Sum(a) + Sum(b)
  {
    if a == [] {
      assert a + b == b;
    } else {
      assert (a + b)[1..] == a[1..] + b;
      SumAppend(a[1..], b);
    }
  }

  lemma {:induction false} SumZeroes(n: nat)
    ensures Sum(Zeroes(n)) == 0.0
  {
    if n > 0 {
      assert Zeroes(n)[1..] == Zeroes(n - 1);
      SumZeroes(n - 1);
    }
  }

  lemma {:induction false} SumRotation(buffer: seq<real>, index: nat)
    requires index <= |buffer|
    ensures Sum(Rotation(buffer, index)) == Sum(buffer)
  {
    var front, back := buffer[..index], buffer[index..];
    assert front + back == buffer;
    SumSwap(back, front);
  }

  lemma {:induction false} SumSwap(a: seq<real>, b: seq<real>)
    ensures Sum(a + b) == Sum(b + a)
  {
    SumAppend(a, b);
    SumAppend(b, a);
  }

  /** Overwriting one slot changes the sum by the difference. */
  lemma SumUpdate(buffer: seq<real>, i: nat, v: real)
    requires i < |buffer|
    ensures Sum(buffer[i := v]) == Sum(buffer) - buffer[i] + v
  {
    var b := buffer[i := v];
    assert buffer == buffer[..i] + ([buffer[i]] + buffer[i + 1..]);
    assert b == buffer[..i] + ([v] + buffer[i + 1..]);
    SumAppend(buffer[..i], [buffer[i]] + buffer[i + 1..]);
    SumAppend(buffer[..i], [v] + buffer[i + 1..]);
    SumAppend([buffer[i]], buffer[i + 1..]);
    SumAppend([v], buffer[i + 1..]);
  }

  /** Writing slot index and moving on drops the oldest entry and appends the new one. */
  lemma RotationStep(buffer: seq<real>, index: nat, v: real)
    requires index < |buffer|
    ensures Rotation(buffer[index := v], (index + 1) % |buffer|) == Rotation(buffer, index)[1..] + [v]
  {
    if index + 1 < |buffer| {
      assert (index + 1) % |buffer| == index + 1;
      RotationInside(buffer, index, v);
    } else {
      assert (index + 1) % |buffer| == 0;
      RotationWrap(buffer, index, v);
    }
  }

  lemma RotationInside(buffer: seq<real>, index: nat, v: real)
    requires index + 1 < |buffer|
    ensures Rotation(buffer[index := v], index + 1) == Rotation(buffer, index)[1..] + [v]
  {
    var b := buffer[index := v];
    var front, back := buffer[..index], buffer[index + 1..];
    assert buffer == front + [buffer[index]] + back;
    assert b == front + [v] + back;
    assert b[index + 1..] == back;
    assert b[..index + 1] == front + [v];
    assert buffer[index..] == [buffer[index]] + back;
    assert Rotation(buffer, index) == [buffer[index]] + (back + front);
    AppendAssoc(back, front, [v]);
  }

  lemma RotationWrap(buffer: seq<real>, index: nat, v: real)
    requires index + 1 == |buffer|
    ensures Rotation(buffer[index := v], 0) == Rotation(buffer, index)[1..] + [v]
  {
    var b := buffer[index := v];
    var front := buffer[..index];
    assert buffer == front + [buffer[index]];
    assert b == front + [v];
    assert b[0..] + b[..0] == b;
    assert buffer[index..] == [buffer[index]];
    assert Rotation(buffer, index) == [buffer[index]] + front;
  }

  lemma AppendAssoc(a: seq<real>, b: seq<real>, c: seq<real>)
    ensures (a + b) + c == a + (b + c)
  {
  }

  /** The window moves on by one entry. */
  lemma WindowStep(history: seq<real>, n: nat, v: real)
    requires n > 0
    ensures Window(history + [v], n) == Window(history, n)[1..] + [v]
  {
    var h := history + [v];
    if |history| >= n {
      assert h[|h| - n..] == history[|history| - n + 1..] + [v];
    } else if |history| + 1 == n {
      assert h[|h| - n..] == h;
      assert (Zeroes(1) + history)[1..] == history;
    } else {
      assert (Zeroes(n - |history|) + history)[1..] == Zeroes(n - |history| - 1) + history;
      assert Zeroes(n - |history| - 1) + history + [v] == Zeroes(n - |h|) + h;
    }
  }

  class MovingAverage {
    const size: nat
    var buffer: seq<real>
    var index: nat
    var sum: real
    /** Every entry ever added, oldest first. */
    ghost var history: seq<real>

    ghost predicate Valid()
      reads this
    {
      |buffer| == size && index <= size && (size > 0 ==> index < size) && sum == Sum(buffer) &&
      Rotation(buffer, index) == Window(history, size)
    }

    /** Build: a zeroed buffer of in_size entries, index 0 and sum 0. */
    constructor Build(inSize: nat)
      requires inSize < TWO32
      ensures Valid()
      ensures size == inSize && buffer == Zeroes(inSize) && index == 0 && sum == 0.0 && history == []
    {
      size := inSize;
      buffer := Zeroes(inSize);
      index := 0;
      sum := 0.0;
      history := [];
      SumZeroes(inSize);
      assert Zeroes(inSize)[0..] + Zeroes(inSize)[..0] == Zeroes(inSize) + [];
    }

    /**
     * The mean of the last size entries, where entries not yet added count
     * as zero; an average built with size 0 divides 0.0f by 0.0f.
     */
    function GetAverage(): (r: Average)
      reads this
      requires Valid()
      ensures r == NotANumber <==> size == 0
      ensures r.Mean? ==> r.value == Sum(Window(history, size)) / (size as real)
    {
      if size == 0 then NotANumber
      else
        SumRotation(buffer, index);
        Mean(sum / (size as real))
    }

    /** AddEntry: the oldest entry leaves the sum, the new one takes its slot, and the index moves on modulo size. */
    method AddEntry(v: real)
      requires Valid() && size > 0
      modifies this
      ensures Valid()
      ensures buffer == old(buffer)[old(index) := v] && index == (old(index) + 1) % size
      ensures sum == old(sum) - old(buffer)[old(index)] + v && history == old(history) + [v]
    {
      SumUpdate(buffer, index, v);
      RotationStep(buffer, index, v);
      WindowStep(history, size, v);
      sum := sum - buffer[index];
      buffer := buffer[index := v];
      sum := sum + v;
      index := (index + 1) % size;
      history := history + [v];
    }
  }

  /** Before the buffer is full the zeros add nothing to the sum. */
  lemma PartialWindowSum(history: seq<real>, n: nat)
    requires |history| < n
    ensures Sum(Window(history, n)) == Sum(history)
  {
    SumAppend(Zeroes(n - |history|), history);
    SumZeroes(n - |history|);
  }
}
