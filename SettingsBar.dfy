/**
 * The computations of the VisualRBM settings panel
 * (trunk/source/VisualRBM/VisualRBM/SettingsBar.cs) that do not touch the
 * user interface: SquareRoot and the image size it gives, and the rules the
 * text boxes apply to momentum, epochs and dropout. The word wrapping of
 * SetToolTip is the module ToolTip and the line checks of
 * loadParametersButton_Click the module ParameterDialog.
 */
module SettingsBar {
  import opened Bytes
  import opened Wrappers

  /** m is 2^k for some k. */
  predicate PowerOfTwo(m: nat)
  {
    m == 1 || (m > 1 && m % 2 == 0 && PowerOfTwo(m / 2))
  }

  /** At the start of the second loop of SquareRoot: `one` is (2^k)^2 or 0, and `res` is r shifted left by k + 1. */
  ghost predicate Digits(n: nat, op: nat, res: nat, one: nat, r: nat, m: nat)
  {
    n == op + r * r &&
    one == m * m &&
    (m == 0 ==> res == r && n < (r + 1) * (r + 1)) &&
    (m > 0 ==> res == 2 * r * m && n < (r + 2 * m) * (r + 2 * m) && r + 2 * m <= 0x1_0000)
  }

  lemma SquareSum(r: int, m: int)
    ensures (r + m) * (r + m) == r * r + 2 * r * m + m * m
  {
  }

  lemma MulLe(a: nat, b: nat, c: nat)
    requires b <= c
    ensures a * b <= a * c
  {
  }

  /** The sums the loop body forms stay below 2^32. */
  lemma BodyFits(n: nat, op: nat, res: nat, one: nat, r: nat, m: nat)
    requires Digits(n, op, res, one, r, m) && m > 0
    ensures res + 2 * one < TWO32
  {
    var rm, mm := r * m, m * m;
    assert res + 2 * one == 2 * rm + 2 * mm;
    assert (2 * m) * (r + 2 * m) == 2 * rm + 4 * mm;
    MulLe(m, 1, m);
    MulLe(2 * m, r + 2 * m, 0x1_0000);
    MulLe(0x1_0000, 2 * m, 0x1_0000);
  }

  lemma HalveSquare(m: nat)
    requires m > 0 && (m == 1 || m % 2 == 0)
    ensures (m * m) / 4 == (m / 2) * (m / 2)
    ensures m > 1 ==> m * m == 4 * ((m / 2) * (m / 2))
  {
    if m > 1 {
      var h := m / 2;
      assert m * m == 4 * (h * h);
    }
  }

  lemma EvenParts(r: nat, m: nat, h: nat)
    requires m == 2 * h
    ensures 2 * r * m == 4 * r * h && m * m == 4 * h * h
  {
  }

  /** When the first loop stops, the second starts with Digits. */
  lemma DigitsStart(n: nat, one: nat, m: nat)
    requires one == m * m && (m > 0 ==> n < 4 * one && m <= 0x8000) && (m == 0 ==> n < 1)
    ensures Digits(n, n, 0, one, 0, m)
  {
    if m > 0 {
      assert (0 + 2 * m) * (0 + 2 * m) == 4 * (m * m);
    }
  }

  lemma TakenOne(n: nat, op: nat, r: nat)
    requires n == op + r * r && op >= 2 * r + 1 && n < (r + 2) * (r + 2)
    ensures Digits(n, op - (2 * r + 1), (2 * r + 2) / 2, 0, r + 1, 0)
  {
    SquareSum(r, 1);
  }

  lemma SkippedOne(n: nat, op: nat, r: nat)
    requires n == op + r * r && op < 2 * r + 1
    ensures Digits(n, op, (2 * r) / 2, 0, r, 0)
  {
    SquareSum(r, 1);
  }

  /** The step that adds digit m = 2h to the root. */
  lemma TakenEven(n: nat, op: nat, r: nat, h: nat)
    requires h > 0 && n == op + r * r && op >= 4 * r * h + 4 * h * h
    requires n < (r + 4 * h) * (r + 4 * h) && r + 4 * h <= 0x1_0000
    ensures Digits(n, op - (4 * r * h + 4 * h * h), (4 * r * h + 8 * h * h) / 2, (4 * h * h) / 4, r + 2 * h, h)
  {
    SquareSum(r, 2 * h);
    assert (4 * r * h + 8 * h * h) / 2 == 2 * (r + 2 * h) * h;
    assert (4 * h * h) / 4 == h * h;
    assert r + 2 * h + 2 * h == r + 4 * h;
  }

  /** The step that leaves digit m = 2h out of the root. */
  lemma SkippedEven(n: nat, op: nat, r: nat, h: nat)
    requires h > 0 && n == op + r * r && op < 4 * r * h + 4 * h * h
    requires r + 4 * h <= 0x1_0000
    ensures Digits(n, op, (4 * r * h) / 2, (4 * h * h) / 4, r, h)
  {
    SquareSum(r, 2 * h);
    assert (4 * r * h) / 2 == 2 * r * h;
    assert (4 * h * h) / 4 == h * h;
  }

  /** One pass of the second loop for the last digit, m = 1. */
  lemma DigitStepOne(n: nat, op: nat, res: nat, one: nat, r: nat, m: nat)
    requires Digits(n, op, res, one, r, m) && m == 1
    ensures op >= res + one ==> Digits(n, op - (res + one), (res + 2 * one) / 2, one / 4, r + m, m / 2)
    ensures op < res + one ==> Digits(n, op, res / 2, one / 4, r, m / 2)
  {
    assert res == 2 * r && one == 1;
    if op >= res + one {
      TakenOne(n, op, r);
      assert op - (res + one) == op - (2 * r + 1) && (res + 2 * one) / 2 == (2 * r + 2) / 2;
    } else {
      SkippedOne(n, op, r);
      assert res / 2 == (2 * r) / 2;
    }
  }

  /** One pass of the second loop for an even digit m = 2h. */
  lemma DigitStepEven(n: nat, op: nat, res: nat, one: nat, r: nat, m: nat)
    requires Digits(n, op, res, one, r, m) && m > 0 && m % 2 == 0
    ensures op >= res + one ==> Digits(n, op - (res + one), (res + 2 * one) / 2, one / 4, r + m, m / 2)
    ensures op < res + one ==> Digits(n, op, res / 2, one / 4, r, m / 2)
  {
    var h := m / 2;
    EvenParts(r, m, h);
    assert res == 4 * r * h && one == 4 * h * h;
    if op >= res + one {
      TakenEven(n, op, r, h);
      assert op - (res + one) == op - (4 * r * h + 4 * h * h);
      assert res + 2 * one == 4 * r * h + 8 * h * h;
      assert r + m == r + 2 * h;
    } else {
      SkippedEven(n, op, r, h);
    }
  }

  /** One pass of the second loop keeps Digits, with the new digit m added to r when it fits. */
  lemma DigitStep(n: nat, op: nat, res: nat, one: nat, r: nat, m: nat)
    requires Digits(n, op, res, one, r, m) && one != 0 && (m == 1 || m % 2 == 0)
    ensures op >= res + one ==> Digits(n, op - (res + one), (res + 2 * one) / 2, one / 4, r + m, m / 2)
    ensures op < res + one ==> Digits(n, op, res / 2, one / 4, r, m / 2)
  {
    if m == 1 {
      DigitStepOne(n, op, res, one, r, m);
    } else {
      assert m != 0;
      DigitStepEven(n, op, res, one, r, m);
    }
  }

  /** The state after one pass of the second loop, from the state before it. */
  lemma Advance(n: nat, op: nat, res: nat, one: nat, r: nat, m: nat, op2: nat, res2: nat, one2: nat, r2: nat, m2: nat)
    requires Digits(n, op, res, one, r, m) && one != 0 && (m == 1 || m % 2 == 0)
    requires op >= res + one ==> op2 == op - (res + one) && res2 == (res + 2 * one) / 2 && r2 == r + m
    requires op < res + one ==> op2 == op && res2 == res / 2 && r2 == r
    requires one2 == one / 4 && m2 == m / 2
    ensures Digits(n, op2, res2, one2, r2, m2) && (one2 == 0 <==> m2 == 0)
  {
    DigitStep(n, op, res, one, r, m);
    HalveSquare(m);
    assert one2 == m2 * m2;
  }

  /**
   * SquareRoot: the integer square root by one bit per step. `one` starts at
   * 2^30 and goes down to the largest power of four not above the input;
   * each step then tries to add the next lower bit to the root.
   */
  method SquareRoot(n: u32) returns (root: u32)
    ensures root * root <= n < (root + 1) * (root + 1)
  {
    var op: u32 := n;
    var res: u32 := 0;
    var one: u32 := 0x4000_0000;
    ghost var m: nat := 0x8000;
    assert PowerOfTwo(0x8000);
    while one > op
      invariant (m == 0 || PowerOfTwo(m)) && one == m * m && m <= 0x8000
      invariant m > 0 ==> n < 4 * one
      invariant m == 0 ==> n < 1
    {
      HalveSquare(m);
      one := one / 4;
      m := m / 2;
    }
    ghost var r: nat := 0;
    DigitsStart(n, one, m);
    while one != 0
      invariant Digits(n, op, res, one, r, m)
      invariant (m == 0 || PowerOfTwo(m)) && (one == 0 <==> m == 0)
    {
      ghost var op0, res0, one0, r0, m0 := op, res, one, r, m;
      if op >= res + one {
        BodyFits(n, op, res, one, r, m);
        op := op - (res + one);
        res := res + 2 * one;
        r := r + m;
      }
      res := res / 2;
      one := one / 4;
      m := m / 2;
      Advance(n, op0, res0, one0, r0, m0, op, res, one, r, m);
    }
    root := res;
  }

  /** There is only one integer square root: SquareRoot's contract fixes its result. */
  lemma RootUnique(n: nat, a: nat, b: nat)
    requires a * a <= n < (a + 1) * (a + 1)
    requires b * b <= n < (b + 1) * (b + 1)
    ensures a == b
  {
    if a < b {
      SquareLe(a + 1, b);
    } else if b < a {
      SquareLe(b + 1, a);
    }
  }

  lemma SquareLe(x: nat, y: nat)
    requires x <= y
    ensures x * x <= y * y
  {
    MulLe(x, x, y);
    MulLe(y, x, y);
  }

  /**
   * The image size chosen for training data with n visible units: the width
   * is the integer square root and the height the least number of rows of
   * that width that hold n values.
   */
  method ImageSize(n: u32) returns (width: u32, height: u32)
    requires n > 0
    ensures width * width <= n < (width + 1) * (width + 1)
    ensures width > 0 && width * height >= n && (height - 1) * width < n
    ensures width <= height
  {
    width := SquareRoot(n);
    height := n / width;
    RowsCover(n, width);
    if height * width < n {
      height := height + 1;
    }
  }

  /** n / w rows of width w hold all but fewer than w of the n values, and at least w rows when w * w <= n. */
  lemma RowsCover(n: nat, w: nat)
    requires 0 < w && w * w <= n
    ensures (n / w) * w <= n < (n / w + 1) * w
    ensures n / w >= w
  {
    var q, rest := n / w, n % w;
    assert n == q * w + rest && rest < w;
    assert (q + 1) * w == q * w + w;
    if q < w {
      MulLe(w, q + 1, w);
    }
  }

  /**
   * What a settings text box does with its input: the value the processor
   * ends up with, and whether the update reports a change (the handler's
   * return value). float.TryParse and uint.TryParse are the Option inputs:
   * None when the text does not parse.
   */
  datatype Edit<T> = Edit(value: T, changed: bool)

  /** updateMomentum: a parsed value is clamped to [0, 1]; text that does not parse is put back. */
  function UpdateMomentum(parsed: Option<real>, current: real): (r: Edit<real>)
    ensures parsed.None? ==> r == Edit(current, false)
    ensures parsed.Some? ==> 0.0 <= r.value <= 1.0 && (r.changed <==> r.value != current)
    ensures parsed.Some? && 0.0 <= parsed.value <= 1.0 ==> r.value == parsed.value
    ensures parsed.Some? && parsed.value < 0.0 ==> r.value == 0.0
    ensures parsed.Some? && parsed.value > 1.0 ==> r.value == 1.0
    ensures !r.changed ==> r.value == current
  {
    match parsed
    case None => Edit(current, false)
    case Some(m) =>
      var clamped := if m > 0.0 then (if m < 1.0 then m else 1.0) else 0.0;
      if clamped != current then Edit(clamped, true) else Edit(current, false)
  }

  /** updateDropout: a value is taken exactly when it parses and lies in [0, 1). */
  function UpdateDropout(parsed: Option<real>, current: real): (r: Edit<real>)
    ensures r.changed <==> parsed.Some? && 0.0 <= parsed.value < 1.0 && parsed.value != current
    ensures r.value == (if parsed.Some? && 0.0 <= parsed.value < 1.0 then parsed.value else current)
  {
    if parsed.Some? && parsed.value >= 0.0 && parsed.value < 1.0 then
      if parsed.value != current then Edit(parsed.value, true) else Edit(current, false)
    else Edit(current, false)
  }

  /**
   * updateEpochs: a parsed count different from the current one is set,
   * with 0 raised to 1. The comparison is made before the raise.
   */
  function UpdateEpochs(parsed: Option<u32>, current: u32): (r: Edit<u32>)
    ensures r.changed <==> parsed.Some? && parsed.value != current
    ensures r.changed ==> r.value == (if parsed.value == 0 then 1 else parsed.value)
    ensures !r.changed ==> r.value == current
  {
    match parsed
    case Some(e) =>
      if e != current then Edit(if e == 0 then 1 else e, true) else Edit(current, false)
    case None => Edit(current, false)
  }

  /** The epoch count never becomes 0 once it is positive. */
  lemma EpochsStayPositive(parsed: Option<u32>, current: u32)
    requires current > 0
    ensures UpdateEpochs(parsed, current).value > 0
  {
  }

  /**
   * Because the comparison comes before the raise, entering 0 when the count
   * is already 1 reports a change while the count stays 1.
   */
  lemma ZeroEpochsReported()
    ensures UpdateEpochs(Some(0), 1) == Edit(1, true)
  {
  }

  /** Entering the same text twice: the second time nothing changes and no change is reported. */
  lemma UpdatesSettle(parsed: Option<real>, count: Option<u32>, current: real, epochs: u32)
    ensures var m := UpdateMomentum(parsed, current).value; UpdateMomentum(parsed, m) == Edit(m, false)
    ensures var d := UpdateDropout(parsed, current).value; UpdateDropout(parsed, d) == Edit(d, false)
    ensures var e := UpdateEpochs(count, epochs).value; count != Some(0) ==> UpdateEpochs(count, e) == Edit(e, false)
  {
  }
}
