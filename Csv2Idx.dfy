/**
 * The csv2idx tool (trunk/source/Tools/csv2idx/csv2idx.cpp): it reads a
 * comma-separated file line by line, keeps only the bytes a number or a
 * separator can contain, parses every cell with a small state machine and
 * appends one IDX row per line. The file is the byte sequence `input`.
 */
module Csv2Idx {
  import opened Bytes
  import opened Wrappers

  const TAB: byte := 9
  const NEWLINE: byte := 10
  const RETURN: byte := 13
  const SPACE: byte := 32
  const PLUS: byte := 43
  const COMMA: byte := 44
  const MINUS: byte := 45
  const DOT: byte := 46
  const ZERO: byte := 48
  const NINE: byte := 57
  const UPPER_E: byte := 69
  const LOWER_E: byte := 101

  predicate IsDigit(b: byte)
  {
    ZERO <= b <= NINE
  }

  predicate IsE(b: byte)
  {
    b == LOWER_E || b == UPPER_E
  }

  /** The bytes read_line keeps: digits, + - . e E and the comma. */
  predicate Kept(b: byte)
  {
    b == MINUS || b == PLUS || IsDigit(b) || b == DOT || IsE(b) || b == COMMA
  }

  /** The whitespace read_line drops. */
  predicate Blank(b: byte)
  {
    b == RETURN || b == TAB || b == SPACE
  }

  // ---------------------------------------------------------------- read_line

  /** What the fgetc loop of read_line collected: the kept bytes, whether a newline ended it, and where it stopped. */
  datatype Scan = Scan(ok: bool, kept: seq<byte>, newline: bool, next: nat)

  function ScanLine(s: seq<byte>, p: nat, acc: seq<byte>): (r: Scan)
    requires p <= |s|
    ensures p <= r.next <= |s|
    ensures r.ok && r.newline ==> r.next > p
    ensures r.ok && !r.newline ==> r.next == |s|
    decreases |s| - p
  {
    if p == |s| then Scan(true, acc, false, p)
    else if s[p] == NEWLINE then Scan(true, acc, true, p + 1)
    else if Blank(s[p]) then ScanLine(s, p + 1, acc)
    else if Kept(s[p]) then ScanLine(s, p + 1, acc + [s[p]])
    else Scan(false, acc, false, p + 1)
  }

  /** The outcome of read_line: a line of kept bytes, the end of the file, or a byte no number can contain. */
  datatype LineRead = Line(text: seq<byte>, next: nat) | EndOfInput | InvalidCharacter(at: nat)

  /** A single trailing comma is dropped. */
  function StripComma(text: seq<byte>): seq<byte>
  {
    if text != [] && text[|text| - 1] == COMMA then text[..|text| - 1] else text
  }

  /**
   * read_line with the guard on the trailing-comma check it evidently
   * intends: the comma checked is the last kept byte, also on a last line
   * with no newline, and an empty line is no exception.
   */
  function ReadLineAt(s: seq<byte>, p: nat): (r: LineRead)
    requires p <= |s|
    ensures r.Line? ==> p < r.next <= |s| && forall k :: 0 <= k < |r.text| ==> Kept(r.text[k])
    ensures r.EndOfInput? <==> ScanLine(s, p, []).ok && ScanLine(s, p, []).kept == [] && !ScanLine(s, p, []).newline
  {
    var scan := ScanLine(s, p, []);
    KeptOnly(s, p, []);
    if !scan.ok then InvalidCharacter(scan.next - 1)
    else if scan.kept == [] && !scan.newline then EndOfInput
    else Line(StripComma(scan.kept), scan.next)
  }

  lemma {:induction false} KeptOnly(s: seq<byte>, p: nat, acc: seq<byte>)
    requires p <= |s| && forall k :: 0 <= k < |acc| ==> Kept(acc[k])
    ensures forall k :: 0 <= k < |ScanLine(s, p, acc).kept| ==> Kept(ScanLine(s, p, acc).kept[k])
    ensures ScanLine(s, p, acc).ok && ScanLine(s, p, acc).kept == [] ==> acc == []
    ensures !ScanLine(s, p, acc).ok ==> !Kept(s[ScanLine(s, p, acc).next - 1]) && !Blank(s[ScanLine(s, p, acc).next - 1])
    decreases |s| - p
  {
    if p < |s| && s[p] != NEWLINE {
      if Blank(s[p]) {
        KeptOnly(s, p + 1, acc);
      } else if Kept(s[p]) {
        KeptOnly(s, p + 1, acc + [s[p]]);
      }
    }
  }

  /** The C buffer read_line leaves: the kept bytes, then a 0 byte only where a newline ended the line. */
  function Buffer(scan: Scan): seq<byte>
  {
    scan.kept + (if scan.newline then [0] else [])
  }

  /** read_line as written: its outcome, with the read of line[length - 2] modelled as is. */
  datatype LineReadAsWritten = LineAsWritten(buffer: seq<byte>) | EndOfInputAsWritten | InvalidAsWritten | ReadsBeforeBuffer

  function ReadLineAsWritten(s: seq<byte>, p: nat): LineReadAsWritten
    requires p <= |s|
  {
    var scan := ScanLine(s, p, []);
    var b := Buffer(scan);
    if !scan.ok then InvalidAsWritten
    else if |b| == 0 then EndOfInputAsWritten
    else if |b| < 2 then ReadsBeforeBuffer
    else if b[|b| - 2] == COMMA then LineAsWritten(b[..|b| - 2] + [0])
    else LineAsWritten(b)
  }

  /** An empty line leaves length 1, so read_line tests line[-1], a byte before the buffer. */
  lemma EmptyLineReadsBeforeBuffer()
    ensures ReadLineAsWritten([NEWLINE], 0) == ReadsBeforeBuffer
    ensures ReadLineAt([NEWLINE], 0) == Line([], 1)
  {
    assert ScanLine([NEWLINE], 0, []) == Scan(true, [], true, 1);
  }

  /**
   * On a last line "3,4" with no newline the check finds the comma before
   * the last digit and cuts the line there: as written it reads as "3", one
   * cell, where the intended read_line keeps both cells.
   */
  lemma UnterminatedLineLosesCell()
    ensures ReadLineAsWritten([51, COMMA, 52], 0) == LineAsWritten([51, 0])
    ensures ReadLineAt([51, COMMA, 52], 0) == Line([51, COMMA, 52], 3)
    ensures CommaCount([51, COMMA, 52]) + 1 == 2
  {
    var s: seq<byte> := [51, COMMA, 52];
    assert [51, COMMA] + [52] == s && [51] + [COMMA] == [51, COMMA] && [] + [51] == [51];
    assert ScanLine(s, 3, s) == Scan(true, s, false, 3);
    assert ScanLine(s, 2, [51, COMMA]) == ScanLine(s, 3, s);
    assert ScanLine(s, 1, [51]) == ScanLine(s, 2, [51, COMMA]);
    assert ScanLine(s, 0, []) == ScanLine(s, 1, [51]);
    assert s[..1] + [0] == [51, 0];
    assert s[..2] == [51, COMMA] && [51, COMMA][..1] == [51] && [51][..0] == [];
    assert CommaCount([51]) == 0;
    assert CommaCount([51, COMMA]) == 1;
  }

  function CommaCount(line: seq<byte>): (r: nat)
    ensures r <= |line|
  {
    if line == [] then 0 else CommaCount(line[..|line| - 1]) + (if line[|line| - 1] == COMMA then 1 else 0)
  }

  /**
   * On a last line with no newline there is no 0 terminator, so the check
   * looks at the byte before the trailing comma: "3,4," keeps its comma and
   * counts three cells, where "3,4,\n" counts two.
   */
  lemma UnterminatedLastLine()
    ensures ReadLineAsWritten([51, COMMA, 52, COMMA], 0) == LineAsWritten([51, COMMA, 52, COMMA])
    ensures CommaCount([51, COMMA, 52, COMMA]) + 1 == 3
    ensures ReadLineAt([51, COMMA, 52, COMMA], 0) == Line([51, COMMA, 52], 4)
    ensures CommaCount([51, COMMA, 52]) + 1 == 2
  {
    var s: seq<byte> := [51, COMMA, 52, COMMA];
    assert [51, COMMA, 52] + [COMMA] == s && [51, COMMA] + [52] == [51, COMMA, 52] && [51] + [COMMA] == [51, COMMA];
    assert [] + [51] == [51];
    assert ScanLine(s, 4, [51, COMMA, 52, COMMA]) == Scan(true, s, false, 4);
    assert ScanLine(s, 3, [51, COMMA, 52]) == ScanLine(s, 4, [51, COMMA, 52, COMMA]);
    assert ScanLine(s, 2, [51, COMMA]) == ScanLine(s, 3, [51, COMMA, 52]);
    assert ScanLine(s, 1, [51]) == ScanLine(s, 2, [51, COMMA]);
    assert ScanLine(s, 0, []) == ScanLine(s, 1, [51]);
    assert s[..3] == [51, COMMA, 52] && [51, COMMA, 52][..2] == [51, COMMA] && [51, COMMA][..1] == [51];
    assert [51][..0] == [];
    assert CommaCount([51]) == 0;
    assert CommaCount([51, COMMA]) == 1;
    assert CommaCount([51, COMMA, 52]) == 1;
    assert ReadLineAsWritten(s, 0) == LineAsWritten(s);
  }

  /** The fgetc loop of read_line (the doubling of the buffer is memory management only). */
  method ReadLine(input: seq<byte>, pos: nat) returns (r: LineRead)
    requires pos <= |input|
    ensures r == ReadLineAt(input, pos)
  {
    var p := pos;
    var kept: seq<byte> := [];
    while p < |input| && input[p] != NEWLINE && (Blank(input[p]) || Kept(input[p]))
      invariant pos <= p <= |input|
      invariant ScanLine(input, p, kept) == ScanLine(input, pos, [])
      decreases |input| - p
    {
      if Kept(input[p]) {
        kept := kept + [input[p]];
      }
      p := p + 1;
    }
    if p < |input| && input[p] != NEWLINE {
      return InvalidCharacter(p);
    }
    var newline := p < |input|;
    if kept == [] && !newline {
      return EndOfInput;
    }
    if kept != [] && kept[|kept| - 1] == COMMA {
      kept := kept[..|kept| - 1];
    }
    r := Line(kept, if newline then p + 1 else p);
  }

  // ---------------------------------------------------------------- parse_float

  datatype FState = SignState | IntegerState | FractionState | ExponentSignState | ExponentState

  /**
   * The locals of parse_float. The source keeps one exponent, decremented per
   * fraction digit and added to per exponent digit; here the two parts are
   * apart, fractionDigits and exponent, and the exponent used is their
   * difference.
   */
  datatype Float = Float(state: FState, sign: int, integer: nat, fractionDigits: nat, exponentSign: int, exponent: int)

  const START: Float := Float(SignState, 1, 0, 0, 1, 0)

  function Digit(b: byte): nat
    requires IsDigit(b)
  {
    b - ZERO
  }

  /** How an exponent digit is taken in: summed as written, or shifted in as a decimal digit. */
  function AddExponentDigit(exponent: int, sign: int, d: nat, summed: bool): int
  {
    if summed then exponent + sign * d else exponent * 10 + sign * d
  }

  /** One character of parse_float's switch; None where it returns false. */
  function FloatStep(f: Float, c: byte, summed: bool): Option<Float>
  {
    match f.state
    case SignState =>
      if c == PLUS then Some(f.(state := IntegerState, sign := 1))
      else if c == MINUS then Some(f.(state := IntegerState, sign := -1))
      else if IsDigit(c) then Some(f.(state := IntegerState, integer := Digit(c)))
      else None
    case IntegerState =>
      if c == DOT then Some(f.(state := FractionState))
      else if IsE(c) then Some(f.(state := ExponentSignState))
      else if IsDigit(c) then Some(f.(integer := f.integer * 10 + Digit(c)))
      else None
    case FractionState =>
      if IsE(c) then Some(f.(state := ExponentSignState))
      else if IsDigit(c) then Some(f.(integer := f.integer * 10 + Digit(c), fractionDigits := f.fractionDigits + 1))
      else None
    case ExponentSignState =>
      if c == PLUS then Some(f.(state := ExponentState, exponentSign := 1))
      else if c == MINUS then Some(f.(state := ExponentState, exponentSign := -1))
      else if IsDigit(c) then Some(f.(state := ExponentState, exponent := AddExponentDigit(f.exponent, f.exponentSign, Digit(c), summed)))
      else None
    case ExponentState =>
      if IsDigit(c) then Some(f.(exponent := AddExponentDigit(f.exponent, f.exponentSign, Digit(c), summed)))
      else None
  }

  /** The locals after the characters of s, or None once a character is refused. */
  function FloatRun(s: seq<byte>, summed: bool): Option<Float>
  {
    if s == [] then Some(START)
    else
      match FloatRun(s[..|s| - 1], summed)
      case None => None
      case Some(f) => FloatStep(f, s[|s| - 1], summed)
  }

  /** pow(10.0, e) */
  function TenTo(e: int): (r: real)
    ensures r > 0.0
    decreases if e < 0 then -e else e
  {
    if e == 0 then 1.0 else if e > 0 then 10.0 * TenTo(e - 1) else TenTo(e + 1) / 10.0
  }

  /** sign * integer * pow(10.0, exponent); the final cast to float is not modelled. */
  function FloatValue(f: Float): real
  {
    (f.sign as real) * (f.integer as real) * TenTo(f.exponent - f.fractionDigits)
  }

  /** parse_float as written: exponent digits summed. */
  function ParseFloatAsWritten(s: seq<byte>): Option<real>
  {
    match FloatRun(s, true)
    case None => None
    case Some(f) => Some(FloatValue(f))
  }

  /** parse_float with exponent digits read as a decimal number. */
  function ParseFloatAt(s: seq<byte>): Option<real>
  {
    match FloatRun(s, false)
    case None => None
    case Some(f) => Some(FloatValue(f))
  }

  /** The loop of parse_float over its local state. */
  method ParseFloat(buf: seq<byte>) returns (r: Option<real>)
    ensures r == ParseFloatAt(buf)
  {
    var f := START;
    var k := 0;
    while k < |buf|
      invariant 0 <= k <= |buf|
      invariant FloatRun(buf[..k], false) == Some(f)
    {
      assert buf[..k + 1][..k] == buf[..k];
      var c := buf[k];
      var refused := false;
      match f.state {
        case SignState =>
          if c == PLUS {
            f := f.(state := IntegerState, sign := 1);
          } else if c == MINUS {
            f := f.(state := IntegerState, sign := -1);
          } else if IsDigit(c) {
            f := f.(state := IntegerState, integer := Digit(c));
          } else {
            refused := true;
          }
        case IntegerState =>
          if c == DOT {
            f := f.(state := FractionState);
          } else if IsE(c) {
            f := f.(state := ExponentSignState);
          } else if IsDigit(c) {
            f := f.(integer := f.integer * 10 + Digit(c));
          } else {
            refused := true;
          }
        case FractionState =>
          if IsE(c) {
            f := f.(state := ExponentSignState);
          } else if IsDigit(c) {
            f := f.(integer := f.integer * 10 + Digit(c), fractionDigits := f.fractionDigits + 1);
          } else {
            refused := true;
          }
        case ExponentSignState =>
          if c == PLUS {
            f := f.(state := ExponentState, exponentSign := 1);
          } else if c == MINUS {
            f := f.(state := ExponentState, exponentSign := -1);
          } else if IsDigit(c) {
            f := f.(state := ExponentState, exponent := f.exponent * 10 + f.exponentSign * Digit(c));
          } else {
            refused := true;
          }
        case ExponentState =>
          if IsDigit(c) {
            f := f.(exponent := f.exponent * 10 + f.exponentSign * Digit(c));
          } else {
            refused := true;
          }
      }
      if refused {
        assert FloatRun(buf[..k + 1], false).None?;
        RefusedStaysRefused(buf[..k + 1], buf[k + 1..], false);
        assert buf[..k + 1] + buf[k + 1..] == buf;
        return None;
      }
      k := k + 1;
    }
    assert buf[..k] == buf;
    r := Some(FloatValue(f));
  }

  // ---------------------------------------------------------------- the language parse_float accepts

  /** The state transitions alone. */
  function Next(q: FState, c: byte): Option<FState>
  {
    match q
    case SignState => if c == PLUS || c == MINUS || IsDigit(c) then Some(IntegerState) else None
    case IntegerState =>
      if c == DOT then Some(FractionState) else if IsE(c) then Some(ExponentSignState)
      else if IsDigit(c) then Some(IntegerState) else None
    case FractionState => if IsE(c) then Some(ExponentSignState) else if IsDigit(c) then Some(FractionState) else None
    case ExponentSignState => if c == PLUS || c == MINUS || IsDigit(c) then Some(ExponentState) else None
    case ExponentState => if IsDigit(c) then Some(ExponentState) else None
  }

  /** Whether the characters of s are all taken from state q. */
  function Accepts(q: FState, s: seq<byte>): bool
    decreases |s|
  {
    s == [] || (Next(q, s[0]).Some? && Accepts(Next(q, s[0]).value, s[1..]))
  }

  predicate AllDigits(s: seq<byte>)
  {
    forall k :: 0 <= k < |s| ==> IsDigit(s[k])
  }

  function LeadingDigits(s: seq<byte>): (r: nat)
    ensures r <= |s| && AllDigits(s[..r]) && (r < |s| ==> !IsDigit(s[r]))
  {
    if s == [] || !IsDigit(s[0]) then 0
    else
      var r := 1 + LeadingDigits(s[1..]);
      assert forall k :: 1 <= k < r ==> s[..r][k] == s[1..][..r - 1][k - 1];
      r
  }

  /** After 'e' or 'E': an optional sign, then digits only. */
  predicate ExponentTail(s: seq<byte>)
  {
    AllDigits(s[(if s != [] && (s[0] == PLUS || s[0] == MINUS) then 1 else 0)..])
  }

  /** After '.': digits, then nothing or an exponent. */
  predicate FractionTail(s: seq<byte>)
  {
    var j := LeadingDigits(s);
    j == |s| || (IsE(s[j]) && ExponentTail(s[j + 1..]))
  }

  /** After the first character: digits, then nothing, a fraction or an exponent. */
  predicate IntegerTail(s: seq<byte>)
  {
    var j := LeadingDigits(s);
    j == |s| || (s[j] == DOT && FractionTail(s[j + 1..])) || (IsE(s[j]) && ExponentTail(s[j + 1..]))
  }

  /**
   * The strings parse_float accepts: [+-0-9][0-9]*(.[0-9]*)?([eE][+-]?[0-9]*)?
   * or nothing at all. Unlike the pattern in its comment it refuses ".5" and
   * takes "", "+", "1." and "1e".
   */
  predicate Recognised(s: seq<byte>)
  {
    s == [] || ((s[0] == PLUS || s[0] == MINUS || IsDigit(s[0])) && IntegerTail(s[1..]))
  }

  lemma {:induction false} AllDigitsCons(s: seq<byte>)
    requires s != []
    ensures AllDigits(s) <==> IsDigit(s[0]) && AllDigits(s[1..])
  {
    if IsDigit(s[0]) && AllDigits(s[1..]) {
      forall k | 0 <= k < |s| ensures IsDigit(s[k]) {
        if k > 0 { assert s[k] == s[1..][k - 1]; }
      }
    }
  }

  /** Digits followed by more of s: the leading run grows by one, and what follows it is the same. */
  lemma LeadingDigitsCons(s: seq<byte>)
    requires s != [] && IsDigit(s[0])
    ensures LeadingDigits(s) == 1 + LeadingDigits(s[1..])
    ensures LeadingDigits(s) < |s| ==> s[LeadingDigits(s)] == s[1..][LeadingDigits(s[1..])]
    ensures LeadingDigits(s) < |s| ==> s[LeadingDigits(s) + 1..] == s[1..][LeadingDigits(s[1..]) + 1..]
  {
  }

  /** A leading digit changes nothing about what may follow the digits. */
  lemma FractionTailCons(s: seq<byte>)
    requires s != [] && IsDigit(s[0])
    ensures FractionTail(s) <==> FractionTail(s[1..])
  {
    LeadingDigitsCons(s);
  }

  lemma IntegerTailCons(s: seq<byte>)
    requires s != [] && IsDigit(s[0])
    ensures IntegerTail(s) <==> IntegerTail(s[1..])
  {
    LeadingDigitsCons(s);
  }

  lemma {:induction false} AcceptsExponent(s: seq<byte>)
    ensures Accepts(ExponentState, s) <==> AllDigits(s)
  {
    if s != [] {
      AllDigitsCons(s);
      AcceptsExponent(s[1..]);
    }
  }

  lemma AcceptsExponentSign(s: seq<byte>)
    ensures Accepts(ExponentSignState, s) <==> ExponentTail(s)
  {
    if s != [] {
      AcceptsExponent(s[1..]);
      AllDigitsCons(s);
    }
  }

  lemma {:induction false} AcceptsFraction(s: seq<byte>)
    ensures Accepts(FractionState, s) <==> FractionTail(s)
  {
    if s != [] {
      if IsDigit(s[0]) {
        AcceptsFraction(s[1..]);
        FractionTailCons(s);
      } else if IsE(s[0]) {
        AcceptsExponentSign(s[1..]);
      }
    }
  }

  lemma {:induction false} AcceptsInteger(s: seq<byte>)
    ensures Accepts(IntegerState, s) <==> IntegerTail(s)
  {
    if s != [] {
      if IsDigit(s[0]) {
        AcceptsInteger(s[1..]);
        IntegerTailCons(s);
      } else if s[0] == DOT {
        AcceptsFraction(s[1..]);
      } else if IsE(s[0]) {
        AcceptsExponentSign(s[1..]);
      }
    }
  }

  lemma StepState(f: Float, c: byte, summed: bool)
    ensures FloatStep(f, c, summed).Some? <==> Next(f.state, c).Some?
    ensures FloatStep(f, c, summed).Some? ==> FloatStep(f, c, summed).value.state == Next(f.state, c).value
  {
  }

  lemma {:induction false} RefusedStaysRefused(p: seq<byte>, t: seq<byte>, summed: bool)
    requires FloatRun(p, summed).None?
    ensures FloatRun(p + t, summed).None?
    decreases |t|
  {
    if t != [] {
      assert (p + t)[..|p + t| - 1] == p + t[..|t| - 1];
      RefusedStaysRefused(p, t[..|t| - 1], summed);
    } else {
      assert p + t == p;
    }
  }

  /** Running the locals over p and then s succeeds exactly when the automaton takes s from the state p leaves. */
  lemma {:induction false} RunThenAccepts(p: seq<byte>, s: seq<byte>, summed: bool)
    requires FloatRun(p, summed).Some?
    ensures FloatRun(p + s, summed).Some? <==> Accepts(FloatRun(p, summed).value.state, s)
    decreases |s|
  {
    if s == [] {
      assert p + s == p;
    } else {
      var p' := p + [s[0]];
      assert p'[..|p'| - 1] == p;
      assert p + s == p' + s[1..];
      StepState(FloatRun(p, summed).value, s[0], summed);
      if FloatRun(p', summed).None? {
        RefusedStaysRefused(p', s[1..], summed);
      } else {
        RunThenAccepts(p', s[1..], summed);
      }
    }
  }

  /** parse_float succeeds exactly on the recognised strings, whichever way it reads exponent digits. */
  lemma FloatAccepts(s: seq<byte>, summed: bool)
    ensures FloatRun(s, summed).Some? <==> Recognised(s)
  {
    RunThenAccepts([], s, summed);
    assert [] + s == s;
    if s != [] {
      AcceptsInteger(s[1..]);
    }
  }

  function DigitsValue(ds: seq<byte>): nat
    requires AllDigits(ds)
  {
    if ds == [] then 0 else DigitsValue(ds[..|ds| - 1]) * 10 + Digit(ds[|ds| - 1])
  }

  /** A plain run of digits is read as its decimal value. */
  lemma {:induction false} DigitsRead(ds: seq<byte>, summed: bool)
    requires ds != [] && AllDigits(ds)
    ensures FloatRun(ds, summed) == Some(Float(IntegerState, 1, DigitsValue(ds), 0, 1, 0))
    ensures ParseFloatAt(ds) == Some(DigitsValue(ds) as real)
  {
    var init := ds[..|ds| - 1];
    if |ds| > 1 {
      DigitsRead(init, summed);
      DigitsRead(init, false);
    } else {
      assert init == [] && IsDigit(ds[0]);
      assert FloatRun(ds, summed) == FloatStep(START, ds[0], summed);
      assert FloatRun(ds, false) == FloatStep(START, ds[0], false);
    }
  }

  /** One more character: the run so far, then one step. */
  lemma RunSnoc(p: seq<byte>, c: byte, summed: bool)
    ensures FloatRun(p + [c], summed) == if FloatRun(p, summed).None? then None else FloatStep(FloatRun(p, summed).value, c, summed)
  {
    assert (p + [c])[..|p|] == p;
  }

  /** "1e10": as written the exponent digits add up to 1, so the value is 10 rather than 10^10. */
  lemma SummedExponent()
    ensures ParseFloatAsWritten([49, LOWER_E, 49, 48]) == Some(10.0)
    ensures ParseFloatAt([49, LOWER_E, 49, 48]) == Some(10000000000.0)
  {
    RunOneETen(true);
    RunOneETen(false);
    TenToTen();
  }

  lemma RunOneETen(summed: bool)
    ensures FloatRun([49, LOWER_E, 49, 48], summed) == Some(Float(ExponentState, 1, 1, 0, 1, if summed then 1 else 10))
  {
    RunSnoc([], 49, summed);
    assert [] + [49 as byte] == [49];
    RunSnoc([49], LOWER_E, summed);
    assert [49] + [LOWER_E] == [49, LOWER_E];
    RunSnoc([49, LOWER_E], 49, summed);
    assert [49, LOWER_E] + [49] == [49, LOWER_E, 49];
    assert FloatRun([49, LOWER_E, 49], summed) == Some(Float(ExponentState, 1, 1, 0, 1, 1));
    RunSnoc([49, LOWER_E, 49], 48, summed);
    assert [49, LOWER_E, 49] + [48] == [49, LOWER_E, 49, 48];
  }

  lemma TenToTen()
    ensures TenTo(10) == 10000000000.0
  {
    assert TenTo(5) == 100000.0;
  }

  /** With fraction digits and a one-digit exponent both readings agree: "1.5e1" is 15. */
  lemma FractionAndExponent()
    ensures ParseFloatAt([49, DOT, 53, LOWER_E, 49]) == Some(15.0)
    ensures ParseFloatAsWritten([49, DOT, 53, LOWER_E, 49]) == Some(15.0)
  {
    RunOnePointFiveEOne(true);
    RunOnePointFiveEOne(false);
  }

  lemma RunOnePointFiveEOne(summed: bool)
    ensures FloatRun([49, DOT, 53, LOWER_E, 49], summed) == Some(Float(ExponentState, 1, 15, 1, 1, 1))
  {
    RunSnoc([], 49, summed);
    assert [] + [49 as byte] == [49];
    RunSnoc([49], DOT, summed);
    assert [49] + [DOT] == [49, DOT];
    RunSnoc([49, DOT], 53, summed);
    assert [49, DOT] + [53] == [49, DOT, 53];
    assert FloatRun([49, DOT, 53], summed) == Some(Float(FractionState, 1, 15, 1, 1, 0));
    RunSnoc([49, DOT, 53], LOWER_E, summed);
    assert [49, DOT, 53] + [LOWER_E] == [49, DOT, 53, LOWER_E];
    RunSnoc([49, DOT, 53, LOWER_E], 49, summed);
    assert [49, DOT, 53, LOWER_E] + [49] == [49, DOT, 53, LOWER_E, 49];
  }

  // ---------------------------------------------------------------- parse_line

  /** The cells of a line: the text between commas. */
  function Cells(line: seq<byte>): (r: seq<seq<byte>>)
    ensures |r| == CommaCount(line) + 1
  {
    if line == [] then [[]]
    else
      var init := Cells(line[..|line| - 1]);
      if line[|line| - 1] == COMMA then init + [[]]
      else init[..|init| - 1] + [init[|init| - 1] + [line[|line| - 1]]]
  }

  datatype LineParse = Row(values: seq<real>, count: nat) | InconsistentRowLength | InvalidNumberParse(cell: nat)

  function ParseCells(cells: seq<seq<byte>>): (r: Option<seq<real>>)
    ensures r.Some? ==> |r.value| == |cells|
  {
    if cells == [] then Some([])
    else
      match ParseCells(cells[..|cells| - 1])
      case None => None
      case Some(vs) => match ParseFloatAt(cells[|cells| - 1]) case None => None case Some(v) => Some(vs + [v])
  }

  /**
   * parse_line: the first line fixes the number of cells (count is -1 until
   * then); every later line must have as many; then every cell is parsed.
   */
  function ParseLineAt(line: seq<byte>, count: int): (r: LineParse)
    ensures r.Row? ==> r.count == CommaCount(line) + 1 && |r.values| == r.count
    ensures r.InconsistentRowLength? <==> count != -1 && count != CommaCount(line) + 1
  {
    var n := CommaCount(line) + 1;
    if count != -1 && count != n then InconsistentRowLength
    else match ParseCells(Cells(line))
      case None => InvalidNumberParse(FirstBadCell(Cells(line)))
      case Some(vs) => Row(vs, n)
  }

  function FirstBadCell(cells: seq<seq<byte>>): nat
  {
    if cells == [] then 0
    else if ParseCells(cells[..|cells| - 1]).None? then FirstBadCell(cells[..|cells| - 1])
    else |cells| - 1
  }

  lemma {:induction false} ParseCellsAt(cells: seq<seq<byte>>)
    requires ParseCells(cells).Some?
    ensures forall k :: 0 <= k < |cells| ==> ParseFloatAt(cells[k]) == Some(ParseCells(cells).value[k])
  {
    if cells != [] {
      var init := cells[..|cells| - 1];
      ParseCellsAt(init);
      assert forall k :: 0 <= k < |init| ==> cells[k] == init[k];
    }
  }

  /** A successful line yields one value per cell, each the cell's own parse. */
  lemma RowValues(line: seq<byte>, count: int)
    requires ParseLineAt(line, count).Row?
    ensures var r := ParseLineAt(line, count);
      forall k :: 0 <= k < r.count ==> ParseFloatAt(Cells(line)[k]) == Some(r.values[k])
  {
    ParseCellsAt(Cells(line));
  }

  /** The counting loop of parse_line. */
  method CountCells(line: seq<byte>) returns (n: nat)
    ensures n == CommaCount(line) + 1
  {
    n := 0;
    var i := 0;
    while i < |line|
      invariant 0 <= i <= |line| && n == CommaCount(line[..i])
    {
      assert line[..i + 1][..i] == line[..i];
      n := n + (if line[i] == COMMA then 1 else 0);
      i := i + 1;
    }
    assert line[..i] == line;
    n := n + 1;
  }

  // ---------------------------------------------------------------- main

  /**
   * How main ends, with the rows of the IDX file it leaves behind: the file
   * is created with the first accepted row and Close runs on every path, so
   * a failed run keeps the rows before the failing line (and no file is
   * created when there are none).
   */
  datatype Conversion =
    | Converted(columns: int, rows: seq<seq<real>>)
    | Failed(error: LineParse, columns: int, rows: seq<seq<real>>)
    | BadByte(at: nat, columns: int, rows: seq<seq<real>>)

  /** The loop of main: lines are read and parsed until the input ends or a line fails. */
  function ConvertFrom(s: seq<byte>, p: nat, count: int, rows: seq<seq<real>>): Conversion
    requires p <= |s|
    decreases |s| - p
  {
    match ReadLineAt(s, p)
    case EndOfInput => Converted(count, rows)
    case InvalidCharacter(at) => BadByte(at, count, rows)
    case Line(text, next) =>
      match ParseLineAt(text, count)
      case Row(values, n) => ConvertFrom(s, next, n, rows + [values])
      case e => Failed(e, count, rows)
  }

  /**
   * The rows already accepted are kept, whether the conversion ends or
   * fails, and every kept row has the column count of the first.
   */
  lemma {:induction false} RowsAgree(s: seq<byte>, p: nat, count: int, rows: seq<seq<real>>)
    requires p <= |s| && forall k :: 0 <= k < |rows| ==> |rows[k]| == count
    requires rows != [] ==> count >= 1
    ensures var c := ConvertFrom(s, p, count, rows);
      rows <= c.rows && forall k :: 0 <= k < |c.rows| ==> |c.rows[k]| == c.columns
    decreases |s| - p
  {
    match ReadLineAt(s, p)
    case EndOfInput =>
    case InvalidCharacter(_) =>
    case Line(text, next) =>
      match ParseLineAt(text, count) {
        case Row(values, n) =>
          RowsAgree(s, next, n, rows + [values]);
        case _ =>
      }
  }

  method Convert(input: seq<byte>) returns (c: Conversion)
    ensures c == ConvertFrom(input, 0, -1, [])
  {
    var pos := 0;
    var count: int := -1;
    var rows: seq<seq<real>> := [];
    while true
      invariant pos <= |input|
      invariant ConvertFrom(input, pos, count, rows) == ConvertFrom(input, 0, -1, [])
      decreases |input| - pos
    {
      var line := ReadLine(input, pos);
      if line.EndOfInput? {
        return Converted(count, rows);
      }
      if line.InvalidCharacter? {
        return BadByte(line.at, count, rows);
      }
      var parsed := ParseLine(line.text, count);
      if !parsed.Row? {
        return Failed(parsed, count, rows);
      }
      pos, count, rows := line.next, parsed.count, rows + [parsed.values];
    }
  }

  /** parse_line's loop over the cells: each cell ends at a comma or at the end of the line. */
  method ParseLine(line: seq<byte>, count: int) returns (r: LineParse)
    ensures r == ParseLineAt(line, count)
  {
    var n := CountCells(line);
    if count != -1 && count != n {
      return InconsistentRowLength;
    }
    var cells := Cells(line);
    var values: seq<real> := [];
    var k := 0;
    while k < n
      invariant 0 <= k <= n && ParseCells(cells[..k]) == Some(values)
    {
      assert cells[..k + 1][..k] == cells[..k];
      var v := ParseFloat(cells[k]);
      if v.None? {
        BadCellFirst(cells, k, values);
        return InvalidNumberParse(k);
      }
      values := values + [v.value];
      k := k + 1;
    }
    assert cells[..k] == cells;
    r := Row(values, n);
  }

  lemma BadCellFirst(cells: seq<seq<byte>>, k: nat, values: seq<real>)
    requires k < |cells| && ParseCells(cells[..k]) == Some(values) && ParseFloatAt(cells[k]).None?
    ensures ParseCells(cells).None? && FirstBadCell(cells) == k
  {
    BadCellStays(cells, k + 1);
  }

  lemma {:induction false} BadCellStays(cells: seq<seq<byte>>, m: nat)
    requires 0 < m <= |cells|
    requires ParseCells(cells[..m - 1]).Some? && ParseFloatAt(cells[m - 1]).None?
    ensures ParseCells(cells).None? && FirstBadCell(cells) == m - 1
    decreases |cells|
  {
    if m < |cells| {
      var init := cells[..|cells| - 1];
      assert init[..m - 1] == cells[..m - 1] && init[m - 1] == cells[m - 1];
      BadCellStays(init, m);
    } else {
      assert cells[..|cells| - 1] == cells[..m - 1];
    }
  }
}
