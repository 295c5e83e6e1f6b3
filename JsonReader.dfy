/**
 * The pull reader of the streaming JSON library
 * (trunk/extern/cppJSONStream/cppJSONStream.cpp, Reader). The input stream is
 * the text `input`, consumed from the position `pos`; peeking at `pos == |input|`
 * sees EOF, and `get` at EOF consumes nothing. The reader keeps a stack of
 * scopes, one per open object or array, and a sticky error flag.
 *
 * Each parsing step is specified by a function on the reader's abstract
 * state (ReaderState); the class methods loop over the stream and are proved
 * to compute exactly those functions.
 */
module JsonReader {
  import opened Bytes
  import opened Wrappers

  const TWO64: int := 0x1_0000_0000_0000_0000
  const TWO63: int := 0x8000_0000_0000_0000

  datatype Token = Invalid | BeginObject | EndObject | BeginArray | EndArray | ValueName | String | Number | Bool | Null

  /** One open object or array: which token it waits for, and how many pairs or elements it has seen (uint32 counters). */
  datatype Scope = Scope(needName: bool, needValue: bool, pairCount: u32, needElement: bool, elementCount: u32)

  /** The scope parse_value pushes for '{' and for '['. */
  const OBJECT_SCOPE: Scope := Scope(true, false, 0, false, 0)
  const ARRAY_SCOPE: Scope := Scope(false, false, 0, true, 0)

  /** The reader's fields: stream position, error flag, scope stack and the last value read of each kind. */
  datatype ReaderState = ReaderState(pos: nat, error: bool, scopes: seq<Scope>, b: bool, d: real, i: int, u: nat, str: seq<char>)

  predicate IsSpace(c: char) { c == ' ' || c == '\t' || c == '\r' || c == '\n' }

  predicate IsDigit(c: char) { '0' <= c <= '9' }

  function DigitOf(c: char): nat
  {
    if IsDigit(c) then c as int - '0' as int else 0
  }

  // ---------------------------------------------------------------- skip

  /** skip: the first position at or after p that does not hold one of the four whitespace characters. */
  function SkipFrom(s: seq<char>, p: nat): (q: nat)
    requires p <= |s|
    ensures p <= q <= |s|
    ensures forall k :: p <= k < q ==> IsSpace(s[k])
    ensures q < |s| ==> !IsSpace(s[q])
    decreases |s| - p
  {
    if p < |s| && IsSpace(s[p]) then SkipFrom(s, p + 1) else p
  }

  // ---------------------------------------------------------------- parse_bool

  datatype BoolRead = BoolRead(ok: bool, value: bool, pos: nat)

  /**
   * parse_bool: four characters are taken and compared with "true"; if they
   * differ a fifth is taken and the five compared with "false". Running into
   * EOF fails with the whole stream consumed.
   */
  function BoolAt(s: seq<char>, p: nat): (r: BoolRead)
    requires p <= |s|
    ensures p <= r.pos <= |s|
  {
    if |s| < p + 4 then BoolRead(false, false, |s|)
    else if s[p .. p + 4] == "true" then BoolRead(true, true, p + 4)
    else if |s| < p + 5 then BoolRead(false, false, |s|)
    else if s[p .. p + 5] == "false" then BoolRead(true, false, p + 5)
    else BoolRead(false, false, p + 5)
  }

  /** parse_bool accepts exactly the words "true" and "false", with their meaning. */
  lemma BoolAtAccepts(s: seq<char>, p: nat)
    requires p <= |s|
    ensures BoolAt(s, p).ok <==> (p + 4 <= |s| && s[p .. p + 4] == "true") || (p + 5 <= |s| && s[p .. p + 5] == "false")
    ensures BoolAt(s, p).ok ==> BoolAt(s, p).value == (s[p] == 't')
    ensures BoolAt(s, p).ok ==> BoolAt(s, p).pos == p + (if BoolAt(s, p).value then 4 else 5)
  {
    if p + 5 <= |s| && s[p .. p + 5] == "false" {
      assert s[p + 3] == s[p .. p + 5][3] == 's';
      assert s[p .. p + 4][3] != "true"[3];
    }
  }

  // ---------------------------------------------------------------- parse_null

  datatype NullRead = NullRead(ok: bool, pos: nat)

  /** parse_null: four characters are taken and must be "null". */
  function NullAt(s: seq<char>, p: nat): (r: NullRead)
    requires p <= |s|
    ensures p <= r.pos <= |s|
    ensures r.ok <==> p + 4 <= |s| && s[p .. p + 4] == "null"
  {
    if |s| < p + 4 then NullRead(false, |s|)
    else NullRead(s[p .. p + 4] == "null", p + 4)
  }

  // ---------------------------------------------------------------- parse_string

  const BACKSPACE: char := '\U{8}'
  const FORM_FEED: char := '\U{C}'

  /** The character an escape letter stands for: \" \\ \/ \b \f \n \r \t; None for any other letter. */
  function Unescape(c: char): (r: Option<char>)
    ensures r.Some? <==> c in {'"', '\\', '/', 'b', 'f', 'n', 'r', 't'}
  {
    if c == '"' then Some('"')
    else if c == '\\' then Some('\\')
    else if c == '/' then Some('/')
    else if c == 'b' then Some(BACKSPACE)
    else if c == 'f' then Some(FORM_FEED)
    else if c == 'n' then Some('\n')
    else if c == 'r' then Some('\r')
    else if c == 't' then Some('\t')
    else None
  }

  datatype StringRead = StringRead(ok: bool, text: seq<char>, pos: nat)

  /**
   * The characters of a string after its opening quote, appended to acc: a
   * quote closes it, a backslash takes the next character as an escape letter,
   * anything else is copied. EOF, or an unknown escape letter, fails.
   */
  function StringBody(s: seq<char>, p: nat, acc: seq<char>): (r: StringRead)
    requires p <= |s|
    ensures p <= r.pos <= |s|
    ensures acc <= r.text
    decreases |s| - p
  {
    if p == |s| then StringRead(false, acc, p)
    else if s[p] == '"' then StringRead(true, acc, p + 1)
    else if s[p] == '\\' then
      if p + 1 == |s| || Unescape(s[p + 1]).None? then StringRead(false, acc, p + 1)
      else StringBody(s, p + 2, acc + [Unescape(s[p + 1]).value])
    else StringBody(s, p + 1, acc + [s[p]])
  }

  /** parse_string: a string must start at a quote; otherwise nothing is consumed and it fails. */
  function StringAt(s: seq<char>, p: nat): (r: StringRead)
    requires p <= |s|
    ensures p <= r.pos <= |s|
  {
    if p < |s| && s[p] == '"' then StringBody(s, p + 1, []) else StringRead(false, [], p)
  }

  // ---------------------------------------------------------------- parse_number

  /** The first position at or after p that does not hold a decimal digit. */
  function DigitsEnd(s: seq<char>, p: nat): (q: nat)
    requires p <= |s|
    ensures p <= q <= |s|
    ensures forall k :: p <= k < q ==> IsDigit(s[k])
    ensures q < |s| ==> !IsDigit(s[q])
    decreases |s| - p
  {
    if p < |s| && IsDigit(s[p]) then DigitsEnd(s, p + 1) else p
  }

  /** The exact value of a run of decimal digits, accumulated left to right as value * 10 + digit. */
  function Value(ds: seq<char>): nat
  {
    if ds == [] then 0 else Value(ds[..|ds| - 1]) * 10 + DigitOf(ds[|ds| - 1])
  }

  function Pow10(n: nat): (r: nat)
    ensures r > 0
  {
    if n == 0 then 1 else 10 * Pow10(n - 1)
  }

  /** The scale after n fraction digits: 1.0 divided by 10.0, n times. */
  function Scale(n: nat): (r: real)
    ensures r > 0.0
  {
    if n == 0 then 1.0 else Scale(n - 1) / 10.0
  }

  /** The fraction digits summed as digit * scale, the scale dropping tenfold per digit. */
  function Fraction(ds: seq<char>): real
  {
    if ds == [] then 0.0 else Fraction(ds[..|ds| - 1]) + DigitOf(ds[|ds| - 1]) as real * Scale(|ds|)
  }

  /** std::pow(10.0, e) over the reals. */
  function Power(e: int): (r: real)
    ensures r > 0.0
  {
    if e >= 0 then Pow10(e) as real else 1.0 / (Pow10(-e) as real)
  }

  /**
   * What parse_number found: the sign, the whole part (uint64, so kept modulo
   * 2^64), the fraction, the signed exponent, and where the scan stopped.
   */
  datatype NumberRead = NumberRead(ok: bool, negative: bool, whole: nat, fraction: real, exponent: int, pos: nat)

  /**
   * parse_number's scan: an optional '-', the whole digits, and only after a '.'
   * the fraction digits and an optional exponent ('e' or 'E', an optional sign,
   * digits). The scan fails when it ends at EOF.
   */
  function NumberAt(s: seq<char>, p: nat): (r: NumberRead)
    requires p <= |s|
    ensures p <= r.pos <= |s|
    ensures r.whole < TWO64
  {
    if p == |s| then NumberRead(false, false, 0, 0.0, 0, p)
    else
      var negative := s[p] == '-';
      var p1 := if negative then p + 1 else p;
      var q1 := DigitsEnd(s, p1);
      var whole := Value(s[p1 .. q1]) % TWO64;
      if q1 == |s| || s[q1] != '.' then NumberRead(q1 < |s|, negative, whole, 0.0, 0, q1)
      else FractionAt(s, q1 + 1, negative, whole)
  }

  /** The part of parse_number after the '.': fraction digits, then an exponent only after 'e' or 'E'. */
  function FractionAt(s: seq<char>, p: nat, negative: bool, whole: nat): (r: NumberRead)
    requires p <= |s|
    ensures p <= r.pos <= |s| && r.whole == whole
  {
    var q2 := DigitsEnd(s, p);
    var fraction := Fraction(s[p .. q2]);
    if q2 == |s| || (s[q2] != 'e' && s[q2] != 'E') then NumberRead(q2 < |s|, negative, whole, fraction, 0, q2)
    else if q2 + 1 == |s| then NumberRead(false, negative, whole, fraction, 0, q2 + 1)
    else
      var negExp := s[q2 + 1] == '-';
      var p4 := if negExp || s[q2 + 1] == '+' then q2 + 2 else q2 + 1;
      var q4 := DigitsEnd(s, p4);
      var e: int := Value(s[p4 .. q4]);
      NumberRead(q4 < |s|, negative, whole, fraction, if negExp then -e else e, q4)
  }

  /** A uint64 reinterpreted as int64: two's complement. */
  function ToInt64(u: nat): int
    requires u < TWO64
  {
    if u < TWO63 then u else u - TWO64
  }

  /** int64 negation, wrapping at the most negative value. */
  function Negate64(i: int): int
  {
    if i == -TWO63 then i else -i
  }

  /** The double: (whole + fraction) * 10^exponent, negated after a '-'. */
  function NumberDouble(n: NumberRead): real
  {
    var d := Scaled(n.whole, n.fraction, n.exponent);
    if n.negative then -d else d
  }

  /** double(whole) + fraction, times std::pow(10.0, exponent). */
  function Scaled(whole: nat, fraction: real, exponent: int): real
  {
    (whole as real + fraction) * Power(exponent)
  }

  function NumberInt(n: NumberRead): int
    requires n.whole < TWO64
  {
    if n.negative then Negate64(ToInt64(n.whole)) else ToInt64(n.whole)
  }

  function NumberUInt(n: NumberRead): nat
  {
    if n.negative then 0 else n.whole
  }

  /**
   * A plain integer below 2^64, optionally negative, followed by a character
   * other than a digit or '.': u is its value (0 after a '-'), d its value as a
   * real, and i its signed value whenever that fits in int64.
   */
  lemma {:induction false} IntegerNumber(s: seq<char>, p: nat, negative: bool, ds: seq<char>)
    requires forall k :: 0 <= k < |ds| ==> IsDigit(ds[k])
    requires Value(ds) < TWO64
    requires p + |ds| + (if negative then 1 else 0) < |s|
    requires negative ==> s[p] == '-'
    requires !negative ==> (ds != [] || s[p] != '-')
    requires s[p + (if negative then 1 else 0) ..][..|ds|] == ds
    requires var c := s[p + (if negative then 1 else 0) + |ds|]; !IsDigit(c) && c != '.'
    ensures var n := NumberAt(s, p);
      && n.ok && n.pos == p + (if negative then 1 else 0) + |ds|
      && NumberUInt(n) == (if negative then 0 else Value(ds))
      && (Value(ds) < TWO63 || (negative && Value(ds) == TWO63) ==> NumberInt(n) == (if negative then -(Value(ds) as int) else Value(ds)))
      && NumberDouble(n) == (if negative then -(Value(ds) as real) else Value(ds) as real)
  {
    var p1 := p + (if negative then 1 else 0);
    if !negative && ds != [] {
      assert s[p] == ds[0];
    }
    DigitsRun(s, p1, ds);
    assert s[p1 .. p1 + |ds|] == ds;
  }

  /** A run of digits followed by a non-digit is exactly what DigitsEnd skips. */
  lemma {:induction false} DigitsRun(s: seq<char>, p: nat, ds: seq<char>)
    requires forall k :: 0 <= k < |ds| ==> IsDigit(ds[k])
    requires p + |ds| < |s| && s[p..][..|ds|] == ds && !IsDigit(s[p + |ds|])
    ensures DigitsEnd(s, p) == p + |ds|
    decreases |ds|
  {
    if ds != [] {
      assert s[p] == ds[0];
      assert s[p + 1 ..][..|ds| - 1] == ds[1..];
      DigitsRun(s, p + 1, ds[1..]);
    }
  }

  /** One more digit of a run: the value so far times ten plus the digit. */
  lemma ValueSnoc(s: seq<char>, p: nat, q: nat)
    requires p <= q < |s|
    ensures Value(s[p .. q + 1]) == Value(s[p .. q]) * 10 + DigitOf(s[q])
  {
    assert s[p .. q + 1][..q - p] == s[p .. q];
    assert s[p .. q + 1][q - p] == s[q];
  }

  /** One more fraction digit: the digit at the next smaller scale is added. */
  lemma FractionSnoc(s: seq<char>, p: nat, q: nat)
    requires p <= q < |s|
    ensures Fraction(s[p .. q + 1]) == Fraction(s[p .. q]) + DigitOf(s[q]) as real * Scale(q + 1 - p)
  {
    assert s[p .. q + 1][..q - p] == s[p .. q];
    assert s[p .. q + 1][q - p] == s[q];
  }

  /** Accumulating modulo 2^64 at every step gives the exact value modulo 2^64. */
  lemma WrapStep(a: nat, digit: nat)
    ensures ((a % TWO64) * 10 + digit) % TWO64 == (a * 10 + digit) % TWO64
  {
    var q := a / TWO64;
    assert a == q * TWO64 + a % TWO64;
    assert a * 10 + digit == (a % TWO64) * 10 + digit + (10 * q) * TWO64;
    ShiftMod((a % TWO64) * 10 + digit, 10 * q);
  }

  lemma ShiftMod(x: nat, t: nat)
    ensures (x + t * TWO64) % TWO64 == x % TWO64
  {
    if t > 0 {
      ShiftMod(x, t - 1);
      assert x + t * TWO64 == (x + (t - 1) * TWO64) + TWO64;
    }
  }

  /** A number that ends the stream is not accepted, however well formed. */
  lemma NumberAtEof(s: seq<char>, p: nat)
    requires p <= |s| && NumberAt(s, p).pos == |s|
    ensures !NumberAt(s, p).ok
  {
  }

  /** The exponent is read only after a fraction: "1e5," reads as the number 1 and stops at the 'e'. */
  lemma ExponentNeedsFraction()
    ensures NumberAt("1e5,", 0).ok && NumberAt("1e5,", 0).pos == 1 && NumberDouble(NumberAt("1e5,", 0)) == 1.0
    ensures NumberAt("1.5e1,", 0).ok && NumberAt("1.5e1,", 0).pos == 5 && NumberDouble(NumberAt("1.5e1,", 0)) == 15.0
  {
    var s := "1e5,";
    assert DigitsEnd(s, 1) == 1;
    assert DigitsEnd(s, 0) == 1;
    assert s[0..1] == ['1'];
    assert Value(['1']) == 1 by { assert ['1'][..0] == []; }
    var t := "1.5e1,";
    assert DigitsEnd(t, 5) == 5;
    assert DigitsEnd(t, 4) == 5;
    assert DigitsEnd(t, 3) == 3;
    assert DigitsEnd(t, 2) == 3;
    assert DigitsEnd(t, 1) == 1;
    assert DigitsEnd(t, 0) == 1;
    assert t[0..1] == ['1'] && t[2..3] == ['5'] && t[4..5] == ['1'];
    assert ['5'][..0] == [];
    assert Fraction(['5']) == 0.5;
  }

  // ---------------------------------------------------------------- state-level steps

  ghost predicate Fits(s: seq<char>, r: ReaderState) { r.pos <= |s| }

  function BoolStep(s: seq<char>, r: ReaderState): (res: (bool, ReaderState))
    requires r.pos <= |s|
    ensures r.pos <= res.1.pos <= |s| && res.1.scopes == r.scopes && res.1.error == r.error
  {
    var br := BoolAt(s, r.pos);
    (br.ok, r.(pos := br.pos, b := if br.ok then br.value else r.b))
  }

  function NullStep(s: seq<char>, r: ReaderState): (res: (bool, ReaderState))
    requires r.pos <= |s|
    ensures r.pos <= res.1.pos <= |s| && res.1.scopes == r.scopes && res.1.error == r.error
  {
    var n := NullAt(s, r.pos);
    (n.ok, r.(pos := n.pos))
  }

  function StringStep(s: seq<char>, r: ReaderState): (res: (bool, ReaderState))
    requires r.pos <= |s|
    ensures r.pos <= res.1.pos <= |s| && res.1.scopes == r.scopes && res.1.error == r.error
  {
    var sr := StringAt(s, r.pos);
    (sr.ok, r.(pos := sr.pos, str := if sr.ok then sr.text else r.str))
  }

  /** parse_number zeroes i, u and d before it scans, so a failed scan leaves them zero. */
  function NumberStep(s: seq<char>, r: ReaderState): (res: (bool, ReaderState))
    requires r.pos <= |s|
    ensures r.pos <= res.1.pos <= |s| && res.1.scopes == r.scopes && res.1.error == r.error
  {
    var n := NumberAt(s, r.pos);
    if n.ok then (true, r.(pos := n.pos, d := NumberDouble(n), i := NumberInt(n), u := NumberUInt(n)))
    else (false, r.(pos := n.pos, d := 0.0, i := 0, u := 0))
  }

  /** parse_value: dispatch on the next character; '{' and '[' push a new scope. */
  function ValueStep(s: seq<char>, r: ReaderState): (res: (Token, ReaderState))
    requires r.pos <= |s|
    ensures r.pos <= res.1.pos <= |s| && res.1.error == r.error
    ensures res.0 in {BeginObject, BeginArray} ==> res.1.scopes == r.scopes + [if res.0 == BeginObject then OBJECT_SCOPE else ARRAY_SCOPE]
    ensures res.0 !in {BeginObject, BeginArray} ==> res.1.scopes == r.scopes
  {
    if r.pos == |s| then (Invalid, r)
    else
      var c := s[r.pos];
      if c == '{' then (BeginObject, r.(pos := r.pos + 1, scopes := r.scopes + [OBJECT_SCOPE]))
      else if c == '[' then (BeginArray, r.(pos := r.pos + 1, scopes := r.scopes + [ARRAY_SCOPE]))
      else if c == 't' || c == 'f' then
        var (ok, r') := BoolStep(s, r); (if ok then Bool else Invalid, r')
      else if c == '-' || IsDigit(c) then
        var (ok, r') := NumberStep(s, r); (if ok then Number else Invalid, r')
      else if c == '"' then
        var (ok, r') := StringStep(s, r); (if ok then String else Invalid, r')
      else if c == 'n' then
        var (ok, r') := NullStep(s, r); (if ok then Null else Invalid, r')
      else (Invalid, r)
  }

  /** A value outside any scope handling: an Invalid token sets the error flag. */
  function TopValue(s: seq<char>, r: ReaderState): (res: (Token, ReaderState))
    requires r.pos <= |s|
    ensures r.pos <= res.1.pos <= |s|
  {
    var (t, r') := ValueStep(s, r);
    (t, if t == Invalid then r'.(error := true) else r')
  }

  function Failed(r: ReaderState): (Token, ReaderState)
  {
    (Invalid, r.(error := true))
  }

  /** At a quote where a name is expected: the name string, then ':' after optional whitespace. */
  function NameAt(s: seq<char>, r: ReaderState): (res: (Token, ReaderState))
    requires r.pos <= |s| && |r.scopes| > 0
    ensures r.pos <= res.1.pos <= |s|
  {
    var top := |r.scopes| - 1;
    if r.pos < |s| && s[r.pos] == '"' then
      var (ok, r2) := StringStep(s, r);
      if !ok then Failed(r2)
      else
        var r3 := r2.(scopes := r2.scopes[top := r2.scopes[top].(needName := false, needValue := true)]);
        var p := SkipFrom(s, r3.pos);
        if p < |s| && s[p] == ':' then (ValueName, r3.(pos := p + 1)) else Failed(r3.(pos := p))
    else TopValue(s, r)
  }

  /** The object scope waits for a name: ',' only after a pair, '}' closes, a missing ',' after a pair fails. */
  function InName(s: seq<char>, r: ReaderState): (res: (Token, ReaderState))
    requires r.pos <= |s| && |r.scopes| > 0
    ensures r.pos <= res.1.pos <= |s|
  {
    var top := |r.scopes| - 1;
    if r.pos < |s| && s[r.pos] == ',' then
      if r.scopes[top].pairCount == 0 then Failed(r)
      else NameAt(s, r.(pos := SkipFrom(s, r.pos + 1)))
    else if r.pos < |s| && s[r.pos] == '}' then (EndObject, r.(pos := r.pos + 1, scopes := r.scopes[..top]))
    else if r.scopes[top].pairCount > 0 then Failed(r)
    else NameAt(s, r)
  }

  /** The object scope waits for a value: after any valid value it waits for a name, one more pair counted. */
  function InValue(s: seq<char>, r: ReaderState): (res: (Token, ReaderState))
    requires r.pos <= |s| && |r.scopes| > 0
    ensures r.pos <= res.1.pos <= |s|
  {
    var top := |r.scopes| - 1;
    var (t, r2) := ValueStep(s, r);
    if t == Invalid then (t, r2.(error := true))
    else
      var sc := r2.scopes[top];
      (t, r2.(scopes := r2.scopes[top := sc.(needName := true, needValue := false, pairCount := Wrap32(sc.pairCount + 1))]))
  }

  /** After the element separator: whitespace, then a value; the element is counted even when it is Invalid. */
  function ElementValue(s: seq<char>, r: ReaderState): (res: (Token, ReaderState))
    requires r.pos <= |s| && |r.scopes| > 0
    ensures r.pos <= res.1.pos <= |s|
  {
    var top := |r.scopes| - 1;
    var (t, r2) := ValueStep(s, r.(pos := SkipFrom(s, r.pos)));
    var sc := r2.scopes[top];
    var r3 := r2.(scopes := r2.scopes[top := sc.(elementCount := Wrap32(sc.elementCount + 1))]);
    (t, if t == Invalid then r3.(error := true) else r3)
  }

  /** The array scope waits for an element: ',' only after an element, ']' closes, a missing ',' after an element fails. */
  function InElement(s: seq<char>, r: ReaderState): (res: (Token, ReaderState))
    requires r.pos <= |s| && |r.scopes| > 0
    ensures r.pos <= res.1.pos <= |s|
  {
    var top := |r.scopes| - 1;
    if r.pos < |s| && s[r.pos] == ',' then
      if r.scopes[top].elementCount == 0 then Failed(r)
      else ElementValue(s, r.(pos := r.pos + 1))
    else if r.pos < |s| && s[r.pos] == ']' then (EndArray, r.(pos := r.pos + 1, scopes := r.scopes[..top]))
    else if r.scopes[top].elementCount > 0 then Failed(r)
    else ElementValue(s, r)
  }

  /**
   * Reader::next as a function of the reader state: nothing after an error;
   * otherwise skip whitespace and act on the innermost scope's expectation,
   * or read a value when there is no scope.
   */
  function Step(s: seq<char>, r: ReaderState): (res: (Token, ReaderState))
    requires r.pos <= |s|
    ensures r.pos <= res.1.pos <= |s|
  {
    if r.error then (Invalid, r)
    else
      var r1 := r.(pos := SkipFrom(s, r.pos));
      if |r1.scopes| == 0 then TopValue(s, r1)
      else
        var sc := r1.scopes[|r1.scopes| - 1];
        if sc.needName then InName(s, r1)
        else if sc.needValue then InValue(s, r1)
        else if sc.needElement then InElement(s, r1)
        else TopValue(s, r1)
  }

  // ---------------------------------------------------------------- properties of next

  /** Once an error is flagged, next returns Invalid and changes nothing. */
  lemma StepAfterError(s: seq<char>, r: ReaderState)
    requires r.pos <= |s| && r.error
    ensures Step(s, r) == (Invalid, r)
  {
  }

  /** next flags an error exactly when it returns Invalid (or one was already flagged). */
  lemma StepErrorFlag(s: seq<char>, r: ReaderState)
    requires r.pos <= |s|
    ensures Step(s, r).1.error <==> r.error || Step(s, r).0 == Invalid
  {
  }

  /** Every scope on the stack waits for exactly one kind of token, with the other kind's counter at zero. */
  predicate WellScoped(sc: Scope)
  {
    || (!sc.needElement && sc.elementCount == 0 && sc.needName != sc.needValue)
    || (sc.needElement && !sc.needName && !sc.needValue && sc.pairCount == 0)
  }

  predicate Scoped(r: ReaderState)
  {
    forall k :: 0 <= k < |r.scopes| ==> WellScoped(r.scopes[k])
  }

  /** The position in the stream after the whitespace next skips first. */
  function Ahead(s: seq<char>, r: ReaderState): nat
    requires r.pos <= |s|
  {
    SkipFrom(s, r.pos)
  }

  /** In an object that has no pair yet, or an array that has no element yet, a leading ',' is Invalid. */
  lemma LeadingCommaInvalid(s: seq<char>, r: ReaderState)
    requires r.pos <= |s| && Scoped(r) && |r.scopes| > 0
    requires var top := r.scopes[|r.scopes| - 1]; if top.needElement then top.elementCount == 0 else top.needName && top.pairCount == 0
    requires Ahead(s, r) < |s| && s[Ahead(s, r)] == ','
    ensures Step(s, r) == (Invalid, r.(pos := Ahead(s, r), error := true)) || (r.error && Step(s, r) == (Invalid, r))
  {
  }

  /** After a pair, or after an element, anything but ',' or the closing bracket is Invalid. */
  lemma MissingCommaInvalid(s: seq<char>, r: ReaderState)
    requires r.pos <= |s| && Scoped(r) && |r.scopes| > 0 && !r.error
    requires var top := r.scopes[|r.scopes| - 1]; if top.needElement then top.elementCount > 0 else top.needName && top.pairCount > 0
    requires Ahead(s, r) == |s| || s[Ahead(s, r)] !in {',', '}', ']'}
    ensures Step(s, r) == (Invalid, r.(pos := Ahead(s, r), error := true))
  {
  }

  /** A name switches its object from waiting for a name to waiting for a value, and nothing else on the stack changes. */
  lemma NameThenValue(s: seq<char>, r: ReaderState)
    requires r.pos <= |s| && |r.scopes| > 0 && r.scopes[|r.scopes| - 1].needName
    requires Step(s, r).0 == ValueName
    ensures var top := |r.scopes| - 1;
      Step(s, r).1.scopes == r.scopes[top := r.scopes[top].(needName := false, needValue := true)]
  {
    InNameValueName(s, r.(pos := SkipFrom(s, r.pos)));
  }

  lemma InNameValueName(s: seq<char>, r: ReaderState)
    requires r.pos <= |s| && |r.scopes| > 0
    ensures var top := |r.scopes| - 1;
      InName(s, r).0 == ValueName ==> InName(s, r).1.scopes == r.scopes[top := r.scopes[top].(needName := false, needValue := true)]
  {
    if r.pos < |s| && s[r.pos] == ',' {
      NameAtValueName(s, r.(pos := SkipFrom(s, r.pos + 1)));
    } else {
      NameAtValueName(s, r);
    }
  }

  lemma NameAtValueName(s: seq<char>, r: ReaderState)
    requires r.pos <= |s| && |r.scopes| > 0
    ensures var top := |r.scopes| - 1;
      NameAt(s, r).0 == ValueName ==> NameAt(s, r).1.scopes == r.scopes[top := r.scopes[top].(needName := false, needValue := true)]
  {
  }

  /**
   * A valid value where an object waits for one completes a pair: the object
   * waits for a name again and counts one more pair (a nested object or array
   * goes on top of it).
   */
  lemma ValueCompletesPair(s: seq<char>, r: ReaderState)
    requires r.pos <= |s| && !r.error && |r.scopes| > 0
    requires var top := r.scopes[|r.scopes| - 1]; !top.needName && top.needValue
    requires Step(s, r).0 != Invalid
    ensures var top := |r.scopes| - 1;
      var sc := r.scopes[top];
      var done := r.scopes[top := sc.(needName := true, needValue := false, pairCount := Wrap32(sc.pairCount + 1))];
      Step(s, r).1.scopes == done ||
      Step(s, r).1.scopes == done + [if Step(s, r).0 == BeginObject then OBJECT_SCOPE else ARRAY_SCOPE]
  {
    var r1 := r.(pos := SkipFrom(s, r.pos));
    assert Step(s, r) == InValue(s, r1);
    var (t, r2) := ValueStep(s, r1);
    var top := |r.scopes| - 1;
    assert r2.scopes[top] == r.scopes[top];
  }

  /** How many scopes a token opens (+1), closes (-1) or leaves (0). */
  function DepthChange(t: Token): int
  {
    if t in {BeginObject, BeginArray} then 1 else if t in {EndObject, EndArray} then -1 else 0
  }

  lemma ValueStepShape(s: seq<char>, r: ReaderState)
    requires r.pos <= |s| && Scoped(r)
    ensures |ValueStep(s, r).1.scopes| == |r.scopes| + DepthChange(ValueStep(s, r).0)
    ensures ValueStep(s, r).1.scopes[..|r.scopes|] == r.scopes
    ensures Scoped(ValueStep(s, r).1)
  {
    var (t, r') := ValueStep(s, r);
    if t in {BeginObject, BeginArray} {
      assert r'.scopes[..|r.scopes|] == r.scopes;
    } else {
      assert r'.scopes == r.scopes;
    }
  }

  lemma NameAtShape(s: seq<char>, r: ReaderState)
    requires r.pos <= |s| && |r.scopes| > 0 && Scoped(r) && r.scopes[|r.scopes| - 1].needName
    ensures |NameAt(s, r).1.scopes| == |r.scopes| + DepthChange(NameAt(s, r).0)
    ensures Scoped(NameAt(s, r).1)
  {
    if r.pos < |s| && s[r.pos] == '"' {
    } else {
      ValueStepShape(s, r);
    }
  }

  lemma InNameShape(s: seq<char>, r: ReaderState)
    requires r.pos <= |s| && |r.scopes| > 0 && Scoped(r) && r.scopes[|r.scopes| - 1].needName
    ensures |InName(s, r).1.scopes| == |r.scopes| + DepthChange(InName(s, r).0)
    ensures Scoped(InName(s, r).1)
  {
    var top := |r.scopes| - 1;
    if r.pos < |s| && s[r.pos] == ',' {
      if r.scopes[top].pairCount != 0 {
        NameAtShape(s, r.(pos := SkipFrom(s, r.pos + 1)));
      }
    } else if r.pos < |s| && s[r.pos] == '}' {
    } else if r.scopes[top].pairCount == 0 {
      NameAtShape(s, r);
    }
  }

  lemma InValueShape(s: seq<char>, r: ReaderState)
    requires r.pos <= |s| && |r.scopes| > 0 && Scoped(r)
    requires var top := r.scopes[|r.scopes| - 1]; !top.needName && top.needValue
    ensures |InValue(s, r).1.scopes| == |r.scopes| + DepthChange(InValue(s, r).0)
    ensures Scoped(InValue(s, r).1)
  {
    ValueStepShape(s, r);
    var top := |r.scopes| - 1;
    var (t, r2) := ValueStep(s, r);
    assert r2.scopes[top] == r.scopes[top];
  }

  lemma ElementValueShape(s: seq<char>, r: ReaderState)
    requires r.pos <= |s| && |r.scopes| > 0 && Scoped(r) && r.scopes[|r.scopes| - 1].needElement
    ensures |ElementValue(s, r).1.scopes| == |r.scopes| + DepthChange(ElementValue(s, r).0)
    ensures Scoped(ElementValue(s, r).1)
  {
    var r1 := r.(pos := SkipFrom(s, r.pos));
    ValueStepShape(s, r1);
    var top := |r.scopes| - 1;
    var (t, r2) := ValueStep(s, r1);
    assert r2.scopes[top] == r.scopes[top];
  }

  lemma InElementShape(s: seq<char>, r: ReaderState)
    requires r.pos <= |s| && |r.scopes| > 0 && Scoped(r) && r.scopes[|r.scopes| - 1].needElement
    ensures |InElement(s, r).1.scopes| == |r.scopes| + DepthChange(InElement(s, r).0)
    ensures Scoped(InElement(s, r).1)
  {
    var top := |r.scopes| - 1;
    if r.pos < |s| && s[r.pos] == ',' {
      if r.scopes[top].elementCount != 0 {
        ElementValueShape(s, r.(pos := r.pos + 1));
      }
    } else if r.pos < |s| && s[r.pos] == ']' {
    } else if r.scopes[top].elementCount == 0 {
      ElementValueShape(s, r);
    }
  }

  /**
   * Begin tokens push one scope, end tokens pop one, every other token leaves
   * the depth alone; and the scopes stay well formed from one token to the next.
   */
  lemma StepShape(s: seq<char>, r: ReaderState)
    requires r.pos <= |s| && Scoped(r)
    ensures |Step(s, r).1.scopes| == |r.scopes| + DepthChange(Step(s, r).0)
    ensures Scoped(Step(s, r).1)
  {
    if !r.error {
      var r1 := r.(pos := SkipFrom(s, r.pos));
      if |r1.scopes| == 0 {
        ValueStepShape(s, r1);
      } else {
        var sc := r1.scopes[|r1.scopes| - 1];
        if sc.needName {
          InNameShape(s, r1);
        } else if sc.needValue {
          InValueShape(s, r1);
        } else if sc.needElement {
          InElementShape(s, r1);
        } else {
          ValueStepShape(s, r1);
        }
      }
    }
  }

  // ---------------------------------------------------------------- the reader object

  /** Reader: the stream it consumes and its fields; b, d, i, u and str start as false, 0 and "". */
  class Reader {
    const input: seq<char>
    var pos: nat
    var error: bool
    var scopes: seq<Scope>
    var b: bool
    var d: real
    var i: int
    var u: nat
    var str: seq<char>

    ghost predicate Valid()
      reads this
    {
      pos <= |input|
    }

    function State(): ReaderState
      reads this
    {
      ReaderState(pos, error, scopes, b, d, i, u, str)
    }

    constructor (stream: seq<char>)
      ensures Valid() && input == stream
      ensures State() == ReaderState(0, false, [], false, 0.0, 0, 0, [])
    {
      input := stream;
      pos := 0;
      error := false;
      scopes := [];
      b, d, i, u, str := false, 0.0, 0, 0, [];
    }

    /** skip: consume whitespace. */
    method Skip()
      requires Valid()
      modifies this
      ensures Valid() && State() == old(State()).(pos := SkipFrom(input, old(pos)))
    {
      while pos < |input| && IsSpace(input[pos])
        invariant Valid() && SkipFrom(input, pos) == SkipFrom(input, old(pos))
        invariant State() == old(State()).(pos := pos)
        decreases |input| - pos
      {
        pos := pos + 1;
      }
    }

    method ParseBool() returns (ok: bool)
      requires Valid()
      modifies this
      ensures Valid() && (ok, State()) == BoolStep(input, old(State()))
    {
      var start := pos;
      var buf: seq<char> := [];
      var k := 0;
      while k < 4
        invariant k <= 4 && pos == start + k <= |input| && buf == input[start .. pos]
        invariant State() == old(State()).(pos := pos)
      {
        if pos == |input| {
          return false;
        }
        buf := buf + [input[pos]];
        pos := pos + 1;
        k := k + 1;
      }
      if buf == "true" {
        b := true;
        return true;
      }
      if pos == |input| {
        return false;
      }
      buf := buf + [input[pos]];
      pos := pos + 1;
      assert buf == input[start .. start + 5];
      if buf == "false" {
        b := false;
        return true;
      }
      return false;
    }

    method ParseNull() returns (ok: bool)
      requires Valid()
      modifies this
      ensures Valid() && (ok, State()) == NullStep(input, old(State()))
    {
      var start := pos;
      var buf: seq<char> := [];
      var k := 0;
      while k < 4
        invariant k <= 4 && pos == start + k <= |input| && buf == input[start .. pos]
        invariant State() == old(State()).(pos := pos)
      {
        if pos == |input| {
          return false;
        }
        buf := buf + [input[pos]];
        pos := pos + 1;
        k := k + 1;
      }
      return buf == "null";
    }

    method ParseString() returns (ok: bool)
      requires Valid()
      modifies this
      ensures Valid() && (ok, State()) == StringStep(input, old(State()))
    {
      if pos == |input| || input[pos] != '"' {
        return false;
      }
      pos := pos + 1;
      var acc: seq<char> := [];
      while pos < |input|
        invariant Valid() && old(pos) < pos
        invariant StringBody(input, pos, acc) == StringAt(input, old(pos))
        invariant State() == old(State()).(pos := pos)
        decreases |input| - pos
      {
        var c := input[pos];
        if c == '"' {
          str := acc;
          pos := pos + 1;
          return true;
        } else if c == '\\' {
          pos := pos + 1;
          if pos == |input| {
            return false;
          }
          var e := Unescape(input[pos]);
          if e.None? {
            return false;
          }
          acc := acc + [e.value];
          pos := pos + 1;
        } else {
          acc := acc + [c];
          pos := pos + 1;
        }
      }
      return false;
    }

    /** parse_number: i, u and d are zeroed, then the sign, whole, fraction and exponent are consumed digit by digit. */
    method ParseNumber() returns (ok: bool)
      requires Valid()
      modifies this
      ensures Valid() && (ok, State()) == NumberStep(input, old(State()))
    {
      i, u, d := 0, 0, 0.0;
      var n := ScanNumber(input, pos);
      pos := n.pos;
      if !n.ok {
        return false;
      }
      d := Scaled(n.whole, n.fraction, n.exponent);
      u := n.whole;
      i := ToInt64(u);
      if n.negative {
        d := -d;
        i := Negate64(i);
        u := 0;
      }
      assert d == NumberDouble(n) && i == NumberInt(n) && u == NumberUInt(n);
      return true;
    }

    /** The scanning part of parse_number: sign, whole digits, then a fraction only after '.'. */
    static method ScanNumber(s: seq<char>, p: nat) returns (n: NumberRead)
      requires p <= |s|
      ensures n == NumberAt(s, p)
    {
      if p == |s| {
        return NumberRead(false, false, 0, 0.0, 0, p);
      }
      var negative := s[p] == '-';
      var q, whole := WholeDigits(s, if negative then p + 1 else p);
      if q < |s| && s[q] == '.' {
        n := ScanFraction(s, q + 1, negative, whole);
      } else {
        n := NumberRead(q < |s|, negative, whole, 0.0, 0, q);
      }
    }

    /** After the '.': the fraction digits and, after 'e' or 'E', the signed exponent. */
    static method ScanFraction(s: seq<char>, p: nat, negative: bool, whole: nat) returns (n: NumberRead)
      requires p <= |s|
      ensures n == FractionAt(s, p, negative, whole)
    {
      var q, fraction := FractionDigits(s, p);
      if q == |s| || (s[q] != 'e' && s[q] != 'E') {
        return NumberRead(q < |s|, negative, whole, fraction, 0, q);
      }
      if q + 1 == |s| {
        return NumberRead(false, negative, whole, fraction, 0, q + 1);
      }
      var negativeExponent := s[q + 1] == '-';
      var q', e := ExponentDigits(s, if negativeExponent || s[q + 1] == '+' then q + 2 else q + 1);
      n := NumberRead(q' < |s|, negative, whole, fraction, if negativeExponent then -(e as int) else e, q');
    }

    /** The whole-part loop of parse_number: digits accumulated as whole * 10 + digit in a uint64. */
    static method WholeDigits(s: seq<char>, p: nat) returns (q: nat, whole: nat)
      requires p <= |s|
      ensures q == DigitsEnd(s, p) && whole == Value(s[p .. q]) % TWO64
    {
      q, whole := p, 0;
      while q < |s| && IsDigit(s[q])
        invariant p <= q <= |s| && DigitsEnd(s, q) == DigitsEnd(s, p)
        invariant whole == Value(s[p .. q]) % TWO64
        decreases |s| - q
      {
        ValueSnoc(s, p, q);
        WrapStep(Value(s[p .. q]), DigitOf(s[q]));
        whole := (whole * 10 + DigitOf(s[q])) % TWO64;
        q := q + 1;
      }
    }

    /** The fraction loop of parse_number: the scale drops tenfold and digit * scale is added, per digit. */
    static method FractionDigits(s: seq<char>, p: nat) returns (q: nat, fraction: real)
      requires p <= |s|
      ensures q == DigitsEnd(s, p) && fraction == Fraction(s[p .. q])
    {
      q, fraction := p, 0.0;
      var scale := 1.0;
      while q < |s| && IsDigit(s[q])
        invariant p <= q <= |s| && DigitsEnd(s, q) == DigitsEnd(s, p)
        invariant scale == Scale(q - p) && fraction == Fraction(s[p .. q])
        decreases |s| - q
      {
        FractionSnoc(s, p, q);
        scale := scale / 10.0;
        fraction := fraction + DigitOf(s[q]) as real * scale;
        q := q + 1;
      }
    }

    /** The exponent loop of parse_number: exponent * 10 + digit, unbounded. */
    static method ExponentDigits(s: seq<char>, p: nat) returns (q: nat, e: nat)
      requires p <= |s|
      ensures q == DigitsEnd(s, p) && e == Value(s[p .. q])
    {
      q, e := p, 0;
      while q < |s| && IsDigit(s[q])
        invariant p <= q <= |s| && DigitsEnd(s, q) == DigitsEnd(s, p)
        invariant e == Value(s[p .. q])
        decreases |s| - q
      {
        ValueSnoc(s, p, q);
        e := e * 10 + DigitOf(s[q]);
        q := q + 1;
      }
    }

    /** parse_value: dispatch on the next character. */
    method ParseValue() returns (tok: Token)
      requires Valid()
      modifies this
      ensures Valid() && (tok, State()) == ValueStep(input, old(State()))
    {
      if pos == |input| {
        return Invalid;
      }
      var c := input[pos];
      if c == '{' {
        pos := pos + 1;
        scopes := scopes + [OBJECT_SCOPE];
        return BeginObject;
      } else if c == '[' {
        pos := pos + 1;
        scopes := scopes + [ARRAY_SCOPE];
        return BeginArray;
      } else if c == 't' || c == 'f' {
        var ok := ParseBool();
        return if ok then Bool else Invalid;
      } else if c == '-' || IsDigit(c) {
        var ok := ParseNumber();
        return if ok then Number else Invalid;
      } else if c == '"' {
        var ok := ParseString();
        return if ok then String else Invalid;
      } else if c == 'n' {
        var ok := ParseNull();
        return if ok then Null else Invalid;
      }
      return Invalid;
    }

    /** next: the next token of the stream, Invalid for ever after the first error. */
    method Next() returns (tok: Token)
      requires Valid()
      modifies this
      ensures Valid() && (tok, State()) == Step(input, old(State()))
    {
      if error {
        return Invalid;
      }
      Skip();
      if |scopes| == 0 {
        tok := NextTop();
        return;
      }
      var sc := scopes[|scopes| - 1];
      if sc.needName {
        tok := NextInName();
      } else if sc.needValue {
        tok := NextInValue();
      } else if sc.needElement {
        tok := NextInElement();
      } else {
        tok := NextTop();
      }
    }

    method NextTop() returns (tok: Token)
      requires Valid()
      modifies this
      ensures Valid() && (tok, State()) == TopValue(input, old(State()))
    {
      tok := ParseValue();
      if tok == Invalid {
        error := true;
      }
    }

    method NextName() returns (tok: Token)
      requires Valid() && |scopes| > 0
      modifies this
      ensures Valid() && (tok, State()) == NameAt(input, old(State()))
    {
      var top := |scopes| - 1;
      if pos < |input| && input[pos] == '"' {
        var ok := ParseString();
        if ok {
          scopes := scopes[top := scopes[top].(needName := false, needValue := true)];
          Skip();
          if pos < |input| && input[pos] == ':' {
            pos := pos + 1;
            return ValueName;
          }
        }
        error := true;
        return Invalid;
      }
      tok := NextTop();
    }

    method NextInName() returns (tok: Token)
      requires Valid() && |scopes| > 0
      modifies this
      ensures Valid() && (tok, State()) == InName(input, old(State()))
    {
      var top := |scopes| - 1;
      if pos < |input| && input[pos] == ',' {
        if scopes[top].pairCount == 0 {
          error := true;
          return Invalid;
        }
        pos := pos + 1;
        Skip();
      } else if pos < |input| && input[pos] == '}' {
        pos := pos + 1;
        scopes := scopes[..top];
        return EndObject;
      } else if scopes[top].pairCount > 0 {
        error := true;
        return Invalid;
      }
      tok := NextName();
    }

    method NextInValue() returns (tok: Token)
      requires Valid() && |scopes| > 0
      modifies this
      ensures Valid() && (tok, State()) == InValue(input, old(State()))
    {
      var top := |scopes| - 1;
      tok := ParseValue();
      if tok != Invalid {
        var sc := scopes[top];
        scopes := scopes[top := sc.(needName := true, needValue := false, pairCount := Wrap32(sc.pairCount + 1))];
      } else {
        error := true;
      }
    }

    method NextInElement() returns (tok: Token)
      requires Valid() && |scopes| > 0
      modifies this
      ensures Valid() && (tok, State()) == InElement(input, old(State()))
    {
      var top := |scopes| - 1;
      if pos < |input| && input[pos] == ',' {
        if scopes[top].elementCount == 0 {
          error := true;
          return Invalid;
        }
        pos := pos + 1;
      } else if pos < |input| && input[pos] == ']' {
        pos := pos + 1;
        scopes := scopes[..top];
        return EndArray;
      } else if scopes[top].elementCount > 0 {
        error := true;
        return Invalid;
      }
      tok := NextElementValue();
    }

    method NextElementValue() returns (tok: Token)
      requires Valid() && |scopes| > 0
      modifies this
      ensures Valid() && (tok, State()) == ElementValue(input, old(State()))
    {
      var top := |scopes| - 1;
      Skip();
      tok := ParseValue();
      if tok == Invalid {
        error := true;
      }
      var sc := scopes[top];
      scopes := scopes[top := sc.(elementCount := Wrap32(sc.elementCount + 1))];
    }
  }
}
