/**
 * The writer of the streaming JSON library
 * (trunk/extern/cppJSONStream/cppJSONStream.cpp, Writer). The output stream is
 * the text `out`, only ever appended to. Like the reader, the writer keeps a
 * stack of scopes; begin_write emits the separator the innermost scope needs
 * and end_write advances that scope. Its asserts are preconditions.
 *
 * Characters are the bytes of C strings, with `char` signed: every byte from
 * 0x80 up counts as below 32 and takes the escape branch of write_string.
 */
module JsonWriter {
  import opened Wrappers
  import opened JsonReader

  /** One open object or array of the writer (size_t counters, which never wrap in practice). */
  datatype WScope = WScope(beginArray: bool, beginObject: bool, needName: bool, needValue: bool, pairCount: nat,
                           needElement: bool, elementCount: nat)

  const NEW_OBJECT: WScope := WScope(false, true, false, false, 0, false, 0)
  const NEW_ARRAY: WScope := WScope(true, false, false, false, 0, false, 0)

  /** A scope between two writes: an object waiting for a name or a value, or an array waiting for an element. */
  predicate Settled(sc: WScope)
  {
    && !sc.beginArray && !sc.beginObject
    && (|| (sc.needName != sc.needValue && !sc.needElement && sc.elementCount == 0)
        || (sc.needElement && !sc.needName && !sc.needValue && sc.pairCount == 0))
  }

  predicate AllSettled(scopes: seq<WScope>)
  {
    forall k :: 0 <= k < |scopes| ==> Settled(scopes[k])
  }

  function Tabs(n: nat): (r: seq<char>)
    ensures |r| == n && forall k :: 0 <= k < n ==> r[k] == '\t'
  {
    if n == 0 then [] else Tabs(n - 1) + ['\t']
  }

  /**
   * begin_write: in an array, ',' before every element after the first; in an
   * object, ',' before every name after the first and ':' before each value;
   * pretty output adds a space or a new line indented by the depth. Nothing
   * outside a scope.
   */
  function Separator(scopes: seq<WScope>, pretty: bool, depth: nat): seq<char>
    requires |scopes| > 0 ==> Settled(scopes[|scopes| - 1])
  {
    if |scopes| == 0 then []
    else
      var sc := scopes[|scopes| - 1];
      if sc.needElement then
        if sc.elementCount > 0 then (if pretty then ", " else ",") else []
      else if sc.needName then
        if sc.pairCount > 0 then (if pretty then ",\n" + Tabs(depth) else ",")
        else (if pretty then "\n" + Tabs(depth) else [])
      else if pretty then " : " else ":"
  }

  /** What end_write's asserts demand of the innermost scope in each of its states. */
  predicate Advanceable(sc: WScope)
  {
    if sc.beginObject then !sc.beginArray && !sc.needName && !sc.needValue && sc.pairCount == 0 && !sc.needElement && sc.elementCount == 0
    else if sc.beginArray then !sc.needName && !sc.needValue && sc.pairCount == 0 && !sc.needElement && sc.elementCount == 0
    else if sc.needName then !sc.needValue && !sc.needElement && sc.elementCount == 0
    else if sc.needValue then !sc.needElement && sc.elementCount == 0
    else sc.needElement ==> sc.pairCount == 0
  }

  /**
   * end_write's update of the innermost scope: a new object now waits for a
   * name, a new array for an element; a name makes the object wait for its
   * value; a value completes a pair; an element is counted.
   */
  function Advance(sc: WScope): (r: WScope)
    requires Advanceable(sc)
  {
    if sc.beginObject then sc.(needName := true, beginObject := false)
    else if sc.beginArray then sc.(needElement := true, beginArray := false)
    else if sc.needName then sc.(needValue := true, needName := false)
    else if sc.needValue then sc.(needValue := false, needName := true, pairCount := sc.pairCount + 1)
    else if sc.needElement then sc.(elementCount := sc.elementCount + 1)
    else sc
  }

  function AfterWrite(scopes: seq<WScope>): seq<WScope>
    requires |scopes| > 0 ==> Advanceable(scopes[|scopes| - 1])
  {
    if |scopes| == 0 then [] else scopes[..|scopes| - 1] + [Advance(scopes[|scopes| - 1])]
  }

  /** Each write moves a settled scope to the next settled state, and a freshly pushed one to its first. */
  lemma AdvanceSettles(sc: WScope)
    requires Settled(sc) || sc == NEW_OBJECT || sc == NEW_ARRAY
    ensures Advanceable(sc) && Settled(Advance(sc))
    ensures sc == NEW_OBJECT ==> Advance(sc).needName && Advance(sc).pairCount == 0
    ensures sc == NEW_ARRAY ==> Advance(sc).needElement && Advance(sc).elementCount == 0
    ensures Settled(sc) && sc.needElement ==> Advance(sc) == sc.(elementCount := sc.elementCount + 1)
    ensures Settled(sc) && sc.needName ==> Advance(sc) == sc.(needName := false, needValue := true)
    ensures Settled(sc) && sc.needValue ==> Advance(sc) == sc.(needName := true, needValue := false, pairCount := sc.pairCount + 1)
  {
  }

  /** In compact output exactly one ',' separates consecutive elements or pairs, and a ':' precedes every value. */
  lemma CompactSeparators(scopes: seq<WScope>, depth: nat)
    requires |scopes| > 0 && Settled(scopes[|scopes| - 1])
    ensures var sc := scopes[|scopes| - 1];
      Separator(scopes, false, depth) ==
        if sc.needValue then ":"
        else if (sc.needElement && sc.elementCount > 0) || (sc.needName && sc.pairCount > 0) then ","
        else []
  {
  }

  // ---------------------------------------------------------------- write_string

  const BACKSLASH: char := '\\'

  /** Printable under a signed char: above 31 (so below 0x80), and neither a quote nor a backslash. */
  predicate Plain(c: char)
  {
    ' ' <= c <= '\U{7F}' && c != '"' && c != BACKSLASH
  }

  /** The letter written after the backslash; the switch has no case for other characters, so nothing follows. */
  function EscapeLetter(c: char): (r: Option<char>)
    ensures r.Some? ==> Unescape(r.value) == Some(c)
  {
    if c == '"' then Some('"')
    else if c == BACKSLASH then Some(BACKSLASH)
    else if c == '/' then Some('/')
    else if c == BACKSPACE then Some('b')
    else if c == FORM_FEED then Some('f')
    else if c == '\n' then Some('n')
    else if c == '\r' then Some('r')
    else if c == '\t' then Some('t')
    else None
  }

  function Escape(c: char): (r: seq<char>)
    ensures |r| == if Plain(c) || EscapeLetter(c).None? then 1 else 2
  {
    if Plain(c) then [c]
    else if EscapeLetter(c).Some? then [BACKSLASH, EscapeLetter(c).value]
    else [BACKSLASH]
  }

  function Escaped(x: seq<char>): seq<char>
  {
    if x == [] then [] else Escape(x[0]) + Escaped(x[1..])
  }

  /** write_string: the text in quotes, each character plain or escaped. */
  function Quoted(x: seq<char>): seq<char>
  {
    "\"" + Escaped(x) + "\""
  }

  lemma {:induction false} EscapedAppend(x: seq<char>, y: seq<char>)
    ensures Escaped(x + y) == Escaped(x) + Escaped(y)
  {
    if x == [] {
      assert x + y == y;
    } else {
      assert (x + y)[0] == x[0] && (x + y)[1..] == x[1..] + y;
      EscapedAppend(x[1..], y);
    }
  }

  /** The characters write_string can represent: printable ones and those it escapes with a letter. */
  predicate Writable(c: char)
  {
    Plain(c) || EscapeLetter(c).Some?
  }

  /** The reader consumes one written character, plain or escaped, and appends exactly that character. */
  lemma CharReadsBack(t: seq<char>, p: nat, c: char, acc: seq<char>, u: seq<char>)
    requires Writable(c) && p <= |t| && t[p..] == Escape(c) + u && u != []
    ensures StringBody(t, p, acc) == StringBody(t, p + |Escape(c)|, acc + [c])
  {
    assert t[p] == t[p..][0];
    if !Plain(c) {
      assert t[p + 1] == t[p..][1] == EscapeLetter(c).value;
    }
  }

  lemma DropPrefix(t: seq<char>, p: nat, a: seq<char>, b: seq<char>)
    requires p <= |t| && t[p..] == a + b
    ensures p + |a| <= |t| && t[p + |a|..] == b
  {
    assert t[p + |a|..] == t[p..][|a|..];
  }

  lemma EscapedCons(x: seq<char>, rest: seq<char>)
    requires x != []
    ensures Escaped(x) + rest == Escape(x[0]) + (Escaped(x[1..]) + rest)
  {
  }

  /** Every character of x is writable, stated one character at a time. */
  predicate AllWritable(x: seq<char>)
  {
    x == [] || (Writable(x[0]) && AllWritable(x[1..]))
  }

  lemma {:induction false} AllWritableFromEach(x: seq<char>)
    requires forall k :: 0 <= k < |x| ==> Writable(x[k])
    ensures AllWritable(x)
  {
    if x != [] {
      assert forall k :: 0 <= k < |x[1..]| ==> x[1..][k] == x[k + 1];
      AllWritableFromEach(x[1..]);
    }
  }

  lemma EmptyReadsBack(t: seq<char>, p: nat, acc: seq<char>, rest: seq<char>)
    requires p <= |t| && t[p..] == Escaped([]) + ['"'] + rest
    ensures StringBody(t, p, acc) == StringRead(true, acc + [], p + |Escaped([])| + 1)
  {
    assert t[p] == t[p..][0] == '"';
    assert acc + [] == acc;
  }

  /** The written run splits into the first character's escape and the rest of the run. */
  lemma SplitRun(x: seq<char>, rest: seq<char>)
    requires x != []
    ensures Escaped(x) + ['"'] + rest == Escape(x[0]) + (Escaped(x[1..]) + ['"'] + rest)
    ensures |Escaped(x)| == |Escape(x[0])| + |Escaped(x[1..])|
  {
    var e := Escape(x[0]);
    var tail := Escaped(x[1..]);
    assert Escaped(x) == e + tail;
    AppendAssoc(e, tail, ['"'] + rest);
    AppendAssoc(e + tail, ['"'], rest);
    AppendAssoc(tail, ['"'], rest);
  }

  lemma AppendAssoc(a: seq<char>, b: seq<char>, c: seq<char>)
    ensures (a + b) + c == a + (b + c)
  {
  }

  lemma AppendAssoc3(a: seq<char>, b: seq<char>, c: seq<char>, d: seq<char>)
    ensures (a + b) + c + d == a + (b + c + d)
  {
  }

  lemma ConsAppend(acc: seq<char>, x: seq<char>)
    requires x != []
    ensures acc + x == (acc + [x[0]]) + x[1..]
  {
  }

  /** Reading an escaped run followed by the closing quote appends exactly the original characters. */
  lemma {:induction false} EscapedReadsBack(t: seq<char>, p: nat, x: seq<char>, acc: seq<char>, rest: seq<char>)
    requires AllWritable(x)
    requires p <= |t| && t[p..] == Escaped(x) + ['"'] + rest
    ensures StringBody(t, p, acc) == StringRead(true, acc + x, p + |Escaped(x)| + 1)
    decreases |x|
  {
    if x == [] {
      EmptyReadsBack(t, p, acc, rest);
    } else {
      var e := Escape(x[0]);
      var u := Escaped(x[1..]) + ['"'] + rest;
      SplitRun(x, rest);
      CharReadsBack(t, p, x[0], acc, u);
      DropPrefix(t, p, e, u);
      ConsAppend(acc, x);
      EscapedReadsBack(t, p + |Escape(x[0])|, x[1..], acc + [x[0]], rest);
    }
  }

  /**
   * parse_string(write_string(x)) == x for every text of writable characters,
   * whatever follows it; the text is a C string, so it holds no NUL.
   */
  lemma WriteThenParseString(x: seq<char>, rest: seq<char>)
    requires forall k :: 0 <= k < |x| ==> Writable(x[k]) && x[k] != '\0'
    ensures StringAt(Quoted(x) + rest, 0) == StringRead(true, x, |Quoted(x)|)
  {
    var t := Quoted(x) + rest;
    assert t[1..] == Escaped(x) + ['"'] + rest;
    AllWritableFromEach(x);
    EscapedReadsBack(t, 1, x, [], rest);
  }

  /** A control character write_string has no letter for is written as a lone backslash, and does not read back. */
  lemma UnwritableDoesNotReadBack(rest: seq<char>)
    ensures Quoted(['\U{1}']) == ['"', BACKSLASH, '"']
    ensures StringAt(Quoted(['\U{1}']) + rest, 0).text != ['\U{1}']
  {
    var t := Quoted(['\U{1}']) + rest;
    assert Escaped(['\U{1}']) == [BACKSLASH] by { assert ['\U{1}'][1..] == []; }
    assert t[0] == '"' && t[1] == BACKSLASH && t[2] == '"';
    assert StringAt(t, 0) == StringBody(t, 1, []);
    assert Unescape(t[2]) == Some('"');
    assert [] + [Unescape(t[2]).value] == ['"'];
    assert StringBody(t, 1, []) == StringBody(t, 3, ['"']);
  }

  // ---------------------------------------------------------------- numbers

  function DigitChar(n: nat): char
    requires n < 10
  {
    ('0' as int + n) as char
  }

  /** ostream's decimal text of a non-negative integer. */
  function Digits(n: nat): (r: seq<char>)
    ensures |r| > 0 && forall k :: 0 <= k < |r| ==> IsDigit(r[k])
  {
    if n < 10 then [DigitChar(n)] else Digits(n / 10) + [DigitChar(n % 10)]
  }

  /** ostream's decimal text of an integer: a '-' before negative values. */
  function Decimal(n: int): seq<char>
  {
    if n < 0 then "-" + Digits(-n) else Digits(n)
  }

  lemma {:induction false} DigitsValue(n: nat)
    ensures Value(Digits(n)) == n
  {
    if n >= 10 {
      DigitsValue(n / 10);
      var ds := Digits(n);
      assert ds[..|ds| - 1] == Digits(n / 10);
    }
  }

  /** The digits that follow an offset of s, and the character that ends them. */
  lemma DigitsThen(s: seq<char>, off: nat, ds: seq<char>, c: char, rest: seq<char>)
    requires off <= |s| && s[off..] == ds + [c] + rest
    ensures off + |ds| < |s| && s[off..][..|ds|] == ds && s[off + |ds|] == c
    ensures ds != [] ==> s[off] == ds[0]
  {
    assert s[off + |ds|] == s[off..][|ds|];
    if ds != [] {
      assert s[off] == s[off..][0];
    }
  }

  /** The text of an integer: an optional '-' and the digits of its magnitude. */
  lemma DecimalSplit(n: int, c: char, rest: seq<char>)
    ensures var off := if n < 0 then 1 else 0;
      var s := Decimal(n) + [c] + rest;
      && |Decimal(n)| == off + |Digits(if n < 0 then -n else n)|
      && s[off..] == Digits(if n < 0 then -n else n) + [c] + rest
      && (n < 0 ==> s[0] == '-')
  {
    var ds := Digits(if n < 0 then -n else n);
    if n < 0 {
      var s := Decimal(n) + [c] + rest;
      assert s == ['-'] + (ds + [c] + rest);
      assert s[1..] == ds + [c] + rest;
    } else {
      assert Decimal(n) + [c] + rest == ds + [c] + rest;
    }
  }

  /** parse_number reads the text write(int64) produces back as the same signed value. */
  lemma WriteThenParseInt(n: int, c: char, rest: seq<char>)
    requires -TWO63 <= n < TWO63 && !IsDigit(c) && c != '.'
    ensures var r := NumberAt(Decimal(n) + [c] + rest, 0);
      r.ok && r.pos == |Decimal(n)| && NumberInt(r) == n && NumberDouble(r) == n as real
  {
    var neg := n < 0;
    var m: nat := if neg then -n else n;
    var off := if neg then 1 else 0;
    var ds := Digits(m);
    var s := Decimal(n) + [c] + rest;
    DigitsValue(m);
    DecimalSplit(n, c, rest);
    DigitsThen(s, off, ds, c, rest);
    IntegerNumber(s, 0, neg, ds);
  }

  /** parse_number reads the text write(uint64) produces back as the same unsigned value. */
  lemma WriteThenParseUInt(n: nat, c: char, rest: seq<char>)
    requires n < TWO64 && !IsDigit(c) && c != '.'
    ensures var r := NumberAt(Decimal(n) + [c] + rest, 0);
      r.ok && r.pos == |Decimal(n)| && NumberUInt(r) == n
  {
    var ds := Digits(n);
    var s := Decimal(n) + [c] + rest;
    DigitsValue(n);
    DecimalSplit(n, c, rest);
    DigitsThen(s, 0, ds, c, rest);
    IntegerNumber(s, 0, false, ds);
  }

  /** write(bool) */
  function BoolText(v: bool): seq<char>
  {
    if v then "true" else "false"
  }

  lemma WriteThenParseBool(v: bool, rest: seq<char>)
    ensures BoolAt(BoolText(v) + rest, 0) == BoolRead(true, v, |BoolText(v)|)
  {
    var s := BoolText(v) + rest;
    BoolAtAccepts(s, 0);
    if v {
      assert s[0..4] == "true";
    } else {
      assert s[0..5] == "false";
      assert s[0..4] != "true" by { assert s[0] != 't'; }
    }
  }

  lemma WriteThenParseNull(rest: seq<char>)
    ensures NullAt("null" + rest, 0) == NullRead(true, 4)
  {
    assert ("null" + rest)[0..4] == "null";
  }

  // ---------------------------------------------------------------- write(double)

  /** The three printf conversions write(double) chooses between: "%.0f", "%e" and "%f". */
  datatype DoubleFormat = WholeFormat | ExponentFormat | FixedFormat

  /** DBL_EPSILON, 2^-52. */
  const DOUBLE_EPSILON: real := 1.0 / 4503599627370496.0

  function Abs(x: real): real
  {
    if x < 0.0 then -x else x
  }

  /** An integral value below 1e60 is printed without decimals, a very small or very large one in exponent form. */
  function FormatFor(v: real): (f: DoubleFormat)
    ensures v == v.Floor as real && Abs(v) < 1.0e60 ==> f == WholeFormat
    ensures f == FixedFormat ==> 1.0e-6 <= Abs(v) <= 1.0e9
  {
    if Abs(v.Floor as real - v) <= DOUBLE_EPSILON && Abs(v) < 1.0e60 then WholeFormat
    else if Abs(v) < 1.0e-6 || Abs(v) > 1.0e9 then ExponentFormat
    else FixedFormat
  }

  // ---------------------------------------------------------------- the writer object

  /** An object just opened (it waits for its first name) and an array just opened (it waits for its first element). */
  const OPEN_OBJECT: WScope := WScope(false, false, true, false, 0, false, 0)
  const OPEN_ARRAY: WScope := WScope(false, false, false, false, 0, true, 0)

  lemma OpenScopes()
    ensures Advance(NEW_OBJECT) == OPEN_OBJECT && Advance(NEW_ARRAY) == OPEN_ARRAY
    ensures Settled(OPEN_OBJECT) && Settled(OPEN_ARRAY)
  {
  }

  /** Every write leaves every scope settled and the number of scopes unchanged. */
  lemma AfterWriteSettled(scopes: seq<WScope>)
    requires AllSettled(scopes)
    ensures |scopes| > 0 ==> Advanceable(scopes[|scopes| - 1])
    ensures |AfterWrite(scopes)| == |scopes| && AllSettled(AfterWrite(scopes))
    ensures |scopes| > 0 ==> AfterWrite(scopes)[..|scopes| - 1] == scopes[..|scopes| - 1]
  {
    if |scopes| > 0 {
      AdvanceSettles(scopes[|scopes| - 1]);
    }
  }

  /** begin_object's own line break in pretty output: before an object that is a value, or an element after the first. */
  function ObjectBreak(scopes: seq<WScope>, pretty: bool, depth: nat): seq<char>
  {
    if pretty && |scopes| > 0 && (scopes[|scopes| - 1].needValue || (scopes[|scopes| - 1].needElement && scopes[|scopes| - 1].elementCount > 0))
    then "\n" + Tabs(depth)
    else []
  }

  /** begin_array's own line break in pretty output: only before an element after the first. */
  function ArrayBreak(scopes: seq<WScope>, pretty: bool, depth: nat): seq<char>
  {
    if pretty && |scopes| > 0 && scopes[|scopes| - 1].needElement && scopes[|scopes| - 1].elementCount > 0
    then "\n" + Tabs(depth)
    else []
  }

  /** The elements of write_array after its '[': each value's text, with the element separator before all but the first. */
  function ArrayBody(texts: seq<seq<char>>, pretty: bool): seq<char>
  {
    if texts == [] then []
    else ArrayBody(texts[..|texts| - 1], pretty) + (if |texts| > 1 then (if pretty then ", " else ",") else []) + texts[|texts| - 1]
  }

  function DecimalTexts(values: seq<int>): (r: seq<seq<char>>)
    ensures |r| == |values| && forall k :: 0 <= k < |values| ==> r[k] == Decimal(values[k])
  {
    if values == [] then [] else DecimalTexts(values[..|values| - 1]) + [Decimal(values[|values| - 1])]
  }

  /** Compact write_array of plain integers: the decimal texts joined by single commas. */
  lemma {:induction false} CompactArrayBody(values: seq<int>)
    ensures ArrayBody(DecimalTexts([]), false) == []
    ensures |values| == 1 ==> ArrayBody(DecimalTexts(values), false) == Decimal(values[0])
    ensures |values| > 1 ==>
      ArrayBody(DecimalTexts(values), false) == ArrayBody(DecimalTexts(values[..|values| - 1]), false) + "," + Decimal(values[|values| - 1])
  {
    if |values| == 1 {
      assert DecimalTexts(values) == [Decimal(values[0])];
      assert ArrayBody([Decimal(values[0])], false) == ArrayBody([], false) + [] + Decimal(values[0]);
    }
    if |values| > 1 {
      var texts := DecimalTexts(values);
      assert texts[..|texts| - 1] == DecimalTexts(values[..|values| - 1]);
    }
  }

  function ElementSeparator(k: nat, pretty: bool): seq<char>
  {
    if k > 0 then (if pretty then ", " else ",") else []
  }

  /** The innermost array after k elements: its separator and how the next element advances it. */
  lemma ElementScope(prefix: seq<WScope>, k: nat, pretty: bool, depth: nat)
    ensures var sc := OPEN_ARRAY.(elementCount := k);
      && Settled(sc)
      && Separator(prefix + [sc], pretty, depth) == ElementSeparator(k, pretty)
      && AfterWrite(prefix + [sc]) == prefix + [OPEN_ARRAY.(elementCount := k + 1)]
      && (prefix + [sc])[..|prefix|] == prefix
  {
    var sc := OPEN_ARRAY.(elementCount := k);
    assert (prefix + [sc])[..|prefix|] == prefix;
  }

  lemma ArrayBodyStep(texts: seq<seq<char>>, k: nat, pretty: bool)
    requires k < |texts|
    ensures ArrayBody(texts[..k + 1], pretty) == ArrayBody(texts[..k], pretty) + ElementSeparator(k, pretty) + texts[k]
  {
    assert texts[..k + 1][..k] == texts[..k];
  }

  lemma EscapedSnoc(x: seq<char>, k: nat)
    requires k < |x|
    ensures Escaped(x[..k + 1]) == Escaped(x[..k]) + Escape(x[k])
  {
    EscapedAppend(x[..k], [x[k]]);
    assert Escaped([x[k]]) == Escape(x[k]) by { assert [x[k]][1..] == []; }
    assert x[..k + 1] == x[..k] + [x[k]];
  }

  /**
   * A JSON writer. pretty is the pretty_format flag, depth the indentation
   * level, scopes the scope stack and out everything written to the stream.
   */
  class Writer {
    const pretty: bool
    var depth: nat
    var scopes: seq<WScope>
    var out: seq<char>

    /** Between calls every scope is settled and the depth is the number of open scopes. */
    ghost predicate Valid()
      reads this
    {
      depth == |scopes| && AllSettled(scopes)
    }

    constructor (prettyFormat: bool)
      ensures Valid() && pretty == prettyFormat && depth == 0 && scopes == [] && out == []
    {
      pretty := prettyFormat;
      depth := 0;
      scopes := [];
      out := [];
    }

    method BeginWrite()
      requires |scopes| > 0 ==> Settled(scopes[|scopes| - 1])
      modifies this
      ensures scopes == old(scopes) && depth == old(depth)
      ensures out == old(out) + Separator(scopes, pretty, depth)
    {
      if |scopes| > 0 {
        var sc := scopes[|scopes| - 1];
        if sc.needElement {
          if sc.elementCount > 0 {
            out := out + (if pretty then ", " else ",");
          }
        } else if sc.needName {
          if sc.pairCount > 0 {
            out := out + (if pretty then ",\n" + Tabs(depth) else ",");
          } else if pretty {
            out := out + "\n" + Tabs(depth);
          }
        } else {
          out := out + (if pretty then " : " else ":");
        }
      }
    }

    method EndWrite()
      requires |scopes| > 0 ==> Advanceable(scopes[|scopes| - 1])
      modifies this
      ensures scopes == AfterWrite(old(scopes))
      ensures out == old(out) && depth == old(depth)
    {
      if |scopes| > 0 {
        var top := |scopes| - 1;
        scopes := scopes[..top] + [Advance(scopes[top])];
      }
    }

    /** write(bool), write(int64), write(uint64), write(double), write(const char*) and write(nullptr) share this shape. */
    method WriteText(text: seq<char>)
      requires Valid()
      modifies this
      ensures Valid() && depth == old(depth)
      ensures out == old(out) + Separator(old(scopes), pretty, depth) + text
      ensures scopes == AfterWrite(old(scopes))
    {
      BeginWrite();
      out := out + text;
      AfterWriteSettled(scopes);
      EndWrite();
    }

    method WriteBool(value: bool)
      requires Valid()
      modifies this
      ensures Valid() && depth == old(depth) && scopes == AfterWrite(old(scopes))
      ensures out == old(out) + Separator(old(scopes), pretty, depth) + BoolText(value)
    {
      WriteText(if value then "true" else "false");
    }

    method WriteInt(value: int)
      requires -TWO63 <= value < TWO63
      requires Valid()
      modifies this
      ensures Valid() && depth == old(depth) && scopes == AfterWrite(old(scopes))
      ensures out == old(out) + Separator(old(scopes), pretty, depth) + Decimal(value)
    {
      WriteText(Decimal(value));
    }

    method WriteUInt(value: nat)
      requires value < TWO64
      requires Valid()
      modifies this
      ensures Valid() && depth == old(depth) && scopes == AfterWrite(old(scopes))
      ensures out == old(out) + Separator(old(scopes), pretty, depth) + Decimal(value)
    {
      WriteText(Decimal(value));
    }

    /** render stands for sprintf with the chosen conversion. */
    method WriteDouble(value: real, render: (DoubleFormat, real) -> seq<char>)
      requires Valid()
      modifies this
      ensures Valid() && depth == old(depth) && scopes == AfterWrite(old(scopes))
      ensures out == old(out) + Separator(old(scopes), pretty, depth) + render(FormatFor(value), value)
    {
      WriteText(render(FormatFor(value), value));
    }

    method WriteNull()
      requires Valid()
      modifies this
      ensures Valid() && depth == old(depth) && scopes == AfterWrite(old(scopes))
      ensures out == old(out) + Separator(old(scopes), pretty, depth) + "null"
    {
      WriteText("null");
    }

    /** write_string: the quotes and each character, plain or escaped, one at a time. */
    method PutString(value: seq<char>)
      modifies this
      ensures out == old(out) + Quoted(value)
      ensures scopes == old(scopes) && depth == old(depth)
    {
      out := out + "\"";
      var k := 0;
      while k < |value|
        invariant 0 <= k <= |value|
        invariant out == old(out) + "\"" + Escaped(value[..k])
        invariant scopes == old(scopes) && depth == old(depth)
      {
        ghost var before := out;
        var c := value[k];
        if Plain(c) {
          out := out + [c];
        } else {
          out := out + [BACKSLASH];
          var letter := EscapeLetter(c);
          if letter.Some? {
            out := out + [letter.value];
          }
        }
        assert out == before + Escape(c);
        EscapedSnoc(value, k);
        AppendAssoc(old(out) + "\"", Escaped(value[..k]), Escape(c));
        k := k + 1;
      }
      assert value[..k] == value;
      out := out + "\"";
    }

    method WriteString(value: seq<char>)
      requires Valid()
      modifies this
      ensures Valid() && depth == old(depth) && scopes == AfterWrite(old(scopes))
      ensures out == old(out) + Separator(old(scopes), pretty, depth) + Quoted(value)
    {
      BeginWrite();
      PutString(value);
      AfterWriteSettled(scopes);
      EndWrite();
    }

    /** write_name: only where the innermost object waits for a name. */
    method WriteName(name: seq<char>)
      requires Valid() && |scopes| > 0
      requires var sc := scopes[|scopes| - 1]; sc.needName && !sc.needValue && !sc.needElement && sc.elementCount == 0
      modifies this
      ensures Valid() && depth == old(depth) && scopes == AfterWrite(old(scopes))
      ensures scopes[|scopes| - 1].needValue
      ensures out == old(out) + Separator(old(scopes), pretty, depth) + Quoted(name)
    {
      WriteString(name);
      AdvanceSettles(old(scopes)[|old(scopes)| - 1]);
    }

    /** write_namevalue of a string value. */
    method WriteNameValue(name: seq<char>, value: seq<char>)
      requires Valid() && |scopes| > 0
      requires var sc := scopes[|scopes| - 1]; sc.needName && !sc.needValue && !sc.needElement && sc.elementCount == 0
      modifies this
      ensures Valid() && depth == old(depth) && scopes == AfterWrite(AfterWrite(old(scopes)))
      ensures out == old(out) + Separator(old(scopes), pretty, depth) + Quoted(name)
        + Separator(AfterWrite(old(scopes)), pretty, depth) + Quoted(value)
    {
      WriteName(name);
      WriteString(value);
    }

    method BeginObject()
      requires Valid()
      requires |scopes| > 0 ==> scopes[|scopes| - 1].needValue || scopes[|scopes| - 1].needElement
      modifies this
      ensures Valid() && depth == old(depth) + 1 && scopes == old(scopes) + [OPEN_OBJECT]
      ensures out == old(out) + Separator(old(scopes), pretty, old(depth)) + ObjectBreak(old(scopes), pretty, old(depth)) + "{"
    {
      BeginWrite();
      out := out + ObjectBreak(scopes, pretty, depth) + "{";
      scopes := scopes + [NEW_OBJECT];
      depth := depth + 1;
      EndWrite();
      assert (old(scopes) + [NEW_OBJECT])[..|old(scopes)|] == old(scopes);
      OpenScopes();
    }

    method EndObject()
      requires Valid() && |scopes| > 0 && scopes[|scopes| - 1].needName
      modifies this
      ensures Valid() && depth == old(depth) - 1
      ensures scopes == AfterWrite(old(scopes)[..|old(scopes)| - 1])
      ensures out == old(out) + (if pretty then "\n" + Tabs(depth) else []) + "}"
    {
      depth := depth - 1;
      if pretty {
        out := out + "\n" + Tabs(depth);
      }
      out := out + "}";
      scopes := scopes[..|scopes| - 1];
      AfterWriteSettled(scopes);
      EndWrite();
    }

    method BeginArray()
      requires Valid()
      requires |scopes| > 0 ==> scopes[|scopes| - 1].needValue || scopes[|scopes| - 1].needElement
      modifies this
      ensures Valid() && depth == old(depth) + 1 && scopes == old(scopes) + [OPEN_ARRAY]
      ensures out == old(out) + Separator(old(scopes), pretty, old(depth)) + ArrayBreak(old(scopes), pretty, old(depth)) + "["
    {
      BeginWrite();
      out := out + ArrayBreak(scopes, pretty, depth);
      depth := depth + 1;
      out := out + "[";
      scopes := scopes + [NEW_ARRAY];
      EndWrite();
      assert (old(scopes) + [NEW_ARRAY])[..|old(scopes)|] == old(scopes);
      OpenScopes();
    }

    method EndArray()
      requires Valid() && |scopes| > 0 && scopes[|scopes| - 1].needElement
      modifies this
      ensures Valid() && depth == old(depth) - 1
      ensures scopes == AfterWrite(old(scopes)[..|old(scopes)| - 1])
      ensures out == old(out) + "]"
    {
      depth := depth - 1;
      out := out + "]";
      scopes := scopes[..|scopes| - 1];
      AfterWriteSettled(scopes);
      EndWrite();
    }

    /** write_array of int64 values: the elements between brackets, the enclosing scope advanced once. */
    method WriteIntArray(values: seq<int>)
      requires forall k :: 0 <= k < |values| ==> -TWO63 <= values[k] < TWO63
      requires Valid()
      requires |scopes| > 0 ==> scopes[|scopes| - 1].needValue || scopes[|scopes| - 1].needElement
      modifies this
      ensures Valid() && depth == old(depth) && scopes == AfterWrite(old(scopes))
      ensures out == old(out) + Separator(old(scopes), pretty, depth) + ArrayBreak(old(scopes), pretty, depth)
        + "[" + ArrayBody(DecimalTexts(values), pretty) + "]"
    {
      ghost var prefix := scopes;
      BeginArray();
      WriteElements(values, prefix);
      ElementScope(prefix, |values|, pretty, depth);
      EndArray();
    }

    /** One write(int64) inside an array that already holds k elements. */
    method WriteElement(value: int, k: nat, ghost prefix: seq<WScope>)
      requires -TWO63 <= value < TWO63
      requires Valid() && scopes == prefix + [OPEN_ARRAY.(elementCount := k)]
      modifies this
      ensures Valid() && depth == old(depth) && scopes == prefix + [OPEN_ARRAY.(elementCount := k + 1)]
      ensures out == old(out) + ElementSeparator(k, pretty) + Decimal(value)
    {
      ElementScope(prefix, k, pretty, depth);
      WriteInt(value);
    }

    /** The loop of write_array: one write per value inside the array just opened. */
    method WriteElements(values: seq<int>, ghost prefix: seq<WScope>)
      requires forall k :: 0 <= k < |values| ==> -TWO63 <= values[k] < TWO63
      requires Valid() && scopes == prefix + [OPEN_ARRAY]
      modifies this
      ensures Valid() && depth == old(depth) && scopes == prefix + [OPEN_ARRAY.(elementCount := |values|)]
      ensures out == old(out) + ArrayBody(DecimalTexts(values), pretty)
    {
      ghost var texts := DecimalTexts(values);
      var k := 0;
      assert OPEN_ARRAY.(elementCount := 0) == OPEN_ARRAY;
      while k < |values|
        invariant 0 <= k <= |values|
        invariant Valid() && depth == old(depth)
        invariant scopes == prefix + [OPEN_ARRAY.(elementCount := k)]
        invariant out == old(out) + ArrayBody(texts[..k], pretty)
      {
        WriteElement(values[k], k, prefix);
        ArrayBodyStep(texts, k, pretty);
        AppendAssoc3(old(out), ArrayBody(texts[..k], pretty), ElementSeparator(k, pretty), texts[k]);
        k := k + 1;
      }
      assert texts[..k] == texts;
    }
  }
}
