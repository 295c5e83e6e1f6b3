/**
 * The line checks of loadParametersButton_Click in
 * trunk/source/VisualRBM/VisualRBM/SettingsBar.cs: each line of a
 * .vrbmparameters file is trimmed; a non-blank line must split at '=' into
 * exactly two parts, whose trimmed key is one of the twelve parameter names
 * and has not been seen before. The lines are what StreamReader.ReadLine
 * returns; reading the file and the message boxes are not modelled.
 */
module ParameterDialog {
  /** char.IsWhiteSpace: the characters String.Trim removes. */
  predicate White(c: char)
  {
    '\U{9}' <= c <= '\U{D}' || c == ' ' || c == '\U{85}' || c == '\U{A0}' || c == '\U{1680}' ||
    '\U{2000}' <= c <= '\U{200A}' || c == '\U{2028}' || c == '\U{2029}' || c == '\U{202F}' || c == '\U{205F}' || c == '\U{3000}'
  }

  /** The first index at or after i that holds no white space, or |s|. */
  function Start(s: string, i: nat): (r: nat)
    requires i <= |s|
    ensures i <= r <= |s| && (r < |s| ==> !White(s[r]))
    ensures forall j :: i <= j < r ==> White(s[j])
    decreases |s| - i
  {
    if i == |s| || !White(s[i]) then i else Start(s, i + 1)
  }

  /** The end of s[..j] once trailing white space is dropped, never below lo. */
  function End(s: string, lo: nat, j: nat): (r: nat)
    requires lo <= j <= |s|
    ensures lo <= r <= j && (r > lo ==> !White(s[r - 1]))
    ensures forall k :: r <= k < j ==> White(s[k])
  {
    if j == lo || !White(s[j - 1]) then j else End(s, lo, j - 1)
  }

  /** String.Trim. */
  function Trim(s: string): (r: string)
    ensures r == [] || (!White(r[0]) && !White(r[|r| - 1]))
  {
    var i := Start(s, 0);
    s[i..End(s, i, |s|)]
  }

  /** Trim only removes white space from the two ends. */
  lemma TrimParts(s: string)
    ensures exists i, j :: (0 <= i <= j <= |s| && Trim(s) == s[i..j] &&
      (forall k :: 0 <= k < i ==> White(s[k])) && (forall k :: j <= k < |s| ==> White(s[k])))
  {
    var i := Start(s, 0);
    var j := End(s, i, |s|);
    assert Trim(s) == s[i..j];
  }

  /** Trimming twice changes nothing. */
  lemma TrimTrim(s: string)
    ensures Trim(Trim(s)) == Trim(s)
  {
    var t := Trim(s);
    if t != [] {
      assert Start(t, 0) == 0;
      assert End(t, 0, |t|) == |t|;
    }
  }

  /** The number of '=' in s[..n]. */
  function EqualsTo(s: string, n: nat): (r: nat)
    requires n <= |s|
    ensures r <= n
  {
    if n == 0 then 0 else EqualsTo(s, n - 1) + (if s[n - 1] == '=' then 1 else 0)
  }

  /** The index of the first '=' in s, or |s|. */
  function FirstEquals(s: string, i: nat): (r: nat)
    requires i <= |s|
    ensures i <= r <= |s| && (r < |s| ==> s[r] == '=') && forall j :: i <= j < r ==> s[j] != '='
    decreases |s| - i
  {
    if i == |s| || s[i] == '=' then i else FirstEquals(s, i + 1)
  }

  lemma {:induction false} EqualsNone(s: string, n: nat)
    requires n <= |s| && forall j :: 0 <= j < n ==> s[j] != '='
    ensures EqualsTo(s, n) == 0
  {
    if n > 0 {
      EqualsNone(s, n - 1);
    }
  }

  /** A string with an '=' has a first one. */
  lemma FirstEqualsFound(s: string)
    requires EqualsTo(s, |s|) > 0
    ensures FirstEquals(s, 0) < |s|
  {
    if FirstEquals(s, 0) == |s| {
      EqualsNone(s, |s|);
    }
  }

  /** The twelve parameter names of valid_keys. */
  predicate ValidKey(key: string)
  {
    key == "model" || key == "visible_type" || key == "hidden_units" || key == "learning_rate" ||
    key == "momentum" || key == "l1_regularization" || key == "l2_regularization" ||
    key == "visible_dropout" || key == "hidden_dropout" || key == "minibatch_size" ||
    key == "epochs" || key == "print_interval"
  }

  /** What one line is, once trimmed: blank, not of the form key=value, or a trimmed key and value. */
  datatype Line = Blank | Malformed | Pair(key: string, value: string)

  function Classify(raw: string): (r: Line)
    ensures r.Blank? <==> Trim(raw) == ""
    ensures r.Malformed? <==> Trim(raw) != "" && EqualsTo(Trim(raw), |Trim(raw)|) != 1
  {
    var text := Trim(raw);
    if text == "" then Blank
    else if EqualsTo(text, |text|) != 1 then Malformed
    else
      FirstEqualsFound(text);
      var p := FirstEquals(text, 0);
      Pair(Trim(text[..p]), Trim(text[p + 1..]))
  }

  /** How reading the lines ends: the key/value pairs, or the first problem and its line number. */
  datatype Loaded = Entries(entries: map<string, string>) | BadLine(line: nat) | UnknownKey(key: string, line: nat) | Repeated(key: string)

  /** One pass of the read loop on line number `number`. */
  function Step(m: map<string, string>, line: Line, number: nat): Loaded
  {
    match line
    case Blank => Entries(m)
    case Malformed => BadLine(number)
    case Pair(key, value) =>
      if !ValidKey(key) then UnknownKey(key, number)
      else if key in m then Repeated(key)
      else Entries(m[key := value])
  }

  /** The classified lines. */
  function Kinds(lines: seq<string>): (r: seq<Line>)
    ensures |r| == |lines| && forall i :: 0 <= i < |lines| ==> r[i] == Classify(lines[i])
  {
    seq(|lines|, i requires 0 <= i < |lines| => Classify(lines[i]))
  }

  /** The loop over the first n lines; line numbers start at 1. */
  function LoadTo(kinds: seq<Line>, n: nat): Loaded
    requires n <= |kinds|
  {
    if n == 0 then Entries(map[])
    else match LoadTo(kinds, n - 1)
      case Entries(m) => Step(m, kinds[n - 1], n)
      case stopped => stopped
  }

  /** What reading the lines gives. */
  function Load(lines: seq<string>): Loaded
  {
    LoadTo(Kinds(lines), |lines|)
  }

  /** The body of the read loop on line i + 1: trim, split at '=', check the key and that it is new. */
  method ReadLine(m: map<string, string>, lines: seq<string>, i: nat, ghost kinds: seq<Line>) returns (r: Loaded)
    requires i < |lines| && kinds == Kinds(lines) && LoadTo(kinds, i) == Entries(m)
    ensures r == LoadTo(kinds, i + 1)
  {
    var text := Trim(lines[i]);
    if text == "" {
      return Entries(m);
    }
    if EqualsTo(text, |text|) != 1 {
      return BadLine(i + 1);
    }
    FirstEqualsFound(text);
    var p := FirstEquals(text, 0);
    var key := Trim(text[..p]);
    var value := Trim(text[p + 1..]);
    if !ValidKey(key) {
      return UnknownKey(key, i + 1);
    }
    if key in m {
      return Repeated(key);
    }
    r := Entries(m[key := value]);
  }

  /** loadParametersButton_Click's read loop, filling parameter_map. */
  method ReadParameterMap(lines: seq<string>) returns (r: Loaded)
    ensures r == Load(lines)
  {
    ghost var kinds := Kinds(lines);
    var parameterMap: map<string, string> := map[];
    for i := 0 to |lines|
      invariant LoadTo(kinds, i) == Entries(parameterMap)
    {
      r := ReadLine(parameterMap, lines, i, kinds);
      if !r.Entries? {
        StopsAfter(kinds, i + 1);
        return;
      }
      parameterMap := r.entries;
    }
    r := Entries(parameterMap);
  }

  /** Once a line has stopped the loop, later lines change nothing. */
  lemma {:induction false} StopsAfter(kinds: seq<Line>, n: nat)
    requires 0 < n <= |kinds| && !LoadTo(kinds, n).Entries?
    ensures LoadTo(kinds, |kinds|) == LoadTo(kinds, n)
    decreases |kinds| - n
  {
    if n < |kinds| {
      StopsAfter(kinds, n + 1);
    }
  }

  /** Every non-blank line of the first n is a pair with a valid key, and no key is on two lines. */
  predicate Acceptable(kinds: seq<Line>, n: nat)
    requires n <= |kinds|
  {
    (forall i :: 0 <= i < n ==> kinds[i].Blank? || (kinds[i].Pair? && ValidKey(kinds[i].key))) &&
    (forall i, j :: 0 <= i < j < n && kinds[i].Pair? && kinds[j].Pair? ==> kinds[i].key != kinds[j].key)
  }

  /** m holds exactly the pairs of the first n lines. */
  predicate Holds(kinds: seq<Line>, n: nat, m: map<string, string>)
    requires n <= |kinds|
  {
    (forall i :: 0 <= i < n && kinds[i].Pair? ==> kinds[i].key in m && m[kinds[i].key] == kinds[i].value) &&
    (forall key :: key in m ==> exists i :: 0 <= i < n && kinds[i].Pair? && kinds[i].key == key)
  }

  lemma HoldsStep(kinds: seq<Line>, n: nat, m: map<string, string>)
    requires 0 < n <= |kinds| && Acceptable(kinds, n) && Holds(kinds, n - 1, m)
    ensures Step(m, kinds[n - 1], n).Entries? && Holds(kinds, n, Step(m, kinds[n - 1], n).entries)
  {
    var c := kinds[n - 1];
    if c.Pair? {
      assert c.key !in m;
      var m2 := m[c.key := c.value];
      forall i | 0 <= i < n && kinds[i].Pair?
        ensures kinds[i].key in m2 && m2[kinds[i].key] == kinds[i].value
      {
        if i < n - 1 {
          assert kinds[i].key != c.key;
        }
      }
      forall key | key in m2
        ensures exists i :: 0 <= i < n && kinds[i].Pair? && kinds[i].key == key
      {
        if key == c.key {
          assert kinds[n - 1].key == key;
        } else {
          var i :| 0 <= i < n - 1 && kinds[i].Pair? && kinds[i].key == key;
        }
      }
    } else {
      forall key | key in m
        ensures exists i :: 0 <= i < n && kinds[i].Pair? && kinds[i].key == key
      {
        var i :| 0 <= i < n - 1 && kinds[i].Pair? && kinds[i].key == key;
      }
    }
  }

  /** A line that breaks the rules after acceptable ones stops the loop. */
  lemma StepFails(kinds: seq<Line>, n: nat, m: map<string, string>)
    requires 0 < n <= |kinds| && Acceptable(kinds, n - 1) && Holds(kinds, n - 1, m) && !Acceptable(kinds, n)
    ensures !Step(m, kinds[n - 1], n).Entries?
  {
    var c := kinds[n - 1];
    if c.Blank? || (c.Pair? && ValidKey(c.key)) {
      assert forall i :: 0 <= i < n ==> kinds[i].Blank? || (kinds[i].Pair? && ValidKey(kinds[i].key));
      var i, j :| 0 <= i < j < n && kinds[i].Pair? && kinds[j].Pair? && kinds[i].key == kinds[j].key;
      assert j == n - 1;
      assert c.key in m;
    }
  }

  /**
   * The first n lines load exactly when every non-blank one is key=value
   * with a valid key and no key repeats; the map then holds each line's
   * trimmed value under its trimmed key, and nothing else.
   */
  lemma {:induction false} LoadToMeaning(kinds: seq<Line>, n: nat)
    requires n <= |kinds|
    ensures LoadTo(kinds, n).Entries? <==> Acceptable(kinds, n)
    ensures LoadTo(kinds, n).Entries? ==> Holds(kinds, n, LoadTo(kinds, n).entries)
  {
    if n > 0 {
      LoadToMeaning(kinds, n - 1);
      var prev := LoadTo(kinds, n - 1);
      if Acceptable(kinds, n) {
        assert Acceptable(kinds, n - 1);
        HoldsStep(kinds, n, prev.entries);
      } else if prev.Entries? {
        StepFails(kinds, n, prev.entries);
      }
    }
  }

  /**
   * Each error names the line that stopped the loop, every line before which
   * was acceptable: a line without exactly one '=', a key that is not a
   * parameter name, or a key an earlier line already gave.
   */
  lemma {:induction false} LoadToErrors(kinds: seq<Line>, n: nat)
    requires n <= |kinds|
    ensures LoadTo(kinds, n).BadLine? ==> var k := LoadTo(kinds, n).line;
      1 <= k <= n && kinds[k - 1].Malformed? && Acceptable(kinds, k - 1)
    ensures LoadTo(kinds, n).UnknownKey? ==> var k := LoadTo(kinds, n).line;
      1 <= k <= n && kinds[k - 1].Pair? && kinds[k - 1].key == LoadTo(kinds, n).key && !ValidKey(kinds[k - 1].key) && Acceptable(kinds, k - 1)
    ensures LoadTo(kinds, n).Repeated? ==> exists i, j :: (0 <= i < j < n && kinds[i].Pair? && kinds[j].Pair? &&
      kinds[i].key == LoadTo(kinds, n).key && kinds[j].key == LoadTo(kinds, n).key && Acceptable(kinds, j))
  {
    if n > 0 {
      LoadToErrors(kinds, n - 1);
      LoadToMeaning(kinds, n - 1);
      var prev := LoadTo(kinds, n - 1);
      if prev.Entries? && kinds[n - 1].Pair? && LoadTo(kinds, n).Repeated? {
        var key := kinds[n - 1].key;
        assert key in prev.entries;
        var i :| 0 <= i < n - 1 && kinds[i].Pair? && kinds[i].key == key;
        assert Acceptable(kinds, n - 1);
      }
    }
  }

  /** The file's lines load exactly when they are acceptable, into the map of their pairs. */
  lemma LoadMeaning(lines: seq<string>)
    ensures Load(lines).Entries? <==> Acceptable(Kinds(lines), |lines|)
    ensures Load(lines).Entries? ==> Holds(Kinds(lines), |lines|, Load(lines).entries)
  {
    LoadToMeaning(Kinds(lines), |lines|);
  }
}
