/**
 * load_parameters of the clrbm tool (trunk/source/VisualRBM/clrbm/clrbm.cpp):
 * the parameter file is filtered character by character into lines, each
 * line is matched against the twelve "key=" prefixes, and each value is
 * parsed and range-checked, with a fixed default for every absent key.
 * Opening and reading the file is outside the model: its contents are a
 * parameter. sscanf's "%u" and "%f" are the `scan` and `scanReal`
 * parameters, and floats are exact reals.
 */
module ParameterFile {
  import opened Bytes
  import opened Wrappers
  import opened FlagTable

  /** prev_char's initial value. */
  const NUL: char := 0 as char

  /** Characters the filter never writes: blanks, carriage returns and '%'. */
  predicate Blank(c: char)
  {
    c == ' ' || c == '\t' || c == '\r' || c == '%'
  }

  /** Whether the filter writes c after the last written character prev. */
  predicate Kept(c: char, prev: char)
  {
    (c == '\n' && prev != '\n') || (!Blank(c) && c != '\n')
  }

  /** A-Z lowered, everything else unchanged. */
  function Lower(c: char): (r: char)
    ensures 'A' <= c <= 'Z' ==> r as int == c as int + 32
    ensures !('A' <= c <= 'Z') ==> r == c
  {
    if 'A' <= c <= 'Z' then (c as int + 32) as char else c
  }

  function Last(t: seq<char>): char
  {
    if t == [] then NUL else t[|t| - 1]
  }

  /** The characters the filter writes for s[..n], newlines included, in order. */
  function FilteredTo(s: seq<char>, n: nat): seq<char>
    requires n <= |s|
  {
    if n == 0 then []
    else
      var t := FilteredTo(s, n - 1);
      if Kept(s[n - 1], Last(t)) then t + [Lower(s[n - 1])] else t
  }

  function Filtered(s: seq<char>): seq<char>
  {
    FilteredTo(s, |s|)
  }

  /** What the filter's output can hold: no blank, no capital, and no two newlines in a row. */
  predicate Clean(t: seq<char>)
  {
    (forall i :: 0 <= i < |t| ==> !Blank(t[i]) && !('A' <= t[i] <= 'Z')) &&
    (forall i :: 0 < i < |t| ==> !(t[i - 1] == '\n' && t[i] == '\n'))
  }

  lemma {:induction false} FilteredToClean(s: seq<char>, n: nat)
    requires n <= |s|
    ensures Clean(FilteredTo(s, n))
  {
    if n > 0 {
      FilteredToClean(s, n - 1);
    }
  }

  lemma FilteredClean(s: seq<char>)
    ensures Clean(Filtered(s))
  {
    FilteredToClean(s, |s|);
  }

  lemma CleanPrefix(t: seq<char>, n: nat)
    requires Clean(t) && n <= |t|
    ensures Clean(t[..n])
  {
  }

  /** In clean text each character is kept after the one before it, and is its own lowering. */
  lemma CleanNext(t: seq<char>, n: nat)
    requires Clean(t) && n < |t|
    ensures Kept(t[n], Last(t[..n])) && Lower(t[n]) == t[n]
  {
    if n > 0 {
      assert Last(t[..n]) == t[n - 1];
    }
  }

  /** On clean text the filter writes every character back. */
  lemma {:induction false} CleanFixedTo(t: seq<char>, n: nat)
    requires Clean(t) && n <= |t|
    ensures FilteredTo(t, n) == t[..n]
  {
    if n > 0 {
      CleanFixedTo(t, n - 1);
      CleanNext(t, n - 1);
      assert t[..n - 1] + [t[n - 1]] == t[..n];
    }
  }

  /** The filter leaves its own output unchanged. */
  lemma CleanFixed(t: seq<char>)
    requires Clean(t)
    ensures Filtered(t) == t
  {
    CleanFixedTo(t, |t|);
    assert t[..|t|] == t;
  }

  lemma FilterIdempotent(s: seq<char>)
    ensures Filtered(Filtered(s)) == Filtered(s)
  {
    FilteredClean(s);
    CleanFixed(Filtered(s));
  }

  /** p with piece appended to its last piece. */
  function Extend(p: seq<string>, piece: string): (r: seq<string>)
    requires |p| >= 1
    ensures |r| == |p| && r[..|r| - 1] == p[..|p| - 1] && r[|r| - 1] == p[|p| - 1] + piece
  {
    p[..|p| - 1] + [p[|p| - 1] + piece]
  }

  /** The pieces after one more character: a newline starts a new piece. */
  function AddChar(p: seq<string>, c: char): (r: seq<string>)
    requires |p| >= 1
    ensures |r| >= 1
  {
    if c == '\n' then p + [""] else Extend(p, [c])
  }

  /** t[..n] cut at every newline: the pieces between them, the last one unterminated (possibly empty). */
  function PiecesTo(t: seq<char>, n: nat): (r: seq<string>)
    requires n <= |t|
    ensures |r| >= 1
  {
    if n == 0 then [""] else AddChar(PiecesTo(t, n - 1), t[n - 1])
  }

  function Pieces(t: seq<char>): (r: seq<string>)
    ensures |r| >= 1
  {
    PiecesTo(t, |t|)
  }

  lemma {:induction false} PiecesToPrefix(a: seq<char>, b: seq<char>, n: nat)
    requires n <= |a| && n <= |b| && forall i :: 0 <= i < n ==> a[i] == b[i]
    ensures PiecesTo(a, n) == PiecesTo(b, n)
  {
    if n > 0 {
      PiecesToPrefix(a, b, n - 1);
    }
  }

  lemma PiecesSnoc(t: seq<char>, c: char)
    ensures Pieces(t + [c]) == AddChar(Pieces(t), c)
  {
    PiecesToPrefix(t + [c], t, |t|);
  }

  /**
   * The lines of the file: every newline-terminated piece of the filtered
   * text, and the unterminated last piece when it is not empty.
   */
  function Lines(s: seq<char>): seq<string>
  {
    var p := Pieces(Filtered(s));
    if p[|p| - 1] == "" then p[..|p| - 1] else p
  }

  /**
   * The lines as written: the unterminated last piece is pushed only from
   * the branch for a written character at i == length - 1, so it is lost
   * when the file's last character is one the filter drops.
   */
  function LinesAsWritten(s: seq<char>): seq<string>
  {
    var p := Pieces(Filtered(s));
    p[..|p| - 1] + (if LastWritten(s) then [p[|p| - 1]] else [])
  }

  /** Whether the loop's branch for a written final character runs: the last character is kept and is not a newline. */
  predicate LastWritten(s: seq<char>)
  {
    s != [] && s[|s| - 1] != '\n' && Kept(s[|s| - 1], Last(FilteredTo(s, |s| - 1)))
  }

  /** A last line ending in a blank, with no newline after it, is dropped. */
  lemma TrailingBlankLosesLine()
    ensures LinesAsWritten("a ") == [] && Lines("a ") == ["a"]
  {
    var s := "a ";
    assert FilteredTo(s, 1) == "a";
    assert Filtered(s) == "a";
    PiecesSnoc([], 'a');
    assert [] + ['a'] == "a";
    assert Pieces("a") == ["a"];
  }

  /** A piece of text the filter could write within one line: no newline, blank or capital. */
  predicate LineText(line: string)
  {
    forall j :: 0 <= j < |line| ==> line[j] != '\n' && !Blank(line[j]) && !('A' <= line[j] <= 'Z')
  }

  /**
   * Pieces as clean text cuts into: each is line text, none but the first
   * and the last is empty, and an empty last piece after others means the
   * text ended in a newline.
   */
  predicate PieceList(p: seq<string>, endsInNewline: bool)
  {
    (forall k :: 0 <= k < |p| ==> LineText(p[k])) &&
    (forall k :: 0 < k < |p| - 1 ==> p[k] != "") &&
    (|p| > 1 && p[|p| - 1] == "" ==> endsInNewline)
  }

  predicate PiecesOk(t: seq<char>)
  {
    PieceList(Pieces(t), t != [] && t[|t| - 1] == '\n')
  }

  lemma NewPiece(p: seq<string>)
    requires |p| >= 1 && PieceList(p, false)
    ensures PieceList(p + [""], true)
  {
    var q := p + [""];
    assert forall k :: 0 <= k < |p| ==> q[k] == p[k];
  }

  lemma ExtendPiece(p: seq<string>, c: char, endsInNewline: bool)
    requires |p| >= 1 && PieceList(p, endsInNewline) && c != '\n' && !Blank(c) && !('A' <= c <= 'Z')
    ensures PieceList(Extend(p, [c]), false)
  {
    var q := Extend(p, [c]);
    assert LineText(p[|p| - 1] + [c]);
    assert forall k :: 0 <= k < |q| - 1 ==> q[k] == p[k];
  }

  lemma NewlineStep(u: seq<char>)
    requires PiecesOk(u) && Clean(u + ['\n'])
    ensures PiecesOk(u + ['\n'])
  {
    if u != [] {
      var t := u + ['\n'];
      assert t[|u| - 1] == u[|u| - 1] && t[|u|] == '\n';
    }
    PiecesSnoc(u, '\n');
    NewPiece(Pieces(u));
  }

  lemma CharStep(u: seq<char>, c: char)
    requires PiecesOk(u) && c != '\n' && !Blank(c) && !('A' <= c <= 'Z')
    ensures PiecesOk(u + [c])
  {
    PiecesSnoc(u, c);
    ExtendPiece(Pieces(u), c, u != [] && u[|u| - 1] == '\n');
  }

  lemma {:induction false} CleanPieces(t: seq<char>)
    requires Clean(t)
    ensures PiecesOk(t)
  {
    if t != [] {
      var n := |t| - 1;
      var u := t[..n];
      CleanPrefix(t, n);
      CleanPieces(u);
      assert u + [t[n]] == t;
      if t[n] == '\n' {
        NewlineStep(u);
      } else {
        CharStep(u, t[n]);
      }
    }
  }

  /**
   * Every line is lowered and free of blanks, and only the first line can
   * be empty (when the file starts with a newline): the filter never
   * writes two newlines in a row.
   */
  lemma LinesClean(s: seq<char>)
    ensures forall k :: 0 <= k < |Lines(s)| ==> LineText(Lines(s)[k])
    ensures forall k :: 0 < k < |Lines(s)| ==> Lines(s)[k] != ""
  {
    FilteredClean(s);
    CleanPieces(Filtered(s));
  }

  /** The file text for lines: each followed by a newline. */
  function Join(lines: seq<string>): seq<char>
  {
    if lines == [] then [] else Join(lines[..|lines| - 1]) + lines[|lines| - 1] + "\n"
  }

  lemma ExtendTwice(p: seq<string>, piece: string, c: char)
    requires |p| >= 1
    ensures Extend(Extend(p, piece), [c]) == Extend(p, piece + [c])
  {
    var q := Extend(p, piece);
    assert q[|q| - 1] + [c] == p[|p| - 1] + (piece + [c]);
  }

  lemma LineTextInit(line: string)
    requires LineText(line) && line != []
    ensures LineText(line[..|line| - 1]) && line[|line| - 1] != '\n'
  {
  }

  lemma ExtendStep(t: seq<char>, piece: string, c: char)
    requires c != '\n' && Pieces(t + piece) == Extend(Pieces(t), piece)
    ensures Pieces(t + (piece + [c])) == Extend(Pieces(t), piece + [c])
  {
    PiecesSnoc(t + piece, c);
    ExtendTwice(Pieces(t), piece, c);
    assert (t + piece) + [c] == t + (piece + [c]);
  }

  lemma ExtendNothing(t: seq<char>)
    ensures Pieces(t + []) == Extend(Pieces(t), [])
  {
    var p := Pieces(t);
    assert t + [] == t;
    assert p[|p| - 1] + [] == p[|p| - 1];
  }

  /** Appending one line's text (no newline) only extends the last piece. */
  lemma {:induction false} PiecesExtend(t: seq<char>, line: string)
    requires LineText(line)
    ensures Pieces(t + line) == Extend(Pieces(t), line)
    decreases |line|
  {
    if line == [] {
      ExtendNothing(t);
    } else {
      var n := |line| - 1;
      LineTextInit(line);
      PiecesExtend(t, line[..n]);
      ExtendStep(t, line[..n], line[n]);
      assert line[..n] + [line[n]] == line;
    }
  }

  lemma JoinSnoc(lines: seq<string>)
    requires lines != []
    ensures Join(lines) == Join(lines[..|lines| - 1]) + lines[|lines| - 1] + "\n"
  {
  }

  lemma CleanAppend(a: seq<char>, line: string)
    requires Clean(a) && (a != [] ==> a[|a| - 1] == '\n') && LineText(line) && line != ""
    ensures Clean(a + line + "\n")
  {
    var t := a + line + "\n";
    assert forall i :: |a| <= i < |a| + |line| ==> t[i] == line[i - |a|];
    assert t[|t| - 1] == '\n' && t[|t| - 2] != '\n';
  }

  /** Lines that are each non-empty line text join into clean text ending in a newline. */
  lemma {:induction false} JoinClean(lines: seq<string>)
    requires forall k :: 0 <= k < |lines| ==> LineText(lines[k]) && lines[k] != ""
    ensures Clean(Join(lines))
    ensures lines != [] ==> Join(lines)[|Join(lines)| - 1] == '\n'
  {
    if lines != [] {
      var n := |lines| - 1;
      JoinClean(lines[..n]);
      JoinSnoc(lines);
      CleanAppend(Join(lines[..n]), lines[n]);
    }
  }

  /** Lines that are each non-empty line text come back from their joined text, in order. */
  lemma {:induction false} JoinPieces(lines: seq<string>)
    requires forall k :: 0 <= k < |lines| ==> LineText(lines[k]) && lines[k] != ""
    ensures Pieces(Join(lines)) == lines + [""]
  {
    if lines != [] {
      var n := |lines| - 1;
      var line := lines[n];
      var before := Join(lines[..n]);
      JoinPieces(lines[..n]);
      JoinSnoc(lines);
      var p := Pieces(before);
      assert p == lines[..n] + [""];
      PiecesExtend(before, line);
      var q := Pieces(before + line);
      assert q == lines[..n] + [line] by {
        assert q[..n] == p[..n] == lines[..n];
        assert q[n] == p[n] + line == line;
      }
      PiecesSnoc(before + line, '\n');
      assert Join(lines) == (before + line) + ['\n'];
      assert lines[..n] + [line] == lines;
    }
  }

  lemma JoinedLines(lines: seq<string>)
    requires forall k :: 0 <= k < |lines| ==> LineText(lines[k]) && lines[k] != ""
    ensures Lines(Join(lines)) == lines
    ensures LinesAsWritten(Join(lines)) == lines
  {
    JoinPieces(lines);
    JoinClean(lines);
    CleanFixed(Join(lines));
    assert (lines + [""])[..|lines|] == lines;
    if lines != [] {
      assert Join(lines)[|Join(lines)| - 1] == '\n';
    }
  }

  /** The line-splitting loop, with the unterminated last line kept whatever the file's last character. */
  method SplitLines(contents: seq<char>) returns (lines: seq<string>)
    ensures lines == Lines(contents)
  {
    lines := [];
    var line: string := [];
    var prev := NUL;
    for i := 0 to |contents|
      invariant Pieces(FilteredTo(contents, i)) == lines + [line]
      invariant prev == Last(FilteredTo(contents, i))
    {
      var c := contents[i];
      if Kept(c, prev) {
        c := Lower(c);
        PiecesSnoc(FilteredTo(contents, i), c);
        prev := c;
        if c == '\n' {
          lines := lines + [line];
          line := [];
        } else {
          line := line + [c];
        }
      }
    }
    if line != [] {
      lines := lines + [line];
    }
  }

  /** One character of the filter, and whether it is the written final character of the file. */
  lemma FilterStep(contents: seq<char>, i: nat)
    requires i < |contents|
    ensures var t := FilteredTo(contents, i);
      FilteredTo(contents, i + 1) == if Kept(contents[i], Last(t)) then t + [Lower(contents[i])] else t
    ensures i + 1 == |contents| ==>
      (LastWritten(contents) <==> contents[i] != '\n' && Kept(contents[i], Last(FilteredTo(contents, i))))
    ensures Lower(contents[i]) == '\n' <==> contents[i] == '\n'
  {
  }

  /**
   * The line-splitting loop as written: the unterminated last line is pushed
   * only from the branch for a character kept at i == length - 1.
   */
  method SplitLinesAsWritten(contents: seq<char>) returns (lines: seq<string>)
    ensures lines == LinesAsWritten(contents)
  {
    lines := [];
    var line: string := [];
    var prev := NUL;
    ghost var done: seq<string> := [];
    ghost var ended := false;
    for i := 0 to |contents|
      invariant Pieces(FilteredTo(contents, i)) == done + [line]
      invariant prev == Last(FilteredTo(contents, i))
      invariant !ended ==> lines == done
      invariant ended ==> lines == done + [line]
      invariant ended ==> i == |contents| && LastWritten(contents)
      invariant i == |contents| && LastWritten(contents) ==> ended
    {
      var c := contents[i];
      FilterStep(contents, i);
      if Kept(c, prev) {
        c := Lower(c);
        PiecesSnoc(FilteredTo(contents, i), c);
        prev := c;
        if c == '\n' {
          lines := lines + [line];
          done := done + [line];
          line := [];
        } else if i == |contents| - 1 {
          line := line + [c];
          lines := lines + [line];
          ended := true;
        } else {
          line := line + [c];
        }
      }
    }
    assert (done + [line])[..|done|] == done;
  }

  const MODEL: nat := 0
  const VISIBLE_TYPE: nat := 1
  const HIDDEN_UNITS: nat := 2
  const LEARNING_RATE: nat := 3
  const MOMENTUM: nat := 4
  const L1_REGULARIZATION: nat := 5
  const L2_REGULARIZATION: nat := 6
  const VISIBLE_DROPOUT: nat := 7
  const HIDDEN_DROPOUT: nat := 8
  const MINIBATCH_SIZE: nat := 9
  const EPOCHS: nat := 10
  const PRINT_INTERVAL: nat := 11
  const KEY_COUNT: nat := 12

  /** The params table, in the order of the parameter enumeration. */
  function Key(k: nat): string
    requires k < KEY_COUNT
  {
    match k
    case 0 => "model="
    case 1 => "visible_type="
    case 2 => "hidden_units="
    case 3 => "learning_rate="
    case 4 => "momentum="
    case 5 => "l1_regularization="
    case 6 => "l2_regularization="
    case 7 => "visible_dropout="
    case 8 => "hidden_dropout="
    case 9 => "minibatch_size="
    case 10 => "epochs="
    case _ => "print_interval="
  }

  /** The param_defaults table: what -defaults writes after each key. */
  function DefaultText(k: nat): string
    requires k < KEY_COUNT
  {
    match k
    case 0 => "rbm"
    case 1 => "binary"
    case 2 => "100"
    case 3 => "0.001"
    case 4 => "0.5"
    case 5 => "0.0"
    case 6 => "0.0"
    case 7 => "0.0"
    case 8 => "0.5"
    case 9 => "10"
    case 10 => "100"
    case _ => "100"
  }

  function Keys(): (r: seq<string>)
    ensures |r| == KEY_COUNT && forall k :: 0 <= k < KEY_COUNT ==> r[k] == Key(k)
  {
    seq(KEY_COUNT, k requires 0 <= k < KEY_COUNT => Key(k))
  }

  /**
   * Which key s can begin with, read from a few letters: the keys differ in
   * the first letter, or for keys sharing it, in the letter read next.
   * KEY_COUNT when s begins with no key's letters.
   */
  function KeyIndex(s: string): (k: nat)
    ensures k <= KEY_COUNT
  {
    if |s| < 3 then KEY_COUNT
    else if s[0] == 'm' then (if s[1] == 'o' then (if s[2] == 'd' then MODEL else MOMENTUM) else MINIBATCH_SIZE)
    else if s[0] == 'v' then (if |s| > 8 && s[8] == 't' then VISIBLE_TYPE else VISIBLE_DROPOUT)
    else if s[0] == 'h' then (if |s| > 7 && s[7] == 'u' then HIDDEN_UNITS else HIDDEN_DROPOUT)
    else if s[0] == 'l' then (if s[1] == 'e' then LEARNING_RATE else if s[1] == '1' then L1_REGULARIZATION else L2_REGULARIZATION)
    else if s[0] == 'e' then EPOCHS
    else if s[0] == 'p' then PRINT_INTERVAL
    else KEY_COUNT
  }

  /** Whatever follows a key, the letters read name that key. */
  lemma KeyIndexOfPrefix(k: nat, s: string)
    requires k < KEY_COUNT && Key(k) <= s
    ensures KeyIndex(s) == k
  {
    var key := Key(k);
    assert s[0] == key[0] && s[1] == key[1] && s[2] == key[2];
    if k == 1 || k == 7 {
      assert s[8] == key[8];
    } else if k == 2 || k == 8 {
      assert s[7] == key[7];
    }
  }

  /** No key begins another, so each line matches at most one key. */
  lemma KeysPrefixFree()
    ensures PrefixFree(Keys())
  {
    forall i, j | 0 <= i < KEY_COUNT && 0 <= j < KEY_COUNT && i != j
      ensures !(Keys()[i] <= Keys()[j])
    {
      if Key(i) <= Key(j) {
        KeyIndexOfPrefix(i, Key(j));
        KeyIndexOfPrefix(j, Key(j));
      }
    }
  }

  /**
   * The "find the values" loop, which tries every key on every line without
   * stopping at a match; since no key begins another it finds what the
   * first-match scan finds.
   */
  method CollectKeys(lines: seq<string>) returns (r: Collected)
    ensures r == Collect(Keys(), false, lines)
  {
    KeysPrefixFree();
    var keys := Keys();
    var values := NoValues(KEY_COUNT);
    for l := 0 to |lines|
      invariant Collect(keys, false, lines[..l]) == Values(values)
    {
      CollectSnoc(keys, false, lines, l);
      var line := lines[l];
      var before := values;
      var match_ := FlagOf(keys, line);
      FlagOfFirst(keys, line);
      for i := 0 to KEY_COUNT
        invariant match_.None? || match_.value >= i ==> values == before
        invariant match_.Some? && match_.value < i ==>
          before[match_.value].None? && values == before[match_.value := Some(Suffix(keys, line))]
      {
        if keys[i] <= line {
          OnlyMatch(keys, line, i);
          assert match_ == Some(i) && values == before;
          if values[i].None? {
            values := values[i := Some(line[|keys[i]|..])];
          } else {
            r := DuplicateFlag(i);
            StopsAt(keys, false, lines, l + 1);
            return;
          }
        }
      }
    }
    assert lines[..|lines|] == lines;
    r := Values(values);
  }

  datatype UnitType = Binary | Gaussian

  /** The parameters struct; the model is always an RBM, the only value accepted. */
  datatype Parameters = Parameters(
    visibleType: UnitType, hiddenUnits: u32, learningRate: real, momentum: real,
    l1Regularization: real, l2Regularization: real, visibleDropout: real, hiddenDropout: real,
    minibatchSize: u32, epochs: u32, printInterval: u32)

  /** The constraint each real parameter's value must meet. */
  datatype Range = Positive | UnitInterval | NonNegative | Probability

  predicate Within(x: real, range: Range)
  {
    match range
    case Positive => x > 0.0
    case UnitInterval => 0.0 <= x <= 1.0
    case NonNegative => x >= 0.0
    case Probability => 0.0 <= x < 1.0
  }

  /** A "%u" parameter: the default when absent, otherwise its value, which must be positive. */
  function Count(value: Option<string>, default: u32, scan: string -> Option<u32>): (r: Option<u32>)
    ensures value.None? ==> r == Some(default)
    ensures value.Some? ==> (r.Some? <==> scan(value.value).Some? && scan(value.value).value > 0)
    ensures value.Some? && r.Some? ==> r == scan(value.value)
  {
    if value.None? then Some(default)
    else if scan(value.value).Some? && scan(value.value).value > 0 then scan(value.value)
    else None
  }

  /** A "%f" parameter: the default when absent, otherwise its value, which must be within range. */
  function Real(value: Option<string>, default: real, range: Range, scanReal: string -> Option<real>): (r: Option<real>)
    ensures value.None? ==> r == Some(default)
    ensures value.Some? ==> (r.Some? <==> scanReal(value.value).Some? && Within(scanReal(value.value).value, range))
    ensures value.Some? && r.Some? ==> r == scanReal(value.value)
  {
    if value.None? then Some(default)
    else if scanReal(value.value).Some? && Within(scanReal(value.value).value, range) then scanReal(value.value)
    else None
  }

  /** visible_type: binary (the default) or gaussian. */
  function Visible(value: Option<string>): (r: Option<UnitType>)
    ensures r.Some? <==> value.None? || value.value == "binary" || value.value == "gaussian"
    ensures r == Some(Gaussian) <==> value == Some("gaussian")
  {
    if value.None? || value.value == "binary" then Some(Binary)
    else if value.value == "gaussian" then Some(Gaussian)
    else None
  }

  /** The "parse the values" block on the values found for the twelve keys. */
  function Settle(v: seq<Option<string>>, scan: string -> Option<u32>, scanReal: string -> Option<real>): (r: Option<Parameters>)
    requires |v| == KEY_COUNT
    ensures r.Some? <==>
      (v[MODEL].None? || v[MODEL].value == "rbm") && Visible(v[VISIBLE_TYPE]).Some? &&
      Count(v[HIDDEN_UNITS], 100, scan).Some? &&
      Real(v[LEARNING_RATE], 0.001, Positive, scanReal).Some? &&
      Real(v[MOMENTUM], 0.5, UnitInterval, scanReal).Some? &&
      Real(v[L1_REGULARIZATION], 0.0, NonNegative, scanReal).Some? &&
      Real(v[L2_REGULARIZATION], 0.0, NonNegative, scanReal).Some? &&
      Real(v[VISIBLE_DROPOUT], 0.0, Probability, scanReal).Some? &&
      Real(v[HIDDEN_DROPOUT], 0.5, Probability, scanReal).Some? &&
      Count(v[MINIBATCH_SIZE], 10, scan).Some? &&
      Count(v[EPOCHS], 100, scan).Some? &&
      Count(v[PRINT_INTERVAL], 500, scan).Some?
    ensures r.Some? ==> var q := r.value;
      q.hiddenUnits > 0 && q.learningRate > 0.0 && 0.0 <= q.momentum <= 1.0 &&
      q.l1Regularization >= 0.0 && q.l2Regularization >= 0.0 &&
      0.0 <= q.visibleDropout < 1.0 && 0.0 <= q.hiddenDropout < 1.0 &&
      q.minibatchSize > 0 && q.epochs > 0 && q.printInterval > 0
  {
    var visible := Visible(v[VISIBLE_TYPE]);
    var hidden := Count(v[HIDDEN_UNITS], 100, scan);
    var rate := Real(v[LEARNING_RATE], 0.001, Positive, scanReal);
    var momentum := Real(v[MOMENTUM], 0.5, UnitInterval, scanReal);
    var l1 := Real(v[L1_REGULARIZATION], 0.0, NonNegative, scanReal);
    var l2 := Real(v[L2_REGULARIZATION], 0.0, NonNegative, scanReal);
    var visibleDropout := Real(v[VISIBLE_DROPOUT], 0.0, Probability, scanReal);
    var hiddenDropout := Real(v[HIDDEN_DROPOUT], 0.5, Probability, scanReal);
    var minibatch := Count(v[MINIBATCH_SIZE], 10, scan);
    var epochs := Count(v[EPOCHS], 100, scan);
    var interval := Count(v[PRINT_INTERVAL], 500, scan);
    if (v[MODEL].Some? && v[MODEL].value != "rbm") || visible.None? || hidden.None? || rate.None? || momentum.None? ||
       l1.None? || l2.None? || visibleDropout.None? || hiddenDropout.None? ||
       minibatch.None? || epochs.None? || interval.None?
    then None
    else Some(Parameters(visible.value, hidden.value, rate.value, momentum.value, l1.value, l2.value,
      visibleDropout.value, hiddenDropout.value, minibatch.value, epochs.value, interval.value))
  }

  /** What an empty parameter file gives: every default, with a print interval of 500. */
  const DEFAULTS: Parameters := Parameters(Binary, 100, 0.001, 0.5, 0.0, 0.0, 0.0, 0.5, 10, 100, 500)

  lemma NothingGivenDefaults(scan: string -> Option<u32>, scanReal: string -> Option<real>)
    ensures Settle(NoValues(KEY_COUNT), scan, scanReal) == Some(DEFAULTS)
  {
  }

  /** The lines load_parameters reads: as written, or with the unterminated last line kept. */
  function FileLines(s: seq<char>, corrected: bool): seq<string>
  {
    if corrected then Lines(s) else LinesAsWritten(s)
  }

  /**
   * load_parameters on the file's contents (None: the file does not open),
   * reading the lines as written or corrected.
   */
  function FileParameters(contents: Option<seq<char>>, scan: string -> Option<u32>, scanReal: string -> Option<real>,
                          corrected: bool): Option<Parameters>
  {
    if contents.None? then None
    else match Collect(Keys(), false, FileLines(contents.value, corrected))
      case Values(v) => Settle(v, scan, scanReal)
      case _ => None
  }

  method LoadParameters(contents: Option<seq<char>>, scan: string -> Option<u32>, scanReal: string -> Option<real>,
                        corrected: bool)
    returns (r: Option<Parameters>)
    ensures r == FileParameters(contents, scan, scanReal, corrected)
  {
    if contents.None? {
      return None;
    }
    var lines;
    if corrected {
      lines := SplitLines(contents.value);
    } else {
      lines := SplitLinesAsWritten(contents.value);
    }
    var collected := CollectKeys(lines);
    if !collected.Values? {
      return None;
    }
    r := Settle(collected.values, scan, scanReal);
  }

  /**
   * A key on two lines makes the file fail to load, and otherwise each
   * key's value is the rest of the line that carries it.
   */
  lemma DuplicateKeyRefused(contents: seq<char>, i: nat, j: nat, scan: string -> Option<u32>, scanReal: string -> Option<real>,
                            corrected: bool)
    requires var lines := FileLines(contents, corrected);
      i < j < |lines| && FlagOf(Keys(), lines[i]).Some? && FlagOf(Keys(), lines[i]) == FlagOf(Keys(), lines[j])
    ensures FileParameters(Some(contents), scan, scanReal, corrected).None?
  {
    CollectValues(Keys(), false, FileLines(contents, corrected));
  }

  /** The line -defaults writes for key k. */
  function DefaultLine(k: nat): string
    requires k < KEY_COUNT
  {
    Key(k) + DefaultText(k)
  }

  /** The lines -defaults writes, one per key in table order. */
  function DefaultLines(): (r: seq<string>)
    ensures |r| == KEY_COUNT && forall k :: 0 <= k < KEY_COUNT ==> r[k] == DefaultLine(k)
  {
    seq(KEY_COUNT, k requires 0 <= k < KEY_COUNT => DefaultLine(k))
  }

  /** Every key set to its param_defaults text. */
  function DefaultValues(): (r: seq<Option<string>>)
    ensures |r| == KEY_COUNT && forall k :: 0 <= k < KEY_COUNT ==> r[k] == Some(DefaultText(k))
  {
    seq(KEY_COUNT, k requires 0 <= k < KEY_COUNT => Some(DefaultText(k)))
  }

  function DefaultsFile(): seq<char>
  {
    Join(DefaultLines())
  }

  lemma LineTextConcat(a: string, b: string)
    requires LineText(a) && LineText(b)
    ensures LineText(a + b)
  {
    assert forall j :: |a| <= j < |a + b| ==> (a + b)[j] == b[j - |a|];
  }

  /** The characters the keys and the default values are written with. */
  predicate Plain(c: char)
  {
    'a' <= c <= 'z' || '0' <= c <= '9' || c == '_' || c == '=' || c == '.'
  }

  lemma PlainLine(s: string)
    requires forall j :: 0 <= j < |s| ==> Plain(s[j])
    ensures LineText(s)
  {
  }

  lemma KeyText(k: nat)
    requires k < KEY_COUNT
    ensures LineText(Key(k)) && |Key(k)| >= 1
  {
    match k
    case 0 => PlainLine("model=");
    case 1 => PlainLine("visible_type=");
    case 2 => PlainLine("hidden_units=");
    case 3 => PlainLine("learning_rate=");
    case 4 => PlainLine("momentum=");
    case 5 => PlainLine("l1_regularization=");
    case 6 => PlainLine("l2_regularization=");
    case 7 => PlainLine("visible_dropout=");
    case 8 => PlainLine("hidden_dropout=");
    case 9 => PlainLine("minibatch_size=");
    case 10 => PlainLine("epochs=");
    case _ => PlainLine("print_interval=");
  }

  lemma DefaultTextText(k: nat)
    requires k < KEY_COUNT
    ensures LineText(DefaultText(k))
  {
  }

  lemma DefaultLineText(k: nat)
    requires k < KEY_COUNT
    ensures LineText(DefaultLine(k)) && DefaultLine(k) != ""
  {
    KeyText(k);
    DefaultTextText(k);
    LineTextConcat(Key(k), DefaultText(k));
  }

  /** Each default line selects its own key, and its value is the default text. */
  lemma DefaultLineKey(k: nat)
    requires k < KEY_COUNT
    ensures FlagOf(Keys(), DefaultLine(k)) == Some(k) && Suffix(Keys(), DefaultLine(k)) == DefaultText(k)
  {
    KeysPrefixFree();
    assert Keys()[k] == Key(k);
    assert Key(k) <= DefaultLine(k);
    OnlyMatch(Keys(), DefaultLine(k), k);
    assert DefaultLine(k)[|Key(k)|..] == DefaultText(k);
  }

  /** The file -defaults writes has the default lines as its lines. */
  lemma DefaultsFileLines()
    ensures Lines(DefaultsFile()) == DefaultLines() && LinesAsWritten(DefaultsFile()) == DefaultLines()
  {
    var lines := DefaultLines();
    forall k | 0 <= k < KEY_COUNT
      ensures LineText(lines[k]) && lines[k] != ""
    {
      DefaultLineText(k);
    }
    JoinedLines(lines);
  }

  lemma DefaultLinesKeys(lines: seq<string>)
    requires lines == DefaultLines()
    ensures forall k :: 0 <= k < |lines| ==> FlagOf(Keys(), lines[k]) == Some(k) && Suffix(Keys(), lines[k]) == DefaultText(k)
  {
    forall k | 0 <= k < |lines|
      ensures FlagOf(Keys(), lines[k]) == Some(k) && Suffix(Keys(), lines[k]) == DefaultText(k)
    {
      DefaultLineKey(k);
    }
  }

  /** The default lines load every key with its default text. */
  lemma DefaultLinesLoad(lines: seq<string>)
    requires lines == DefaultLines()
    ensures Collect(Keys(), false, lines) == Values(DefaultValues())
  {
    DefaultLinesKeys(lines);
    EachFlagOnce(Keys(), false, lines);
    var v := Collect(Keys(), false, lines).values;
    var d := DefaultValues();
    forall k | 0 <= k < KEY_COUNT
      ensures v[k] == d[k]
    {
      assert v[k] == Some(Suffix(Keys(), lines[k]));
    }
    SameValues(v, d);
  }

  lemma SameValues(v: seq<Option<string>>, d: seq<Option<string>>)
    requires |v| == |d| && forall k :: 0 <= k < |d| ==> v[k] == d[k]
    ensures v == d
  {
  }

  /** The file -defaults writes loads back with every key set to its param_defaults text. */
  lemma DefaultsReload(corrected: bool)
    ensures Collect(Keys(), false, FileLines(DefaultsFile(), corrected)) == Values(DefaultValues())
  {
    DefaultsFileLines();
    DefaultLinesLoad(Lines(DefaultsFile()));
  }
}
