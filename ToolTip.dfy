/**
 * SetToolTip of trunk/source/VisualRBM/VisualRBM/SettingsBar.cs: the text is
 * split at spaces, tabs, newlines and carriage returns, and the tokens are
 * written back each followed by a space, on lines of about 50 characters.
 * The ToolTip control it is then attached to is not modelled.
 */
module ToolTip {
  const LINE_LENGTH: nat := 50

  /** The characters the text is split at. */
  predicate Separator(c: char)
  {
    c == ' ' || c == '\t' || c == '\n' || c == '\r'
  }

  function Last<T>(s: seq<T>): T
    requires s != []
  {
    s[|s| - 1]
  }

  /** The pieces String.Split cuts s[..n] into: one more than the separators, empty ones included. */
  function TokensTo(s: string, n: nat): (r: seq<string>)
    requires n <= |s|
    ensures |r| >= 1
  {
    if n == 0 then [""]
    else
      var t := TokensTo(s, n - 1);
      if Separator(s[n - 1]) then t + [""] else t[|t| - 1 := Last(t) + [s[n - 1]]]
  }

  function Tokens(s: string): seq<string>
  {
    TokensTo(s, |s|)
  }

  /** s[..n] without its separators. */
  function StripTo(s: string, n: nat): string
    requires n <= |s|
  {
    if n == 0 then [] else StripTo(s, n - 1) + (if Separator(s[n - 1]) then [] else [s[n - 1]])
  }

  /** The first n strings of t, one after the other. */
  function ConcatTo(t: seq<string>, n: nat): string
    requires n <= |t|
  {
    if n == 0 then [] else ConcatTo(t, n - 1) + t[n - 1]
  }

  lemma {:induction false} ConcatToPrefix(t: seq<string>, u: seq<string>, n: nat)
    requires n <= |t| && n <= |u| && forall i :: 0 <= i < n ==> t[i] == u[i]
    ensures ConcatTo(t, n) == ConcatTo(u, n)
  {
    if n > 0 {
      ConcatToPrefix(t, u, n - 1);
    }
  }

  predicate NoSeparator(t: string)
  {
    forall j :: 0 <= j < |t| ==> !Separator(t[j])
  }

  /** A separator closes the last token and opens an empty one. */
  lemma SeparatorStep(t: seq<string>)
    requires t != []
    ensures ConcatTo(t + [""], |t| + 1) == ConcatTo(t, |t|)
  {
    ConcatToPrefix(t + [""], t, |t|);
  }

  /** Any other character extends the last token. */
  lemma CharStep(t: seq<string>, r: seq<string>, c: char)
    requires t != [] && |r| == |t| && r[|t| - 1] == Last(t) + [c]
    requires forall i :: 0 <= i < |t| - 1 ==> r[i] == t[i]
    ensures ConcatTo(r, |t|) == ConcatTo(t, |t|) + [c]
  {
    var n := |t|;
    ConcatToPrefix(r, t, n - 1);
    var a, b := ConcatTo(t, n - 1), Last(t);
    assert ConcatTo(r, n) == a + (b + [c]);
    assert a + (b + [c]) == (a + b) + [c];
  }

  /** The tokens hold no separator, and between them they hold every other character of s, in order. */
  lemma {:induction false} TokensContent(s: string, n: nat)
    requires n <= |s|
    ensures ConcatTo(TokensTo(s, n), |TokensTo(s, n)|) == StripTo(s, n)
    ensures forall i :: 0 <= i < |TokensTo(s, n)| ==> NoSeparator(TokensTo(s, n)[i])
  {
    if n > 0 {
      TokensContent(s, n - 1);
      var t := TokensTo(s, n - 1);
      if Separator(s[n - 1]) {
        SeparatorStep(t);
      } else {
        CharStep(t, TokensTo(s, n), s[n - 1]);
      }
    }
  }

  /** A line of the tooltip as written: its first n tokens, each followed by a space. */
  function SpacedTo(g: seq<string>, n: nat): string
    requires n <= |g|
  {
    if n == 0 then [] else SpacedTo(g, n - 1) + g[n - 1] + " "
  }

  function Spaced(g: seq<string>): string
  {
    SpacedTo(g, |g|)
  }

  lemma {:induction false} SpacedToPrefix(g: seq<string>, h: seq<string>, n: nat)
    requires n <= |g| && n <= |h| && forall i :: 0 <= i < n ==> g[i] == h[i]
    ensures SpacedTo(g, n) == SpacedTo(h, n)
  {
    if n > 0 {
      SpacedToPrefix(g, h, n - 1);
    }
  }

  lemma SpacedSnoc(g: seq<string>, t: string)
    ensures Spaced(g + [t]) == Spaced(g) + t + " "
  {
    SpacedToPrefix(g + [t], g, |g|);
  }

  lemma SpacedOne(t: string)
    ensures Spaced([t]) == t + " "
  {
    SpacedSnoc([], t);
    assert [] + [t] == [t];
  }

  /** Where a token goes: on a new line when it would take the current one past 50 characters. */
  function Place(lines: seq<seq<string>>, t: string): (r: seq<seq<string>>)
    requires lines != []
  {
    if |Spaced(Last(lines))| + |t| > LINE_LENGTH then lines + [[t]]
    else lines[|lines| - 1 := Last(lines) + [t]]
  }

  function LinesTo(tokens: seq<string>, k: nat): (r: seq<seq<string>>)
    requires k <= |tokens|
    ensures r != []
  {
    if k == 0 then [[]] else Place(LinesTo(tokens, k - 1), tokens[k - 1])
  }

  /** The lines the tokens are laid out on. */
  function Wrapped(tokens: seq<string>): seq<seq<string>>
  {
    LinesTo(tokens, |tokens|)
  }

  /** The text of the first n lines, joined by newlines. */
  function RenderTo(lines: seq<seq<string>>, n: nat): string
    requires 1 <= n <= |lines|
  {
    if n == 1 then Spaced(lines[0]) else RenderTo(lines, n - 1) + "\n" + Spaced(lines[n - 1])
  }

  function Render(lines: seq<seq<string>>): string
    requires lines != []
  {
    RenderTo(lines, |lines|)
  }

  lemma {:induction false} RenderToPrefix(a: seq<seq<string>>, b: seq<seq<string>>, n: nat)
    requires 1 <= n <= |a| && n <= |b| && forall i :: 0 <= i < n ==> a[i] == b[i]
    ensures RenderTo(a, n) == RenderTo(b, n)
  {
    if n > 1 {
      RenderToPrefix(a, b, n - 1);
    }
  }

  /** Placing a token writes a newline when the line is full, then the token and a space. */
  lemma RenderPlace(lines: seq<seq<string>>, t: string)
    requires lines != []
    ensures var wrap := |Spaced(Last(lines))| + |t| > LINE_LENGTH;
      Render(Place(lines, t)) == Render(lines) + (if wrap then "\n" else "") + t + " "
  {
    var n := |lines|;
    var p := Place(lines, t);
    SpacedSnoc(Last(lines), t);
    SpacedOne(t);
    if |Spaced(Last(lines))| + |t| > LINE_LENGTH {
      RenderToPrefix(p, lines, n);
      assert Render(p) == RenderTo(p, n) + "\n" + Spaced([t]);
    } else if n > 1 {
      RenderToPrefix(p, lines, n - 1);
      assert Render(p) == RenderTo(p, n - 1) + "\n" + Spaced(Last(lines) + [t]);
    }
  }

  /**
   * SetToolTip's loop: each token is written followed by a space, after a
   * newline when the current line length plus the token's would pass 50.
   */
  method WrapTokens(tokens: seq<string>) returns (text: string)
    ensures text == Render(Wrapped(tokens))
  {
    text := "";
    var current := 0;
    for k := 0 to |tokens|
      invariant text == Render(LinesTo(tokens, k)) && current == |Spaced(Last(LinesTo(tokens, k)))|
    {
      var lines := LinesTo(tokens, k);
      RenderPlace(lines, tokens[k]);
      SpacedSnoc(Last(lines), tokens[k]);
      SpacedOne(tokens[k]);
      if current + |tokens[k]| > LINE_LENGTH {
        text := text + "\n";
        current := 0;
      }
      text := text + tokens[k] + " ";
      current := current + |tokens[k]| + 1;
    }
  }

  /** The tooltip text SetToolTip builds from s. */
  method ToolTipText(s: string) returns (text: string)
    ensures text == Render(Wrapped(Tokens(s)))
  {
    text := WrapTokens(Tokens(s));
  }

  /** The tokens on the first n lines, in order. */
  function FlattenTo(lines: seq<seq<string>>, n: nat): seq<string>
    requires n <= |lines|
  {
    if n == 0 then [] else FlattenTo(lines, n - 1) + lines[n - 1]
  }

  lemma {:induction false} FlattenToPrefix(a: seq<seq<string>>, b: seq<seq<string>>, n: nat)
    requires n <= |a| && n <= |b| && forall i :: 0 <= i < n ==> a[i] == b[i]
    ensures FlattenTo(a, n) == FlattenTo(b, n)
  {
    if n > 0 {
      FlattenToPrefix(a, b, n - 1);
    }
  }

  /**
   * What the wrapping keeps: every line after the first begins with a token
   * that did not fit on the line before it, and a line of two or more
   * tokens is at most 51 characters long (50 and the trailing space).
   */
  predicate WellWrapped(lines: seq<seq<string>>)
  {
    lines != [] &&
    (forall i :: 0 < i < |lines| ==> lines[i] != [] && |Spaced(lines[i - 1])| + |lines[i][0]| > LINE_LENGTH) &&
    (forall i :: 0 <= i < |lines| && |lines[i]| >= 2 ==> |Spaced(lines[i])| <= LINE_LENGTH + 1)
  }

  lemma PlaceFlatten(lines: seq<seq<string>>, t: string)
    requires lines != []
    ensures FlattenTo(Place(lines, t), |Place(lines, t)|) == FlattenTo(lines, |lines|) + [t]
  {
    var n := |lines|;
    var p := Place(lines, t);
    if |Spaced(Last(lines))| + |t| > LINE_LENGTH {
      FlattenToPrefix(p, lines, n);
    } else {
      FlattenToPrefix(p, lines, n - 1);
    }
  }

  lemma PlaceWellWrapped(lines: seq<seq<string>>, t: string)
    requires WellWrapped(lines)
    ensures WellWrapped(Place(lines, t))
  {
    var n := |lines|;
    var p := Place(lines, t);
    SpacedSnoc(Last(lines), t);
    SpacedOne(t);
    if |Spaced(Last(lines))| + |t| <= LINE_LENGTH {
      assert forall i :: 0 <= i < n - 1 ==> p[i] == lines[i];
      assert n - 1 > 0 ==> p[n - 1][0] == lines[n - 1][0];
    }
  }

  /** The wrapped lines hold the tokens in order, and the layout is greedy and within the width. */
  lemma {:induction false} WrappedLines(tokens: seq<string>, k: nat)
    requires k <= |tokens|
    ensures WellWrapped(LinesTo(tokens, k))
    ensures FlattenTo(LinesTo(tokens, k), |LinesTo(tokens, k)|) == tokens[..k]
  {
    if k > 0 {
      WrappedLines(tokens, k - 1);
      PlaceWellWrapped(LinesTo(tokens, k - 1), tokens[k - 1]);
      PlaceFlatten(LinesTo(tokens, k - 1), tokens[k - 1]);
      assert tokens[..k] == tokens[..k - 1] + [tokens[k - 1]];
    }
  }

  /**
   * The tooltip for s lays out exactly the tokens of s, in order, greedily
   * and within the line width; the tokens hold no separator and together
   * every other character of s.
   */
  lemma ToolTipLayout(s: string)
    ensures WellWrapped(Wrapped(Tokens(s)))
    ensures FlattenTo(Wrapped(Tokens(s)), |Wrapped(Tokens(s))|) == Tokens(s)
    ensures ConcatTo(Tokens(s), |Tokens(s)|) == StripTo(s, |s|)
    ensures forall i :: 0 <= i < |Tokens(s)| ==> NoSeparator(Tokens(s)[i])
  {
    WrappedLines(Tokens(s), |Tokens(s)|);
    TokensContent(s, |s|);
    assert Tokens(s)[..|Tokens(s)|] == Tokens(s);
  }
}
