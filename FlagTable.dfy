/**
 * The flag table scan shared by the command-line tools and clrbm's
 * parameter file: each token is matched against a table of prefixes with
 * strncmp over the prefix's length, the first matching entry wins, and its
 * value is the rest of the token. A second token for the same entry is an
 * error; a token that matches no entry is an error when `strict` (a command
 * line) and is skipped otherwise (a parameter file line).
 */
module FlagTable {
  import opened Wrappers

  /** The first of flags[j..] that begins arg. */
  function FirstPrefix(arg: string, flags: seq<string>, j: nat): (r: Option<nat>)
    requires j <= |flags|
    ensures r.Some? ==> j <= r.value < |flags| && |flags[r.value]| <= |arg|
    decreases |flags| - j
  {
    if j == |flags| then None
    else if flags[j] <= arg then Some(j)
    else FirstPrefix(arg, flags, j + 1)
  }

  lemma {:induction false} FirstPrefixFirst(arg: string, flags: seq<string>, j: nat)
    requires j <= |flags|
    ensures var r := FirstPrefix(arg, flags, j);
      (r.Some? ==> flags[r.value] <= arg && forall i :: j <= i < r.value ==> !(flags[i] <= arg)) &&
      (r.None? ==> forall i :: j <= i < |flags| ==> !(flags[i] <= arg))
    decreases |flags| - j
  {
    if j < |flags| && !(flags[j] <= arg) {
      FirstPrefixFirst(arg, flags, j + 1);
    }
  }

  /** The entry of the table that begins arg, as the search loop finds it. */
  function FlagOf(flags: seq<string>, arg: string): (r: Option<nat>)
    ensures r.Some? ==> r.value < |flags| && |flags[r.value]| <= |arg|
  {
    FirstPrefix(arg, flags, 0)
  }

  /** What follows the entry: the string kept for it. */
  function Suffix(flags: seq<string>, arg: string): string
    requires FlagOf(flags, arg).Some?
  {
    arg[|flags[FlagOf(flags, arg).value]|..]
  }

  /** An argument's entry is the first one that begins it; None when none does. */
  lemma FlagOfFirst(flags: seq<string>, arg: string)
    ensures var r := FlagOf(flags, arg);
      (r.Some? ==> flags[r.value] <= arg && forall i :: 0 <= i < r.value ==> !(flags[i] <= arg)) &&
      (r.None? ==> forall i :: 0 <= i < |flags| ==> !(flags[i] <= arg))
  {
    FirstPrefixFirst(arg, flags, 0);
  }

  /** No entry begins another: then at most one entry begins any string. */
  predicate PrefixFree(flags: seq<string>)
  {
    forall i, j :: 0 <= i < |flags| && 0 <= j < |flags| && i != j ==> !(flags[i] <= flags[j])
  }

  /** Two prefixes of one string: the shorter begins the longer. */
  lemma CommonPrefix(a: string, b: string, s: string)
    ensures a <= s && b <= s ==> a <= b || b <= a
  {
    if a <= s && b <= s {
      if |a| <= |b| {
        assert b[..|a|] == s[..|a|];
      } else {
        assert a[..|b|] == s[..|b|];
      }
    }
  }

  lemma OnlyMatch(flags: seq<string>, arg: string, i: nat)
    requires PrefixFree(flags) && i < |flags| && flags[i] <= arg
    ensures FlagOf(flags, arg) == Some(i)
  {
    forall j | 0 <= j < |flags| && j != i
      ensures !(flags[j] <= arg)
    {
      CommonPrefix(flags[i], flags[j], arg);
    }
    FlagOfFirst(flags, arg);
  }

  /** The search loop: the index of the first entry that begins arg, or -1. */
  method FindFlag(flags: seq<string>, arg: string) returns (index: int)
    ensures index == (if FlagOf(flags, arg).Some? then FlagOf(flags, arg).value else -1)
  {
    index := -1;
    for j := 0 to |flags|
      invariant FirstPrefix(arg, flags, j) == FlagOf(flags, arg)
    {
      if flags[j] <= arg {
        return j;
      }
    }
  }

  datatype Collected = Values(values: seq<Option<string>>) | UnknownArgument(at: nat) | DuplicateFlag(flag: nat)

  function NoValues(n: nat): (r: seq<Option<string>>)
    ensures |r| == n && forall j :: 0 <= j < n ==> r[j].None?
  {
    seq(n, j => None)
  }

  /** One turn of the loop on token number at. */
  function Step(flags: seq<string>, strict: bool, before: Collected, arg: string, at: nat): (r: Collected)
    requires before.Values? ==> |before.values| == |flags|
    ensures r.Values? ==> |r.values| == |flags|
  {
    if !before.Values? then before
    else if FlagOf(flags, arg).None? then (if strict then UnknownArgument(at) else before)
    else if before.values[FlagOf(flags, arg).value].Some? then DuplicateFlag(FlagOf(flags, arg).value)
    else Values(before.values[FlagOf(flags, arg).value := Some(Suffix(flags, arg))])
  }

  /** The value of each entry after the loop has seen args, or the error it stopped at. */
  function Collect(flags: seq<string>, strict: bool, args: seq<string>): (r: Collected)
    ensures r.Values? ==> |r.values| == |flags|
  {
    if args == [] then Values(NoValues(|flags|))
    else Step(flags, strict, Collect(flags, strict, args[..|args| - 1]), args[|args| - 1], |args| - 1)
  }

  lemma CollectSnoc(flags: seq<string>, strict: bool, args: seq<string>, i: nat)
    requires i < |args|
    ensures Collect(flags, strict, args[..i + 1]) == Step(flags, strict, Collect(flags, strict, args[..i]), args[i], i)
  {
    assert args[..i + 1][..i] == args[..i];
  }

  /** Every token of args[..n] has an entry (when strict), and no two tokens share one. */
  predicate DistinctFlags(flags: seq<string>, strict: bool, args: seq<string>, n: nat)
    requires n <= |args|
  {
    (strict ==> forall i :: 0 <= i < n ==> FlagOf(flags, args[i]).Some?) &&
    (forall i, k :: 0 <= i < k < n && FlagOf(flags, args[i]).Some? ==> FlagOf(flags, args[i]) != FlagOf(flags, args[k]))
  }

  /** v records exactly the entries of args[..n], each with its token's suffix. */
  predicate Records(flags: seq<string>, v: seq<Option<string>>, args: seq<string>, n: nat)
    requires |v| == |flags| && n <= |args|
  {
    (forall k :: 0 <= k < |flags| ==> (v[k].None? <==> forall i :: 0 <= i < n ==> FlagOf(flags, args[i]) != Some(k))) &&
    (forall i :: 0 <= i < n && FlagOf(flags, args[i]).Some? ==> v[FlagOf(flags, args[i]).value] == Some(Suffix(flags, args[i])))
  }

  /** Recording one more token with a new entry keeps the record exact. */
  lemma RecordsStep(flags: seq<string>, strict: bool, v: seq<Option<string>>, args: seq<string>, m: nat)
    requires m < |args| && DistinctFlags(flags, strict, args, m + 1) && |v| == |flags| && Records(flags, v, args, m)
    requires FlagOf(flags, args[m]).Some?
    ensures Records(flags, v[FlagOf(flags, args[m]).value := Some(Suffix(flags, args[m]))], args, m + 1)
  {
    var j := FlagOf(flags, args[m]).value;
    var w := v[j := Some(Suffix(flags, args[m]))];
    forall k | 0 <= k < |flags|
      ensures w[k].None? <==> forall i :: 0 <= i < m + 1 ==> FlagOf(flags, args[i]) != Some(k)
    {
      if k != j {
        assert w[k] == v[k] && FlagOf(flags, args[m]) != Some(k);
      }
    }
    forall i | 0 <= i < m + 1 && FlagOf(flags, args[i]).Some?
      ensures w[FlagOf(flags, args[i]).value] == Some(Suffix(flags, args[i]))
    {
      if i < m {
        assert FlagOf(flags, args[i]) != FlagOf(flags, args[m]);
      }
    }
  }

  /** A skipped token leaves the record exact. */
  lemma RecordsSkip(flags: seq<string>, v: seq<Option<string>>, args: seq<string>, m: nat)
    requires m < |args| && |v| == |flags| && Records(flags, v, args, m) && FlagOf(flags, args[m]).None?
    ensures Records(flags, v, args, m + 1)
  {
  }

  /** Distinct entries in args[..n]: the loop gets through them, leaving each entry's value. */
  lemma {:induction false} Accepted(flags: seq<string>, strict: bool, args: seq<string>, n: nat)
    requires n <= |args| && DistinctFlags(flags, strict, args, n)
    ensures Collect(flags, strict, args[..n]).Values? && Records(flags, Collect(flags, strict, args[..n]).values, args, n)
  {
    if n > 0 {
      var m := n - 1;
      assert DistinctFlags(flags, strict, args, m);
      Accepted(flags, strict, args, m);
      CollectSnoc(flags, strict, args, m);
      var v := Collect(flags, strict, args[..m]).values;
      if FlagOf(flags, args[m]).Some? {
        var j := FlagOf(flags, args[m]).value;
        assert v[j].None?;
        RecordsStep(flags, strict, v, args, m);
        assert Collect(flags, strict, args[..n]) == Values(v[j := Some(Suffix(flags, args[m]))]);
      } else {
        RecordsSkip(flags, v, args, m);
      }
    }
  }

  /** The first token to break distinctness repeats an earlier entry, or has none. */
  lemma BreaksAt(flags: seq<string>, strict: bool, args: seq<string>, m: nat)
    requires m < |args| && DistinctFlags(flags, strict, args, m) && !DistinctFlags(flags, strict, args, m + 1)
    ensures FlagOf(flags, args[m]).None? ==> strict
    ensures FlagOf(flags, args[m]).Some? ==> exists i :: 0 <= i < m && FlagOf(flags, args[i]) == FlagOf(flags, args[m])
  {
  }

  /** A repeated entry, or an unknown one when strict, in args[..n] stops the loop. */
  lemma {:induction false} Refused(flags: seq<string>, strict: bool, args: seq<string>, n: nat)
    requires n <= |args| && !DistinctFlags(flags, strict, args, n)
    ensures !Collect(flags, strict, args[..n]).Values?
  {
    var m := n - 1;
    CollectSnoc(flags, strict, args, m);
    if !DistinctFlags(flags, strict, args, m) {
      Refused(flags, strict, args, m);
    } else {
      Accepted(flags, strict, args, m);
      BreaksAt(flags, strict, args, m);
      if FlagOf(flags, args[m]).Some? {
        var i :| 0 <= i < m && FlagOf(flags, args[i]) == FlagOf(flags, args[m]);
        assert Collect(flags, strict, args[..m]).values[FlagOf(flags, args[m]).value].Some?;
      }
    }
  }

  /**
   * The loop succeeds exactly when no entry is given twice (and, when
   * strict, every token has an entry); then an entry has a value exactly
   * when some token carries it, and the value is the rest of that token.
   */
  lemma CollectValues(flags: seq<string>, strict: bool, args: seq<string>)
    ensures Collect(flags, strict, args).Values? <==> DistinctFlags(flags, strict, args, |args|)
    ensures Collect(flags, strict, args).Values? ==> forall j :: 0 <= j < |flags| ==>
      (Collect(flags, strict, args).values[j].None? <==> forall i :: 0 <= i < |args| ==> FlagOf(flags, args[i]) != Some(j))
    ensures Collect(flags, strict, args).Values? ==> forall i :: 0 <= i < |args| && FlagOf(flags, args[i]).Some? ==>
      Collect(flags, strict, args).values[FlagOf(flags, args[i]).value] == Some(Suffix(flags, args[i]))
  {
    assert args[..|args|] == args;
    if DistinctFlags(flags, strict, args, |args|) {
      Accepted(flags, strict, args, |args|);
    } else {
      Refused(flags, strict, args, |args|);
    }
  }

  /** Tokens that give each flag once, in table order, load every flag with its token's suffix. */
  lemma EachFlagOnce(flags: seq<string>, strict: bool, args: seq<string>)
    requires |args| == |flags| && forall k :: 0 <= k < |args| ==> FlagOf(flags, args[k]) == Some(k)
    ensures Collect(flags, strict, args).Values?
    ensures forall k :: 0 <= k < |flags| ==> Collect(flags, strict, args).values[k] == Some(Suffix(flags, args[k]))
  {
    CollectValues(flags, strict, args);
    var v := Collect(flags, strict, args).values;
    forall k | 0 <= k < |flags|
      ensures v[k] == Some(Suffix(flags, args[k]))
    {
      assert FlagOf(flags, args[k]) == Some(k);
    }
  }

  /** Once the loop has stopped at an error, later tokens do not change it. */
  lemma {:induction false} StopsAt(flags: seq<string>, strict: bool, args: seq<string>, n: nat)
    requires 0 < n <= |args| && !Collect(flags, strict, args[..n]).Values?
    ensures Collect(flags, strict, args) == Collect(flags, strict, args[..n])
    decreases |args| - n
  {
    if n < |args| {
      CollectSnoc(flags, strict, args, n);
      StopsAt(flags, strict, args, n + 1);
    } else {
      assert args[..n] == args;
    }
  }

  /** The command-line loop: each argument's flag, rejecting unknown and repeated ones. */
  method CollectFlags(flags: seq<string>, args: seq<string>) returns (r: Collected)
    ensures r == Collect(flags, true, args)
  {
    var values := NoValues(|flags|);
    for i := 0 to |args|
      invariant Collect(flags, true, args[..i]) == Values(values)
    {
      CollectSnoc(flags, true, args, i);
      var index := FindFlag(flags, args[i]);
      if index == -1 {
        r := UnknownArgument(i);
        StopsAt(flags, true, args, i + 1);
        return;
      } else if values[index].Some? {
        r := DuplicateFlag(index);
        StopsAt(flags, true, args, i + 1);
        return;
      }
      values := values[index := Some(Suffix(flags, args[i]))];
    }
    assert args[..|args|] == args;
    r := Values(values);
  }

  /** Some token carries entry j. */
  predicate Given(flags: seq<string>, args: seq<string>, j: nat)
  {
    exists i :: 0 <= i < |args| && FlagOf(flags, args[i]) == Some(j)
  }
}
