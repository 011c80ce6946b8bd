/** pan/splitstr.c: splitting a string with `strtok` (section 7.24.5.8 of ISO C11) into an
    array that grows by 20 entries at a time and always ends in NULL. */
module SplitStr {

  datatype Ptr = Null | Str(s: string)

  // ---------------------------------------------------------------- strtok

  /** The first place from i on that is not a separator. */
  function Skip(s: string, seps: set<char>, i: nat): (k: nat)
    requires i <= |s|
    ensures i <= k <= |s| && (k < |s| ==> s[k] !in seps) && forall j :: i <= j < k ==> s[j] in seps
    decreases |s| - i
  {
    if i < |s| && s[i] in seps then Skip(s, seps, i + 1) else i
  }

  /** The first place from i on that is a separator. */
  function RunEnd(s: string, seps: set<char>, i: nat): (k: nat)
    requires i <= |s|
    ensures i <= k <= |s| && (k < |s| ==> s[k] in seps) && forall j :: i <= j < k ==> s[j] !in seps
    decreases |s| - i
  {
    if i < |s| && s[i] !in seps then RunEnd(s, seps, i + 1) else i
  }

  /** The tokens from place i on. */
  function TokensFrom(s: string, seps: set<char>, i: nat): seq<string>
    requires i <= |s|
    decreases |s| - i
  {
    var a := Skip(s, seps, i);
    if a == |s| then [] else
      var e := RunEnd(s, seps, a);
      [s[a..e]] + TokensFrom(s, seps, e)
  }

  function Tokens(s: string, seps: set<char>): seq<string> { TokensFrom(s, seps, 0) }

  /** Starting at a separator or just after it is the same. */
  lemma PastSeparator(s: string, seps: set<char>, i: nat)
    requires i < |s| && s[i] in seps
    ensures TokensFrom(s, seps, i) == TokensFrom(s, seps, i + 1)
  {
  }

  ghost predicate Component(t: string, seps: set<char>) {
    t != "" && forall i :: 0 <= i < |t| ==> t[i] !in seps
  }

  /** Every token is non-empty and free of separators. */
  lemma {:induction false} TokensAreComponents(s: string, seps: set<char>, i: nat)
    requires i <= |s|
    ensures forall k :: 0 <= k < |TokensFrom(s, seps, i)| ==> Component(TokensFrom(s, seps, i)[k], seps)
    decreases |s| - i
  {
    var a := Skip(s, seps, i);
    if a < |s| {
      var e := RunEnd(s, seps, a);
      TokensAreComponents(s, seps, e);
      assert Component(s[a..e], seps);
    }
  }

  function Concat(ts: seq<string>): string { if ts == [] then "" else ts[0] + Concat(ts[1..]) }

  /** The characters of s from i on that are not separators. */
  function Kept(s: string, seps: set<char>, i: nat): string
    requires i <= |s|
    decreases |s| - i
  {
    if i == |s| then "" else (if s[i] in seps then "" else [s[i]]) + Kept(s, seps, i + 1)
  }

  lemma {:induction false} KeptOver(s: string, seps: set<char>, i: nat, k: nat)
    requires i <= k <= |s|
    requires forall j :: i <= j < k ==> s[j] in seps
    ensures Kept(s, seps, i) == Kept(s, seps, k)
    decreases k - i
  {
    if i < k { KeptOver(s, seps, i + 1, k); }
  }

  lemma {:induction false} KeptRun(s: string, seps: set<char>, i: nat, k: nat)
    requires i <= k <= |s|
    requires forall j :: i <= j < k ==> s[j] !in seps
    ensures Kept(s, seps, i) == s[i..k] + Kept(s, seps, k)
    decreases k - i
  {
    if i < k {
      KeptRun(s, seps, i + 1, k);
      var run, rest := s[i + 1..k], Kept(s, seps, k);
      assert s[i..k] == [s[i]] + run;
      assert [s[i]] + (run + rest) == [s[i]] + run + rest;
    }
  }

  /** Nothing but separators is lost, and nothing is reordered. */
  lemma {:induction false} TokensKeepText(s: string, seps: set<char>, i: nat)
    requires i <= |s|
    ensures Concat(TokensFrom(s, seps, i)) == Kept(s, seps, i)
    decreases |s| - i
  {
    var a := Skip(s, seps, i);
    KeptOver(s, seps, i, a);
    if a < |s| {
      var e := RunEnd(s, seps, a);
      KeptRun(s, seps, a, e);
      TokensKeepText(s, seps, e);
      var ts := TokensFrom(s, seps, i);
      assert ts[0] == s[a..e] && ts[1..] == TokensFrom(s, seps, e);
    }
  }

  /** Components joined by a separator. */
  function Join(ks: seq<string>, sep: char): string {
    if ks == [] then "" else if |ks| == 1 then ks[0] else ks[0] + [sep] + Join(ks[1..], sep)
  }

  lemma {:induction false} SkipAt(s: string, seps: set<char>, i: nat, k: nat)
    requires i <= k <= |s| && (forall j :: i <= j < k ==> s[j] in seps) && (k < |s| ==> s[k] !in seps)
    ensures Skip(s, seps, i) == k
  {
    var f := Skip(s, seps, i);
  }

  lemma {:induction false} RunEndAt(s: string, seps: set<char>, i: nat, k: nat)
    requires i <= k <= |s| && (forall j :: i <= j < k ==> s[j] !in seps) && (k < |s| ==> s[k] in seps)
    ensures RunEnd(s, seps, i) == k
  {
    var f := RunEnd(s, seps, i);
  }

  lemma FirstToken(before: string, t: string, rest: string, seps: set<char>)
    requires Component(t, seps) && (rest != "" ==> rest[0] in seps)
    ensures TokensFrom(before + t + rest, seps, |before|) == [t] + TokensFrom(before + t + rest, seps, |before| + |t|)
  {
    hide Skip, RunEnd;
    var s, i := before + t + rest, |before|;
    var e := i + |t|;
    assert s[i..e] == t;
    assert forall j :: i <= j < e ==> s[j] == t[j - i];
    SkipAt(s, seps, i, i);
    RunEndAt(s, seps, i, e);
  }

  lemma NoMoreTokens(s: string, seps: set<char>)
    ensures TokensFrom(s, seps, |s|) == []
  {
  }

  /** Splitting undoes joining. */
  lemma {:induction false} SplitJoin(ks: seq<string>, sep: char, before: string)
    requires forall k :: 0 <= k < |ks| ==> Component(ks[k], {sep})
    ensures TokensFrom(before + Join(ks, sep), {sep}, |before|) == ks
    decreases |ks|
  {
    hide Component, TokensFrom;
    var s := before + Join(ks, sep);
    NoMoreTokens(s, {sep});
    if |ks| == 0 {
    } else if |ks| == 1 {
      FirstToken(before, ks[0], "", {sep});
      assert s == before + ks[0] + "";
    } else {
      var tail := Join(ks[1..], sep);
      var front := before + ks[0] + [sep];
      FirstToken(before, ks[0], [sep] + tail, {sep});
      assert s == before + ks[0] + ([sep] + tail) == front + tail;
      SplitJoin(ks[1..], sep, front);
      PastSeparator(s, {sep}, |before| + |ks[0]|);
      assert [ks[0]] + ks[1..] == ks;
    }
  }

  /** In particular from the start of a string. */
  lemma SplitUndoesJoin(ks: seq<string>, sep: char)
    requires forall k :: 0 <= k < |ks| ==> Component(ks[k], {sep})
    ensures Tokens(Join(ks, sep), {sep}) == ks
  {
    SplitJoin(ks, sep, "");
    assert "" + Join(ks, sep) == Join(ks, sep);
  }

  // ---------------------------------------------------------------- splitstr

  const STEP := 20

  /** Making the array 20 entries longer, as `realloc` does. */
  method Grow(a: array<Ptr>) returns (b: array<Ptr>)
    ensures fresh(b) && b.Length == a.Length + STEP && b[..a.Length] == a[..]
  {
    b := new Ptr[a.Length + STEP](_ => Null);
    for i := 0 to a.Length
      invariant b[..i] == a[..i]
    {
      b[i] := a[i];
    }
  }

  /** `splitstr`: the array holds the tokens in order, then NULL in every other entry, of which
      there is always at least one. */
  method Splitstr(str: string, seps: set<char>) returns (args: array<Ptr>, count: nat)
    ensures fresh(args) && count == |Tokens(str, seps)| < args.Length
    ensures forall i :: 0 <= i < count ==> args[i] == Str(Tokens(str, seps)[i])
    ensures forall i :: count <= i < args.Length ==> args[i] == Null
  {
    hide Skip, RunEnd, TokensFrom;
    ghost var want := Tokens(str, seps);
    args := new Ptr[STEP](_ => Null);
    count := 0;
    var pos := 0;
    var a := Skip(str, seps, pos);
    while a < |str|
      invariant pos <= a <= |str| && a == Skip(str, seps, pos) && fresh(args) && count < args.Length
      invariant count <= |want| && want[count..] == TokensFrom(str, seps, pos)
      invariant forall i :: 0 <= i < count ==> args[i] == Str(want[i])
      decreases |str| - a
    {
      var e := RunEnd(str, seps, a);
      NextToken(str, seps, pos);
      assert want[count] == str[a..e] && want[count + 1..] == TokensFrom(str, seps, e);
      args[count] := Str(str[a..e]);
      count := count + 1;
      if e < |str| {
        assert str[e] in seps;
        PastSeparator(str, seps, e);
      }
      pos := if e < |str| then e + 1 else e;
      a := Skip(str, seps, pos);
      if count == args.Length {
        args := Grow(args);
      }
    }
    NextToken(str, seps, pos);
    for i := count to args.Length
      invariant forall j :: count <= j < i ==> args[j] == Null
      invariant forall j :: 0 <= j < count ==> args[j] == Str(want[j])
    {
      args[i] := Null;
    }
  }

  /** What one call of `strtok` finds. */
  lemma NextToken(s: string, seps: set<char>, i: nat)
    requires i <= |s|
    ensures var a := Skip(s, seps, i);
      if a == |s| then TokensFrom(s, seps, i) == []
      else var e := RunEnd(s, seps, a);
        a < e && TokensFrom(s, seps, i) == [s[a..e]] + TokensFrom(s, seps, e)
  {
  }
}
