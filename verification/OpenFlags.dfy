/** lib/open_flags.c: printing open(2) flags as symbols and parsing them back.

    The flag table is a parameter: its first entry is O_RDONLY with value 0, its names are
    distinct, non-empty and free of commas; flags may overlap or be zero.  access is
    O_WRONLY | O_RDWR. */
module OpenFlags {
  import S = SplitStr

  /** A flag word, as the numbers of its bits. */
  type Bits = set<nat>

  datatype Flag = Flag(symbol: string, flag: Bits)

  predicate Name(s: string) { s != "" && forall i :: 0 <= i < |s| ==> s[i] != ',' && s[i] != '\0' }

  predicate Table(t: seq<Flag>) {
    && t != [] && t[0].flag == {}
    && (forall i :: 0 <= i < |t| ==> Name(t[i].symbol))
    && (forall i, j :: 0 <= i < j < |t| ==> t[i].symbol != t[j].symbol)
  }

  // ---------------------------------------------------------------- printing

  /** The entries claimed by the pass over entries k on, and the bits nobody claims. */
  function Claims(t: seq<Flag>, k: nat, bits: Bits): (seq<nat>, Bits)
    requires k <= |t|
    decreases |t| - k
  {
    if k == |t| then ([], bits)
    else if t[k].flag <= bits then
      var (rest, left) := Claims(t, k + 1, bits - t[k].flag); ([k] + rest, left)
    else Claims(t, k + 1, bits)
  }

  /** The entries printed for flags f. */
  function Printed(t: seq<Flag>, access: Bits, f: Bits): seq<nat>
    requires t != []
  {
    (if f * access == {} then [0] else []) + Claims(t, 1, f).0
  }

  function Residue(t: seq<Flag>, f: Bits): Bits
    requires t != []
  {
    Claims(t, 1, f).1
  }

  predicate Entries(t: seq<Flag>, ks: seq<nat>) { forall i :: 0 <= i < |ks| ==> ks[i] < |t| }

  function Symbols(t: seq<Flag>, ks: seq<nat>): (r: seq<string>)
    requires Entries(t, ks)
    ensures |r| == |ks| && forall i :: 0 <= i < |ks| ==> r[i] == t[ks[i]].symbol
  {
    seq(|ks|, i requires 0 <= i < |ks| => t[ks[i]].symbol)
  }

  lemma {:induction false} ClaimsEntries(t: seq<Flag>, k: nat, bits: Bits)
    requires k <= |t|
    ensures Entries(t, Claims(t, k, bits).0)
    decreases |t| - k
  {
    if k < |t| {
      ClaimsEntries(t, k + 1, bits - t[k].flag);
      ClaimsEntries(t, k + 1, bits);
    }
  }

  /** All flags of some entries together. */
  function Union(t: seq<Flag>, ks: seq<nat>): Bits
    requires Entries(t, ks)
  {
    if ks == [] then {} else t[ks[0]].flag + Union(t, ks[1..])
  }

  /** The pass divides the bits between the entries it claims and the rest. */
  lemma {:induction false} ClaimsSplit(t: seq<Flag>, k: nat, bits: Bits)
    requires k <= |t|
    ensures Entries(t, Claims(t, k, bits).0)
    ensures var (ks, left) := Claims(t, k, bits); Union(t, ks) + left == bits && Union(t, ks) !! left
    decreases |t| - k
  {
    ClaimsEntries(t, k, bits);
    if k < |t| {
      if t[k].flag <= bits {
        var less := bits - t[k].flag;
        ClaimsSplit(t, k + 1, less);
        var (rest, left) := Claims(t, k + 1, less);
        assert ([k] + rest)[1..] == rest;
      } else {
        ClaimsSplit(t, k + 1, bits);
      }
    }
  }

  lemma PrintedUnion(t: seq<Flag>, access: Bits, f: Bits)
    requires Table(t)
    ensures Entries(t, Printed(t, access, f)) && Union(t, Printed(t, access, f)) == f - Residue(t, f)
  {
    hide Claims;
    ClaimsSplit(t, 1, f);
    var (ks, left) := Claims(t, 1, f);
    assert ([0] + ks)[1..] == ks && [] + ks == ks;
  }

  // ---------------------------------------------------------------- parsing

  datatype Parsed = Flags(bits: Bits) | BadName(at: nat)

  function Lookup(t: seq<Flag>, name: string): (k: nat)
    ensures k <= |t| && (k < |t| ==> t[k].symbol == name) && forall j :: 0 <= j < k ==> t[j].symbol != name
  {
    if t == [] || t[0].symbol == name then 0 else 1 + Lookup(t[1..], name)
  }

  /** The end of the name that starts at i. */
  function NameEnd(s: string, i: nat): (k: nat)
    requires i <= |s|
    ensures i <= k <= |s| && (k < |s| ==> s[k] == ',') && forall j :: i <= j < k ==> s[j] != ','
    decreases |s| - i
  {
    if i == |s| || s[i] == ',' then i else NameEnd(s, i + 1)
  }

  function ParseFrom(t: seq<Flag>, s: string, i: nat, bits: Bits): Parsed
    requires i <= |s|
    decreases |s| - i
  {
    var k := NameEnd(s, i);
    var ind := Lookup(t, s[i..k]);
    if ind == |t| then BadName(i)
    else if k == |s| then Flags(bits + t[ind].flag)
    else ParseFrom(t, s, k + 1, bits + t[ind].flag)
  }

  lemma LookupIs(t: seq<Flag>, i: nat)
    requires Table(t) && i < |t|
    ensures Lookup(t, t[i].symbol) == i && Name(t[i].symbol)
  {
    var k := Lookup(t, t[i].symbol);
  }

  lemma {:induction false} NameEndAt(s: string, i: nat, k: nat)
    requires i <= k <= |s| && (k < |s| ==> s[k] == ',') && forall j :: i <= j < k ==> s[j] != ','
    ensures NameEnd(s, i) == k
    decreases k - i
  {
    if i < k { NameEndAt(s, i + 1, k); }
  }

  lemma NameEndIs(before: string, name: string, after: string)
    requires Name(name) && (after == "" || after[0] == ',')
    ensures var s := before + name + after;
      NameEnd(s, |before|) == |before| + |name| && s[|before|..|before| + |name|] == name
  {
    var s := before + name + after;
    assert forall j :: |before| <= j < |before| + |name| ==> s[j] == name[j - |before|];
    assert after != "" ==> s[|before| + |name|] == after[0];
    NameEndAt(s, |before|, |before| + |name|);
  }

  lemma JoinSymbols(t: seq<Flag>, ks: seq<nat>)
    requires Entries(t, ks) && ks != []
    ensures Entries(t, ks[1..]) && Symbols(t, ks)[1..] == Symbols(t, ks[1..])
    ensures S.Join(Symbols(t, ks), ',') ==
      if |ks| == 1 then t[ks[0]].symbol else t[ks[0]].symbol + "," + S.Join(Symbols(t, ks[1..]), ',')
  {
  }

  lemma ParseStep(t: seq<Flag>, s: string, i: nat, ind: nat, bits: Bits)
    requires i <= |s| && ind < |t| && Lookup(t, s[i..NameEnd(s, i)]) == ind
    ensures var k := NameEnd(s, i);
      ParseFrom(t, s, i, bits) == if k == |s| then Flags(bits + t[ind].flag) else ParseFrom(t, s, k + 1, bits + t[ind].flag)
  {
  }

  lemma UnionStep(t: seq<Flag>, ks: seq<nat>, bits: Bits)
    requires Entries(t, ks) && ks != []
    ensures Entries(t, ks[1..]) && bits + Union(t, ks) == (bits + t[ks[0]].flag) + Union(t, ks[1..])
    ensures Union(t, []) == {} && Union(t, [ks[0]]) == t[ks[0]].flag
  {
    assert [ks[0]][1..] == [];
  }

  /** Parsing joined symbols of the table collects their flags. */
  lemma {:induction false} ParseJoined(t: seq<Flag>, ks: seq<nat>, before: string, bits: Bits)
    requires Table(t) && Entries(t, ks) && ks != []
    ensures ParseFrom(t, before + S.Join(Symbols(t, ks), ','), |before|, bits) == Flags(bits + Union(t, ks))
    decreases |ks|
  {
    hide Table, S.Join, NameEnd, Lookup, Symbols, ParseFrom, Union, Name;
    var name, s := t[ks[0]].symbol, before + S.Join(Symbols(t, ks), ',');
    JoinSymbols(t, ks);
    LookupIs(t, ks[0]);
    if |ks| == 1 {
      assert s == before + name + "" && ks == [ks[0]];
      NameEndIs(before, name, "");
      ParseStep(t, s, |before|, ks[0], bits);
      UnionStep(t, ks, bits);
    } else {
      var tail := S.Join(Symbols(t, ks[1..]), ',');
      assert s == before + name + ("," + tail);
      NameEndIs(before, name, "," + tail);
      var next := before + name + ",";
      assert s == next + tail;
      ParseStep(t, s, |before|, ks[0], bits);
      UnionStep(t, ks, bits);
      ParseJoined(t, ks[1..], next, bits + t[ks[0]].flag);
    }
  }

  /** What the parser makes of a text. */
  function Parse(t: seq<Flag>, s: string): Parsed { ParseFrom(t, s, 0, {}) }

  /** The text printed with a comma between the symbols. */
  function Print(t: seq<Flag>, access: Bits, f: Bits): string
    requires t != [] && Entries(t, Printed(t, access, f))
  {
    S.Join(Symbols(t, Printed(t, access, f)), ',')
  }

  /** Printing and parsing back gives the flags less what no entry claimed; only when nothing is
      printed does parsing fail. */
  lemma RoundTrip(t: seq<Flag>, access: Bits, f: Bits)
    requires Table(t)
    ensures Entries(t, Printed(t, access, f))
    ensures Parse(t, Print(t, access, f)) ==
      if Printed(t, access, f) != [] then Flags(f - Residue(t, f)) else BadName(0)
  {
    hide Claims, Union;
    var ks := Printed(t, access, f);
    PrintedUnion(t, access, f);
    if ks != [] {
      ParseJoined(t, ks, "", {});
      assert {} + Union(t, ks) == Union(t, ks);
      assert "" + Print(t, access, f) == Print(t, access, f);
    } else {
      NothingParses(t);
    }
  }

  lemma NothingParses(t: seq<Flag>)
    requires Table(t)
    ensures Parse(t, "") == BadName(0)
  {
    var k := Lookup(t, "");
    assert k < |t| ==> Name(t[k].symbol);
  }

  /** Where each access bit has an entry of its own, something is always printed; so flags that
      are all claimed come back as they were. */
  lemma FullRoundTrip(t: seq<Flag>, f: Bits)
    requires Table(t) && |t| >= 3 && t[1].flag == {0} && t[2].flag == {1}
    ensures Entries(t, Printed(t, {0, 1}, f))
    ensures Parse(t, Print(t, {0, 1}, f)) == Flags(f - Residue(t, f))
    ensures Residue(t, f) == {} ==> Parse(t, Print(t, {0, 1}, f)) == Flags(f)
  {
    hide Claims, Parse, Print;
    RoundTrip(t, {0, 1}, f);
    AccessClaimed(t, f);
    assert f - {} == f;
  }

  lemma AccessClaimed(t: seq<Flag>, f: Bits)
    requires |t| >= 3 && t[1].flag == {0} && t[2].flag == {1}
    ensures Printed(t, {0, 1}, f) != []
  {
    if 0 in f {
      assert Claims(t, 1, f).0 != [];
    } else if 1 in f {
      assert Claims(t, 1, f) == Claims(t, 2, f);
    } else {
      assert f * {0, 1} == {};
    }
  }

  // ---------------------------------------------------------------- the code

  const UNKNOWN: string := "UNKNOWN"

  /** Symbols joined by any separator. */
  function Glue(names: seq<string>, sep: string): string {
    if names == [] then ""
    else if |names| == 1 then names[0]
    else Glue(names[..|names| - 1], sep) + sep + names[|names| - 1]
  }

  /** What `openflags2symbols` prints. */
  function PrintedNames(t: seq<Flag>, access: Bits, f: Bits, mode: int): seq<string>
    requires t != [] && Entries(t, Printed(t, access, f))
  {
    Symbols(t, Printed(t, access, f)) + if Residue(t, f) != {} && mode == 1 then [UNKNOWN] else []
  }

  /** The appending of one more symbol. */
  method Append(text: string, havesome: bool, sep: string, symbol: string, ghost names: seq<string>) returns (r: string)
    requires text == Glue(names, sep) && havesome == (names != [])
    ensures r == Glue(names + [symbol], sep)
  {
    r := text;
    if havesome {
      r := r + sep;
    }
    r := r + symbol;
    assert (names + [symbol])[..|names|] == names;
  }

  lemma MoreSymbols(t: seq<Flag>, ks: seq<nat>, k: nat)
    requires Entries(t, ks) && k < |t|
    ensures Entries(t, ks + [k]) && Symbols(t, ks + [k]) == Symbols(t, ks) + [t[k].symbol]
  {
  }

  /** The pass has printed ks and has these bits left; finished, it will have printed all. */
  ghost predicate Midway(t: seq<Flag>, ind: nat, bits: Bits, ks: seq<nat>, all: seq<nat>, left: Bits) {
    && ind <= |t| && Entries(t, ks) && ks + Claims(t, ind, bits).0 == all && Claims(t, ind, bits).1 == left
  }

  lemma MidwayStep(t: seq<Flag>, ind: nat, bits: Bits, ks: seq<nat>, all: seq<nat>, left: Bits)
    requires Midway(t, ind, bits, ks, all, left) && ind < |t|
    ensures if t[ind].flag <= bits then Midway(t, ind + 1, bits - t[ind].flag, ks + [ind], all, left)
            else Midway(t, ind + 1, bits, ks, all, left)
  {
    if t[ind].flag <= bits {
      var rest := Claims(t, ind + 1, bits - t[ind].flag).0;
      assert ks + ([ind] + rest) == (ks + [ind]) + rest;
    }
  }

  lemma MidwayEnds(t: seq<Flag>, bits: Bits, ks: seq<nat>, all: seq<nat>, left: Bits)
    requires Midway(t, |t|, bits, ks, all, left)
    ensures ks == all && bits == left && Entries(t, ks)
  {
  }

  lemma MidwayStarts(t: seq<Flag>, access: Bits, f: Bits)
    requires t != []
    ensures Midway(t, 1, f, if f * access == {} then [0] else [], Printed(t, access, f), Residue(t, f))
  {
  }

  /** `openflags2symbols`. */
  method Openflags2Symbols(t: seq<Flag>, access: Bits, openflags: Bits, sep: string, mode: int) returns (text: string)
    requires Table(t)
    ensures Entries(t, Printed(t, access, openflags))
    ensures text == Glue(PrintedNames(t, access, openflags, mode), sep)
  {
    hide Glue, Symbols, Name, Midway, Printed, Residue;
    var bits, havesome := openflags, false;
    text := "";
    ghost var ks: seq<nat>, all, left := [], Printed(t, access, openflags), Residue(t, openflags);
    NoSymbols(t, sep);
    MidwayStarts(t, access, openflags);
    if bits * access == {} {
      MoreSymbols(t, ks, 0);
      assert ks + [0] == [0];
      text := Append(text, havesome, sep, t[0].symbol, Symbols(t, ks));
      ks := [0];
      havesome := true;
    }
    var ind := 1;
    while ind < |t|
      invariant 1 <= ind <= |t| && Entries(t, ks) && havesome == (ks != [])
      invariant text == Glue(Symbols(t, ks), sep) && Midway(t, ind, bits, ks, all, left)
    {
      MidwayStep(t, ind, bits, ks, all, left);
      if t[ind].flag <= bits {
        MoreSymbols(t, ks, ind);
        text := Append(text, havesome, sep, t[ind].symbol, Symbols(t, ks));
        ks := ks + [ind];
        havesome := true;
        bits := bits - t[ind].flag;
      }
      ind := ind + 1;
    }
    MidwayEnds(t, bits, ks, all, left);
    if bits != {} && mode == 1 {
      text := Append(text, havesome, sep, UNKNOWN, Symbols(t, ks));
    } else {
      assert Symbols(t, ks) + [] == Symbols(t, ks);
    }
  }

  lemma NoSymbols(t: seq<Flag>, sep: string)
    ensures Glue(Symbols(t, []), sep) == ""
  {
  }

  /** Glue puts symbols together as Join does. */
  lemma {:induction false} GlueAppends(names: seq<string>, last: string)
    requires names != []
    ensures S.Join(names + [last], ',') == S.Join(names, ',') + "," + last
  {
    var all := names + [last];
    assert all[1..] == names[1..] + [last];
    if |names| == 1 {
      assert S.Join(all[1..], ',') == last;
    } else {
      GlueAppends(names[1..], last);
    }
  }

  lemma {:induction false} GlueIsJoin(names: seq<string>)
    ensures Glue(names, ",") == S.Join(names, ',')
  {
    if |names| > 1 {
      var init := names[..|names| - 1];
      GlueIsJoin(init);
      GlueAppends(init, names[|names| - 1]);
      assert names == init + [names[|names| - 1]];
    }
  }

  /** The round trip, for the text openflags2symbols produces with mode 0. */
  lemma TextRoundTrip(t: seq<Flag>, access: Bits, f: Bits)
    requires Table(t)
    ensures Entries(t, Printed(t, access, f))
    ensures Parse(t, Glue(PrintedNames(t, access, f, 0), ",")) ==
      if Printed(t, access, f) != [] then Flags(f - Residue(t, f)) else BadName(0)
  {
    hide Glue, Parse, S.Join, Printed, Residue, Symbols;
    RoundTrip(t, access, f);
    var names := Symbols(t, Printed(t, access, f));
    assert names + [] == names;
    GlueIsJoin(names);
  }

  /** With mode 1 a text that names unclaimed bits does not parse. */
  lemma {:induction false} UnknownRefused(t: seq<Flag>, ks: seq<nat>, before: string, bits: Bits)
    requires Table(t) && Entries(t, ks) && Lookup(t, UNKNOWN) == |t|
    ensures ParseFrom(t, before + S.Join(Symbols(t, ks) + [UNKNOWN], ','), |before|, bits).BadName?
    decreases |ks|
  {
    hide Table, S.Join, NameEnd, Lookup, Symbols, ParseFrom, Name;
    var s := before + S.Join(Symbols(t, ks) + [UNKNOWN], ',');
    JoinUnknown(t, ks);
    if ks == [] {
      assert s == before + UNKNOWN + "";
      UnknownName();
      NameEndIs(before, UNKNOWN, "");
      ParseBad(t, s, |before|, bits);
    } else {
      var name, tail := t[ks[0]].symbol, S.Join(Symbols(t, ks[1..]) + [UNKNOWN], ',');
      LookupIs(t, ks[0]);
      assert s == before + name + ("," + tail);
      NameEndIs(before, name, "," + tail);
      var next := before + name + ",";
      assert s == next + tail;
      ParseStep(t, s, |before|, ks[0], bits);
      UnknownRefused(t, ks[1..], next, bits + t[ks[0]].flag);
    }
  }

  lemma UnknownName()
    ensures Name(UNKNOWN)
  {
  }

  lemma ParseBad(t: seq<Flag>, s: string, i: nat, bits: Bits)
    requires i <= |s| && Lookup(t, s[i..NameEnd(s, i)]) == |t|
    ensures ParseFrom(t, s, i, bits) == BadName(i)
  {
  }

  lemma JoinUnknown(t: seq<Flag>, ks: seq<nat>)
    requires Entries(t, ks)
    ensures ks == [] ==> S.Join(Symbols(t, ks) + [UNKNOWN], ',') == UNKNOWN
    ensures ks != [] ==> Entries(t, ks[1..])
    ensures ks != [] ==>
      S.Join(Symbols(t, ks) + [UNKNOWN], ',') == t[ks[0]].symbol + "," + S.Join(Symbols(t, ks[1..]) + [UNKNOWN], ',')
  {
    if ks != [] {
      assert (Symbols(t, ks) + [UNKNOWN])[1..] == Symbols(t, ks[1..]) + [UNKNOWN];
    }
  }

  /** A C string s held in a buffer. */
  predicate Holds(a: array<char>, s: string)
    reads a
  {
    |s| < a.Length && a[..|s|] == s && a[|s|] == '\0' && '\0' !in s
  }

  /** `strcmp` of the string at an offset, which ends at k, with a symbol. */
  method SameName(a: array<char>, at: nat, sym: string, ghost k: nat) returns (eq: bool)
    requires at <= k < a.Length && a[k] == '\0' && '\0' !in a[at..k] && '\0' !in sym
    ensures eq <==> a[at..k] == sym
  {
    var j := 0;
    while j < |sym| && a[at + j] == sym[j]
      invariant j <= |sym| && at + j <= k && a[at..at + j] == sym[..j]
    {
      assert sym[j] in sym;
      j := j + 1;
    }
    eq := j == |sym| && a[at + j] == '\0';
    assert at + j < k ==> a[at..k][j] == a[at + j];
  }

  /** The search of the table. */
  method FindName(t: seq<Flag>, a: array<char>, at: nat, ghost k: nat) returns (ind: nat)
    requires at <= k < a.Length && a[k] == '\0' && '\0' !in a[at..k]
    requires forall i :: 0 <= i < |t| ==> Name(t[i].symbol)
    ensures ind == Lookup(t, a[at..k])
  {
    ind := 0;
    while ind < |t|
      invariant ind <= |t| && forall j :: 0 <= j < ind ==> t[j].symbol != a[at..k]
    {
      assert Name(t[ind].symbol);
      var eq := SameName(a, at, t[ind].symbol, k);
      if eq {
        break;
      }
      ind := ind + 1;
    }
    LookupAt(t, a[at..k], ind);
  }

  lemma LookupAt(t: seq<Flag>, name: string, k: nat)
    requires k <= |t| && (k < |t| ==> t[k].symbol == name) && forall j :: 0 <= j < k ==> t[j].symbol != name
    ensures Lookup(t, name) == k
  {
    var f := Lookup(t, name);
  }

  /** The name from at to k, marked off and looked up; the buffer is as it was. */
  method LookupField(t: seq<Flag>, a: array<char>, ghost s: string, at: nat, k: nat) returns (ind: nat)
    requires Table(t) && Holds(a, s) && at <= k <= |s|
    modifies a
    ensures a[..] == old(a[..]) && ind == Lookup(t, s[at..k])
  {
    assert forall j :: 0 <= j < |s| ==> a[j] == a[..|s|][j] == s[j];
    var savecc := a[k];
    a[k] := '\0';
    assert forall j :: at <= j < k ==> a[j] == s[j];
    assert a[at..k] == s[at..k];
    ind := FindName(t, a, at, k);
    a[k] := savecc;
  }

  /** `parse_open_flags`: what the fields of the text mean; the text itself is left unchanged. */
  method ParseOpenFlags(t: seq<Flag>, a: array<char>, ghost s: string) returns (r: Parsed)
    requires Table(t) && Holds(a, s)
    modifies a
    ensures r == Parse(t, s) && a[..] == old(a[..])
  {
    hide Table, Lookup, NameEnd;
    ghost var was := a[..];
    var bits, name: nat, cc: nat := {}, 0, 0;
    while true
      invariant a[..] == was && Holds(a, s) && name == cc <= |s|
      invariant ParseFrom(t, s, name, bits) == Parse(t, s)
      decreases |s| - name
    {
      cc := SkipName(a, s, name);
      var last := a[cc] == '\0';
      assert last <==> cc == |s| by { assert cc < |s| ==> s[cc] in s; }
      var ind := LookupField(t, a, s, name, cc);
      StillHolds(a, s, was);
      if ind == |t| {
        return BadName(name);
      }
      bits := bits + t[ind].flag;
      if last {
        return Flags(bits);
      }
      cc := cc + 1;
      name := cc;
    }
  }

  method SkipName(a: array<char>, ghost s: string, at: nat) returns (cc: nat)
    requires Holds(a, s) && at <= |s|
    ensures cc == NameEnd(s, at)
  {
    cc := at;
    while a[cc] != ',' && a[cc] != '\0'
      invariant at <= cc <= |s| && forall j :: at <= j < cc ==> s[j] != ','
      decreases |s| - cc
    {
      cc := cc + 1;
    }
    assert cc < |s| ==> s[cc] in s && a[cc] == s[cc];
    NameEndAt(s, at, cc);
  }

  lemma StillHolds(a: array<char>, s: string, was: string)
    requires a[..] == was && |s| < |was| && was[..|s|] == s && was[|s|] == '\0' && '\0' !in s
    ensures Holds(a, s)
  {
    assert a[..|s|] == a[..][..|s|];
  }
}
