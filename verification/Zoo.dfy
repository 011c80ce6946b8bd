/** pan/zoolib.c: the zoo file, a text file of fixed-width lines recording what is running.

    The file is a string, read with `fgets` and overwritten in place.  It refines a list of
    79-character lines; a line starting with '#' is free, any other names a pid. */
module Zoo {

  type pid_t = x: int | 0 <= x < 0x8000_0000

  const WIDTH := 79   // characters of a line, without its newline
  const LINE := 80
  const FGETS := 80   // fgets(buf, BUFLEN, fp) reads at most BUFLEN - 1 characters

  // ---------------------------------------------------------------- numbers

  predicate IsDigit(c: char) { '0' <= c <= '9' }

  /** `%d` of a non-negative number. */
  function Dec(n: nat): (s: string)
    ensures |s| > 0 && IsDigit(s[0])
  {
    if n < 10 then ['0' + n as char] else Dec(n / 10) + ['0' + (n % 10) as char]
  }

  /** The decimal digits at the front of s, read onto acc. */
  function Digits(s: string, acc: int): int {
    if s != "" && IsDigit(s[0]) then Digits(s[1..], acc * 10 + (s[0] - '0') as int) else acc
  }

  predicate IsSpace(c: char) { c == ' ' || '\t' <= c <= '\r' }

  /** `atoi`: white space, an optional sign, digits. */
  function Atoi(s: string): int {
    if s != "" && IsSpace(s[0]) then Atoi(s[1..])
    else if s != "" && s[0] == '-' then -Digits(s[1..], 0)
    else if s != "" && s[0] == '+' then Digits(s[1..], 0)
    else Digits(s, 0)
  }

  lemma {:induction false} DecReads(n: nat, t: string)
    ensures Digits(Dec(n) + t, 0) == Digits(t, n)
  {
    var c := '0' + (n % 10) as char;
    if n < 10 {
      assert (Dec(n) + t)[1..] == t;
    } else {
      DecReads(n / 10, [c] + t);
      assert Dec(n) + t == Dec(n / 10) + ([c] + t);
      assert ([c] + t)[1..] == t;
    }
  }

  /** `atoi` undoes `%d`, whatever follows the number. */
  lemma AtoiDec(n: nat, t: string)
    requires t != "" ==> !IsDigit(t[0])
    ensures Atoi(Dec(n) + t) == n
  {
    DecReads(n, t);
    assert (Dec(n) + t)[0] == Dec(n)[0];
  }

  function Pow10(k: nat): nat { if k == 0 then 1 else 10 * Pow10(k - 1) }

  lemma {:induction false} DecLength(n: nat, k: nat)
    requires k > 0 && n < Pow10(k)
    ensures |Dec(n)| <= k
  {
    if n >= 10 {
      assert k > 1;
      DecLength(n / 10, k - 1);
    }
  }

  lemma PidLength(p: pid_t)
    ensures |Dec(p)| <= 10
  {
    assert Pow10(10) == 10 * Pow10(9) == 100 * Pow10(8) == 1000 * Pow10(7) == 10000 * Pow10(6) == 100000 * Pow10(5);
    assert Pow10(5) == 100000;
    DecLength(p, 10);
  }

  // ---------------------------------------------------------------- lines

  function Spaces(n: nat): (s: string)
    ensures |s| == n && forall i :: 0 <= i < n ==> s[i] == ' '
  {
    seq(n, _ => ' ')
  }

  /** `%-*.*s` with width and precision w. */
  function Pad(s: string, w: nat): (t: string)
    ensures |t| == w
  {
    if |s| >= w then s[..w] else s + Spaces(w - |s|)
  }

  predicate NewlineFree(s: string) { forall i :: 0 <= i < |s| ==> s[i] != '\n' }

  /** The text zoo_mark_cmdline prepares, cut by snprintf to 79 characters. */
  function Entry(p: pid_t, tag: string, cmdline: string): (s: string) {
    var text := Dec(p) + "," + tag + "," + cmdline;
    if |text| > WIDTH then text[..WIDTH] else text
  }

  predicate Free(line: string)
    requires |line| > 0
  {
    line[0] == '#'
  }

  predicate Sized(lines: seq<string>) { forall i :: 0 <= i < |lines| ==> |lines[i]| == WIDTH }

  /** The first line that is free, or the number of lines. */
  function FirstFree(lines: seq<string>): (k: nat)
    requires Sized(lines)
    ensures k <= |lines| && (k < |lines| ==> Free(lines[k]))
    ensures forall i :: 0 <= i < k ==> !Free(lines[i])
  {
    if lines == [] || Free(lines[0]) then 0 else 1 + FirstFree(lines[1..])
  }

  predicate Names(line: string, p: int)
    requires |line| > 0
  {
    !Free(line) && Atoi(line) == p
  }

  /** The first live line naming p, or the number of lines. */
  function FirstNamed(lines: seq<string>, p: int): (k: nat)
    requires Sized(lines)
    ensures k <= |lines| && (k < |lines| ==> Names(lines[k], p))
    ensures forall i :: 0 <= i < k ==> !Names(lines[i], p)
  {
    if lines == [] || Names(lines[0], p) then 0 else 1 + FirstNamed(lines[1..], p)
  }

  /** zoo_mark on lines: the first free line is reused, or a new one added at the end. */
  function MarkLines(lines: seq<string>, line: string): (r: seq<string>)
    requires Sized(lines) && |line| == WIDTH
    ensures Sized(r)
  {
    var k := FirstFree(lines);
    if k < |lines| then lines[k := line] else lines + [line]
  }

  function ClearLine(line: string): (r: string)
    requires |line| > 0
    ensures |r| == |line| && Free(r)
  {
    "#" + line[1..]
  }

  /** zoo_clear on lines: the first live line naming p becomes free. */
  function ClearLines(lines: seq<string>, p: int): (r: seq<string>)
    requires Sized(lines)
    ensures Sized(r)
  {
    var k := FirstNamed(lines, p);
    if k < |lines| then lines[k := ClearLine(lines[k])] else lines
  }

  function LineLive(line: string): multiset<int>
    requires |line| > 0
  {
    if Free(line) then multiset{} else multiset{Atoi(line)}
  }

  /** The pids on the live lines, with multiplicity. */
  function Live(lines: seq<string>): multiset<int>
    requires Sized(lines)
  {
    if lines == [] then multiset{} else LineLive(lines[0]) + Live(lines[1..])
  }

  lemma {:induction false} LiveAppend(a: seq<string>, b: seq<string>)
    requires Sized(a) && Sized(b)
    ensures Sized(a + b) && Live(a + b) == Live(a) + Live(b)
  {
    hide LineLive;
    if a == [] {
      assert a + b == b;
    } else {
      LiveAppend(a[1..], b);
      assert (a + b)[1..] == a[1..] + b && (a + b)[0] == a[0];
    }
  }

  /** The live pids, with line k singled out. */
  lemma LiveSplit(lines: seq<string>, k: nat)
    requires Sized(lines) && k < |lines|
    ensures Live(lines) == Live(lines[..k]) + Live([lines[k]]) + Live(lines[k + 1..])
  {
    hide Live;
    LiveAppend(lines[..k], [lines[k]]);
    LiveAppend(lines[..k] + [lines[k]], lines[k + 1..]);
    assert lines == lines[..k] + [lines[k]] + lines[k + 1..];
  }

  lemma LiveOne(line: string)
    requires |line| == WIDTH
    ensures Live([line]) == LineLive(line)
  {
    hide LineLive;
    assert [line][1..] == [];
  }

  lemma LiveUpdate(lines: seq<string>, k: nat, line: string)
    requires Sized(lines) && k < |lines| && |line| == WIDTH
    ensures Live(lines) == Live(lines[..k]) + Live([lines[k]]) + Live(lines[k + 1..])
    ensures Live(lines[k := line]) == Live(lines[..k]) + Live([line]) + Live(lines[k + 1..])
  {
    LiveSplit(lines, k);
    var t := lines[k := line];
    LiveSplit(t, k);
    assert t[..k] == lines[..k] && t[k + 1..] == lines[k + 1..];
  }

  /** Marking adds exactly one live line, for the pid marked. */
  lemma LiveMark(lines: seq<string>, line: string, p: int)
    requires Sized(lines) && |line| == WIDTH && Names(line, p)
    ensures Live(MarkLines(lines, line)) == Live(lines) + multiset{p}
  {
    var k := FirstFree(lines);
    LiveOne(line);
    if k < |lines| {
      LiveOne(lines[k]);
      LiveUpdate(lines, k, line);
    } else {
      LiveAppend(lines, [line]);
    }
  }

  lemma {:induction false} LiveHas(lines: seq<string>, p: int)
    requires Sized(lines)
    ensures p in Live(lines) <==> FirstNamed(lines, p) < |lines|
  {
    if lines != [] {
      LiveHas(lines[1..], p);
    }
  }

  /** Clearing removes exactly one occurrence of the pid, and finds it exactly when it is live. */
  lemma LiveClear(lines: seq<string>, p: int)
    requires Sized(lines)
    ensures FirstNamed(lines, p) < |lines| <==> p in Live(lines)
    ensures Live(ClearLines(lines, p)) == Live(lines) - multiset{p}
  {
    hide Atoi, Live;
    LiveHas(lines, p);
    var k := FirstNamed(lines, p);
    if k < |lines| {
      var line := ClearLine(lines[k]);
      LiveOne(line);
      LiveOne(lines[k]);
      LiveUpdate(lines, k, line);
    }
  }

  /** A marked line names the pid it was marked with: neither the 79-character cut nor the
      padding reaches the number. */
  lemma EntryNames(p: pid_t, tag: string, cmdline: string)
    ensures Names(Pad(Entry(p, tag, cmdline), WIDTH), p)
  {
    hide Atoi, Spaces, Pad, Dec;
    PidLength(p);
    var number, rest := Dec(p), "," + tag + "," + cmdline;
    NumberKept(number, rest);
    assert number + rest == number + "," + tag + "," + cmdline;
    var line := Pad(Entry(p, tag, cmdline), WIDTH);
    LineNames(line, p);
  }

  lemma LineNames(line: string, p: nat)
    requires |Dec(p)| < |line| && line[..|Dec(p)|] == Dec(p) && line[|Dec(p)|] == ','
    ensures Names(line, p)
  {
    hide Atoi;
    var number := Dec(p);
    var t := line[|number|..];
    assert line == number + t && line[0] == number[0];
    AtoiDec(p, t);
  }

  lemma NumberKept(number: string, rest: string)
    requires |number| <= 10 && |rest| > 0
    ensures var text := number + rest; var line := Pad(if |text| > WIDTH then text[..WIDTH] else text, WIDTH);
      line[..|number|] == number && line[|number|] == rest[0]
  {
  }

  lemma EntryNewlineFree(p: pid_t, tag: string, cmdline: string)
    requires NewlineFree(tag) && NewlineFree(cmdline)
    ensures NewlineFree(Entry(p, tag, cmdline))
  {
    DecNewlineFree(p);
  }

  lemma {:induction false} DecNewlineFree(n: nat)
    ensures NewlineFree(Dec(n))
  {
    if n >= 10 {
      DecNewlineFree(n / 10);
    }
  }

  // ---------------------------------------------------------------- the file

  /** Every line is 79 characters and a newline. */
  predicate Tidy(file: string) {
    |file| % LINE == 0 && forall i :: 0 <= i < |file| ==> (file[i] == '\n' <==> i % LINE == WIDTH)
  }

  function LineAt(file: string, i: nat): (line: string)
    requires LINE * i + LINE <= |file|
    ensures |line| == WIDTH
  {
    file[LINE * i..LINE * i + WIDTH]
  }

  /** The lines of a file, without their newlines. */
  function Lines(file: string): (lines: seq<string>)
    ensures Sized(lines) && |lines| == |file| / LINE
  {
    seq(|file| / LINE, i requires 0 <= i < |file| / LINE => LineAt(file, i))
  }

  /** Where `fgets` stops reading: after a newline, at the end of the file, or at the limit. */
  function ReadEnd(file: string, pos: nat, limit: nat): (e: nat)
    requires pos <= |file|
    ensures pos <= e <= |file| && e <= pos + limit && (pos < |file| && limit > 0 ==> pos < e)
    decreases limit
  {
    if pos == |file| || limit == 0 then pos
    else if file[pos] == '\n' then pos + 1
    else ReadEnd(file, pos + 1, limit - 1)
  }

  /** `fgets(buf, BUFLEN, fp)` at pos; the empty string stands for NULL. */
  function Fgets(file: string, pos: nat): (line: string)
    requires pos <= |file|
    ensures pos < |file| ==> |line| > 0
  {
    file[pos..ReadEnd(file, pos, FGETS)]
  }

  lemma Column(i: nat, j: nat)
    requires j < LINE
    ensures (LINE * i + j) % LINE == j
  {
  }

  lemma {:induction false} ReadEndTidy(file: string, i: nat, j: nat)
    requires Tidy(file) && LINE * i + LINE <= |file| && j < LINE
    ensures ReadEnd(file, LINE * i + j, LINE - j) == LINE * i + LINE
    decreases LINE - j
  {
    Column(i, j);
    if j < WIDTH {
      ReadEndTidy(file, i, j + 1);
    }
  }

  lemma LinesAt(file: string, i: nat)
    requires LINE * i + LINE <= |file|
    ensures i < |Lines(file)| && Lines(file)[i] == LineAt(file, i)
  {
  }

  /** In a tidy file `fgets` at the start of line i reads exactly line i. */
  lemma FgetsTidy(file: string, i: nat)
    requires Tidy(file) && LINE * i + LINE <= |file|
    ensures Fgets(file, LINE * i) == LineAt(file, i) + "\n"
  {
    hide ReadEnd;
    ReadEndTidy(file, i, 0);
    Column(i, WIDTH);
    assert file[LINE * i + WIDTH] == '\n';
  }

  /** Writing text over the file from pos on. */
  function WriteAt(file: string, pos: nat, text: string): (f: string)
    requires pos + |text| <= |file|
    ensures |f| == |file|
  {
    file[..pos] + text + file[pos + |text|..]
  }

  /** Overwriting line k with a newline-free line changes line k and nothing else. */
  lemma OverwriteLine(file: string, k: nat, line: string)
    requires Tidy(file) && LINE * k + LINE <= |file| && |line| == WIDTH && NewlineFree(line)
    ensures var f := WriteAt(file, LINE * k, line + "\n"); Tidy(f) && Lines(f) == Lines(file)[k := line]
  {
    var f := WriteAt(file, LINE * k, line + "\n");
    assert (LINE * k + WIDTH) % LINE == WIDTH;
    forall i | 0 <= i < |f| ensures f[i] == '\n' <==> i % LINE == WIDTH {
      if LINE * k <= i < LINE * k + WIDTH {
        assert f[i] == line[i - LINE * k] && i % LINE == i - LINE * k;
      }
    }
    forall i | 0 <= i < |f| / LINE ensures LineAt(f, i) == Lines(file)[k := line][i] {
      if i != k {
        assert LineAt(f, i) == LineAt(file, i);
      }
    }
  }

  lemma AppendLine(file: string, line: string)
    requires Tidy(file) && |line| == WIDTH && NewlineFree(line)
    ensures var f := file + line + "\n"; Tidy(f) && Lines(f) == Lines(file) + [line]
  {
    var f, n := file + line + "\n", |file| / LINE;
    assert |file| == LINE * n;
    forall i | 0 <= i < |f| ensures f[i] == '\n' <==> i % LINE == WIDTH {
      if |file| <= i { assert i % LINE == i - |file|; }
    }
    forall i | 0 <= i < |f| / LINE ensures LineAt(f, i) == (Lines(file) + [line])[i] {
      if i < n {
        assert LineAt(f, i) == LineAt(file, i);
      }
    }
  }

  lemma LineNewlineFree(file: string, k: nat)
    requires Tidy(file) && LINE * k + LINE <= |file|
    ensures NewlineFree(LineAt(file, k)) && file[LINE * k + WIDTH] == '\n'
  {
    forall i | 0 <= i < WIDTH ensures LineAt(file, k)[i] != '\n' {
      Column(k, i);
    }
    Column(k, WIDTH);
  }

  /** Writing '#' over the first character of line k frees that line. */
  lemma FreeLine(file: string, k: nat)
    requires Tidy(file) && LINE * k + LINE <= |file|
    ensures var f := WriteAt(file, LINE * k, "#"); Tidy(f) && Lines(f) == Lines(file)[k := ClearLine(Lines(file)[k])]
  {
    hide Tidy, Lines;
    LineNewlineFree(file, k);
    LinesAt(file, k);
    var line := ClearLine(LineAt(file, k));
    OverwriteLine(file, k, line);
    assert WriteAt(file, LINE * k, "#") == WriteAt(file, LINE * k, line + "\n");
  }

  lemma {:induction false} FirstFreeIs(lines: seq<string>, k: nat)
    requires Sized(lines) && k <= |lines| && (k < |lines| ==> Free(lines[k]))
    requires forall i :: 0 <= i < k ==> !Free(lines[i])
    ensures FirstFree(lines) == k
  {
    var f := FirstFree(lines);
  }

  lemma {:induction false} FirstNamedIs(lines: seq<string>, p: int, k: nat)
    requires Sized(lines) && k <= |lines| && (k < |lines| ==> Names(lines[k], p))
    requires forall i :: 0 <= i < k ==> !Names(lines[i], p)
    ensures FirstNamed(lines, p) == k
  {
    var f := FirstNamed(lines, p);
  }

  lemma PadNewlineFree(s: string)
    requires NewlineFree(s)
    ensures NewlineFree(Pad(s, WIDTH))
  {
  }

  class ZooFile {
    var file: string

    ghost predicate Valid()
      reads this
    {
      Tidy(file)
    }

    /** `zoo_open` of a file that did not exist. */
    constructor ()
      ensures Valid() && Lines(file) == [] && Live(Lines(file)) == multiset{}
    {
      file := "";
    }

    /** `zoo_mark`: first fit. */
    method Mark(entry: string)
      requires Valid() && NewlineFree(entry)
      modifies this
      ensures Valid() && Lines(file) == MarkLines(old(Lines(file)), Pad(entry, WIDTH))
    {
      hide Tidy, Lines, Pad, NewlineFree;
      var pos := 0;
      ghost var lines, k := Lines(file), 0;
      FileSize(file);
      PadNewlineFree(entry);
      while true
        invariant file == old(file) && pos == LINE * k && pos <= |file| && k <= |lines|
        invariant forall i :: 0 <= i < k ==> !Free(lines[i])
        decreases |file| - pos
      {
        var buf := Fgets(file, pos);
        if buf == "" {
          break;
        }
        FgetsTidy(file, k);
        LinesAt(file, k);
        if buf[0] == '#' {
          FirstFreeIs(lines, k);
          OverwriteLine(file, k, Pad(entry, WIDTH));
          file := WriteAt(file, pos, Pad(entry, |buf| - 1) + "\n");
          return;
        }
        pos, k := pos + |buf|, k + 1;
      }
      FirstFreeIs(lines, k);
      AppendLine(file, Pad(entry, WIDTH));
      file := file + Pad(entry, WIDTH) + "\n";
    }

    /** `zoo_mark_cmdline`: one more live line, naming p. */
    method MarkCmdline(p: pid_t, tag: string, cmdline: string)
      requires Valid() && NewlineFree(tag) && NewlineFree(cmdline)
      modifies this
      ensures Valid() && Lines(file) == MarkLines(old(Lines(file)), Pad(Entry(p, tag, cmdline), WIDTH))
      ensures Live(Lines(file)) == old(Live(Lines(file))) + multiset{p}
    {
      EntryNewlineFree(p, tag, cmdline);
      EntryNames(p, tag, cmdline);
      LiveMark(Lines(file), Pad(Entry(p, tag, cmdline), WIDTH), p);
      Mark(Entry(p, tag, cmdline));
    }

    /** `zoo_clear`: one live line naming p fewer; 1, and no change, exactly when there is none. */
    method Clear(p: pid_t) returns (r: int)
      requires Valid()
      modifies this
      ensures Valid() && Lines(file) == ClearLines(old(Lines(file)), p)
      ensures r == if p in old(Live(Lines(file))) then 0 else 1
      ensures Live(Lines(file)) == old(Live(Lines(file))) - multiset{p}
    {
      var pos := 0;
      ghost var lines, k := Lines(file), 0;
      LiveClear(lines, p);
      while true
        invariant file == old(file) && pos == LINE * k && pos <= |file| && k <= |lines|
        invariant forall i :: 0 <= i < k ==> !Names(lines[i], p)
        decreases |file| - pos
      {
        var buf := Fgets(file, pos);
        if buf == "" {
          break;
        }
        FgetsTidy(file, k);
        LinesAt(file, k);
        AtoiLine(lines[k]);
        if buf[0] != '#' && Atoi(buf) == p {
          FirstNamedIs(lines, p, k);
          FreeLine(file, k);
          file := WriteAt(file, pos, "#");
          return 0;
        }
        pos, k := pos + |buf|, k + 1;
      }
      FirstNamedIs(lines, p, k);
      return 1;
    }
  }

  /** The newline `fgets` leaves at the end does not disturb `atoi`. */
  lemma AtoiLine(line: string)
    ensures Atoi(line + "\n") == Atoi(line)
  {
    if line != "" {
      assert (line + "\n")[1..] == line[1..] + "\n" && (line + "\n")[0] == line[0];
      if IsSpace(line[0]) { AtoiLine(line[1..]); }
      DigitsLine(line[1..], 0);
      DigitsLine(line, 0);
    } else {
      assert "\n"[1..] == "";
    }
  }

  lemma {:induction false} DigitsLine(s: string, acc: int)
    ensures Digits(s + "\n", acc) == Digits(s, acc)
    decreases |s|
  {
    if s != "" {
      assert (s + "\n")[1..] == s[1..] + "\n" && (s + "\n")[0] == s[0];
      if IsDigit(s[0]) { DigitsLine(s[1..], acc * 10 + (s[0] - '0') as int); }
    }
  }

  // ---------------------------------------------------------------- whole runs

  datatype Op = MarkOp(p: pid_t, tag: string, cmdline: string) | ClearOp(p: pid_t)

  function Step(lines: seq<string>, op: Op): (r: seq<string>)
    requires Sized(lines)
    ensures Sized(r)
  {
    match op
    case MarkOp(p, tag, cmdline) => MarkLines(lines, Pad(Entry(p, tag, cmdline), WIDTH))
    case ClearOp(p) => ClearLines(lines, p)
  }

  /** The lines after a run from an empty file. */
  function Run(ops: seq<Op>): (lines: seq<string>)
    ensures Sized(lines)
  {
    if ops == [] then [] else Step(Run(ops[..|ops| - 1]), ops[|ops| - 1])
  }

  /** The largest number of entries live at once, at any time during the run. */
  function Peak(ops: seq<Op>): nat {
    if ops == [] then 0
    else
      var before, now := Peak(ops[..|ops| - 1]), |Live(Run(ops))|;
      if before < now then now else before
  }

  lemma {:induction false} LiveCount(lines: seq<string>)
    requires Sized(lines)
    ensures |Live(lines)| <= |lines|
    ensures |Live(lines)| == |lines| <==> FirstFree(lines) == |lines|
  {
    if lines != [] {
      LiveCount(lines[1..]);
    }
  }

  /** First fit never wastes a line: over any run the number of lines is the peak number of
      entries live at once. */
  lemma {:induction false} LinesArePeak(ops: seq<Op>)
    ensures |Run(ops)| == Peak(ops) >= |Live(Run(ops))|
  {
    if ops != [] {
      var init, op := ops[..|ops| - 1], ops[|ops| - 1];
      LinesArePeak(init);
      var lines := Run(init);
      LiveCount(lines);
      match op
      case MarkOp(p, tag, cmdline) =>
        var line := Pad(Entry(p, tag, cmdline), WIDTH);
        EntryNames(p, tag, cmdline);
        LiveMark(lines, line, p);
      case ClearOp(p) =>
        LiveClear(lines, p);
    }
  }

  /** A run of the file itself: it stays tidy, holds the lines described, and its size is 80
      characters for each entry of the peak. */
  method Replay(ops: seq<Op>) returns (z: ZooFile)
    requires forall i :: 0 <= i < |ops| && ops[i].MarkOp? ==> NewlineFree(ops[i].tag) && NewlineFree(ops[i].cmdline)
    ensures z.Valid() && Lines(z.file) == Run(ops) && |z.file| == LINE * Peak(ops)
  {
    hide Tidy, Lines, Pad, Peak, Live;
    z := new ZooFile();
    for i := 0 to |ops|
      invariant z.Valid() && fresh(z) && Lines(z.file) == Run(ops[..i])
    {
      assert ops[..i + 1][..i] == ops[..i];
      match ops[i] {
        case MarkOp(p, tag, cmdline) => z.MarkCmdline(p, tag, cmdline);
        case ClearOp(p) => var _ := z.Clear(p);
      }
    }
    assert ops[..|ops|] == ops;
    LinesArePeak(ops);
    FileSize(z.file);
  }

  lemma FileSize(file: string)
    requires Tidy(file)
    ensures |file| == LINE * |Lines(file)|
  {
  }
}
