/** tools/rand_lines.c: printing the lines of a file in random order, a block at a time.

    The draws of random_range are a parameter: draw(c, q) is try q of insertion c.  The text
    holds no NUL. */
module RandLines {

  const MAX_LN_SZ: nat := 4096
  const DEF_SIZE: nat := 4096

  // ---------------------------------------------------------------- the file

  /** Where a read of at most left characters from i stops: past a newline, at the end of the
      file, or when the buffer is full. */
  function StopAt(s: string, i: nat, left: nat): (k: nat)
    requires i <= |s|
    ensures i <= k <= |s| && (i < |s| && left > 0 ==> i < k)
    decreases left
  {
    if left == 0 || i == |s| then i else if s[i] == '\n' then i + 1 else StopAt(s, i + 1, left - 1)
  }

  /** The end of the fgets piece that starts at i. */
  function End(s: string, i: nat): (k: nat)
    requires i <= |s|
    ensures i <= k <= |s| && (i < |s| ==> i < k)
  {
    StopAt(s, i, MAX_LN_SZ - 1)
  }

  function Piece(s: string, i: nat): string { if i <= |s| then s[i..End(s, i)] else "" }

  /** The pieces of the file from i on. */
  function Pieces(s: string, i: nat): seq<string>
    requires i <= |s|
    decreases |s| - i
  {
    if i == |s| then [] else [Piece(s, i)] + Pieces(s, End(s, i))
  }

  class File {
    const s: string
    var pos: nat
    var eof: bool

    ghost predicate Valid()
      reads this`pos
    {
      pos <= |s|
    }

    constructor (s: string)
      ensures this.s == s && pos == 0 && !eof
    {
      this.s, pos, eof := s, 0, false;
    }

    /** `fgets` into a line buffer; the end-of-file mark is set if the read ran into the end. */
    method Fgets() returns (line: string, ok: bool)
      requires Valid()
      modifies this
      ensures Valid() && pos == End(s, old(pos)) && line == s[old(pos)..pos]
      ensures ok == (old(pos) < |s|) && (!ok ==> eof) && (eof ==> old(eof) || pos == |s|)
    {
      ghost var from := pos;
      var n, nl := 0, false;
      while n < MAX_LN_SZ - 1 && pos < |s| && !nl
        invariant from <= pos <= |s| && n <= MAX_LN_SZ - 1 && n == pos - from && (nl ==> n > 0)
        invariant StopAt(s, from, MAX_LN_SZ - 1) == if nl then pos else StopAt(s, pos, MAX_LN_SZ - 1 - n)
        invariant eof == old(eof)
        decreases MAX_LN_SZ - n
      {
        nl := s[pos] == '\n';
        pos := pos + 1;
        n := n + 1;
      }
      if n < MAX_LN_SZ - 1 && !nl {
        eof := true;
      }
      line, ok := s[pos - n..pos], n > 0;
    }

    /** `fseek`, which clears the end-of-file mark. */
    method Seek(to: nat)
      requires to <= |s|
      modifies this
      ensures pos == to && !eof && Valid()
    {
      pos, eof := to, false;
    }
  }

  // ---------------------------------------------------------------- the slots

  datatype Slot = Slot(used: bool, offset: nat)

  predicate Full(slots: seq<Slot>) { forall i :: 0 <= i < |slots| ==> slots[i].used }

  /** `rnd_insert`: the offset goes to a free slot, -1 if there is none; 75 random tries, then
      the first free slot. */
  method RndInsert(offsets: array<Slot>, offset: nat, draws: nat -> nat) returns (r: int)
    requires offsets.Length > 0
    modifies offsets
    ensures r == -1 <==> Full(old(offsets[..]))
    ensures r == -1 ==> offsets[..] == old(offsets[..])
    ensures r != -1 ==> 0 <= r < offsets.Length && !old(offsets[..])[r].used
    ensures r != -1 ==> offsets[..] == old(offsets[..])[r := Slot(true, offset)]
  {
    var quick := 0;
    while quick < 75
      invariant offsets[..] == old(offsets[..])
    {
      var randNum := draws(quick) % offsets.Length;
      if !offsets[randNum].used {
        offsets[randNum] := Slot(true, offset);
        return randNum;
      }
      quick := quick + 1;
    }
    var ind := 0;
    while ind < offsets.Length && offsets[ind].used
      invariant ind <= offsets.Length && offsets[..] == old(offsets[..])
      invariant forall j :: 0 <= j < ind ==> offsets[j].used
    {
      ind := ind + 1;
    }
    if ind >= offsets.Length {
      return -1;
    }
    offsets[ind] := Slot(true, offset);
    return ind;
  }

  /** The lines the used slots stand for, in slot order. */
  ghost function Lines(s: string, slots: seq<Slot>): seq<string> {
    if slots == [] then []
    else
      var n := |slots| - 1;
      Lines(s, slots[..n]) + if slots[n].used then [Piece(s, slots[n].offset)] else []
  }

  lemma {:induction false} LinesJoin(s: string, a: seq<Slot>, b: seq<Slot>)
    ensures Lines(s, a + b) == Lines(s, a) + Lines(s, b)
    decreases |b|
  {
    if b == [] {
      assert a + b == a;
    } else {
      var n := |b| - 1;
      assert (a + b)[..|a + b| - 1] == a + b[..n];
      LinesJoin(s, a, b[..n]);
    }
  }

  lemma LinesOne(s: string, x: Slot)
    ensures Lines(s, [x]) == if x.used then [Piece(s, x.offset)] else []
  {
    assert [x][..0] == [];
  }

  /** Filling a free slot adds its line, and nothing else changes. */
  lemma Insert(s: string, slots: seq<Slot>, r: nat, o: nat)
    requires r < |slots| && !slots[r].used
    ensures multiset(Lines(s, slots[r := Slot(true, o)])) == multiset(Lines(s, slots)) + multiset{Piece(s, o)}
  {
    var a, b, x := slots[..r], slots[r + 1..], Slot(true, o);
    assert slots == a + ([slots[r]] + b) && slots[r := x] == a + ([x] + b);
    LinesJoin(s, a, [slots[r]] + b);
    LinesJoin(s, [slots[r]], b);
    LinesJoin(s, a, [x] + b);
    LinesJoin(s, [x], b);
    LinesOne(s, slots[r]);
    LinesOne(s, x);
  }

  lemma {:induction false} LinesEmpty(s: string, slots: seq<Slot>)
    requires forall i :: 0 <= i < |slots| ==> !slots[i].used
    ensures Lines(s, slots) == []
  {
    if slots != [] { LinesEmpty(s, slots[..|slots| - 1]); }
  }

  lemma {:induction false} LinesFull(s: string, slots: seq<Slot>)
    ensures |Lines(s, slots)| <= |slots| && (Full(slots) ==> |Lines(s, slots)| == |slots|)
  {
    if slots != [] {
      var init := slots[..|slots| - 1];
      LinesFull(s, init);
      assert forall i :: 0 <= i < |init| ==> init[i] == slots[i];
    }
  }

  /** Every used slot's line ends by the offset read up to. */
  ghost predicate Behind(s: string, slots: seq<Slot>, coffset: nat) {
    forall i :: 0 <= i < |slots| && slots[i].used ==> slots[i].offset < |s| && End(s, slots[i].offset) <= coffset
  }

  // ---------------------------------------------------------------- blocks

  function Concat(xss: seq<seq<string>>): seq<string> {
    if xss == [] then [] else Concat(xss[..|xss| - 1]) + xss[|xss| - 1]
  }

  /** out is the pieces, cut into consecutive blocks of n (the last may be shorter), each block in
      some order. */
  ghost predicate InBlocks(out: seq<string>, pieces: seq<string>, n: nat) {
    exists outs: seq<seq<string>>, blocks: seq<seq<string>> ::
      out == Concat(outs) && pieces == Concat(blocks) && Shuffled(outs, blocks) && Cut(blocks, n, true)
  }

  ghost predicate Shuffled(outs: seq<seq<string>>, blocks: seq<seq<string>>) {
    |outs| == |blocks| && forall i :: 0 <= i < |outs| ==> multiset(outs[i]) == multiset(blocks[i])
  }

  ghost predicate Cut(blocks: seq<seq<string>>, n: nat, last: bool) {
    forall i :: 0 <= i < |blocks| ==> 0 < |blocks[i]| <= n && (i < |blocks| - 1 || !last ==> |blocks[i]| == n)
  }

  /** In particular the output is a permutation of the lines of the whole file. */
  lemma {:induction false} BlocksPermute(outs: seq<seq<string>>, blocks: seq<seq<string>>)
    requires Shuffled(outs, blocks)
    ensures multiset(Concat(outs)) == multiset(Concat(blocks))
    decreases |outs|
  {
    if outs != [] {
      var n := |outs| - 1;
      BlocksPermute(outs[..n], blocks[..n]);
      assert multiset(outs[n]) == multiset(blocks[n]);
    }
  }

  lemma InBlocksPermutes(out: seq<string>, pieces: seq<string>, n: nat)
    requires InBlocks(out, pieces, n)
    ensures multiset(out) == multiset(pieces)
  {
    var outs: seq<seq<string>>, blocks: seq<seq<string>> :|
      out == Concat(outs) && pieces == Concat(blocks) && Shuffled(outs, blocks) && Cut(blocks, n, true);
    BlocksPermute(outs, blocks);
  }

  /** The pieces put back together are the file. */
  function Text(lines: seq<string>): string { if lines == [] then "" else lines[0] + Text(lines[1..]) }

  lemma {:induction false} PiecesAreFile(s: string, i: nat)
    requires i <= |s|
    ensures Text(Pieces(s, i)) == s[i..]
    decreases |s| - i
  {
    if i < |s| {
      PiecesAreFile(s, End(s, i));
      var ps := Pieces(s, i);
      assert ps[0] == Piece(s, i) && ps[1..] == Pieces(s, End(s, i));
    }
  }

  // ---------------------------------------------------------------- rnd_file

  /** The slots hold the lines of block, read from the file up to coffset. */
  ghost predicate Held(s: string, slots: seq<Slot>, block: seq<string>, coffset: nat) {
    multiset(Lines(s, slots)) == multiset(block) && Behind(s, slots, coffset)
  }

  lemma HeldMore(s: string, slots: seq<Slot>, block: seq<string>, at: nat, r: nat)
    requires at < |s| && Held(s, slots, block, at) && r < |slots| && !slots[r].used
    ensures Held(s, slots[r := Slot(true, at)], block + [Piece(s, at)], End(s, at))
  {
    hide Lines, Piece;
    Insert(s, slots, r, at);
  }

  lemma RoomLeft(s: string, slots: seq<Slot>, block: seq<string>, coffset: nat)
    requires Held(s, slots, block, coffset) && |block| < |slots|
    ensures !Full(slots)
  {
    LinesFull(s, slots);
    assert |multiset(Lines(s, slots))| == |Lines(s, slots)| && |multiset(block)| == |block|;
  }

  /** The inner reading loop; inserting never fails. */
  method ReadBlock(f: File, offsets: array<Slot>, from: nat, c: nat, draw: (nat, nat) -> nat)
    returns (cnt: nat, coffset: nat, ghost block: seq<string>)
    requires f.Valid() && f.pos == from && !f.eof && offsets.Length > 0
    requires forall i :: 0 <= i < offsets.Length ==> !offsets[i].used
    modifies f, offsets
    ensures f.Valid() && coffset <= |f.s| && cnt == |block| <= offsets.Length && from <= coffset
    ensures Pieces(f.s, from) == block + Pieces(f.s, coffset) && Held(f.s, offsets[..], block, coffset)
    ensures cnt < offsets.Length ==> coffset == |f.s|
    ensures if cnt == 0 then f.eof && coffset == from else from < coffset
    ensures f.eof ==> coffset == |f.s|
  {
    hide Held, Pieces, Piece, End;
    ghost var n := offsets.Length;
    cnt, coffset, block := 0, from, [];
    HeldNothing(f.s, offsets[..], from);
    assert [] + Pieces(f.s, from) == Pieces(f.s, from);
    while cnt < offsets.Length
      invariant f.Valid() && f.pos == coffset <= |f.s| && cnt == |block| <= offsets.Length && from <= coffset
      invariant Pieces(f.s, from) == block + Pieces(f.s, coffset) && Held(f.s, offsets[..], block, coffset)
      invariant (if cnt == 0 then coffset == from else from < coffset) && (f.eof ==> coffset == |f.s|)
    {
      var line, ok := f.Fgets();
      if !ok {
        return;
      }
      RoomLeft(f.s, offsets[..], block, coffset);
      PiecesStep(f.s, coffset, block);
      ghost var was, at := offsets[..], coffset;
      var r := RndInsert(offsets, coffset, q => draw(c + cnt, q));
      assert 0 <= r; // the abort branch is never taken
      HeldMore(f.s, was, block, at, r);
      block := block + [Piece(f.s, at)];
      cnt := cnt + 1;
      coffset := f.pos;
    }
  }

  lemma HeldNothing(s: string, slots: seq<Slot>, at: nat)
    requires forall i :: 0 <= i < |slots| ==> !slots[i].used
    ensures Held(s, slots, [], at)
  {
    LinesEmpty(s, slots);
  }

  lemma PiecesStep(s: string, i: nat, block: seq<string>)
    requires i < |s|
    ensures i < End(s, i) && block + Pieces(s, i) == (block + [Piece(s, i)]) + Pieces(s, End(s, i))
  {
  }

  /** The printing loop: the lines of the used slots, in slot order. */
  method PrintBlock(f: File, offsets: array<Slot>, ghost coffset: nat) returns (lines: seq<string>)
    requires f.Valid() && coffset <= |f.s| && Behind(f.s, offsets[..], coffset) && (f.eof ==> coffset == |f.s|)
    modifies f
    ensures f.Valid() && lines == Lines(f.s, offsets[..]) && (f.eof ==> coffset == |f.s|)
  {
    hide Piece, End;
    lines := [];
    var cnt := 0;
    while cnt < offsets.Length
      invariant cnt <= offsets.Length && f.Valid() && lines == Lines(f.s, offsets[..cnt])
      invariant f.eof ==> coffset == |f.s|
    {
      assert offsets[..cnt + 1][..cnt] == offsets[..cnt];
      if offsets[cnt].used {
        assert offsets[..][cnt] == offsets[cnt];
        f.Seek(offsets[cnt].offset);
        var line, ok := f.Fgets();
        assert ok; // the error branch is never taken
        PieceIs(f.s, offsets[cnt].offset);
        lines := lines + [line];
      }
      cnt := cnt + 1;
    }
    assert offsets[..cnt] == offsets[..];
  }

  lemma PieceIs(s: string, i: nat)
    requires i <= |s|
    ensures Piece(s, i) == s[i..End(s, i)]
  {
  }

  method Clear(offsets: array<Slot>)
    modifies offsets
    ensures forall i :: 0 <= i < offsets.Length ==> !offsets[i].used
  {
    for i := 0 to offsets.Length
      invariant forall j :: 0 <= j < i ==> !offsets[j].used
    {
      offsets[i] := Slot(false, 0);
    }
  }

  /** What has been printed so far, with the file read up to coffset. */
  ghost predicate Progress(s: string, out: seq<string>, outs: seq<seq<string>>, blocks: seq<seq<string>>,
                           coffset: nat, n: nat)
  {
    && coffset <= |s| && out == Concat(outs) && Pieces(s, 0) == Concat(blocks) + Pieces(s, coffset)
    && Shuffled(outs, blocks) && Cut(blocks, n, coffset == |s|)
  }

  lemma ProgressMore(s: string, out: seq<string>, outs: seq<seq<string>>, blocks: seq<seq<string>>, from: nat, n: nat,
    lines: seq<string>, block: seq<string>, to: nat)
    requires Progress(s, out, outs, blocks, from, n) && from < to <= |s| && Pieces(s, from) == block + Pieces(s, to)
    requires multiset(lines) == multiset(block) && 0 < |block| <= n && (to < |s| ==> |block| == n)
    ensures Progress(s, out + lines, outs + [lines], blocks + [block], to, n)
  {
    hide Pieces;
    var os, bs := outs + [lines], blocks + [block];
    assert os[..|outs|] == outs && bs[..|blocks|] == blocks;
    assert Concat(blocks) + (block + Pieces(s, to)) == (Concat(blocks) + block) + Pieces(s, to);
  }

  /** `rnd_file`: the file's lines, shuffled within consecutive blocks of numlines. */
  method RndFile(f: File, numlines: int, draw: (nat, nat) -> nat) returns (out: seq<string>)
    requires f.pos == 0 && !f.eof
    modifies f
    ensures InBlocks(out, Pieces(f.s, 0), if numlines <= 0 then DEF_SIZE else numlines)
  {
    hide Progress, Held, Pieces, Behind, Cut;
    var n: nat := if numlines <= 0 then DEF_SIZE else numlines;
    var offsets := new Slot[n](_ => Slot(false, 0));
    var coffset: nat, c: nat := 0, 0;
    out := [];
    ghost var outs: seq<seq<string>>, blocks: seq<seq<string>> := [], [];
    ProgressStarts(f.s, n);
    while !f.eof
      invariant f.Valid() && Progress(f.s, out, outs, blocks, coffset, n) && coffset <= |f.s|
      invariant f.eof ==> coffset == |f.s|
      decreases |f.s| - coffset, !f.eof
    {
      f.Seek(coffset);
      Clear(offsets);
      ghost var from := coffset;
      var cnt;
      ghost var block;
      cnt, coffset, block := ReadBlock(f, offsets, coffset, c, draw);
      c := c + cnt;
      if cnt == 0 {
        continue;
      }
      HeldParts(f.s, offsets[..], block, coffset);
      var lines := PrintBlock(f, offsets, coffset);
      ProgressMore(f.s, out, outs, blocks, from, n, lines, block, coffset);
      out, outs, blocks := out + lines, outs + [lines], blocks + [block];
    }
    ProgressEnds(f.s, out, outs, blocks, n);
  }

  lemma ProgressStarts(s: string, n: nat)
    ensures Progress(s, [], [], [], 0, n)
  {
  }

  lemma ProgressEnds(s: string, out: seq<string>, outs: seq<seq<string>>, blocks: seq<seq<string>>, n: nat)
    requires Progress(s, out, outs, blocks, |s|, n)
    ensures InBlocks(out, Pieces(s, 0), n)
  {
    assert Concat(blocks) + [] == Concat(blocks);
  }

  lemma HeldParts(s: string, slots: seq<Slot>, block: seq<string>, coffset: nat)
    requires Held(s, slots, block, coffset)
    ensures Behind(s, slots, coffset) && multiset(Lines(s, slots)) == multiset(block)
  {
  }
}
