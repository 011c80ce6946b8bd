/** lib/write_log.c and include/old/write_log.h: the on-disk form of a write-log record.

    `struct wlog_rec_disk` is laid out as a little-endian System V compiler lays it out:
    seven 32-bit words, no bit-field crossing a word.  Packing leaves the unnamed bits
    (w_extra0, w_extra2 and the padding) as the stack left them; they are the Slack. */
module WlogCodec {
  import opened CMemory
  import opened Seqs

  type int32 = x: int | -0x8000_0000 <= x < 0x8000_0000
  type u32 = x: int | 0 <= x < 0x1_0000_0000
  type Bits17 = x: int | 0 <= x < 131072
  type Bits7 = x: int | 0 <= x < 128
  type Bits6 = x: int | 0 <= x < 64
  type Bits4 = x: int | 0 <= x < 16
  type Bit = x: int | 0 <= x < 2

  const HDR := 28          // sizeof(struct wlog_rec_disk)
  const MAX_HOST := 8      // WLOG_MAX_HOST
  const MAX_PATH := 128    // WLOG_MAX_PATH
  const MAX_PATTERN := 64  // WLOG_MAX_PATTERN
  const REC_MAX := 450     // WLOG_REC_MAX_SIZE, with sizeof(struct wlog_rec) = 248

  /** `struct wlog_rec`, the user's view.  The arrays have their C sizes. */
  datatype Rec = Rec(pid: int32, offset: int32, nbytes: int32, oflags: int32, done: int32, async: int32,
                     host: seq<byte>, hostlen: int32, path: seq<byte>, pathlen: int32,
                     pattern: seq<byte>, patternlen: int32)

  /** The named bit-fields of `struct wlog_rec_disk`. */
  datatype Header = Header(offset: u32, nbytes: u32, oflags: u32, pid: Bits17, pathlen: Bits7,
                           patternlen: Bits6, hostlen: Bits4, done: Bit, async: Bit)

  /** Its other bits. */
  datatype Slack = Slack(extra0: u32, pad4: int, pad5: int, extra2: u32)

  predicate Shape(r: Rec) {
    |r.host| == MAX_HOST + 1 && |r.path| == MAX_PATH + 1 && |r.pattern| == MAX_PATTERN + 1
  }

  // ---------------------------------------------------------------- words

  function Low(x: int): byte { x % 256 }

  function LE(w: u32): (r: seq<byte>)
    ensures |r| == 4
  {
    var x: int := w;
    [Low(x), Low(x / 256), Low(x / 65536), Low(x / 16777216)]
  }

  function Word(a: int, b: int, c: int, d: int): int { a + 256 * b + 65536 * c + 16777216 * d }

  function WordAt(b: seq<byte>, i: nat): (w: u32)
    requires i + 4 <= |b|
  {
    Word(b[i], b[i + 1], b[i + 2], b[i + 3])
  }

  lemma Digits(x: int)
    requires 0 <= x < 0x1_0000_0000
    ensures Word(Low(x), Low(x / 256), Low(x / 65536), Low(x / 16777216)) == x
  {
    var x1, x2, x3 := x / 256, x / 65536, x / 16777216;
    assert x1 / 256 == x2 && x2 / 256 == x3;
    assert x == Low(x) + 256 * x1 && x1 == Low(x1) + 256 * x2 && x2 == Low(x2) + 256 * x3 && x3 == Low(x3);
  }

  lemma SplitWord(b: seq<byte>, i: nat, w: u32)
    requires i + 4 <= |b| && b[i..i + 4] == LE(w)
    ensures WordAt(b, i) == w
  {
    var t := b[i..i + 4];
    assert t[0] == b[i] && t[1] == b[i + 1] && t[2] == b[i + 2] && t[3] == b[i + 3];
    Digits(w);
  }

  // ---------------------------------------------------------------- the fixed part

  function WordA(h: Header, s: Slack): int {
    h.pid + 131072 * h.pathlen + 16777216 * h.patternlen + 1073741824 * s.pad4
  }

  function WordB(h: Header, s: Slack): int {
    h.hostlen + 16 * h.done + 32 * h.async + 64 * s.pad5
  }

  predicate SlackOk(s: Slack) {
    0 <= s.pad4 < 4 && 0 <= s.pad5 < 67108864
  }

  /** The 28 bytes of the fixed part. */
  function Image(h: Header, s: Slack): (b: seq<byte>)
    requires SlackOk(s)
    ensures |b| == HDR
  {
    LE(h.offset) + LE(s.extra0) + LE(h.nbytes) + LE(h.oflags) + LE(WordA(h, s)) + LE(WordB(h, s)) + LE(s.extra2)
  }

  function HeaderOf(b: seq<byte>): Header
    requires |b| >= HDR
  {
    var a, c := WordAt(b, 16), WordAt(b, 20);
    Header(WordAt(b, 0), WordAt(b, 8), WordAt(b, 12), a % 131072, a / 131072 % 128, a / 16777216 % 64,
           c % 16, c / 16 % 2, c / 32 % 2)
  }

  function SlackOf(b: seq<byte>): (s: Slack)
    requires |b| >= HDR
    ensures SlackOk(s)
  {
    Slack(WordAt(b, 4), WordAt(b, 16) / 1073741824, WordAt(b, 20) / 64, WordAt(b, 24))
  }

  lemma ImageWords(h: Header, s: Slack, tail: seq<byte>)
    requires SlackOk(s)
    ensures var b := Image(h, s) + tail;
      && WordAt(b, 0) == h.offset && WordAt(b, 4) == s.extra0 && WordAt(b, 8) == h.nbytes
      && WordAt(b, 12) == h.oflags && WordAt(b, 16) == WordA(h, s) && WordAt(b, 20) == WordB(h, s)
      && WordAt(b, 24) == s.extra2
  {
    var b := Image(h, s) + tail;
    SplitWord(b, 0, h.offset);
    SplitWord(b, 4, s.extra0);
    SplitWord(b, 8, h.nbytes);
    SplitWord(b, 12, h.oflags);
    SplitWord(b, 16, WordA(h, s));
    SplitWord(b, 20, WordB(h, s));
    SplitWord(b, 24, s.extra2);
  }

  /** Reading back what was packed gives the same fields and leaves the same slack. */
  lemma ImageDecodes(h: Header, s: Slack, tail: seq<byte>)
    requires SlackOk(s)
    ensures HeaderOf(Image(h, s) + tail) == h && SlackOf(Image(h, s) + tail) == s
  {
    ImageWords(h, s, tail);
    FieldsA(h, s);
    FieldsB(h, s);
  }

  lemma FieldsA(h: Header, s: Slack)
    requires SlackOk(s)
    ensures var a := WordA(h, s);
      a % 131072 == h.pid && a / 131072 % 128 == h.pathlen && a / 16777216 % 64 == h.patternlen
      && a / 1073741824 == s.pad4
  {
    var a := WordA(h, s);
    assert a / 131072 == h.pathlen + 128 * h.patternlen + 8192 * s.pad4;
    assert a / 16777216 == h.patternlen + 64 * s.pad4;
  }

  lemma Split2(r: int, q: int)
    requires 0 <= r < 2
    ensures (r + 2 * q) % 2 == r
  {
  }

  lemma Split16(r: int, q: int)
    requires 0 <= r < 16
    ensures (r + 16 * q) / 16 == q && (r + 16 * q) % 16 == r
  {
  }

  lemma Split32(r: int, q: int)
    requires 0 <= r < 32
    ensures (r + 32 * q) / 32 == q
  {
  }

  lemma Split64(r: int, q: int)
    requires 0 <= r < 64
    ensures (r + 64 * q) / 64 == q
  {
  }

  lemma FieldsB(h: Header, s: Slack)
    requires SlackOk(s)
    ensures var a := WordB(h, s);
      a % 16 == h.hostlen && a / 16 % 2 == h.done && a / 32 % 2 == h.async && a / 64 == s.pad5
  {
    Split16(h.hostlen, h.done + 2 * h.async + 4 * s.pad5);
    Split2(h.done, h.async + 2 * s.pad5);
    Split32(h.hostlen + 16 * h.done, h.async + 2 * s.pad5);
    Split2(h.async, s.pad5);
    Split64(h.hostlen + 16 * h.done + 32 * h.async, s.pad5);
  }

  /** Two fixed parts with the same fields and the same slack are the same bytes. */
  lemma ImageOfDecoded(b: seq<byte>)
    requires |b| == HDR
    ensures Image(HeaderOf(b), SlackOf(b)) == b
  {
    var h, s := HeaderOf(b), SlackOf(b);
    SplitA(WordAt(b, 16));
    SplitB(WordAt(b, 20));
    assert WordA(h, s) == WordAt(b, 16) && WordB(h, s) == WordAt(b, 20);
    LEOfWord(b, 0); LEOfWord(b, 4); LEOfWord(b, 8); LEOfWord(b, 12); LEOfWord(b, 16); LEOfWord(b, 20); LEOfWord(b, 24);
    assert b == b[0..4] + b[4..8] + b[8..12] + b[12..16] + b[16..20] + b[20..24] + b[24..28];
  }

  lemma SplitA(a: u32)
    ensures a % 131072 + 131072 * (a / 131072 % 128) + 16777216 * (a / 16777216 % 64) + 1073741824 * (a / 1073741824) == a
  {
    assert a / 131072 / 128 == a / 16777216 && a / 16777216 / 64 == a / 1073741824;
  }

  lemma SplitB(a: u32)
    ensures a % 16 + 16 * (a / 16 % 2) + 32 * (a / 32 % 2) + 64 * (a / 64) == a
  {
    assert a / 16 / 2 == a / 32 && a / 32 / 2 == a / 64;
  }

  lemma LEOfWord(b: seq<byte>, i: nat)
    requires i + 4 <= |b|
    ensures LE(WordAt(b, i)) == b[i..i + 4]
  {
    BytesOfWord(b[i], b[i + 1], b[i + 2], b[i + 3]);
  }

  lemma BytesOfWord(a: byte, b: byte, c: byte, d: byte)
    ensures var w := Word(a, b, c, d);
      Low(w) == a && Low(w / 256) == b && Low(w / 65536) == c && Low(w / 16777216) == d
  {
    var w := Word(a, b, c, d);
    var w1: int := b + 256 * c + 65536 * d;
    var w2: int := c + 256 * d;
    assert w / 256 == w1 && w / 65536 == w2 && w / 16777216 == d;
  }

  // ---------------------------------------------------------------- records

  function U32(x: int32): u32 { if x < 0 then x + 0x1_0000_0000 else x }
  function S32(u: u32): int32 { if u < 0x8000_0000 then u else u - 0x1_0000_0000 }
  function Len(n: int32): int { if n > 0 then n else 0 }

  /** What `wlog_rec_pack` puts in the bit-fields: each value cut to its width. */
  function HeaderFor(r: Rec): Header {
    Header(U32(r.offset), U32(r.nbytes), U32(r.oflags), U32(r.pid) % 131072, Len(r.pathlen) % 128,
           Len(r.patternlen) % 64, Len(r.hostlen) % 16, U32(r.done) % 2, U32(r.async) % 2)
  }

  /** The copies stay inside `w_host`; `w_path` and `w_pattern` are longer than their widths allow. */
  predicate Packable(r: Rec) {
    Shape(r) && HeaderFor(r).hostlen <= MAX_HOST + 1
  }

  function VarLen(h: Header): nat { h.pathlen + h.hostlen + h.patternlen }

  /** A complete packed record, without the two length bytes that follow it in the file. */
  function Body(r: Rec, s: Slack): (b: seq<byte>)
    requires Packable(r) && SlackOk(s)
    ensures |b| == HDR + VarLen(HeaderFor(r))
  {
    var h := HeaderFor(r);
    Image(h, s) + (r.path[..h.pathlen] + r.host[..h.hostlen] + r.pattern[..h.patternlen])
  }

  /** A packed record whose length agrees with the lengths inside it. */
  predicate WellFormed(b: seq<byte>) {
    |b| >= HDR && |b| == HDR + VarLen(HeaderOf(b)) && HeaderOf(b).hostlen <= MAX_HOST + 1
  }

  function Zeros(n: nat): (z: seq<byte>)
    ensures |z| == n && forall i :: 0 <= i < n ==> z[i] == 0
  {
    seq(n, _ => 0)
  }

  function Padded(s: seq<byte>, n: nat): (t: seq<byte>)
    requires |s| <= n
    ensures |t| == n
  {
    s + Zeros(n - |s|)
  }

  /** A user record from its fixed fields and the three strings. */
  function Assemble(h: Header, path: seq<byte>, host: seq<byte>, pattern: seq<byte>): (r: Rec)
    requires |path| == h.pathlen && |host| == h.hostlen <= MAX_HOST + 1 && |pattern| == h.patternlen
    ensures Shape(r)
  {
    Rec(h.pid, S32(h.offset), S32(h.nbytes), S32(h.oflags), h.done, h.async,
        Padded(host, MAX_HOST + 1), h.hostlen, Padded(path, MAX_PATH + 1), h.pathlen,
        Padded(pattern, MAX_PATTERN + 1), h.patternlen)
  }

  function PathIn(h: Header, b: seq<byte>): seq<byte>
    requires |b| >= HDR + VarLen(h)
  {
    b[HDR..HDR + h.pathlen]
  }

  function HostIn(h: Header, b: seq<byte>): seq<byte>
    requires |b| >= HDR + VarLen(h)
  {
    b[HDR + h.pathlen..HDR + h.pathlen + h.hostlen]
  }

  function PatternIn(h: Header, b: seq<byte>): seq<byte>
    requires |b| >= HDR + VarLen(h)
  {
    b[HDR + h.pathlen + h.hostlen..HDR + VarLen(h)]
  }

  /** The part of `wlog_rec_unpack` after the fixed fields were read. */
  function UnpackWith(h: Header, b: seq<byte>): (r: Rec)
    requires |b| >= HDR + VarLen(h) && h.hostlen <= MAX_HOST + 1
    ensures Shape(r)
  {
    Assemble(h, PathIn(h, b), HostIn(h, b), PatternIn(h, b))
  }

  /** `wlog_rec_unpack`: the structure is zeroed and the pieces copied in. */
  function Unpack(b: seq<byte>): (r: Rec)
    requires |b| >= HDR && |b| >= HDR + VarLen(HeaderOf(b)) && HeaderOf(b).hostlen <= MAX_HOST + 1
    ensures Shape(r)
  {
    UnpackWith(HeaderOf(b), b)
  }

  /** What of a record survives being packed: every value cut to its bit-field, and of each
      string the part its stored length covers. */
  function Stored(r: Rec): (t: Rec)
    requires Packable(r)
  {
    var h := HeaderFor(r);
    Assemble(h, r.path[..h.pathlen], r.host[..h.hostlen], r.pattern[..h.patternlen])
  }

  lemma BodyWellFormed(r: Rec, s: Slack)
    requires Packable(r) && SlackOk(s)
    ensures HeaderOf(Body(r, s)) == HeaderFor(r) && WellFormed(Body(r, s))
  {
    var h := HeaderFor(r);
    ImageDecodes(h, s, r.path[..h.pathlen] + r.host[..h.hostlen] + r.pattern[..h.patternlen]);
  }

  lemma Pieces(h: Header, i: seq<byte>, path: seq<byte>, host: seq<byte>, pattern: seq<byte>)
    requires |i| == HDR && |path| == h.pathlen && |host| == h.hostlen && |pattern| == h.patternlen
    ensures var t := i + (path + host + pattern);
      |t| == HDR + VarLen(h) && PathIn(h, t) == path && HostIn(h, t) == host && PatternIn(h, t) == pattern
  {
  }

  /** Unpacking a packed record gives exactly what packing kept, whatever the slack bits. */
  lemma UnpackBody(r: Rec, s: Slack)
    requires Packable(r) && SlackOk(s)
    ensures WellFormed(Body(r, s)) && Unpack(Body(r, s)) == Stored(r)
  {
    BodyWellFormed(r, s);
    var h := HeaderFor(r);
    Pieces(h, Image(h, s), r.path[..h.pathlen], r.host[..h.hostlen], r.pattern[..h.patternlen]);
  }

  predicate ZeroFrom(s: seq<byte>, n: int) {
    0 <= n <= |s| && forall i :: n <= i < |s| ==> s[i] == 0
  }

  /** The record lies within the bit-field widths and its strings are zero-filled. */
  predicate Fits(r: Rec)
    requires Shape(r)
  {
    && 0 <= r.pid < 131072 && 0 <= r.done < 2 && 0 <= r.async < 2
    && 0 <= r.pathlen < 128 && ZeroFrom(r.path, r.pathlen)
    && 0 <= r.patternlen < 64 && ZeroFrom(r.pattern, r.patternlen)
    && 0 <= r.hostlen <= MAX_HOST + 1 && ZeroFrom(r.host, r.hostlen)
  }

  lemma KeptString(s: seq<byte>, n: nat)
    requires n <= |s|
    ensures Padded(s[..n], |s|) == s <==> ZeroFrom(s, n)
  {
    var t := Padded(s[..n], |s|);
    if t == s {
      assert forall i :: n <= i < |s| ==> s[i] == t[i];
    }
  }

  lemma Widths(r: Rec)
    ensures var h := HeaderFor(r);
      && (h.pid == r.pid <==> 0 <= r.pid < 131072)
      && (h.done == r.done <==> 0 <= r.done < 2) && (h.async == r.async <==> 0 <= r.async < 2)
      && (h.pathlen == r.pathlen <==> 0 <= r.pathlen < 128)
      && (h.patternlen == r.patternlen <==> 0 <= r.patternlen < 64)
      && (h.hostlen == r.hostlen <==> 0 <= r.hostlen < 16)
  {
  }

  /** Pack then unpack is the identity exactly on the records that fit.  In particular it is
      not for a path of WLOG_MAX_PATH bytes or a pattern of WLOG_MAX_PATTERN bytes, which
      the bit-fields are one bit too narrow for. */
  lemma RoundTripExactlyWhenFits(r: Rec, s: Slack)
    requires Packable(r) && SlackOk(s)
    ensures WellFormed(Body(r, s)) && (Unpack(Body(r, s)) == r <==> Fits(r))
  {
    UnpackBody(r, s);
    StoredExactlyWhenFits(r);
  }

  /** A record with a path of n bytes and nothing else. */
  function PathOnly(n: nat): (r: Rec)
    requires n <= MAX_PATH
    ensures Shape(r)
  {
    Rec(1, 0, 0, 0, 0, 0, Zeros(MAX_HOST + 1), 0, Padded(seq(n, _ => 97), MAX_PATH + 1), n, Zeros(MAX_PATTERN + 1), 0)
  }

  /** A path as long as WLOG_MAX_PATH allows does not come back, */
  lemma LongPathLost(r: Rec, s: Slack)
    requires Packable(r) && SlackOk(s) && r.pathlen == MAX_PATH
    ensures WellFormed(Body(r, s)) && Unpack(Body(r, s)) != r
  {
    hide Unpack, Body, WellFormed, Image, ZeroFrom, HeaderOf, HeaderFor;
    RoundTripExactlyWhenFits(r, s);
  }

  /** nor need there be anything else wrong with the record. */
  lemma PathOnlyPacks(n: nat)
    requires n <= MAX_PATH
    ensures Packable(PathOnly(n)) && PathOnly(n).pathlen == n && (Fits(PathOnly(n)) <==> n < MAX_PATH)
  {
    hide Zeros, Padded;
    ZeroTail(seq(n, _ => 97), MAX_PATH + 1);
    ZeroTail([], MAX_HOST + 1);
    ZeroTail([], MAX_PATTERN + 1);
  }

  lemma ZeroTail(s: seq<byte>, n: nat)
    requires |s| <= n
    ensures ZeroFrom(Padded(s, n), |s|)
    ensures s == [] ==> Padded(s, n) == Zeros(n)
  {
  }

  lemma StoredExactlyWhenFits(r: Rec)
    requires Packable(r)
    ensures Stored(r) == r <==> Fits(r)
  {
    Widths(r);
    var h, t := HeaderFor(r), Stored(r);
    KeptString(r.path, h.pathlen);
    KeptString(r.host, h.hostlen);
    KeptString(r.pattern, h.patternlen);
    assert t == r <==> h.pid == r.pid && h.done == r.done && h.async == r.async
                       && h.hostlen == r.hostlen && t.host == r.host && h.pathlen == r.pathlen && t.path == r.path
                       && h.patternlen == r.patternlen && t.pattern == r.pattern;
  }

  lemma SamePieces(h: Header, b: seq<byte>, t: seq<byte>)
    requires |b| >= HDR + VarLen(h) && |t| >= HDR + VarLen(h)
    requires b[HDR..HDR + VarLen(h)] == t[HDR..HDR + VarLen(h)]
    ensures PathIn(h, b) == PathIn(h, t) && HostIn(h, b) == HostIn(h, t) && PatternIn(h, b) == PatternIn(h, t)
  {
    var p, v := h.pathlen + h.hostlen, VarLen(h);
    OnePiece(b, t, v, 0, h.pathlen);
    OnePiece(b, t, v, h.pathlen, p);
    OnePiece(b, t, v, p, v);
  }

  lemma OnePiece(b: seq<byte>, t: seq<byte>, v: nat, i: nat, j: nat)
    requires i <= j <= v && HDR + v <= |b| && HDR + v <= |t| && b[HDR..HDR + v] == t[HDR..HDR + v]
    ensures b[HDR + i..HDR + j] == t[HDR + i..HDR + j]
  {
    SubSlice(b, HDR, HDR + v, i, j);
    SubSlice(t, HDR, HDR + v, i, j);
  }

  lemma SameWords(b: seq<byte>, t: seq<byte>)
    requires |b| >= HDR && |t| >= HDR && b[..HDR] == t[..HDR]
    ensures HeaderOf(b) == HeaderOf(t)
  {
    assert forall i :: 0 <= i < HDR ==> b[i] == b[..HDR][i] == t[..HDR][i] == t[i];
  }

  /** Unpacking looks at nothing beyond the record. */
  lemma UnpackIgnoresRest(b: seq<byte>, rest: seq<byte>)
    requires WellFormed(b)
    ensures HeaderOf(b + rest) == HeaderOf(b) && Unpack(b + rest) == Unpack(b)
  {
    var t := b + rest;
    assert t[..HDR] == b[..HDR] && t[HDR..|b|] == b[HDR..];
    SameWords(b, t);
    SamePieces(HeaderOf(b), b, t);
  }

  /** A record read back after its fixed part was overlaid from r: r's fields, the old strings. */
  function Overlaid(was: Rec, r: Rec): (t: Rec)
    requires Packable(r)
  {
    Stored(r).(host := was.host, path := was.path, pattern := was.pattern)
  }

  /** Overlaying the fixed part keeps a record well formed exactly when the new lengths add
      up to the old ones. */
  lemma OverlayWellFormed(b: seq<byte>, r: Rec, s: Slack)
    requires WellFormed(b) && Packable(r) && SlackOk(s)
    ensures var t := Image(HeaderFor(r), s) + b[HDR..];
      |t| == |b| && HeaderOf(t) == HeaderFor(r) && (WellFormed(t) <==> VarLen(HeaderFor(r)) == VarLen(HeaderOf(b)))
  {
    ImageDecodes(HeaderFor(r), s, b[HDR..]);
  }

  predicate SameLengths(b: seq<byte>, r: Rec)
    requires |b| >= HDR
  {
    var h, g := HeaderFor(r), HeaderOf(b);
    h.pathlen == g.pathlen && h.hostlen == g.hostlen && h.patternlen == g.patternlen
  }

  /** With the lengths unchanged, only the fixed fields change. */
  lemma OverlayKeepsStrings(b: seq<byte>, r: Rec, s: Slack)
    requires WellFormed(b) && Packable(r) && SlackOk(s) && SameLengths(b, r)
    ensures var t := Image(HeaderFor(r), s) + b[HDR..];
      WellFormed(t) && Unpack(t) == Overlaid(Unpack(b), r)
  {
    OverlayWellFormed(b, r, s);
    var t := Image(HeaderFor(r), s) + b[HDR..];
    assert t[HDR..] == b[HDR..];
    OverlaidStrings(HeaderOf(b), HeaderFor(r), b, t);
  }

  lemma OverlaidStrings(g: Header, h: Header, b: seq<byte>, t: seq<byte>)
    requires h.pathlen == g.pathlen && h.hostlen == g.hostlen <= MAX_HOST + 1 && h.patternlen == g.patternlen
    requires |b| == HDR + VarLen(g) && |t| == |b| && t[HDR..] == b[HDR..]
    ensures UnpackWith(h, t).host == UnpackWith(g, b).host && UnpackWith(h, t).path == UnpackWith(g, b).path
    ensures UnpackWith(h, t).pattern == UnpackWith(g, b).pattern
  {
    SamePieces(h, b, t);
  }

  /** Appending n bytes of a string to the packed part of buf. */
  method PackString(buf: array<byte>, at: nat, str: seq<byte>, ghost sofar: seq<byte>)
    requires at + |str| <= buf.Length && at == |sofar| && buf[..at] == sofar
    modifies buf
    ensures buf[..at + |str|] == sofar + str
    ensures forall j :: at + |str| <= j < buf.Length ==> buf[j] == old(buf[j])
  {
    Store(buf, at, str);
  }

  /** `wlog_rec_pack`: fills the front of buf and returns the number of bytes used. */
  method RecPack(r: Rec, buf: array<byte>, flag: bool) returns (len: nat)
    requires Packable(r) && buf.Length >= REC_MAX
    modifies buf
    ensures flag ==> len == |Body(r, SlackOf(old(buf[..])))| && buf[..len] == Body(r, SlackOf(old(buf[..])))
    ensures !flag ==> len == HDR && buf[..len] == Image(HeaderFor(r), SlackOf(old(buf[..])))
    ensures forall j :: len <= j < buf.Length ==> buf[j] == old(buf[j])
  {
    var h, s := HeaderFor(r), SlackOf(buf[..]);
    var image := Image(h, s);
    PackString(buf, 0, image, []);
    if !flag { return HDR; }
    len := PackStrings(r, h, buf, image);
  }

  /** The variable-length part: path, host, pattern. */
  method PackStrings(r: Rec, h: Header, buf: array<byte>, ghost image: seq<byte>) returns (len: nat)
    requires Shape(r) && h.hostlen <= MAX_HOST + 1 && buf.Length >= REC_MAX
    requires |image| == HDR && buf[..HDR] == image
    modifies buf
    ensures len == HDR + VarLen(h)
    ensures buf[..len] == image + (r.path[..h.pathlen] + r.host[..h.hostlen] + r.pattern[..h.patternlen])
    ensures forall j :: len <= j < buf.Length ==> buf[j] == old(buf[j])
  {
    var path, host, pattern := r.path[..h.pathlen], r.host[..h.hostlen], r.pattern[..h.patternlen];
    var at := HDR;
    PackString(buf, at, path, image);
    at := at + h.pathlen;
    PackString(buf, at, host, image + path);
    at := at + h.hostlen;
    PackString(buf, at, pattern, image + path + host);
    len := at + h.patternlen;
    assert image + (path + host + pattern) == image + path + host + pattern;
  }
}
