/** lib/write_log.c: the log file, appending, overlaying and the backward scan.

    The file is a sequence of bytes.  It refines a list of packed records (`bodies`), each
    followed in the file by its length in two bytes, high byte first.  The stored length is
    that of the record alone (lib/write_log.c:215-217), not, as include/old/write_log.h says,
    of the record with its length bytes. */
module WriteLog {
  import opened CMemory
  import opened Seqs
  import opened WlogCodec

  const WINDOW := 16384  // sizeof(buf) in wlog_scan_backward: BSIZE * 32

  ghost predicate Framable(bs: seq<seq<byte>>) {
    forall i :: 0 <= i < |bs| ==> HDR <= |bs[i]| < 65536
  }

  ghost predicate AllWellFormed(bs: seq<seq<byte>>) {
    bs == [] || (AllWellFormed(bs[..|bs| - 1]) && WellFormed(bs[|bs| - 1]))
  }

  /** The list of records the log stands for, oldest first. */
  ghost function Records(bs: seq<seq<byte>>): (rs: seq<Rec>)
    requires AllWellFormed(bs)
    ensures |rs| == |bs|
  {
    if bs == [] then [] else Records(bs[..|bs| - 1]) + [Unpack(bs[|bs| - 1])]
  }

  lemma {:induction false} RecordAt(bs: seq<seq<byte>>, i: nat)
    requires AllWellFormed(bs) && i < |bs|
    ensures WellFormed(bs[i]) && |bs[i]| <= 233 && Records(bs)[i] == Unpack(bs[i])
    decreases |bs|
  {
    if i < |bs| - 1 {
      RecordAt(bs[..|bs| - 1], i);
    }
  }

  lemma AppendRecord(bs: seq<seq<byte>>, b: seq<byte>)
    requires AllWellFormed(bs) && WellFormed(b)
    ensures AllWellFormed(bs + [b]) && Records(bs + [b]) == Records(bs) + [Unpack(b)]
  {
    assert (bs + [b])[..|bs|] == bs;
  }

  /** Replacing record k, when the replacement is well formed and only then. */
  lemma {:induction false} ReplaceRecord(bs: seq<seq<byte>>, k: nat, b: seq<byte>)
    requires AllWellFormed(bs) && k < |bs|
    ensures AllWellFormed(bs[k := b]) <==> WellFormed(b)
    ensures WellFormed(b) ==> Records(bs[k := b]) == Records(bs)[k := Unpack(b)]
    decreases |bs|
  {
    hide WellFormed, Unpack;
    var n := |bs| - 1;
    var t := bs[k := b];
    if k < n {
      ReplaceRecord(bs[..n], k, b);
      assert t[..n] == bs[..n][k := b] && t[n] == bs[n];
    } else {
      assert t[..n] == bs[..n] && t[n] == b;
    }
  }

  function Framed(b: seq<byte>): (f: seq<byte>)
    requires |b| < 65536
    ensures |f| == |b| + 2
  {
    b + [Low(|b| / 256), Low(|b|)]
  }

  ghost function Flatten(bs: seq<seq<byte>>): seq<byte>
    requires Framable(bs)
  {
    if bs == [] then [] else Flatten(bs[..|bs| - 1]) + Framed(bs[|bs| - 1])
  }

  /** Where record k begins in the file. */
  ghost function Start(bs: seq<seq<byte>>, k: nat): nat
    requires Framable(bs) && k <= |bs|
  {
    |Flatten(bs[..k])|
  }

  lemma FlattenAppend(bs: seq<seq<byte>>, b: seq<byte>)
    requires Framable(bs) && HDR <= |b| < 65536
    ensures Framable(bs + [b]) && Flatten(bs + [b]) == Flatten(bs) + Framed(b)
  {
    assert (bs + [b])[..|bs|] == bs;
  }

  /** The last record of a flattened list, seen from the end of the file. */
  lemma LastFrame(bs: seq<seq<byte>>, m: nat)
    requires Framable(bs) && 0 < m <= |bs|
    ensures Flatten(bs[..m]) == Flatten(bs[..m - 1]) + Framed(bs[m - 1])
  {
    assert bs[..m][..m - 1] == bs[..m - 1];
  }

  lemma StartIsZeroOrLarge(bs: seq<seq<byte>>, m: nat)
    requires Framable(bs) && m <= |bs|
    ensures if m == 0 then Start(bs, m) == 0 else Start(bs, m) >= HDR + 2
  {
    if m > 0 {
      LastFrame(bs, m);
    }
  }

  lemma {:induction false} FlattenPrefix(bs: seq<seq<byte>>, m: nat)
    requires Framable(bs) && m <= |bs|
    ensures Start(bs, m) <= |Flatten(bs)| && Flatten(bs)[..Start(bs, m)] == Flatten(bs[..m])
    decreases |bs|
  {
    if m == |bs| {
      assert bs[..m] == bs;
    } else {
      var init := bs[..|bs| - 1];
      FlattenPrefix(init, m);
      assert init[..m] == bs[..m];
    }
  }

  /** Replacing a record by one of the same length touches only its own bytes. */
  lemma {:induction false} FlattenUpdate(bs: seq<seq<byte>>, k: nat, b: seq<byte>)
    requires Framable(bs) && k < |bs| && |b| == |bs[k]|
    ensures Framable(bs[k := b]) && Start(bs, k) + |b| + 2 <= |Flatten(bs)|
    ensures Flatten(bs)[Start(bs, k)..Start(bs, k) + |b| + 2] == Framed(bs[k])
    ensures Flatten(bs[k := b]) == Overwrite(Flatten(bs), Start(bs, k), Framed(b))
    decreases |bs|
  {
    hide Flatten, Framed;
    var n := |bs| - 1;
    var init, last := bs[..n], Framed(bs[n]);
    LastOf(bs);
    LastOf(bs[k := b]);
    if k < n {
      FlattenUpdate(init, k, b);
      assert init[..k] == bs[..k] && bs[k := b][..n] == init[k := b];
      UpdateInFront(Flatten(init), last, Start(bs, k), Framed(b));
    } else {
      assert bs[k := b][..n] == init;
    }
  }

  lemma LastOf(bs: seq<seq<byte>>)
    requires Framable(bs) && bs != []
    ensures Flatten(bs) == Flatten(bs[..|bs| - 1]) + Framed(bs[|bs| - 1])
  {
  }

  /** Writing x over the bytes of f from `at` on. */
  function Overwrite(f: seq<byte>, at: nat, x: seq<byte>): seq<byte>
    requires at + |x| <= |f|
  {
    f[..at] + x + f[at + |x|..]
  }

  lemma UpdateInFront(f: seq<byte>, g: seq<byte>, at: nat, x: seq<byte>)
    requires at + |x| <= |f|
    ensures (f + g)[at..at + |x|] == f[at..at + |x|]
    ensures Overwrite(f + g, at, x) == Overwrite(f, at, x) + g
  {
    assert (f + g)[at + |x|..] == f[at + |x|..] + g;
  }

  /** Overwriting the fixed part of record k in the file is replacing record k in the list. */
  lemma OverlayFile(bs: seq<seq<byte>>, k: nat, image: seq<byte>)
    requires Framable(bs) && k < |bs| && |image| == HDR
    ensures var b := image + bs[k][HDR..]; var off := Start(bs, k);
      && Framable(bs[k := b]) && off + HDR <= |Flatten(bs)|
      && Flatten(bs[k := b]) == Overwrite(Flatten(bs), off, image)
  {
    hide Flatten;
    var b, off, f := image + bs[k][HDR..], Start(bs, k), Flatten(bs);
    FlattenUpdate(bs, k, b);
    var e := off + |b| + 2;
    SubSlice(f, off, e, HDR, |b| + 2);
    assert Framed(bs[k])[HDR..] == bs[k][HDR..] + [Low(|b| / 256), Low(|b|)];
    assert Framed(b) == image + f[off + HDR..e];
    assert f[off + HDR..] == f[off + HDR..e] + f[e..];
  }

  // ---------------------------------------------------------------- the scan, specified

  datatype Outcome =
    | Done       // the function returned 0
    | Undefined  // memcpy was called with a negative length
    | RunsOn     // the callback asked to stop, and the scan goes on at the window's start,
                 // which need not be the end of a record

  /** A `char` as the C compiler reads it. */
  function CharValue(b: byte, signedChar: bool): int {
    if signedChar && b >= 128 then b - 256 else b
  }

  /** With signed chars, a record of 128 bytes or more has a length byte that reads as negative. */
  predicate Misread(b: seq<byte>, signedChar: bool) {
    signedChar && |b| >= 128
  }

  /** How many records nrecs asks for. */
  function Quota(n: nat, nrecs: int): nat {
    if nrecs == 0 then n else if nrecs < 0 then 0 else if nrecs < n then nrecs else n
  }

  /** The i-th newest record. */
  ghost function Newest(bs: seq<seq<byte>>, i: nat): seq<byte>
    requires i < |bs|
  {
    bs[|bs| - 1 - i]
  }

  /** The k newest records of a list, newest first. */
  ghost function NewestFirst(rs: seq<Rec>, k: nat): (d: seq<Rec>)
    requires k <= |rs|
    ensures |d| == k
  {
    if k == 0 then [] else NewestFirst(rs, k - 1) + [rs[|rs| - k]]
  }

  ghost predicate NoneMisread(bs: seq<seq<byte>>, k: nat, signedChar: bool)
    requires k <= |bs|
  {
    forall i :: 0 <= i < k ==> !Misread(Newest(bs, i), signedChar)
  }

  /** The first k answers of the callback are all "continue". */
  ghost predicate NoStop(stops: set<nat>, k: int) {
    forall i :: 0 <= i < k ==> i !in stops
  }

  // The windows.  With m records still to come a window ends at Start(bs, m); it takes in those
  // that lie in it whole, and the next one ends where they begin.

  /** Going down from record m, the last one that begins at or after byte floor. */
  ghost function WholeFrom(bs: seq<seq<byte>>, m: nat, floor: int): (j: nat)
    requires Framable(bs) && m <= |bs|
    ensures j <= m
  {
    if m == 0 || Start(bs, m - 1) < floor then m else WholeFrom(bs, m - 1, floor)
  }

  /** With m records to come: how many are to come when the last window is read, the one that
      reaches back to the start of the file. */
  ghost function LastWindow(bs: seq<seq<byte>>, m: nat): (j: nat)
    requires Framable(bs) && m <= |bs|
    ensures j <= m
  {
    if m == 0 || Start(bs, m) <= WINDOW then m else LastWindow(bs, WholeFrom(bs, m - 1, Start(bs, m) - WINDOW))
  }

  /** What a complete scan has done, k being the number of records it handed to the callback. */
  ghost predicate Scanned(bs: seq<seq<byte>>, nrecs: int, signedChar: bool, stops: set<nat>, out: Outcome, k: nat)
    requires Framable(bs)
  {
    && k <= Quota(|bs|, nrecs)
    && NoneMisread(bs, k, signedChar) && NoStop(stops, k - 1)
    && match out
       case Done => if k > 0 && k - 1 in stops then |bs| - k < LastWindow(bs, |bs|) else k == Quota(|bs|, nrecs)
       case Undefined => k < Quota(|bs|, nrecs) && Misread(Newest(bs, k), signedChar) && NoStop(stops, k)
       case RunsOn => k > 0 && k - 1 in stops && |bs| - k >= LastWindow(bs, |bs|)
  }

  /** For a callback that never stops: the scan is well defined exactly when none of the
      records it is to deliver is misread, and then it delivers precisely those records. */
  lemma ScanWithoutStop(bs: seq<seq<byte>>, nrecs: int, signedChar: bool, stops: set<nat>, out: Outcome, k: nat)
    requires Framable(bs) && Scanned(bs, nrecs, signedChar, stops, out, k) && NoStop(stops, |bs|)
    ensures out == Done || out == Undefined
    ensures out == Done <==> NoneMisread(bs, Quota(|bs|, nrecs), signedChar)
    ensures out == Done ==> k == Quota(|bs|, nrecs)
  {
    if out.Undefined? { assert Misread(Newest(bs, k), signedChar); }
  }

  /** The first stop of the callback ends the scan if and only if the record it is given for
      lies in the last window read; the records up to that one have been delivered. */
  lemma StopObeyedExactly(bs: seq<seq<byte>>, nrecs: int, signedChar: bool, stops: set<nat>,
                          out: Outcome, k: nat, first: nat)
    requires Framable(bs) && Scanned(bs, nrecs, signedChar, stops, out, k)
    requires first < Quota(|bs|, nrecs) && first in stops && NoStop(stops, first)
    requires NoneMisread(bs, first + 1, signedChar)
    ensures k == first + 1 && out == if |bs| - 1 - first < LastWindow(bs, |bs|) then Done else RunsOn
  {
    hide LastWindow;
    assert k - 1 <= first;
    assert k > 0 && k - 1 in stops ==> k - 1 >= first;
  }

  /** On a log that fits one window a stop is always obeyed. */
  lemma ScanOneWindow(bs: seq<seq<byte>>, nrecs: int, signedChar: bool, stops: set<nat>,
                      out: Outcome, k: nat, first: nat)
    requires Framable(bs) && Scanned(bs, nrecs, signedChar, stops, out, k) && Start(bs, |bs|) <= WINDOW
    requires first < Quota(|bs|, nrecs) && first in stops && NoStop(stops, first)
    requires NoneMisread(bs, first + 1, signedChar)
    ensures out == Done && k == first + 1
  {
    StopObeyedExactly(bs, nrecs, signedChar, stops, out, k, first);
  }

  /** The log, the quota, the sign of char and the callback decide how a scan ends. */
  lemma ScanDecided(bs: seq<seq<byte>>, nrecs: int, signedChar: bool, stops: set<nat>,
                    o: Outcome, k: nat, p: Outcome, l: nat)
    requires Framable(bs) && Scanned(bs, nrecs, signedChar, stops, o, k) && Scanned(bs, nrecs, signedChar, stops, p, l)
    ensures o == p && k == l
  {
    hide LastWindow, Misread;
    if k < l {
      NotEarlier(bs, nrecs, signedChar, stops, o, k, p, l);
    } else if l < k {
      NotEarlier(bs, nrecs, signedChar, stops, p, l, o, k);
    }
  }

  lemma NotEarlier(bs: seq<seq<byte>>, nrecs: int, signedChar: bool, stops: set<nat>,
                   o: Outcome, k: nat, p: Outcome, l: nat)
    requires Framable(bs) && Scanned(bs, nrecs, signedChar, stops, o, k) && Scanned(bs, nrecs, signedChar, stops, p, l)
    ensures !(k < l)
  {
    hide LastWindow, Misread;
  }

  lemma {:induction false} StartMono(bs: seq<seq<byte>>, i: nat, j: nat)
    requires Framable(bs) && i <= j <= |bs|
    ensures Start(bs, i) <= Start(bs, j)
    decreases j
  {
    if i < j {
      LastFrame(bs, j);
      StartMono(bs, i, j - 1);
    }
  }

  lemma {:induction false} WholeFromIs(bs: seq<seq<byte>>, m: nat, floor: int, j: nat)
    requires Framable(bs) && j <= m <= |bs| && floor <= Start(bs, j)
    ensures WholeFrom(bs, m, floor) <= j
    ensures j > 0 && Start(bs, j - 1) < floor ==> WholeFrom(bs, m, floor) == j
    decreases m
  {
    hide Start;
    if j < m {
      StartMono(bs, j, m - 1);
      WholeFromIs(bs, m - 1, floor, j);
    }
  }

  /** One window further on: it took in the records from `next` to m - 1. */
  lemma NextWindow(bs: seq<seq<byte>>, m: nat, next: nat)
    requires Framable(bs) && next < m <= |bs| && Start(bs, m) > WINDOW
    requires Start(bs, next) >= Start(bs, m) - WINDOW
    ensures LastWindow(bs, m) <= next
    ensures next > 0 && Start(bs, next - 1) < Start(bs, m) - WINDOW ==> LastWindow(bs, m) == LastWindow(bs, next)
  {
    hide Start;
    WholeFromIs(bs, m - 1, Start(bs, m) - WINDOW, next);
  }

  // ---------------------------------------------------------------- the scan, running

  /** The bytes of the list's first m records that lie at or after `offset` are the bytes of
      buf between lo and hi. */
  ghost predicate InBuffer(buf: seq<byte>, lo: nat, hi: nat, bs: seq<seq<byte>>, m: nat, offset: nat)
    requires Framable(bs) && m <= |bs|
  {
    lo <= hi <= |buf| && offset <= Start(bs, m) && buf[lo..hi] == Flatten(bs[..m])[offset..]
  }

  /** The two bytes before hi are the length of record m - 1, and if the buffer reaches back
      that far, the bytes before those are the record. */
  lemma FrameInBuffer(buf: seq<byte>, lo: nat, hi: nat, bs: seq<seq<byte>>, m: nat, offset: nat)
    requires Framable(bs) && m <= |bs| && InBuffer(buf, lo, hi, bs, m, offset) && hi - lo >= 2
    ensures m > 0
    ensures buf[hi - 2] == Low(|bs[m - 1]| / 256) && buf[hi - 1] == Low(|bs[m - 1]|)
    ensures var len := |bs[m - 1]|;
      hi - lo >= len + 2 ==>
        buf[hi - len - 2..hi - 2] == bs[m - 1] && InBuffer(buf, lo, hi - len - 2, bs, m - 1, offset)
    ensures offset == 0 ==> hi - lo >= |bs[m - 1]| + 2
  {
    StartIsZeroOrLarge(bs, m);
    LastFrame(bs, m);
    var p, q, b := Flatten(bs[..m]), Flatten(bs[..m - 1]), bs[m - 1];
    var w := buf[lo..hi];
    assert w[|w| - 2] == p[|p| - 2] && w[|w| - 1] == p[|p| - 1];
    if hi - lo >= |b| + 2 {
      BackUp(buf, lo, hi, p, q, b, offset);
    }
  }

  lemma BackUp(buf: seq<byte>, lo: nat, hi: nat, p: seq<byte>, q: seq<byte>, b: seq<byte>, offset: nat)
    requires lo <= hi <= |buf| && |b| < 65536 && p == q + Framed(b) && offset <= |p| && buf[lo..hi] == p[offset..]
    requires hi - lo >= |b| + 2
    ensures offset <= |q| && buf[hi - |b| - 2..hi - 2] == b && buf[lo..hi - |b| - 2] == q[offset..]
  {
    var n := hi - lo;
    SubSlice(buf, lo, hi, n - |b| - 2, n - 2);
    SubSlice(buf, lo, hi, 0, n - |b| - 2);
    SubSlice(p, offset, |p|, n - |b| - 2, n - 2);
    SubSlice(p, offset, |p|, 0, n - |b| - 2);
    assert p[offset..] == p[offset..|p|];
    assert p[|q|..|q| + |b|] == b && p[offset..|q|] == q[offset..];
  }

  /** How one window's worth of scanning ends. */
  datatype WindowEnd =
    | Again(leftover: nat)  // the rest of the window is part of a record: read on
    | Full                  // nrecs records have been delivered
    | Stopped               // the callback said so, for the record after `recnum`
    | Bad                   // a negative record length

  /** Records delivered so far: the k newest, none of them misread and none stopped at. */
  ghost predicate Progress(bs: seq<seq<byte>>, rs: seq<Rec>, signedChar: bool, k: nat, d: seq<Rec>) {
    k <= |bs| == |rs| && d == NewestFirst(rs, k) && NoneMisread(bs, k, signedChar)
  }

  lemma DeliverOne(bs: seq<seq<byte>>, rs: seq<Rec>, signedChar: bool, k: nat, d: seq<Rec>)
    requires k < |bs| && Progress(bs, rs, signedChar, k, d) && !Misread(Newest(bs, k), signedChar)
    ensures Progress(bs, rs, signedChar, k + 1, d + [rs[|rs| - 1 - k]])
  {
  }

  /** The record length as the code computes it from the two bytes before cp. */
  function RecLen(hi: byte, lo: byte, signedChar: bool): int {
    CharValue(hi, signedChar) * 256 + CharValue(lo, signedChar)
  }

  /** For a record in the log the code reads its true length, or a negative one. */
  lemma ReadLength(bs: seq<seq<byte>>, k: nat, signedChar: bool)
    requires AllWellFormed(bs) && k < |bs|
    ensures var b := Newest(bs, k);
      && HDR <= |b| <= 233
      && RecLen(Low(|b| / 256), Low(|b|), signedChar) == if Misread(b, signedChar) then |b| - 256 else |b|
  {
    RecordAt(bs, |bs| - 1 - k);
    LengthBytes(|Newest(bs, k)|, signedChar);
  }

  lemma LengthBytes(n: nat, signedChar: bool)
    requires n <= 233
    ensures RecLen(Low(n / 256), Low(n), signedChar) == if signedChar && n >= 128 then n - 256 else n
  {
    assert n / 256 == 0;
  }

  /** Copying a record to the aligned buffer and unpacking it there. */
  method TakeRecord(buf: array<byte>, albuf: array<byte>, cp: nat, reclen: nat, ghost b: seq<byte>) returns (r: Rec)
    requires buf != albuf && albuf.Length == REC_MAX && cp + reclen <= buf.Length
    requires WellFormed(b) && |b| == reclen && buf[cp..cp + reclen] == b
    modifies albuf
    ensures r == Unpack(b)
  {
    hide HeaderOf;
    Memcpy(albuf, 0, buf, cp, reclen);
    assert albuf[..] == b + albuf[reclen..];
    UnpackIgnoresRest(b, albuf[reclen..]);
    r := Unpack(albuf[..]);
  }

  /** Moving the unread bytes of a window to the end of the buffer. */
  method CarryOver(buf: array<byte>, bufstart: nat, leftover: nat,
                   ghost bs: seq<seq<byte>>, ghost m: nat, ghost offset: nat)
    requires buf.Length == WINDOW && bufstart + leftover <= WINDOW - leftover
    requires Framable(bs) && m <= |bs| && InBuffer(buf[..], bufstart, bufstart + leftover, bs, m, offset)
    modifies buf
    ensures InBuffer(buf[..], WINDOW - leftover, WINDOW, bs, m, offset)
  {
    ghost var unread := buf[bufstart..bufstart + leftover];
    Memcpy(buf, WINDOW - leftover, buf, bufstart, leftover);
    assert buf[..][WINDOW - leftover..WINDOW] == unread;
  }

  lemma NoStopStep(stops: set<nat>, k: nat)
    requires NoStop(stops, k) && k !in stops
    ensures NoStop(stops, k + 1)
  {
  }

  /** What stands before cp in the window. */
  datatype Found =
    | Short                    // not a whole record with its length
    | Negative                 // a record whose length reads as negative
    | Record(r: Rec, cp: nat)  // a record, beginning at cp

  lemma StartBefore(bs: seq<seq<byte>>, k: nat)
    requires Framable(bs) && k <= |bs|
    ensures k < |bs| ==> Start(bs, |bs| - k) == Start(bs, |bs| - k - 1) + |Newest(bs, k)| + 2
  {
    if k < |bs| { LastFrame(bs, |bs| - k); }
  }

  /** One turn of the inner loop, up to the callback. */
  method FindRecord(buf: array<byte>, albuf: array<byte>, bufstart: nat, cp: nat, signedChar: bool,
                    ghost bs: seq<seq<byte>>, ghost k: nat, ghost offset: nat)
    returns (f: Found)
    requires AllWellFormed(bs) && Framable(bs) && k <= |bs|
    requires buf.Length == WINDOW && albuf.Length == REC_MAX && buf != albuf
    requires InBuffer(buf[..], bufstart, cp, bs, |bs| - k, offset)
    modifies albuf
    ensures match f
      case Short => cp - bufstart <= 234 && if offset == 0 then k == |bs| && cp == bufstart
                                            else k < |bs| && Start(bs, |bs| - k - 1) < offset
      case Negative => k < |bs| && Misread(Newest(bs, k), signedChar)
      case Record(r, next) =>
        && k < |bs| && !Misread(Newest(bs, k), signedChar) && r == Records(bs)[|bs| - 1 - k]
        && bufstart <= next < cp && InBuffer(buf[..], bufstart, next, bs, |bs| - k - 1, offset)
  {
    hide AllWellFormed, WellFormed, Unpack, Records, Flatten;
    StartIsZeroOrLarge(bs, |bs| - k);
    StartBefore(bs, k);
    if cp - bufstart < 2 {
      return Short;
    }
    FrameInBuffer(buf[..], bufstart, cp, bs, |bs| - k, offset);
    ReadLength(bs, k, signedChar);
    var reclen := RecLen(buf[cp - 2], buf[cp - 1], signedChar);
    if cp - bufstart < reclen + 2 {
      return Short;
    }
    if reclen < 0 {
      return Negative;
    }
    RecordAt(bs, |bs| - 1 - k);
    var r := TakeRecord(buf, albuf, cp - (reclen + 2), reclen, Newest(bs, k));
    return Record(r, cp - (reclen + 2));
  }

  lemma BufferFloor(buf: seq<byte>, lo: nat, hi: nat, bs: seq<seq<byte>>, m: nat, offset: nat)
    requires Framable(bs) && m <= |bs| && InBuffer(buf, lo, hi, bs, m, offset)
    ensures offset + (hi - lo) == Start(bs, m)
  {
  }

  /** The inner loop of `wlog_scan_backward`. */
  method ScanWindow(buf: array<byte>, albuf: array<byte>, bufstart: nat, offset: nat, nrecs: int, from: nat,
                    signedChar: bool, stops: set<nat>, sofar: seq<Rec>, ghost bs: seq<seq<byte>>, ghost rs: seq<Rec>)
    returns (end: WindowEnd, recnum: nat, d: seq<Rec>)
    requires AllWellFormed(bs) && Framable(bs) && rs == Records(bs)
    requires from <= |bs| && Progress(bs, rs, signedChar, from, sofar) && NoStop(stops, from)
    requires buf.Length == WINDOW && albuf.Length == REC_MAX && buf != albuf
    requires bufstart <= WINDOW && (offset > 0 ==> bufstart == 0)
    requires InBuffer(buf[..], bufstart, WINDOW, bs, |bs| - from, offset)
    requires nrecs == 0 || from < nrecs
    modifies buf, albuf
    ensures from <= recnum <= |bs| && NoStop(stops, recnum) && (nrecs == 0 || recnum <= nrecs)
    ensures !end.Stopped? ==> Progress(bs, rs, signedChar, recnum, d)
    ensures !end.Full? ==> nrecs == 0 || recnum < nrecs
    ensures match end
      case Again(leftover) =>
        && leftover <= 234 && InBuffer(buf[..], WINDOW - leftover, WINDOW, bs, |bs| - recnum, offset)
        && if offset == 0 then recnum == |bs| else from < recnum < |bs| && Start(bs, |bs| - recnum - 1) < offset
      case Full => recnum == nrecs > 0
      case Stopped => recnum < |bs| && recnum in stops && Progress(bs, rs, signedChar, recnum + 1, d)
                      && offset <= Start(bs, |bs| - recnum - 1)
      case Bad => recnum < |bs| && Misread(Newest(bs, recnum), signedChar)
  {
    hide AllWellFormed, Progress, NoStop, Flatten, InBuffer, Records, Misread;
    var cp: nat := WINDOW;
    recnum, d := from, sofar;
    while true
      invariant bufstart <= cp <= WINDOW && from <= recnum <= |bs| && NoStop(stops, recnum)
      invariant Progress(bs, rs, signedChar, recnum, d) && (nrecs == 0 || recnum < nrecs)
      invariant InBuffer(buf[..], bufstart, cp, bs, |bs| - recnum, offset)
      invariant from < recnum || cp == WINDOW
      decreases cp
    {
      var f := FindRecord(buf, albuf, bufstart, cp, signedChar, bs, recnum, offset);
      match f {
        case Short =>
          var leftover := cp - bufstart;
          CarryOver(buf, bufstart, leftover, bs, |bs| - recnum, offset);
          return Again(leftover), recnum, d;
        case Negative =>
          return Bad, recnum, d;
        case Record(r, next) =>
          cp := next;
          BufferFloor(buf[..], bufstart, cp, bs, |bs| - recnum - 1, offset);
          DeliverOne(bs, rs, signedChar, recnum, d);
          d := d + [r];
          if recnum in stops {
            return Stopped, recnum, d;
          }
          NoStopStep(stops, recnum);
          recnum := recnum + 1;
          if nrecs != 0 && recnum >= nrecs {
            return Full, recnum, d;
          }
      }
    }
  }

  /** `read` into the window, in front of the bytes carried over from the previous one. */
  method ReadWindow(buf: array<byte>, bufstart: nat, leftover: nat, file: seq<byte>, offset: nat,
                    ghost bs: seq<seq<byte>>, ghost m: nat)
    requires Framable(bs) && m <= |bs| && file == Flatten(bs)
    requires buf.Length == WINDOW && bufstart + leftover <= WINDOW
    requires InBuffer(buf[..], WINDOW - leftover, WINDOW, bs, m, offset + (WINDOW - bufstart - leftover))
    modifies buf
    ensures InBuffer(buf[..], bufstart, WINDOW, bs, m, offset)
  {
    hide Flatten;
    var nbytes := WINDOW - bufstart - leftover;
    ghost var p, carried := Flatten(bs[..m]), buf[WINDOW - leftover..];
    FlattenPrefix(bs, m);
    var chunk := file[offset..offset + nbytes];
    assert chunk == p[offset..offset + nbytes] by { SubSlice(file, 0, |p|, offset, offset + nbytes); }
    Store(buf, bufstart, chunk);
    assert buf[..][bufstart..WINDOW] == chunk + carried;
    assert p[offset..] == p[offset..offset + nbytes] + p[offset + nbytes..];
  }

  /** The next window: the file offset moves back, and the bytes before those carried over are
      read. */
  method NextRead(buf: array<byte>, at: nat, leftover: nat, file: seq<byte>, ghost bs: seq<seq<byte>>, ghost m: nat)
    returns (offset: nat, bufstart: nat)
    requires Framable(bs) && m <= |bs| && file == Flatten(bs) && buf.Length == WINDOW && leftover <= 234
    requires at > 0 && InBuffer(buf[..], WINDOW - leftover, WINDOW, bs, m, at)
    modifies buf
    ensures offset == (if Start(bs, m) <= WINDOW then 0 else Start(bs, m) - WINDOW) && offset < at
    ensures bufstart <= WINDOW && (offset > 0 ==> bufstart == 0) && InBuffer(buf[..], bufstart, WINDOW, bs, m, offset)
  {
    hide Flatten;
    BufferFloor(buf[..], WINDOW - leftover, WINDOW, bs, m, at);
    if at + leftover < WINDOW {
      offset, bufstart := 0, WINDOW - (at + leftover);
    } else {
      offset, bufstart := at - (WINDOW - leftover), 0;
    }
    ReadWindow(buf, bufstart, leftover, file, offset, bs, m);
  }

  /** Where the scan stands between two windows. */
  ghost predicate Underway(bs: seq<seq<byte>>, rs: seq<Rec>, nrecs: int, signedChar: bool, stops: set<nat>,
                           recnum: nat, offset: nat, d: seq<Rec>)
    requires Framable(bs)
  {
    && recnum <= |bs| && Progress(bs, rs, signedChar, recnum, d) && NoStop(stops, recnum)
    && (nrecs == 0 || recnum == 0 || recnum < nrecs)
    && if offset == 0 then recnum == |bs| else LastWindow(bs, |bs| - recnum) == LastWindow(bs, |bs|)
  }

  /** What the end of a window, read with `from` records delivered, means for the scan. */
  lemma AfterWindow(bs: seq<seq<byte>>, rs: seq<Rec>, nrecs: int, signedChar: bool, stops: set<nat>,
                    from: nat, at: nat, was: seq<Rec>, recnum: nat, offset: nat, d: seq<Rec>)
    requires Framable(bs) && Underway(bs, rs, nrecs, signedChar, stops, from, at, was) && at > 0
    requires offset == if Start(bs, |bs| - from) <= WINDOW then 0 else Start(bs, |bs| - from) - WINDOW
    requires from < recnum < |bs| && offset > 0
    requires Start(bs, |bs| - recnum - 1) < offset <= Start(bs, |bs| - recnum)
    requires Progress(bs, rs, signedChar, recnum, d) && NoStop(stops, recnum) && (nrecs == 0 || recnum < nrecs)
    ensures Underway(bs, rs, nrecs, signedChar, stops, recnum, offset, d)
  {
    hide Start, Progress, NoStop, LastWindow;
    NextWindow(bs, |bs| - from, |bs| - recnum);
  }

  /** A stop at the record after `recnum`. */
  lemma AfterStop(bs: seq<seq<byte>>, rs: seq<Rec>, nrecs: int, signedChar: bool, stops: set<nat>,
                  from: nat, at: nat, was: seq<Rec>, recnum: nat, offset: nat, d: seq<Rec>)
    requires Framable(bs) && Underway(bs, rs, nrecs, signedChar, stops, from, at, was) && at > 0
    requires offset == if Start(bs, |bs| - from) <= WINDOW then 0 else Start(bs, |bs| - from) - WINDOW
    requires from <= recnum < |bs| && offset <= Start(bs, |bs| - recnum - 1)
    requires Progress(bs, rs, signedChar, recnum + 1, d) && NoStop(stops, recnum) && (nrecs == 0 || recnum < nrecs)
    requires recnum in stops
    ensures Delivered(bs, rs, nrecs, signedChar, stops, if offset > 0 then RunsOn else Done, d)
  {
    hide Start;
    if offset > 0 { NextWindow(bs, |bs| - from, |bs| - recnum - 1); }
  }

  lemma AfterLast(bs: seq<seq<byte>>, rs: seq<Rec>, nrecs: int, signedChar: bool, stops: set<nat>,
                  recnum: nat, d: seq<Rec>)
    requires Framable(bs) && Progress(bs, rs, signedChar, recnum, d) && NoStop(stops, recnum)
    requires nrecs == 0 || recnum == 0 || recnum <= nrecs
    ensures recnum == |bs| || nrecs < 0 || recnum == nrecs > 0 ==> Delivered(bs, rs, nrecs, signedChar, stops, Done, d)
    ensures recnum < |bs| && (nrecs == 0 || recnum < nrecs) && Misread(Newest(bs, recnum), signedChar) ==>
      Delivered(bs, rs, nrecs, signedChar, stops, Undefined, d)
  {
    hide LastWindow;
  }

  /** A turn of the outer loop: one window read and scanned. */
  method OneWindow(buf: array<byte>, albuf: array<byte>, file: seq<byte>, at: nat, leftover: nat, nrecs: int, from: nat,
                   signedChar: bool, stops: set<nat>, sofar: seq<Rec>, ghost bs: seq<seq<byte>>, ghost rs: seq<Rec>)
    returns (end: WindowEnd, recnum: nat, d: seq<Rec>, offset: nat)
    requires AllWellFormed(bs) && Framable(bs) && rs == Records(bs) && file == Flatten(bs) && from <= |bs|
    requires Underway(bs, rs, nrecs, signedChar, stops, from, at, sofar) && at > 0 && (nrecs == 0 || from < nrecs)
    requires buf.Length == WINDOW && albuf.Length == REC_MAX && buf != albuf
    requires leftover <= 234 && InBuffer(buf[..], WINDOW - leftover, WINDOW, bs, |bs| - from, at)
    modifies buf, albuf
    ensures recnum <= |bs| && offset < at
    ensures match end
      case Again(n) =>
        && Underway(bs, rs, nrecs, signedChar, stops, recnum, offset, d)
        && n <= 234 && InBuffer(buf[..], WINDOW - n, WINDOW, bs, |bs| - recnum, offset)
      case Full => Delivered(bs, rs, nrecs, signedChar, stops, Done, d)
      case Bad => Delivered(bs, rs, nrecs, signedChar, stops, Undefined, d)
      case Stopped => Delivered(bs, rs, nrecs, signedChar, stops, if offset > 0 then RunsOn else Done, d)
  {
    hide AllWellFormed, Flatten, Progress, NoStop, Scanned, Start, Underway, Framable, Misread, InBuffer;
    UnderwayParts(bs, rs, nrecs, signedChar, stops, from, at, sofar);
    var bufstart;
    offset, bufstart := NextRead(buf, at, leftover, file, bs, |bs| - from);
    end, recnum, d := ScanWindow(buf, albuf, bufstart, offset, nrecs, from, signedChar, stops, sofar, bs, rs);
    match end {
      case Again(n) =>
        BufferFloor(buf[..], WINDOW - n, WINDOW, bs, |bs| - recnum, offset);
        if offset > 0 {
          AfterWindow(bs, rs, nrecs, signedChar, stops, from, at, sofar, recnum, offset, d);
        } else {
          UnderwayLast(bs, rs, nrecs, signedChar, stops, d);
        }
      case Stopped => AfterStop(bs, rs, nrecs, signedChar, stops, from, at, sofar, recnum, offset, d);
      case _ => AfterLast(bs, rs, nrecs, signedChar, stops, recnum, d);
    }
  }

  /** The scan has ended, having handed over d. */
  ghost predicate Delivered(bs: seq<seq<byte>>, rs: seq<Rec>, nrecs: int, signedChar: bool, stops: set<nat>,
                            out: Outcome, d: seq<Rec>)
    requires Framable(bs)
  {
    |d| <= |bs| == |rs| && d == NewestFirst(rs, |d|) && Scanned(bs, nrecs, signedChar, stops, out, |d|)
  }

  lemma NothingYet(bs: seq<seq<byte>>, rs: seq<Rec>, signedChar: bool, stops: set<nat>)
    requires |rs| == |bs|
    ensures Progress(bs, rs, signedChar, 0, []) && NoStop(stops, 0)
  {
  }

  /** The bytes an append writes: the packed record and its length. */
  method PackFramed(r: Rec, stack: seq<byte>) returns (record: seq<byte>)
    requires Packable(r) && |stack| == REC_MAX + 2
    ensures HDR <= |Body(r, SlackOf(stack))| < 65536 && record == Framed(Body(r, SlackOf(stack)))
  {
    hide HeaderOf, Image, HeaderFor;
    var wbuf := new byte[REC_MAX + 2];
    Store(wbuf, 0, stack);
    assert wbuf[..] == stack;
    var reclen := RecPack(r, wbuf, true);
    wbuf[reclen] := Low(reclen / 256);
    wbuf[reclen + 1] := Low(reclen);
    record := wbuf[..reclen + 2];
  }

  /** A write log open for appending and for random access. */
  class Log {
    var file: seq<byte>
    ghost var bodies: seq<seq<byte>>

    /** The file is a list of framed records. */
    ghost predicate Framing()
      reads this
    {
      Framable(bodies) && file == Flatten(bodies)
    }

    /** ... each of which can be unpacked. */
    ghost predicate Valid()
      reads this
    {
      AllWellFormed(bodies) && Framing()
    }

    /** `wlog_open` with the truncate flag. */
    constructor ()
      ensures Valid() && bodies == []
    {
      file, bodies := [], [];
    }

    /** `wlog_record_write` with a negative offset: the record goes to the end of the file and
        its starting offset is returned.  `stack` is what the uninitialised buffer holds. */
    method Append(r: Rec, stack: seq<byte>) returns (offset: int)
      requires Framing() && Packable(r) && |stack| == REC_MAX + 2
      modifies this
      ensures Framing() && bodies == old(bodies) + [Body(r, SlackOf(stack))]
      ensures offset == |old(file)| == Start(bodies, |old(bodies)|)
      ensures old(file) <= file
      ensures old(Valid()) ==> Valid() && Records(bodies) == old(Records(bodies)) + [Stored(r)]
    {
      hide HeaderOf, Flatten, Image, HeaderFor, AllWellFormed, Body, Framed;
      var record := PackFramed(r, stack);
      file := file + record;
      offset := |file| - |record|;

      ghost var b := Body(r, SlackOf(stack));
      FlattenAppend(bodies, b);
      UnpackBody(r, SlackOf(stack));
      if AllWellFormed(bodies) { AppendRecord(bodies, b); }
      bodies := bodies + [b];
      assert bodies[..|old(bodies)|] == old(bodies);
    }

    /** `wlog_record_write` with the offset of record k: exactly the fixed part of that record
        is rewritten.  The log stays readable exactly when the three lengths still add up;
        with each of them unchanged only the record's fixed fields change. */
    method Overlay(r: Rec, offset: int, stack: seq<byte>, ghost k: nat) returns (where: int)
      requires Valid() && Packable(r) && |stack| == REC_MAX + 2
      requires k < |bodies| && offset == Start(bodies, k)
      modifies this
      ensures Framing() && |bodies| == |old(bodies)| && where == offset
      ensures offset + HDR <= |old(file)|
      ensures file == Overwrite(old(file), offset, Image(HeaderFor(r), SlackOf(stack)))
      ensures forall j :: 0 <= j <= |bodies| ==> Start(bodies, j) == old(Start(bodies, j))
      ensures Valid() <==> VarLen(HeaderFor(r)) == VarLen(HeaderOf(old(bodies)[k]))
      ensures SameLengths(old(bodies)[k], r) ==>
        Valid() && Records(bodies) == old(Records(bodies))[k := Overlaid(old(Records(bodies))[k], r)]
    {
      hide HeaderOf;
      var wbuf := new byte[REC_MAX + 2];
      Store(wbuf, 0, stack);
      assert wbuf[..] == stack;
      var reclen := RecPack(r, wbuf, false);
      ghost var image := Image(HeaderFor(r), SlackOf(stack));
      ghost var b := image + bodies[k][HDR..];
      RecordAt(bodies, k);
      OverlayFile(bodies, k, image);
      file := file[..offset] + wbuf[..reclen] + file[offset + reclen..];
      OverlayWellFormed(bodies[k], r, SlackOf(stack));
      ReplaceRecord(bodies, k, b);
      StartsKept(bodies, k, b);
      if SameLengths(bodies[k], r) { OverlayKeepsStrings(bodies[k], r, SlackOf(stack)); }
      bodies := bodies[k := b];
      where := offset;
    }

    /** `wlog_scan_backward`.  `stops` holds the call numbers at which the callback answers
        WLOG_STOP_SCAN; `signedChar` is the compiler's choice for `char`. */
    method ScanBackward(nrecs: int, signedChar: bool, stops: set<nat>) returns (out: Outcome, d: seq<Rec>)
      requires Valid() && |file| < 0x8000_0000
      ensures |d| <= |bodies| && d == NewestFirst(Records(bodies), |d|)
      ensures Scanned(bodies, nrecs, signedChar, stops, out, |d|)
    {
      hide AllWellFormed, Flatten, Progress, NoStop, Scanned, Start, Underway, Framable, Misread, InBuffer;
      ghost var bs, rs := bodies, Records(bodies);
      var buf, albuf := new byte[WINDOW], new byte[REC_MAX];
      var offset: nat, recnum: nat, leftover: nat := |file|, 0, 0;
      d := [];
      ScanStarts(bs, rs, nrecs, signedChar, stops, buf[..]);
      while (nrecs == 0 || recnum < nrecs) && offset > 0
        invariant Underway(bs, rs, nrecs, signedChar, stops, recnum, offset, d) && recnum <= |bs|
        invariant leftover <= 234 && InBuffer(buf[..], WINDOW - leftover, WINDOW, bs, |bs| - recnum, offset)
        decreases offset
      {
        var end;
        end, recnum, d, offset := OneWindow(buf, albuf, file, offset, leftover, nrecs, recnum, signedChar, stops, d, bs, rs);
        match end {
          case Again(n) => leftover := n;
          case Full => return Done, d;
          case Bad => return Undefined, d;
          case Stopped => return if offset > 0 then RunsOn else Done, d;
        }
      }
      UnderwayParts(bs, rs, nrecs, signedChar, stops, recnum, offset, d);
      AfterLast(bs, rs, nrecs, signedChar, stops, recnum, d);
      return Done, d;
    }
  }

  lemma ScanStarts(bs: seq<seq<byte>>, rs: seq<Rec>, nrecs: int, signedChar: bool, stops: set<nat>, buf: seq<byte>)
    requires Framable(bs) && |rs| == |bs| && |buf| == WINDOW
    ensures Underway(bs, rs, nrecs, signedChar, stops, 0, |Flatten(bs)|, [])
    ensures InBuffer(buf, WINDOW, WINDOW, bs, |bs|, |Flatten(bs)|)
  {
    assert bs[..|bs|] == bs;
    StartIsZeroOrLarge(bs, |bs|);
    NothingYet(bs, rs, signedChar, stops);
  }

  lemma UnderwayParts(bs: seq<seq<byte>>, rs: seq<Rec>, nrecs: int, signedChar: bool, stops: set<nat>,
                      recnum: nat, offset: nat, d: seq<Rec>)
    requires Framable(bs) && Underway(bs, rs, nrecs, signedChar, stops, recnum, offset, d)
    ensures recnum <= |bs| && Progress(bs, rs, signedChar, recnum, d) && NoStop(stops, recnum)
    ensures (nrecs == 0 || recnum == 0 || recnum < nrecs) && (offset == 0 ==> recnum == |bs|)
  {
  }

  lemma UnderwayLast(bs: seq<seq<byte>>, rs: seq<Rec>, nrecs: int, signedChar: bool, stops: set<nat>, d: seq<Rec>)
    requires Framable(bs) && Progress(bs, rs, signedChar, |bs|, d) && NoStop(stops, |bs|) && (nrecs == 0 || |bs| < nrecs)
    ensures Underway(bs, rs, nrecs, signedChar, stops, |bs|, 0, d)
  {
  }

  lemma StartsKept(bs: seq<seq<byte>>, k: nat, b: seq<byte>)
    requires Framable(bs) && k < |bs| && |b| == |bs[k]|
    ensures Framable(bs[k := b])
    ensures forall j :: 0 <= j <= |bs| ==> Start(bs[k := b], j) == Start(bs, j)
  {
    forall j | 0 <= j <= |bs| ensures Start(bs[k := b], j) == Start(bs, j) {
      if k < j {
        assert bs[k := b][..j] == bs[..j][k := b];
        FlattenUpdate(bs[..j], k, b);
      } else {
        assert bs[k := b][..j] == bs[..j];
      }
    }
  }

  // ---------------------------------------------------------------- where the scan fails

  /** One appended record with a path of 100 bytes or more is enough for a scan with signed chars
      to read a negative length. */
  method SignedScanFails(n: nat, stack: seq<byte>) returns (out: Outcome, d: seq<Rec>)
    requires 100 <= n < MAX_PATH && |stack| == REC_MAX + 2
    ensures out == Undefined && d == []
  {
    hide Flatten, HeaderOf, Framed, PathOnly, Body, AllWellFormed, LastWindow, HeaderFor;
    var log := new Log();
    var r := PathOnly(n);
    PathOnlyPacks(n);
    var offset := log.Append(r, stack);
    BodyLength(r, SlackOf(stack), n);
    assert log.bodies == [Body(r, SlackOf(stack))];
    FlattenOne(log.bodies[0]);
    out, d := log.ScanBackward(0, true, {});
    assert Misread(Newest(log.bodies, 0), true);
    ScanWithoutStop(log.bodies, 0, true, {}, out, |d|);
  }

  lemma BodyLength(r: Rec, s: Slack, n: nat)
    requires Packable(r) && SlackOk(s) && r.pathlen == n < 128
    ensures HDR + n <= |Body(r, s)| <= 233
  {
    hide Body, HeaderFor, Image;
    Widths(r);
  }

  lemma FlattenOne(b: seq<byte>)
    requires HDR <= |b| < 65536
    ensures Framable([b]) && |Flatten([b])| == |b| + 2
  {
    assert [b][..0] == [];
  }

  /** In a log of more than one window a stop at the newest record is not obeyed. */
  lemma StopIgnored(bs: seq<seq<byte>>, nrecs: int, signedChar: bool, stops: set<nat>, out: Outcome, k: nat)
    requires Framable(bs) && Scanned(bs, nrecs, signedChar, stops, out, k)
    requires Start(bs, |bs|) > WINDOW && 0 in stops && nrecs >= 0 && !Misread(bs[|bs| - 1], signedChar)
    ensures out == RunsOn && k == 1
  {
    assert |bs| > 0;
    StopObeyedExactly(bs, nrecs, signedChar, stops, out, k, 0);
  }

  lemma LongLog(b: seq<byte>, n: nat)
    requires WellFormed(b) && |b| == HDR && n >= 547
    ensures AllWellFormed(Copies(b, n)) && Framable(Copies(b, n)) && Start(Copies(b, n), n) > WINDOW
  {
    hide AllWellFormed, Flatten, Copies, WellFormed;
    CopiesLog(b, n);
    assert Copies(b, n)[..n] == Copies(b, n);
  }

  /** There are such logs: 547 records without strings will do. */
  lemma StopFails(n: nat) returns (bs: seq<seq<byte>>)
    requires n >= 547
    ensures |bs| == n && AllWellFormed(bs) && Framable(bs)
    ensures forall out, k :: Scanned(bs, 0, false, {0}, out, k) ==> out == RunsOn && k == 1
  {
    hide AllWellFormed, Start, Copies, WellFormed, Scanned;
    var b := BlankRecord();
    bs := Copies(b, n);
    LongLog(b, n);
    forall out, k | Scanned(bs, 0, false, {0}, out, k) ensures out == RunsOn && k == 1 {
      StopIgnored(bs, 0, false, {0}, out, k);
    }
  }

  ghost function Copies(b: seq<byte>, n: nat): (bs: seq<seq<byte>>)
    ensures |bs| == n && forall i :: 0 <= i < n ==> bs[i] == b
  {
    seq(n, _ => b)
  }

  lemma {:induction false} CopiesLog(b: seq<byte>, n: nat)
    requires WellFormed(b) && |b| == HDR
    ensures Framable(Copies(b, n)) && AllWellFormed(Copies(b, n)) && |Flatten(Copies(b, n))| == n * (HDR + 2)
  {
    hide WellFormed, Framed;
    if n > 0 {
      CopiesLog(b, n - 1);
      assert Copies(b, n)[..n - 1] == Copies(b, n - 1);
    }
  }

  lemma BlankRecord() returns (b: seq<byte>)
    ensures WellFormed(b) && |b| == HDR
  {
    hide HeaderOf, Image;
    var h, s := Header(0, 0, 0, 0, 0, 0, 0, 0, 0), Slack(0, 0, 0, 0);
    ImageDecodes(h, s, []);
    b := Image(h, s) + [];
  }

  // ---------------------------------------------------------------- whole histories

  datatype Op = Write(r: Rec) | Rewrite(k: nat, r: Rec)

  /** What a caller may do next: append anything packable, or overlay an existing record
      keeping its three lengths. */
  ghost predicate Allowed(rs: seq<Rec>, op: Op) {
    Packable(op.r) &&
    match op
    case Write(_) => true
    case Rewrite(k, r) => k < |rs| && var h := HeaderFor(r);
      h.pathlen == rs[k].pathlen && h.hostlen == rs[k].hostlen && h.patternlen == rs[k].patternlen
  }

  /** The effect of one call on a plain list of records. */
  ghost function Apply(rs: seq<Rec>, op: Op): seq<Rec>
    requires Allowed(rs, op)
  {
    match op
    case Write(r) => rs + [Stored(r)]
    case Rewrite(k, r) => rs[k := Overlaid(rs[k], r)]
  }

  ghost predicate AllAllowed(rs: seq<Rec>, ops: seq<Op>)
    decreases |ops|
  {
    ops == [] || (Allowed(rs, ops[0]) && AllAllowed(Apply(rs, ops[0]), ops[1..]))
  }

  ghost function Replay(rs: seq<Rec>, ops: seq<Op>): seq<Rec>
    requires AllAllowed(rs, ops)
    decreases |ops|
  {
    if ops == [] then rs else Replay(Apply(rs, ops[0]), ops[1..])
  }

  /** One call.  `offsets` holds the value each append returned, as callers keep it. */
  method Step(log: Log, offsets: seq<int>, op: Op, stack: seq<byte>) returns (kept: seq<int>)
    requires log.Valid() && |stack| == REC_MAX + 2 && Allowed(Records(log.bodies), op)
    requires |offsets| == |log.bodies| && forall j :: 0 <= j < |offsets| ==> offsets[j] == Start(log.bodies, j)
    modifies log
    ensures log.Valid() && Records(log.bodies) == old(Apply(Records(log.bodies), op))
    ensures |kept| == |log.bodies| && forall j :: 0 <= j < |kept| ==> kept[j] == Start(log.bodies, j)
  {
    hide Flatten, AllWellFormed, HeaderOf, HeaderFor, Records;
    ghost var bs := log.bodies;
    match op {
      case Write(r) =>
        var offset := log.Append(r, stack);
        kept := offsets + [offset];
        forall j | 0 <= j < |bs| ensures kept[j] == Start(log.bodies, j) {
          assert log.bodies[..j] == bs[..j];
        }
      case Rewrite(k, r) =>
        RecordAt(bs, k);
        var where := log.Overlay(r, offsets[k], stack, k);
        kept := offsets;
    }
  }

  /** Every history of appends and overlays, then a backward scan by a callback that never
      stops, with chars read as unsigned: the scan hands over exactly the newest
      min(nrecs, n) records of the plain list the history describes, newest first. */
  method History(ops: seq<Op>, nrecs: int, stacks: seq<seq<byte>>) returns (log: Log, out: Outcome, d: seq<Rec>)
    requires AllAllowed([], ops)
    requires |stacks| == |ops| && forall i :: 0 <= i < |stacks| ==> |stacks[i]| == REC_MAX + 2
    ensures log.Valid() && Records(log.bodies) == Replay([], ops)
    ensures |log.file| < 0x8000_0000 ==> out == Done
    ensures |log.file| < 0x8000_0000 ==> d == NewestFirst(Replay([], ops), Quota(|Replay([], ops)|, nrecs))
  {
    log := new Log();
    var offsets: seq<int> := [];
    ghost var rs: seq<Rec> := [];
    for i := 0 to |ops|
      invariant log.Valid() && fresh(log) && Records(log.bodies) == rs
      invariant |offsets| == |log.bodies| && forall j :: 0 <= j < |offsets| ==> offsets[j] == Start(log.bodies, j)
      invariant AllAllowed(rs, ops[i..]) && Replay(rs, ops[i..]) == Replay([], ops)
    {
      assert ops[i..][0] == ops[i] && ops[i..][1..] == ops[i + 1..];
      offsets := Step(log, offsets, ops[i], stacks[i]);
      rs := Apply(rs, ops[i]);
    }
    out, d := Done, [];
    if |log.file| < 0x8000_0000 {
      out, d := log.ScanBackward(nrecs, false, {});
      ScanWithoutStop(log.bodies, nrecs, false, {}, out, |d|);
    }
  }
}
