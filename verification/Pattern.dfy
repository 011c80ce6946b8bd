/** lib/pattern.c: filling and checking a buffer against a rotated, repeated pattern.

    The C code handles the first `patlen` bytes against the pattern and every later
    stretch against the part of the buffer already done, doubling that part each time
    round.  Here the doubling code is proved equal to the byte-by-byte definition. */
module Pattern {
  import opened CMemory
  import opened Arith

  /** The definition: byte i of the buffer is byte (patshift + i) mod patlen of the pattern. */
  ghost function Repeated(pat: seq<byte>, patshift: nat, n: nat): (r: seq<byte>)
    requires |pat| > 0
  {
    seq(n, i requires 0 <= i => pat[(patshift + i) % |pat|])
  }

  /** d is a period of s: moving d places along changes nothing. */
  ghost predicate Period(s: seq<byte>, d: nat)
  {
    d <= |s| ==> s[d..] == s[..|s| - d]
  }

  /** Reducing the shift first, as both functions do, changes nothing. */
  lemma ReducedShift(pat: seq<byte>, patshift: nat, n: nat)
    requires |pat| > 0
    ensures Repeated(pat, patshift % |pat|, n) == Repeated(pat, patshift, n)
  {
    var p, a, b := |pat|, Repeated(pat, patshift % |pat|, n), Repeated(pat, patshift, n);
    forall i | 0 <= i < n ensures a[i] == b[i] {
      ModMultiple(patshift % p + i, patshift / p, p);
      assert patshift % p + i + patshift / p * p == patshift + i;
    }
  }

  /** The definition, unrolled as the code uses it: the tail of the pattern, then its head (from
      there on it has period patlen). */
  ghost predicate StartsWithPattern(w: seq<byte>, pat: seq<byte>, shift: nat)
    requires shift < |pat|
  {
    var h := |pat| - shift;
    if |w| < h then w == pat[shift..shift + |w|]
    else w[..h] == pat[shift..] && if |w| < |pat| then w[h..] == pat[..|w| - h] else w[h..|pat|] == pat[..shift]
  }

  lemma ByteAt(pat: seq<byte>, shift: nat, i: nat)
    requires shift < |pat|
    ensures i < |pat| - shift ==> (shift + i) % |pat| == shift + i
    ensures |pat| - shift <= i < |pat| ==> (shift + i) % |pat| == i - (|pat| - shift)
  {
    if |pat| - shift <= i < |pat| {
      ModStep(i - (|pat| - shift), |pat|);
    }
  }

  lemma RepeatedStarts(pat: seq<byte>, shift: nat, n: nat, w: seq<byte>)
    requires shift < |pat| && w == Repeated(pat, shift, n)
    ensures StartsWithPattern(w, pat, shift)
  {
    forall i | 0 <= i < n && i < |pat|
      ensures w[i] == if i < |pat| - shift then pat[shift + i] else pat[i - (|pat| - shift)]
    {
      ByteAt(pat, shift, i);
    }
  }

  lemma RepeatedPeriod(pat: seq<byte>, shift: nat, n: nat, w: seq<byte>)
    requires |pat| > 0 && w == Repeated(pat, shift, n)
    ensures Period(w, |pat|)
  {
    var p := |pat|;
    if p <= n {
      forall i | 0 <= i < n - p ensures w[p..][i] == w[..n - p][i] {
        ModStep(shift + i, p);
        assert shift + (i + p) == shift + i + p;
      }
    }
  }

  lemma DoublePeriod(s: seq<byte>, d: nat)
    requires Period(s, d)
    ensures Period(s, d + d)
  {
    if d + d <= |s| {
      var moved, kept := s[d + d..], s[..|s| - (d + d)];
      forall i | 0 <= i < |moved| ensures moved[i] == kept[i] {
        assert s[d..][i + d] == s[..|s| - d][i + d];
        assert s[d..][i] == s[..|s| - d][i];
      }
    }
  }

  /** One doubling: the next nb bytes are the wanted ones exactly when they repeat the
      first nb bytes. */
  lemma ExtendMatch(b: seq<byte>, w: seq<byte>, done: nat, nb: nat)
    requires Period(w, done) && nb <= done && done + nb <= |w| <= |b| && b[..done] == w[..done]
    ensures b[..done + nb] == w[..done + nb] <==> b[..nb] == b[done..done + nb]
  {
    var moved, kept := w[done..], w[..|w| - done];
    forall i | 0 <= i < nb ensures b[i] == w[done + i] {
      assert moved[i] == kept[i];
      assert b[..done][i] == w[..done][i];
    }
    if b[..nb] == b[done..done + nb] {
      forall i | 0 <= i < done + nb ensures b[i] == w[i] {
        if i < done {
          assert b[..done][i] == w[..done][i];
        } else {
          assert b[..nb][i - done] == b[done..done + nb][i - done];
        }
      }
    }
    if b[..done + nb] == w[..done + nb] {
      forall i | 0 <= i < nb ensures b[..nb][i] == b[done..done + nb][i] {
        assert b[..done + nb][done + i] == w[..done + nb][done + i];
      }
    }
  }

  /** One `memcpy` from the pattern. */
  method FillBlock(buf: array<byte>, cp: nat, src: seq<byte>, ghost w: seq<byte>)
    requires cp + |src| <= |w| <= buf.Length && buf[..cp] == w[..cp] && w[cp..cp + |src|] == src
    modifies buf
    ensures buf[..cp + |src|] == w[..cp + |src|] && buf[|w|..] == old(buf[|w|..])
  {
    Store(buf, cp, src);
    assert w[..cp + |src|] == w[..cp] + src;
  }

  /** The two leading blocks of `pattern_fill`; done is how much they filled. */
  method FillFirst(buf: array<byte>, buflen: nat, pat: seq<byte>, shift: nat, ghost w: seq<byte>)
    returns (done: nat)
    requires buflen <= buf.Length && shift < |pat|
    requires |w| == buflen && StartsWithPattern(w, pat, shift)
    modifies buf
    ensures done == (if buflen < |pat| then buflen else |pat|) && buf[..done] == w[..done]
    ensures buf[buflen..] == old(buf[buflen..])
  {
    var cp, nleft := 0, buflen;
    var trans := |pat| - shift;
    if nleft < trans {
      FillBlock(buf, cp, pat[shift..shift + nleft], w);
      return buflen;
    }
    FillBlock(buf, cp, pat[shift..shift + trans], w);
    nleft, cp := nleft - trans, cp + trans;

    if shift > 0 {
      trans := shift;
      if nleft < trans {
        FillBlock(buf, cp, pat[..nleft], w);
        return buflen;
      }
      FillBlock(buf, cp, pat[..trans], w);
      cp := cp + trans;
    }
    return cp;
  }

  /** The doubling loop of `pattern_fill`. */
  method FillRest(buf: array<byte>, buflen: nat, done: nat, ghost w: seq<byte>)
    requires buflen <= buf.Length && |w| == buflen && (0 < done < buflen || done == buflen)
    requires buf[..done] == w[..done] && (done == buflen || Period(w, done))
    modifies buf
    ensures buf[..buflen] == w && buf[buflen..] == old(buf[buflen..])
  {
    hide Period;
    var ncopied, cp, nleft := done, done, buflen - done;
    while ncopied < buflen
      invariant done <= ncopied <= buflen && nleft == buflen - ncopied && cp == ncopied
      invariant ncopied == buflen || Period(w, ncopied)
      invariant buf[..ncopied] == w[..ncopied] && buf[buflen..] == old(buf[buflen..])
      decreases nleft
    {
      var trans := if ncopied < nleft then ncopied else nleft;
      Memcpy(buf, cp, buf, 0, trans);
      ExtendMatch(buf[..], w, ncopied, trans);
      DoublePeriod(w, ncopied);
      cp, ncopied, nleft := cp + trans, ncopied + trans, nleft - trans;
    }
  }

  /** `pattern_fill`: afterwards the first buflen bytes are the repeated pattern and the
      rest of the buffer is as it was. */
  method PatternFill(buf: array<byte>, buflen: nat, pat: seq<byte>, patshift: nat)
    requires buflen <= buf.Length && |pat| > 0
    modifies buf
    ensures buf[..buflen] == Repeated(pat, patshift, buflen)
    ensures buf[buflen..] == old(buf[buflen..])
  {
    var shift := patshift % |pat|;
    ghost var w := Repeated(pat, shift, buflen);
    ReducedShift(pat, patshift, buflen);
    RepeatedStarts(pat, shift, buflen, w);
    RepeatedPeriod(pat, shift, buflen, w);
    var done := FillFirst(buf, buflen, pat, shift, w);
    FillRest(buf, buflen, done, w);
  }

  /** One `memcmp` against the pattern. */
  method CheckBlock(buf: array<byte>, cp: nat, src: seq<byte>, ghost w: seq<byte>) returns (good: bool)
    requires cp + |src| <= |w| <= buf.Length && buf[..cp] == w[..cp] && w[cp..cp + |src|] == src
    ensures good <==> buf[..cp + |src|] == w[..cp + |src|]
  {
    var differ := Differ(buf, cp, src);
    var n := cp + |src|;
    assert buf[..n] == buf[..cp] + buf[cp..n] && w[..n] == w[..cp] + src;
    return !differ;
  }

  /** The two leading comparisons of `pattern_check`. */
  method CheckFirst(buf: array<byte>, buflen: nat, pat: seq<byte>, shift: nat, ghost w: seq<byte>)
    returns (good: bool, done: nat)
    requires buflen <= buf.Length && shift < |pat|
    requires |w| == buflen && StartsWithPattern(w, pat, shift)
    ensures done <= buflen && (good ==> done == if buflen < |pat| then buflen else |pat|)
    ensures good <==> buf[..done] == w[..done]
  {
    var cp, nleft := 0, buflen;
    var nb := |pat| - shift;
    if nleft < nb {
      good := CheckBlock(buf, cp, pat[shift..shift + nleft], w);
      return good, buflen;
    }
    good := CheckBlock(buf, cp, pat[shift..shift + nb], w);
    nleft, cp := nleft - nb, cp + nb;
    if !good { return false, cp; }

    if shift > 0 {
      nb := shift;
      if nleft < nb {
        good := CheckBlock(buf, cp, pat[..nleft], w);
        return good, buflen;
      }
      good := CheckBlock(buf, cp, pat[..nb], w);
      cp := cp + nb;
    }
    return good, cp;
  }

  /** The doubling loop of `pattern_check`. */
  method CheckRest(buf: array<byte>, buflen: nat, done: nat, ghost w: seq<byte>) returns (good: bool)
    requires buflen <= buf.Length && |w| == buflen && (0 < done < buflen || done == buflen)
    requires buf[..done] == w[..done] && (done == buflen || Period(w, done))
    ensures good <==> buf[..buflen] == w
  {
    hide Period;
    var ncmp, cp, nleft := done, done, buflen - done;
    while ncmp < buflen
      invariant done <= ncmp <= buflen && nleft == buflen - ncmp && cp == ncmp
      invariant ncmp == buflen || Period(w, ncmp)
      invariant buf[..ncmp] == w[..ncmp]
      decreases nleft
    {
      var nb := if ncmp < nleft then ncmp else nleft;
      var bad := Memcmp(buf, 0, buf, cp, nb);
      ExtendMatch(buf[..], w, ncmp, nb);
      DoublePeriod(w, ncmp);
      if bad {
        assert buf[..buflen][..ncmp + nb] == buf[..][..ncmp + nb];
        return false;
      }
      cp, ncmp, nleft := cp + nb, ncmp + nb, nleft - nb;
    }
    return true;
  }

  /** `pattern_check`: 0 exactly when every byte is the one the definition asks for. */
  method PatternCheck(buf: array<byte>, buflen: nat, pat: seq<byte>, patshift: nat)
    returns (r: int)
    requires buflen <= buf.Length && |pat| > 0
    ensures r == if buf[..buflen] == Repeated(pat, patshift, buflen) then 0 else -1
  {
    var shift := patshift % |pat|;
    ghost var w := Repeated(pat, shift, buflen);
    ReducedShift(pat, patshift, buflen);
    RepeatedStarts(pat, shift, buflen, w);
    RepeatedPeriod(pat, shift, buflen, w);
    var good, done := CheckFirst(buf, buflen, pat, shift, w);
    if !good {
      assert buf[..buflen][..done] == buf[..done];
      return -1;
    }
    good := CheckRest(buf, buflen, done, w);
    return if good then 0 else -1;
  }

  /** Check after fill always succeeds. */
  method FillThenCheck(buf: array<byte>, buflen: nat, pat: seq<byte>, patshift: nat)
    returns (r: int)
    requires buflen <= buf.Length && |pat| > 0
    modifies buf
    ensures r == 0
  {
    PatternFill(buf, buflen, pat, patshift);
    r := PatternCheck(buf, buflen, pat, patshift);
  }
}
