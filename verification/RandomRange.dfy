/** lib/random_range.c: random_rangell and its 64-bit divider.

    Integers are 64-bit: where an operation would leave that range the outcome is Overflow.
    The random draw of lrand48 and the bits of it that choose the halves are parameters. */
module RandomRange {
  import opened Arith

  const MAX: int := 0x7fff_ffff_ffff_ffff
  const MIN: int := -0x8000_0000_0000_0000
  const G2: int := 0x7fff_ffff

  predicate Long(x: int) { MIN <= x <= MAX }

  predicate Draw(x: int) { 0 <= x <= G2 }

  /** The remainder of C, with the sign of the dividend. */
  function TRem(a: int, m: int): int
    requires m > 0
  {
    if a >= 0 then a % m else -((-a) % m)
  }

  datatype Outcome = Value(v: int) | BadMult | NoMultiple | Guard | Overflow

  function Fits(x: int): Outcome { if Long(x) then Value(x) else Overflow }

  // ---------------------------------------------------------------- divider

  /** `divider`: halve the range until a 31-bit draw spans a half.  upper(c) says whether the
      draw's bit c is set. */
  function Divider(min: int, max: int, cnt: nat, rand: int, upper: nat -> bool): Outcome
    decreases 33 - cnt
  {
    if cnt > 32 then Guard
    else
      var diff := max - min;
      if !Long(diff) then Overflow
      else if diff <= G2 then Fits(min + rand)
      else
        var half := diff / 2;
        var med := min + half;
        if half <= G2 then Fits(if upper(cnt) then med + rand else min + rand)
        else if upper(cnt) then Divider(med, max, cnt + 1, rand, upper)
        else Divider(min, med, cnt + 1, rand, upper)
  }

  function Pow2(n: nat): (r: nat)
    ensures r > 0
  {
    if n == 0 then 1 else 2 * Pow2(n - 1)
  }

  lemma Pow8(n: nat)
    ensures Pow2(n + 8) == 256 * Pow2(n)
  {
    assert Pow2(n + 4) == 16 * Pow2(n) by { assert Pow2(n + 2) == 4 * Pow2(n); }
    assert Pow2(n + 8) == 16 * Pow2(n + 4) by { assert Pow2(n + 6) == 4 * Pow2(n + 4); }
  }

  lemma {:induction false} Pow2Mono(a: nat, b: nat)
    requires a <= b
    ensures Pow2(a) <= Pow2(b)
  {
    if a < b { Pow2Mono(a, b - 1); }
  }

  lemma Pow31()
    ensures Pow2(31) == 0x8000_0000 && Pow2(32) == 0x1_0000_0000 && Pow2(63) == 0x8000_0000_0000_0000
  {
    Pow8(0); Pow8(8); Pow8(16); Pow8(24); Pow8(32); Pow8(40); Pow8(48);
    assert Pow2(24) == 0x100_0000 && Pow2(56) == 0x100_0000_0000_0000;
    assert Pow2(31) == 128 * Pow2(24) by { assert Pow2(27) == 8 * Pow2(24); assert Pow2(31) == 16 * Pow2(27); }
    assert Pow2(63) == 128 * Pow2(56) by { assert Pow2(59) == 8 * Pow2(56); assert Pow2(63) == 16 * Pow2(59); }
  }

  /** A range that is still too wide was halved fewer than 32 times. */
  lemma StillWide(diff: int, cnt: nat)
    requires cnt <= 63 && 2 * G2 + 2 <= diff <= Pow2(63 - cnt)
    ensures cnt < 32
  {
    Pow31();
    if cnt >= 32 { Pow2Mono(63 - cnt, 31); }
  }

  /** Whatever halves are chosen, the guard on the recursion never fires and the result is at
      least min; it lies less than 2^31 above max, and only there can the sum overflow.  At each
      halving it lies in the half chosen, or less than 2^31 above it. */
  lemma {:induction false} DividerBounds(min: int, max: int, cnt: nat, rand: int, upper: nat -> bool)
    requires 0 <= min <= max <= MAX && Draw(rand) && cnt <= 32 && max - min <= Pow2(63 - cnt)
    ensures var d := Divider(min, max, cnt, rand, upper);
      && (d.Value? || d.Overflow?)
      && (d.Value? ==> min <= d.v <= max + G2)
      && (d.Overflow? ==> max + G2 > MAX)
      && (d.Value? && max - min > G2 ==>
           if upper(cnt) then d.v >= min + (max - min) / 2 else d.v <= min + (max - min) / 2 + G2)
    decreases 33 - cnt
  {
    var diff := max - min;
    if diff > G2 {
      var half := diff / 2;
      var med := min + half;
      if half > G2 {
        StillWide(diff, cnt);
        assert Pow2(63 - cnt) == 2 * Pow2(62 - cnt);
        DividerBounds(med, max, cnt + 1, rand, upper);
        DividerBounds(min, med, cnt + 1, rand, upper);
      }
    }
  }

  /** As the scheduler of halves calls it. */
  lemma DividerFromTop(min: int, max: int, rand: int, upper: nat -> bool)
    requires 0 <= min <= max <= MAX && Draw(rand)
    ensures var d := Divider(min, max, 0, rand, upper);
      && (d.Value? || d.Overflow?) && (d.Value? ==> min <= d.v <= max + G2) && (d.Overflow? ==> max + G2 > MAX)
  {
    Pow31();
    DividerBounds(min, max, 0, rand, upper);
  }

  // ---------------------------------------------------------------- random_rangell

  /** min raised "to the next higher multiple", max lowered "to the next lower". */
  function RoundMin(lo: int, m: int): int
    requires m > 0
  {
    if TRem(lo, m) != 0 then lo + (m - TRem(lo, m)) else lo
  }

  function RoundMax(hi: int, m: int): int
    requires m > 0
  {
    hi - TRem(hi, m)
  }

  function Low(a: int, b: int): int { if b < a then b else a }
  function High(a: int, b: int): int { if b < a then a else b }

  /** `random_rangell`. */
  function RandomRangell(min: int, max: int, mult: int, rand: int, upper: nat -> bool): Outcome {
    if mult < 1 then BadMult
    else
      var lo, hi := Low(min, max), High(min, max);
      if TRem(lo, mult) != 0 && (!Long(mult - TRem(lo, mult)) || !Long(RoundMin(lo, mult))) then Overflow
      else Select(RoundMin(lo, mult), RoundMax(hi, mult), mult, rand, upper)
  }

  /** A random multiple between two multiples. */
  function Select(a: int, b: int, mult: int, rand: int, upper: nat -> bool): Outcome
    requires mult > 0
  {
    if a > b then NoMultiple
    else if !Long(b - a) || !Long(Mults(a, b, mult)) then Overflow
    else if b <= G2 then Fits(Nth(a, TRem(rand, Mults(a, b, mult)), mult))
    else match Divider(a, b, 0, rand, upper)
      case Value(randnum) => Fits(Nth(a, TRem(randnum, Mults(a, b, mult)), mult))
      case o => o
  }

  function Mults(a: int, b: int, m: int): (n: int)
    requires a <= b && m > 0
    ensures n > 0
  {
    (b - a) / m + 1
  }

  function Nth(a: int, k: int, m: int): int { a + k * m }

  // ---------------------------------------------------------------- rounding

  function Times(q: int, m: int): int { q * m }

  ghost predicate Multiple(v: int, m: int) { exists q :: v == Times(q, m) }

  ghost predicate Exists(lo: int, hi: int, m: int) { exists q :: lo <= Times(q, m) <= hi }

  /** The quotients of the nearest multiples below and above. */
  function DownQ(x: int, m: int): int
    requires m > 0
  {
    x / m
  }

  function UpQ(x: int, m: int): int
    requires m > 0
  {
    if x % m == 0 then x / m else x / m + 1
  }

  lemma TimesNext(p: int, m: int)
    ensures Times(p + 1, m) == Times(p, m) + m
  {
  }

  lemma {:induction false} TimesLess(p: int, q: int, m: int)
    requires m > 0 && p < q
    ensures Times(p, m) + m <= Times(q, m)
    decreases q - p
  {
    hide Times;
    TimesNext(q - 1, m);
    if p < q - 1 { TimesLess(p, q - 1, m); }
  }

  lemma TimesOrder(p: int, q: int, m: int)
    requires m > 0
    ensures Times(p, m) <= Times(q, m) <==> p <= q
    ensures p < q ==> Times(p, m) + m <= Times(q, m)
    ensures Times(p + 1, m) == Times(p, m) + m
  {
    hide Times;
    TimesNext(p, m);
    if p < q {
      TimesLess(p, q, m);
    } else if q < p {
      TimesLess(q, p, m);
    }
  }

  lemma Nearest(x: int, m: int)
    requires m > 0
    ensures Times(DownQ(x, m), m) == x - x % m && Times(DownQ(x, m), m) <= x <= Times(UpQ(x, m), m)
    ensures Times(UpQ(x, m), m) == if x % m == 0 then x else x - x % m + m
    ensures x >= 0 ==> DownQ(x, m) >= 0
  {
    TimesOrder(x / m, x / m + 1, m);
    assert x == (x / m) * m + x % m;
    if x >= 0 && x / m < 0 {
      TimesOrder(x / m, 0, m);
    }
  }

  lemma NegRem(x: int, m: int)
    requires m > 0 && x < 0
    ensures TRem(x, m) == if x % m == 0 then 0 else x % m - m
  {
    var q, r := x / m, x % m;
    assert x == q * m + r;
    TimesOrder(0, q, m);
    if r == 0 {
      assert -x == (-q) * m;
      ModUnique(-x, -q, 0, m);
    } else {
      assert -x == (-q - 1) * m + (m - r);
      ModUnique(-x, -q - 1, m - r, m);
    }
  }

  /** What the roundings do: right for non-negative numbers and multiples; a negative one that is
      no multiple goes one multiple too far up as a lower bound, and up instead of down as an
      upper bound. */
  lemma Rounded(x: int, m: int)
    requires m > 0
    ensures RoundMin(x, m) == Times(UpQ(x, m) + if x < 0 && x % m != 0 then 1 else 0, m)
    ensures RoundMax(x, m) == Times(if x < 0 then UpQ(x, m) else DownQ(x, m), m)
  {
    Nearest(x, m);
    TimesOrder(UpQ(x, m), 0, m);
    if x < 0 { NegRem(x, m); }
  }

  lemma ExistsIs(lo: int, hi: int, m: int)
    requires m > 0
    ensures Exists(lo, hi, m) <==> Times(UpQ(lo, m), m) <= hi
  {
    Nearest(lo, m);
    if q :| lo <= Times(q, m) <= hi {
      TimesOrder(q, DownQ(lo, m), m);
      TimesOrder(UpQ(lo, m), q, m);
      assert UpQ(lo, m) <= q;
    }
  }

  /** Rounding serves the caller: the rounded range is empty only if no multiple was there, and
      lies inside the range asked for otherwise. */
  ghost predicate Serves(lo: int, hi: int, m: int)
    requires m > 0
  {
    && (RoundMin(lo, m) > RoundMax(hi, m) <==> !Exists(lo, hi, m))
    && (RoundMin(lo, m) <= RoundMax(hi, m) ==> lo <= RoundMin(lo, m) && RoundMax(hi, m) <= hi)
  }

  /** When it does. */
  predicate Sound(lo: int, hi: int, m: int)
    requires m > 0
  {
    if lo >= 0 then true
    else if lo % m == 0 then hi >= 0 || hi % m == 0
    else if hi >= 0 then lo <= -m || hi >= m
    else if hi % m == 0 then UpQ(lo, m) < UpQ(hi, m)
    else UpQ(lo, m) == UpQ(hi, m)
  }

  lemma SignOfUp(x: int, m: int)
    requires m > 0 && x < 0
    ensures UpQ(x, m) <= 0 && (UpQ(x, m) < 0 <==> x <= -m)
  {
    Nearest(x, m);
    TimesOrder(UpQ(x, m), 0, m);
    TimesOrder(0, UpQ(x, m), m);
    TimesOrder(UpQ(x, m), -1, m);
    TimesOrder(-1, UpQ(x, m), m);
    TimesOrder(UpQ(x, m) - 1, 0, m);
  }

  lemma SignOfDown(x: int, m: int)
    requires m > 0 && x >= 0
    ensures DownQ(x, m) >= 0 && (DownQ(x, m) >= 1 <==> x >= m)
  {
    Nearest(x, m);
    TimesOrder(1, DownQ(x, m), m);
    TimesOrder(DownQ(x, m), 0, m);
  }

  lemma UpMono(x: int, y: int, m: int)
    requires m > 0 && x <= y
    ensures UpQ(x, m) <= UpQ(y, m)
  {
    Nearest(x, m);
    Nearest(y, m);
    TimesOrder(UpQ(x, m), UpQ(y, m), m);
    TimesOrder(UpQ(y, m), UpQ(x, m), m);
  }

  /** Rounding serves the caller exactly then. */
  lemma ServesExactly(lo: int, hi: int, m: int)
    requires m > 0 && lo <= hi
    ensures Serves(lo, hi, m) <==> Sound(lo, hi, m)
  {
    hide UpQ, DownQ, Times, Exists, RoundMin, RoundMax;
    var a, b := UpQ(lo, m) + (if lo < 0 && lo % m != 0 then 1 else 0), if hi < 0 then UpQ(hi, m) else DownQ(hi, m);
    Rounded(lo, m);
    Rounded(hi, m);
    Nearest(lo, m);
    Nearest(hi, m);
    ExistsIs(lo, hi, m);
    TimesOrder(a, b, m);
    TimesOrder(b, a, m);
    TimesOrder(UpQ(lo, m), DownQ(hi, m), m);
    TimesOrder(UpQ(lo, m), UpQ(hi, m), m);
    TimesOrder(DownQ(hi, m), UpQ(lo, m), m);
    UpMono(lo, hi, m);
    if lo < 0 { SignOfUp(lo, m); }
    if hi >= 0 { SignOfDown(hi, m); }
  }

  // ---------------------------------------------------------------- what the caller gets

  lemma QuotientOf(k: nat, m: int)
    requires m > 0
    ensures (k * m) / m == k
  {
    var x := k * m;
    ModUnique(x, k, 0, m);
    assert x == (x / m) * m;
    assert Times(x / m, m) == Times(k, m);
    TimesOrder(x / m, k, m);
    TimesOrder(k, x / m, m);
  }

  lemma TRemRange(x: int, n: int)
    requires x >= 0 && n > 0
    ensures 0 <= TRem(x, n) < n && (x < n ==> TRem(x, n) == x)
  {
    if x < n { ModUnique(x, 0, x, n); }
  }

  /** Counting and stepping between two multiples. */
  lemma MultsOf(p: int, q: int, m: int)
    requires m > 0 && p <= q && Times(p, m) <= Times(q, m)
    ensures Mults(Times(p, m), Times(q, m), m) == q - p + 1
  {
    assert Times(q, m) - Times(p, m) == (q - p) * m;
    QuotientOf(q - p, m);
  }

  lemma NthOf(p: int, k: int, m: int)
    ensures Nth(Times(p, m), k, m) == Times(p + k, m)
  {
    assert (p + k) * m == p * m + k * m;
  }

  /** Selecting between two multiples gives a multiple between them. */
  lemma LandsWithin(p: int, q: int, m: int, x: int)
    requires m > 0 && p <= q && Times(p, m) <= Times(q, m) && x >= 0
    ensures var v := Nth(Times(p, m), TRem(x, Mults(Times(p, m), Times(q, m), m)), m);
      Times(p, m) <= v <= Times(q, m) && Multiple(v, m)
  {
    hide Times, TRem, Nth, Mults;
    MultsOf(p, q, m);
    TRemRange(x, q - p + 1);
    var k := TRem(x, q - p + 1);
    NthOf(p, k, m);
    TimesOrder(p, p + k, m);
    TimesOrder(p + k, q, m);
  }

  lemma SelectWithin(p: int, q: int, m: int, rand: int, upper: nat -> bool)
    requires m > 0 && Long(Times(p, m)) && Long(Times(q, m)) && Draw(rand)
    requires Times(q, m) <= G2 || 0 <= Times(p, m)
    ensures var a, b, r := Times(p, m), Times(q, m), Select(Times(p, m), Times(q, m), m, rand, upper);
      && r != Guard && r != BadMult && (r == NoMultiple <==> a > b)
      && (r.Value? ==> a <= r.v <= b && Multiple(r.v, m))
      && (r == Overflow ==> a <= b && (!Long(b - a) || !Long(Mults(a, b, m)) || b + G2 > MAX))
  {
    hide Times, TRem, Nth, Mults, Multiple, Divider;
    var a, b := Times(p, m), Times(q, m);
    TimesOrder(p, q, m);
    if a <= b {
      LandsWithin(p, q, m, rand);
      if 0 <= a {
        DividerFromTop(a, b, rand, upper);
        var d := Divider(a, b, 0, rand, upper);
        if d.Value? { LandsWithin(p, q, m, d.v); }
      }
    }
  }

  /** For bounds that are not negative: an error exactly when mult is too small or the range has
      no multiple, a multiple within the range otherwise; overflow only where the raised minimum
      or the number of multiples does not fit, or within 2^31 of the top. */
  lemma RangeHolds(min: int, max: int, mult: int, rand: int, upper: nat -> bool)
    requires 0 <= min <= MAX && 0 <= max <= MAX && mult <= MAX && Draw(rand)
    ensures var r, lo, hi := RandomRangell(min, max, mult, rand, upper), Low(min, max), High(min, max);
      && (r == BadMult <==> mult < 1) && r != Guard
      && (mult >= 1 ==>
           && (r == NoMultiple ==> !Exists(lo, hi, mult))
           && (!Exists(lo, hi, mult) ==> r == NoMultiple || (r == Overflow && RoundMin(lo, mult) > MAX))
           && (r.Value? ==> lo <= r.v <= hi && Multiple(r.v, mult))
           && (r == Overflow ==> RoundMin(lo, mult) > MAX || (lo == 0 && hi == MAX && mult == 1) || hi + G2 > MAX))
  {
    hide RoundMin, RoundMax, Exists, Times, Multiple, Select, TRem, Mults, UpQ, DownQ;
    var lo, hi := Low(min, max), High(min, max);
    if mult >= 1 {
      var a, b := RoundMin(lo, mult), RoundMax(hi, mult);
      ServesExactly(lo, hi, mult);
      Rounded(lo, mult);
      Rounded(hi, mult);
      NonNegRounds(lo, hi, mult);
      if a <= MAX {
        SelectWithin(UpQ(lo, mult), DownQ(hi, mult), mult, rand, upper);
        if a <= b { ManyMultiples(a, b, mult); }
      }
    }
  }

  lemma NonNegRounds(lo: int, hi: int, m: int)
    requires 0 <= lo <= MAX && 0 <= hi <= MAX && 1 <= m <= MAX
    ensures 0 <= TRem(lo, m) < m && RoundMin(lo, m) >= lo && 0 <= RoundMax(hi, m) <= hi
    ensures TRem(lo, m) == 0 ==> RoundMin(lo, m) == lo
  {
    assert hi % m <= hi by { Nearest(hi, m); TimesOrder(0, DownQ(hi, m), m); }
  }

  lemma ManyMultiples(a: int, b: int, m: int)
    requires 0 <= a <= b <= MAX && m >= 1
    ensures Mults(a, b, m) > MAX ==> a == 0 && b == MAX && m == 1
  {
    Nearest(b - a, m);
    hide Times;
    AtMostTimes(DownQ(b - a, m), m);
  }

  /** Over a range a draw can span, every multiple is some draw's result. */
  lemma EveryMultipleDrawn(min: int, max: int, mult: int, q: int, upper: nat -> bool) returns (rand: int)
    requires 0 <= min <= G2 && 0 <= max <= G2 && 1 <= mult <= G2
    requires Low(min, max) <= Times(q, mult) <= High(min, max)
    ensures Draw(rand) && RandomRangell(min, max, mult, rand, upper) == Value(Times(q, mult))
  {
    hide Times, RoundMin, RoundMax, TRem, UpQ, DownQ, Select;
    var lo, hi := Low(min, max), High(min, max);
    var p, t := UpQ(lo, mult), DownQ(hi, mult);
    rand := q - p;
    Rounded(lo, mult);
    Rounded(hi, mult);
    NonNegRounds(lo, hi, mult);
    Between(lo, hi, mult, q);
    Nearest(lo, mult);
    TimesOrder(p, t, mult);
    AtMostTimes(t, mult);
    DrawSelects(p, t, mult, q, upper);
  }

  lemma Between(lo: int, hi: int, m: int, q: int)
    requires 0 <= lo && m >= 1 && lo <= Times(q, m) <= hi
    ensures 0 <= UpQ(lo, m) <= q <= DownQ(hi, m) && Times(DownQ(hi, m), m) <= hi
  {
    hide Times;
    Nearest(lo, m);
    Nearest(hi, m);
    TimesOrder(UpQ(lo, m), q, m);
    TimesOrder(q, UpQ(lo, m), m);
    TimesOrder(q, DownQ(hi, m), m);
    TimesOrder(DownQ(hi, m), q, m);
    TimesOrder(q, DownQ(lo, m), m);
  }

  lemma DrawSelects(p: int, t: int, m: int, q: int, upper: nat -> bool)
    requires m >= 1 && p <= q <= t && t - p <= G2 && Times(t, m) <= G2
    requires Long(Times(p, m)) && Long(Times(t, m) - Times(p, m))
    ensures Select(Times(p, m), Times(t, m), m, q - p, upper) == Value(Times(q, m))
  {
    hide Times, Mults, Nth, TRem, Divider;
    var k := q - p;
    TimesOrder(p, q, m);
    TimesOrder(q, t, m);
    MultsOf(p, t, m);
    TRemRange(k, t - p + 1);
    NthOf(p, k, m);
  }

  lemma TimesZero(m: int)
    ensures Times(0, m) == 0
  {
  }

  lemma {:induction false} AtMostTimes(t: nat, m: int)
    requires m >= 1
    ensures t <= Times(t, m) && (m >= 2 ==> 2 * t <= Times(t, m))
  {
    hide Times;
    if t == 0 {
      TimesZero(m);
    } else {
      AtMostTimes(t - 1, m);
      TimesNext(t - 1, m);
    }
  }

  /** What the documentation promises of a result. */
  ghost predicate Honest(r: Outcome, lo: int, hi: int, m: int) {
    match r
    case Value(v) => lo <= v <= hi && Multiple(v, m)
    case NoMultiple => !Exists(lo, hi, m)
    case _ => false
  }

  const FAR: int := 0x1000_0000_0000_0000

  /** A range of either sign, no wider than a draw and below the switch to the divider. */
  ghost predicate Narrow(min: int, max: int, mult: int) {
    -FAR <= Low(min, max) && High(min, max) <= G2 && High(min, max) - Low(min, max) <= G2 && 1 <= mult <= FAR
  }

  lemma NarrowRounds(lo: int, hi: int, m: int)
    requires -FAR <= lo <= hi <= G2 && hi - lo <= G2 && 1 <= m <= FAR
    ensures lo <= RoundMin(lo, m) <= lo + 2 * m && -m < TRem(lo, m) < m
    ensures hi - m < RoundMax(hi, m) < hi + m && RoundMax(hi, m) <= G2
    ensures TRem(lo, m) == 0 ==> RoundMin(lo, m) == lo
  {
    if lo < 0 { NegRem(lo, m); }
    if hi < 0 {
      NegRem(hi, m);
      SignOfUp(hi, m);
      Rounded(hi, m);
      TimesOrder(UpQ(hi, m), 0, m);
    }
  }

  /** A rounded range spans no more multiples than there are draws. */
  lemma {:induction false} FewMultiples(p: int, t: int, m: int)
    requires m >= 1 && p < t
    ensures Times(p, m) + m + (t - p - 1) <= Times(t, m)
    decreases t - p
  {
    hide Times;
    TimesNext(t - 1, m);
    if p < t - 1 { FewMultiples(p, t - 1, m); }
  }

  ghost function LowQ(lo: int, m: int): int
    requires m > 0
  {
    UpQ(lo, m) + if lo < 0 && lo % m != 0 then 1 else 0
  }

  ghost function HighQ(hi: int, m: int): int
    requires m > 0
  {
    if hi < 0 then UpQ(hi, m) else DownQ(hi, m)
  }

  /** On such a range the rounded bounds decide: every draw lands between them. */
  lemma NarrowSelects(min: int, max: int, mult: int, rand: int, upper: nat -> bool)
    requires Narrow(min, max, mult) && Draw(rand)
    ensures var r := RandomRangell(min, max, mult, rand, upper);
      var a, b := RoundMin(Low(min, max), mult), RoundMax(High(min, max), mult);
      if a > b then r == NoMultiple else r.Value? && a <= r.v <= b && Multiple(r.v, mult)
  {
    hide Times, RoundMin, RoundMax, TRem, UpQ, DownQ, Select, Multiple, Mults;
    var lo, hi := Low(min, max), High(min, max);
    Rounded(lo, mult);
    Rounded(hi, mult);
    NarrowRounds(lo, hi, mult);
    SelectWithin(LowQ(lo, mult), HighQ(hi, mult), mult, rand, upper);
    var a, b := RoundMin(lo, mult), RoundMax(hi, mult);
    if a <= b { MultsBound(a, b, mult); }
  }

  lemma MultsBound(a: int, b: int, m: int)
    requires a <= b && m >= 1
    ensures Mults(a, b, m) <= b - a + 1
  {
    Nearest(b - a, m);
    AtMostTimes(DownQ(b - a, m), m);
  }

  /** And some draw lands on the upper one. */
  lemma TopDrawn(min: int, max: int, mult: int, upper: nat -> bool) returns (rand: int)
    requires Narrow(min, max, mult) && RoundMin(Low(min, max), mult) <= RoundMax(High(min, max), mult)
    ensures Draw(rand) && RandomRangell(min, max, mult, rand, upper) == Value(RoundMax(High(min, max), mult))
  {
    hide Times, RoundMin, RoundMax, TRem, UpQ, DownQ, Select;
    var lo, hi := Low(min, max), High(min, max);
    var p, t := LowQ(lo, mult), HighQ(hi, mult);
    rand := t - p;
    Rounded(lo, mult);
    Rounded(hi, mult);
    NarrowRounds(lo, hi, mult);
    TimesOrder(p, t, mult);
    if p < t { FewMultiples(p, t, mult); }
    DrawSelects(p, t, mult, t, upper);
  }

  /** Over such a range every draw gives what is promised exactly when rounding serves. */
  lemma NarrowExactly(min: int, max: int, mult: int, upper: nat -> bool)
    requires Narrow(min, max, mult)
    ensures (forall rand :: Draw(rand) ==>
        Honest(RandomRangell(min, max, mult, rand, upper), Low(min, max), High(min, max), mult))
      <==> Sound(Low(min, max), High(min, max), mult)
  {
    hide RandomRangell, RoundMin, RoundMax, Exists, Multiple, Sound;
    var lo, hi := Low(min, max), High(min, max);
    var a, b := RoundMin(lo, mult), RoundMax(hi, mult);
    ServesExactly(lo, hi, mult);
    forall rand | Draw(rand)
      ensures var r := RandomRangell(min, max, mult, rand, upper);
        if a > b then r == NoMultiple else r.Value? && a <= r.v <= b && Multiple(r.v, mult)
    {
      NarrowSelects(min, max, mult, rand, upper);
    }
    NarrowRounds(lo, hi, mult);
    if !Sound(lo, hi, mult) {
      assert Draw(0);
      var r := RandomRangell(min, max, mult, 0, upper);
      if r.Value? { InRangeExists(r.v, lo, hi, mult); }
      if a <= b {
        var rand := TopDrawn(min, max, mult, upper);
      }
    }
  }

  lemma InRangeExists(v: int, lo: int, hi: int, m: int)
    ensures Multiple(v, m) && lo <= v <= hi ==> Exists(lo, hi, m)
  {
  }

  // ---------------------------------------------------------------- wide ranges

  lemma SmallNegative(a: int, n: int)
    requires a < 0 && -a < n
    ensures TRem(a, n) == a
  {
    ModUnique(-a, 0, -a, n);
  }

  /** The draw 0, which has no bit set, takes the lower half every time. */
  lemma {:induction false} DividerLow(min: int, max: int, cnt: nat, upper: nat -> bool)
    requires Long(min) && min <= max && max - min <= MAX && cnt <= 32 && max - min <= Pow2(63 - cnt)
    requires forall c :: !upper(c)
    ensures Divider(min, max, cnt, 0, upper) == Value(min)
    decreases 33 - cnt
  {
    var diff := max - min;
    if diff > G2 && diff / 2 > G2 {
      StillWide(diff, cnt);
      assert Pow2(63 - cnt) == 2 * Pow2(62 - cnt);
      DividerLow(min, min + diff / 2, cnt + 1, upper);
    }
  }

  /** A wide range with a negative start: the draw 0 gives twice the start. */
  lemma NegativeEscapes(lo: int, hi: int, upper: nat -> bool)
    requires Long(lo) && lo < 0 && G2 < hi <= MAX && forall c :: !upper(c)
    ensures RandomRangell(lo, hi, 1, 0, upper) == if hi - lo < MAX then Fits(2 * lo) else Overflow
  {
    hide TRem, Divider, Mults, Nth, Pow2;
    ByOne(lo, hi);
    if hi - lo < MAX {
      Pow31();
      DividerLow(lo, hi, 0, upper);
      SmallNegative(lo, hi - lo + 1);
    }
  }

  lemma ByOne(lo: int, hi: int)
    requires lo <= hi
    ensures TRem(lo, 1) == 0 && TRem(hi, 1) == 0 && Mults(lo, hi, 1) == hi - lo + 1 && Nth(lo, lo, 1) == 2 * lo
  {
  }

  /** The halves chosen are bits of the draw. */
  ghost predicate BitsOf(rand: int, upper: nat -> bool) {
    forall c :: upper(c) ==> c < 31 && rand / Pow2(c) % 2 == 1
  }

  /** Over a range too wide for one draw every draw gives what is promised exactly when the range
      does not begin below zero. */
  lemma WideExactly(min: int, max: int)
    requires Long(min) && Long(max) && G2 < High(min, max) && High(min, max) + G2 <= MAX
    ensures (forall rand, upper :: Draw(rand) && BitsOf(rand, upper) ==>
        Honest(RandomRangell(min, max, 1, rand, upper), Low(min, max), High(min, max), 1))
      <==> Low(min, max) >= 0
  {
    hide RandomRangell, Multiple, Exists, BitsOf;
    var lo, hi := Low(min, max), High(min, max);
    if lo >= 0 {
      forall rand, upper | Draw(rand) && BitsOf(rand, upper)
        ensures Honest(RandomRangell(min, max, 1, rand, upper), lo, hi, 1)
      {
        RangeHolds(min, max, 1, rand, upper);
        assert RoundMin(lo, 1) == lo;
      }
    } else {
      var upper := (c: nat) => false;
      assert BitsOf(0, upper) by { NoBits(upper); }
      NegativeEscapes(lo, hi, upper);
      SwapBounds(min, max, upper);
      assert Draw(0);
    }
  }

  lemma NoBits(upper: nat -> bool)
    requires forall c :: !upper(c)
    ensures BitsOf(0, upper)
  {
  }

  lemma SwapBounds(min: int, max: int, upper: nat -> bool)
    ensures RandomRangell(min, max, 1, 0, upper) == RandomRangell(Low(min, max), High(min, max), 1, 0, upper)
  {
  }
}
