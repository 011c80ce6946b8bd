/** lib/random_range.c, random_bit: one random bit of a mask; and lib/tlibio.c,
    lio_random_methods: one io type and one wait method of those asked for.

    A word is its bits, least significant first; the last one is the sign. */
module RandomBit {
  import opened Arith

  type Word = seq<bool>

  const LONG: nat := 64
  const INT: nat := 32

  function Zero(n: nat): (w: Word)
    ensures |w| == n && forall i :: 0 <= i < n ==> !w[i]
  {
    seq(n, _ => false)
  }

  function Bit(n: nat, i: nat): (w: Word)
    requires i < n
    ensures |w| == n && forall j :: 0 <= j < n ==> w[j] == (j == i)
  {
    Zero(n)[i := true]
  }

  function And(a: Word, b: Word): (w: Word)
    requires |a| == |b|
    ensures |w| == |a| && forall i :: 0 <= i < |a| ==> w[i] == (a[i] && b[i])
  {
    seq(|a|, i requires 0 <= i < |a| => a[i] && b[i])
  }

  function Or(a: Word, b: Word): (w: Word)
    requires |a| == |b|
    ensures |w| == |a| && forall i :: 0 <= i < |a| ==> w[i] == (a[i] || b[i])
  {
    seq(|a|, i requires 0 <= i < |a| => a[i] || b[i])
  }

  function Not(a: Word): (w: Word)
    ensures |w| == |a| && forall i :: 0 <= i < |a| ==> w[i] == !a[i]
  {
    seq(|a|, i requires 0 <= i < |a| => !a[i])
  }

  /** Shift right by one, keeping the sign. */
  function Shr(w: Word): Word
    requires w != []
  {
    w[1..] + [w[|w| - 1]]
  }

  /** Shift left by one. */
  function Shl(w: Word): Word
    requires w != []
  {
    [false] + w[..|w| - 1]
  }

  function Count(w: Word): nat { if w == [] then 0 else Count(w[..|w| - 1]) + if w[|w| - 1] then 1 else 0 }

  lemma CountNext(w: Word, i: nat)
    requires i < |w|
    ensures Count(w[..i + 1]) == Count(w[..i]) + if w[i] then 1 else 0
  {
    assert w[..i + 1][..i] == w[..i];
  }

  lemma {:induction false} CountGrows(w: Word, i: nat, j: nat)
    requires i <= j <= |w|
    ensures Count(w[..i]) <= Count(w[..j])
    decreases j - i
  {
    if i < j {
      CountNext(w, j - 1);
      CountGrows(w, i, j - 1);
    }
  }

  lemma {:induction false} CountZero(w: Word)
    ensures Count(w) == 0 <==> forall i :: 0 <= i < |w| ==> !w[i]
  {
    if w != [] {
      var init := w[..|w| - 1];
      CountZero(init);
      assert forall i :: 0 <= i < |init| ==> init[i] == w[i];
    }
  }

  /** The first loop: mask & bit, with bit moving left, counts the bits set. */
  method CountBits(mask: Word) returns (nbits: nat)
    requires |mask| == LONG
    ensures nbits == Count(mask)
  {
    nbits := 0;
    var bit, nshift := Bit(LONG, 0), 0;
    while nshift < LONG
      invariant nshift <= LONG && nbits == Count(mask[..nshift])
      invariant |bit| == LONG && bit == if nshift < LONG then Bit(LONG, nshift) else Zero(LONG)
    {
      CountNext(mask, nshift);
      TestBit(mask, nshift);
      if And(mask, bit) != Zero(LONG) {
        nbits := nbits + 1;
      }
      ShiftBit(nshift);
      bit := Shl(bit);
      nshift := nshift + 1;
    }
    assert mask[..LONG] == mask;
  }

  lemma TestBit(mask: Word, i: nat)
    requires |mask| == LONG && i < LONG
    ensures And(mask, Bit(LONG, i)) != Zero(LONG) <==> mask[i]
  {
    if mask[i] {
      assert And(mask, Bit(LONG, i))[i];
    } else {
      assert And(mask, Bit(LONG, i)) == Zero(LONG);
    }
  }

  lemma ShiftBit(i: nat)
    requires i < LONG
    ensures Shl(Bit(LONG, i)) == if i + 1 < LONG then Bit(LONG, i + 1) else Zero(LONG)
  {
  }

  /** The k-th set bit is at i. */
  ghost predicate IsKth(mask: Word, k: nat, i: nat) { i < |mask| && mask[i] && Count(mask[..i]) + 1 == k }

  /** m is the mask after s shifts to the right, as far as the mask's own bits go. */
  ghost predicate Shifted(m: Word, mask: Word, s: nat) {
    |m| == |mask| == LONG && s <= LONG && forall i :: 0 <= i < LONG - s ==> m[i] == mask[s + i]
  }

  lemma ShiftOn(m: Word, mask: Word, s: nat)
    requires Shifted(m, mask, s) && s < LONG
    ensures (And(m, Bit(LONG, 0)) != Zero(LONG) <==> mask[s]) && Shifted(Shr(m), mask, s + 1)
  {
    TestBit(m, 0);
  }

  lemma MoreToCome(mask: Word, s: nat, bit: nat, k: nat)
    requires s <= |mask| == LONG && bit + Count(mask[..s]) == k <= Count(mask) && bit > 0
    ensures s < LONG && Count(mask[..s + 1]) == Count(mask[..s]) + if mask[s] then 1 else 0
    ensures mask[s] && bit == 1 ==> IsKth(mask, k, s)
  {
    assert mask[..LONG] == mask;
    if s < LONG { CountNext(mask, s); }
  }

  /** The second loop: shift right until the k-th set bit has gone past. */
  method FindBit(mask: Word, k: nat) returns (nshift: nat)
    requires |mask| == LONG && 1 <= k <= Count(mask)
    ensures 1 <= nshift <= LONG && IsKth(mask, k, nshift - 1)
  {
    hide Count, Shifted, And, Bit, Zero, IsKth;
    var m, bit := mask, k;
    nshift := 0;
    Unshifted(mask);
    while bit != 0
      invariant nshift <= LONG && bit + Count(mask[..nshift]) == k
      invariant Shifted(m, mask, nshift) && |m| == LONG
      invariant bit == 0 ==> nshift > 0 && IsKth(mask, k, nshift - 1)
      decreases LONG - nshift
    {
      MoreToCome(mask, nshift, bit, k);
      ShiftOn(m, mask, nshift);
      if And(m, Bit(LONG, 0)) != Zero(LONG) {
        bit := bit - 1;
      }
      m := Shr(m);
      nshift := nshift + 1;
    }
  }

  lemma Unshifted(mask: Word)
    requires |mask| == LONG
    ensures Shifted(mask, mask, 0) && Count(mask[..0]) == 0
  {
  }

  /** `random_bit`: nothing of an empty mask, else the bit whose turn the draw chose.  The draw
      is random_range(1, nbits, 1), that is 1 plus a remainder by nbits. */
  method RandomBitOf(mask: Word, rand: nat) returns (r: Word)
    requires |mask| == LONG
    ensures Chosen(mask, rand, r)
  {
    CountZero(mask);
    assert Count(mask) == 0 <==> mask == Zero(LONG);
    if mask == Zero(LONG) {
      return mask;
    }
    var nbits := CountBits(mask);
    var bit := 1 + rand % nbits;
    var nshift := FindBit(mask, bit);
    r := Bit(LONG, nshift - 1);
  }

  ghost predicate Chosen(mask: Word, rand: nat, r: Word) {
    && |r| == |mask|
    && (Count(mask) == 0 ==> r == Zero(|mask|))
    && (Count(mask) > 0 ==> exists i :: 0 <= i < |mask| && IsKth(mask, 1 + rand % Count(mask), i) && r == Bit(|mask|, i))
  }

  /** Every set bit is the one chosen by some draw. */
  lemma EveryBitDrawn(mask: Word, i: nat, r: Word) returns (rand: nat)
    requires i < |mask| && mask[i]
    ensures rand < |mask| && (Chosen(mask, rand, r) <==> r == Bit(|mask|, i))
  {
    rand := Count(mask[..i]);
    CountNext(mask, i);
    CountGrows(mask, i + 1, |mask|);
    assert mask[..|mask|] == mask;
    CountBelow(mask[..i]);
    ModUnique(rand, 0, rand, Count(mask));
    var k := 1 + rand;
    assert IsKth(mask, k, i);
    forall j | 0 <= j < |mask| && IsKth(mask, k, j) ensures j == i { OnlyKth(mask, k, i, j); }
  }

  lemma {:induction false} CountBelow(w: Word)
    ensures Count(w) <= |w|
  {
    if w != [] { CountBelow(w[..|w| - 1]); }
  }

  lemma OnlyKth(mask: Word, k: nat, i: nat, j: nat)
    requires IsKth(mask, k, i) && IsKth(mask, k, j)
    ensures i == j
  {
    var a, b := if i < j then i else j, if i < j then j else i;
    CountNext(mask, a);
    if a < b { CountGrows(mask, a + 1, b); }
  }

  // ---------------------------------------------------------------- io methods

  /** The word with the bits of a set. */
  function WordOf(n: nat, bits: set<nat>): (w: Word)
    ensures |w| == n && forall i :: 0 <= i < n ==> w[i] == (i in bits)
  {
    seq(n, i requires 0 <= i < n => i in bits)
  }

  const IO_TYPES: set<nat> := {0, 4, 5} // 00061
  const WAIT_TYPES: set<nat> := {13} // 00020000
  const RANDOM: set<nat> := {21} // 010000000

  /** The long assigned to an int. */
  function Truncate(w: Word): Word
    requires |w| == LONG
  {
    w[..INT]
  }

  /** i is the bit of the group that r has. */
  ghost predicate OnlyBit(r: Word, group: set<nat>, i: nat) {
    i < |r| && i in group && r[i] && forall j :: 0 <= j < |r| && j in group && r[j] ==> j == i
  }

  /** Of the bits in group, r has one of those asked for, or none if none was. */
  ghost predicate OneOf(r: Word, asked: Word, group: set<nat>) {
    if exists i :: 0 <= i < |asked| && i in group && asked[i]
    then exists i :: 0 <= i < |asked| && asked[i] && OnlyBit(r, group, i)
    else forall j :: 0 <= j < |r| && j in group ==> !r[j]
  }

  lemma ChosenFrom(asked: Word, group: set<nat>, rand: nat, b: Word)
    requires |asked| == LONG && Chosen(And(asked, WordOf(LONG, group)), rand, b)
    ensures |b| == LONG && OneOf(b, asked, group) && forall i :: 0 <= i < LONG && b[i] ==> i in group
  {
    hide Count;
    var m := And(asked, WordOf(LONG, group));
    CountZero(m);
    if Count(m) == 0 {
      assert forall i :: 0 <= i < LONG && i in group && asked[i] ==> m[i];
    } else {
      var i :| 0 <= i < |m| && IsKth(m, 1 + rand % Count(m), i) && b == Bit(|m|, i);
      assert m[i] && OnlyBit(b, group, i);
    }
  }

  /** `lio_random_methods`: one io type and one wait method of those asked for, the random bit
      gone, every other bit of the int as it was. */
  method LioRandomMethods(curr: Word, rand1: nat, rand2: nat) returns (mask: Word)
    requires |curr| == LONG
    ensures |mask| == INT && OneOf(mask, curr, IO_TYPES) && OneOf(mask, curr, WAIT_TYPES)
    ensures forall i :: 0 <= i < INT && i in RANDOM ==> !mask[i]
    ensures forall i :: 0 <= i < INT && i !in IO_TYPES + WAIT_TYPES + RANDOM ==> mask[i] == curr[i]
  {
    var io, wait := WordOf(LONG, IO_TYPES), WordOf(LONG, WAIT_TYPES);
    var kept := And(curr, Not(Or(Or(io, wait), WordOf(LONG, RANDOM))));
    var a := RandomBitOf(And(curr, io), rand1);
    ChosenFrom(curr, IO_TYPES, rand1, a);
    var b := RandomBitOf(And(curr, wait), rand2);
    ChosenFrom(curr, WAIT_TYPES, rand2, b);
    mask := Truncate(kept);
    mask := Truncate(Or(Extend(mask), a));
    mask := Truncate(Or(Extend(mask), b));
    Assembled(curr, kept, a, b, mask);
  }

  /** The int converted back to a long. */
  function Extend(w: Word): (r: Word)
    requires |w| == INT
    ensures |r| == LONG && forall i :: 0 <= i < LONG ==> r[i] == w[if i < INT then i else INT - 1]
  {
    seq(LONG, i requires 0 <= i < LONG => w[if i < INT then i else INT - 1])
  }

  lemma Assembled(curr: Word, kept: Word, a: Word, b: Word, mask: Word)
    requires |curr| == |kept| == |a| == |b| == LONG && |mask| == INT
    requires forall i :: 0 <= i < LONG ==> kept[i] == (curr[i] && i !in IO_TYPES + WAIT_TYPES + RANDOM)
    requires forall i :: 0 <= i < INT ==> mask[i] == (kept[i] || a[i] || b[i])
    requires OneOf(a, curr, IO_TYPES) && OneOf(b, curr, WAIT_TYPES)
    requires (forall i :: 0 <= i < LONG && a[i] ==> i in IO_TYPES) && (forall i :: 0 <= i < LONG && b[i] ==> i in WAIT_TYPES)
    ensures OneOf(mask, curr, IO_TYPES) && OneOf(mask, curr, WAIT_TYPES)
    ensures forall i :: 0 <= i < INT && i in RANDOM ==> !mask[i]
    ensures forall i :: 0 <= i < INT && i !in IO_TYPES + WAIT_TYPES + RANDOM ==> mask[i] == curr[i]
  {
    SameGroup(a, mask, curr, IO_TYPES);
    SameGroup(b, mask, curr, WAIT_TYPES);
  }

  lemma SameGroup(a: Word, mask: Word, curr: Word, group: set<nat>)
    requires |a| == |curr| == LONG && |mask| == INT && (forall i :: i in group ==> i < INT)
    requires forall i :: 0 <= i < INT && i in group ==> mask[i] == a[i]
    requires OneOf(a, curr, group)
    ensures OneOf(mask, curr, group)
  {
    if exists i :: 0 <= i < |curr| && i in group && curr[i] {
      var i :| 0 <= i < |curr| && curr[i] && OnlyBit(a, group, i);
      assert OnlyBit(mask, group, i);
    }
  }
}
