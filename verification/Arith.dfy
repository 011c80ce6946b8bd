/** Division with remainder by a variable. */
module Arith {

  lemma {:induction false} MulStep(a: nat, b: nat, p: nat)
    ensures a < b ==> a * p + p <= b * p
    decreases b
  {
    if a < b {
      MulStep(a, b - 1, p);
      assert b * p == (b - 1) * p + p;
    }
  }

  lemma ModUnique(x: nat, q: nat, r: nat, p: nat)
    requires r < p && x == q * p + r
    ensures x % p == r
  {
    MulStep(x / p, q, p);
    MulStep(q, x / p, p);
  }

  lemma ModStep(a: nat, p: nat)
    requires p > 0
    ensures (a + p) % p == a % p
  {
    ModUnique(a + p, a / p + 1, a % p, p);
  }

  lemma {:induction false} ModMultiple(a: nat, q: nat, p: nat)
    requires p > 0
    ensures (a + q * p) % p == a % p
    decreases q
  {
    if q > 0 {
      ModMultiple(a, q - 1, p);
      ModStep(a + (q - 1) * p, p);
      assert a + q * p == (a + (q - 1) * p) + p;
    }
  }

  lemma NextMod(n: nat, m: nat)
    requires m > 0
    ensures (n + 1) % m == if n % m + 1 >= m then 0 else n % m + 1
  {
    var q, r := n / m, n % m;
    if r + 1 < m {
      ModUnique(n + 1, q, r + 1, m);
    } else {
      assert n + 1 == (q + 1) * m;
      ModUnique(n + 1, q + 1, 0, m);
    }
  }

  lemma ModAdd(a: nat, n: nat, m: nat)
    requires m > 0
    ensures (a % m + n) % m == (a + n) % m
  {
    ModMultiple(a % m + n, a / m, m);
    assert a == (a / m) * m + a % m;
  }
}
