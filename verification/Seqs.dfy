/** Small facts about sequences used throughout. */
module Seqs {

  lemma SubSlice<T>(s: seq<T>, a: nat, b: nat, i: nat, j: nat)
    requires a <= b <= |s| && i <= j <= b - a
    ensures s[a..b][i..j] == s[a + i..a + j]
  {
    var x, y := s[a..b][i..j], s[a + i..a + j];
    forall k | 0 <= k < j - i ensures x[k] == y[k] {
      assert x[k] == s[a..b][i + k];
    }
  }
}
