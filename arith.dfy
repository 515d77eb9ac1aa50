/**
 * Facts about natural-number multiplication and division that the key
 * arithmetic and the queue's drain count share.
 */
module Arith {

  /** Multiplying by a natural number keeps order. */
  lemma {:induction false} MulMonotone(a: nat, b: nat, n: nat)
    requires a <= b
    ensures a * n <= b * n
  {
    if a < b {
      MulMonotone(a, b - 1, n);
      assert b * n == (b - 1) * n + n;
    }
  }

  /** A division of x by n with remainder below n is the Euclidean one. */
  lemma DivModUnique(x: nat, n: nat, q: nat, r: nat)
    requires n > 0 && r < n && x == q * n + r
    ensures x / n == q && x % n == r
  {
    var q', r' := x / n, x % n;
    assert x == q' * n + r';
    if q' >= q + 1 {
      MulMonotone(q + 1, q', n);
      assert false;
    }
    if q >= q' + 1 {
      MulMonotone(q' + 1, q, n);
      assert false;
    }
  }
}
