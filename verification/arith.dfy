/** Small facts about multiplication and Euclidean division on naturals that the solver
    does not find on its own. */
module Arith {

  lemma MulAtLeast(r: nat, k: int)
    requires k >= 1
    ensures r * k >= r
  {
  }

  lemma MulMono(a: nat, b: nat, d: nat)
    requires a <= b
    ensures a * d <= b * d
  {
  }

  /** Dividing an exact multiple gives back the other factor, with no remainder. */
  lemma MulDiv(r: nat, q: nat)
    requires r >= 1
    ensures (r * q) / r == q
    ensures (r * q) % r == 0
  {
    var a := r * q;
    var d := a / r;
    var m := a % r;
    assert a == r * d + m && 0 <= m < r;
    assert r * (q - d) == m;
    if q - d >= 1 {
      MulAtLeast(r, q - d);
      assert false;
    } else if q - d <= -1 {
      MulAtLeast(r, d - q);
      assert false;
    }
  }

  /** A number with no remainder modulo r is r times its quotient. */
  lemma DivExact(n: nat, r: nat)
    requires r >= 1 && n % r == 0
    ensures n == r * (n / r)
  {
  }

  /** For 1 <= r <= n the quotient n / r lies in [1, n]. */
  lemma DivBounds(n: nat, r: nat)
    requires 1 <= r <= n
    ensures 1 <= n / r <= n
  {
    var q := n / r;
    assert n == r * q + n % r;
    if q == 0 {
      assert false;
    }
    MulAtLeast(q, r);
  }

  /** A factor `r` of `n = r * q` divides it and is at most `n`, and `n` is at most any positive
      multiple of itself. */
  lemma FactorBounds(r: nat, q: nat, n: nat, p: nat, all: nat)
    requires r >= 1 && q >= 1 && p >= 1
    requires n == r * q && (all == p * n || all == n * p)
    ensures n % r == 0
    ensures r <= n <= all
  {
    MulDiv(r, q);
    MulAtLeast(r, q);
    MulAtLeast(n, p);
  }
}
