/** Facts about multiplication and Euclidean division that the solver does not find on its own. */
module Arith {

  lemma DivMulAdd(v: nat, w: nat, p: nat)
    requires v < p
    ensures (v + p * w) / p == w
  {
    DivModUnique(v + p * w, p, w, v);
  }

  lemma DivModSplit(x: nat, p: nat)
    requires p > 0
    ensures x / p >= 0 && x % p < p && x == (x / p) * p + x % p
  {
  }

  lemma MulDistrib(a: int, b: int, c: int)
    ensures a * b + a * c == a * (b + c)
  {
  }

  /** Euclidean division is determined by quotient and remainder. */
  lemma DivModUnique(x: int, p: int, q: int, r: int)
    requires p > 0 && 0 <= r < p && x == q * p + r
    ensures x / p == q && x % p == r
  {
    var q0, r0 := x / p, x % p;
    assert x == q0 * p + r0;
    MulDistrib(p, q, -q0);
    assert (q - q0) * p == r0 - r;
    if q > q0 {
      MulMono(q - q0, p);
    } else if q < q0 {
      MulMono(q0 - q, p);
    }
  }

  lemma MulMono(a: int, p: int)
    requires a >= 1 && p > 0
    ensures a * p >= p
  {
    assert a * p == (a - 1) * p + p;
  }

  /** One more factor adds one more `b`. */
  lemma MulSucc(a: nat, b: nat)
    ensures (a + 1) * b == a * b + b
  {
  }

  /** Multiplication by a natural number is monotone. */
  lemma MulLe(a: nat, c: nat, b: nat)
    requires a <= c
    ensures a * b <= c * b
  {
    MulDistrib(b, a, c - a);
  }

  /** The quotient times the divisor lies within one divisor below the dividend. */
  lemma DivBounds(n: nat, k: nat)
    requires k > 0
    ensures (n / k) * k <= n < (n / k) * k + k
  {
  }

  /** A dividend below `p * d` has a quotient below `d`. */
  lemma DivBelow(n: nat, p: nat, d: nat)
    requires p > 0
    ensures n < p * d ==> n / p < d
  {
    DivBounds(n, p);
    if n / p >= d {
      MulLe(d, n / p, p);
    }
  }

  /** Products of naturals are natural. */
  lemma MulNat(a: nat, b: nat)
    ensures a * b >= 0
  {
  }

  /** Division of naturals stays natural. */
  lemma DivNat(a: nat, b: nat)
    requires b > 0
    ensures a / b >= 0
  {
  }

  /** Equal products with the same positive factor have equal other factors. */
  lemma MulCancel(a: nat, c: nat, b: nat)
    requires b > 0 && a * b == c * b
    ensures a == c
  {
    if a < c {
      MulLe(a + 1, c, b);
      MulSucc(a, b);
    } else if c < a {
      MulLe(c + 1, a, b);
      MulSucc(c, b);
    }
  }

  /** A strictly smaller product with the same natural factor has the smaller other factor. */
  lemma MulLtCancel(a: nat, c: nat, b: nat)
    requires a * b < c * b
    ensures a < c
  {
    if a >= c {
      MulLe(c, a, b);
    }
  }

  lemma MulComm3(x: nat, d: nat, p: nat)
    ensures x * (d * p) == d * (x * p)
  {
  }
}
