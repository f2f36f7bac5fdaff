/** Monotonicity facts about integer multiplication used by the layout and
    loop-order proofs. */
module Arith {

  lemma MulMono(x: int, y: int, d: int)
    requires x <= y && d >= 0
    ensures x * d <= y * d
  {
  }

  lemma MulLeftMono(h: int, x: int, y: int)
    requires h >= 0 && x <= y
    ensures h * x <= h * y
  {
  }

  lemma MulStrictMono(x: int, y: int, d: int)
    requires x < y && d > 0
    ensures x * d < y * d
  {
  }

  /** Dividing both sides by a positive factor. */
  lemma MulCancel(x: int, y: int, d: int)
    requires d > 0 && x * d <= y * d
    ensures x <= y
  {
    if x > y {
      MulStrictMono(y, x, d);
    }
  }

  /** Euclidean division by a positive divisor brackets the dividend. */
  lemma DivBounds(n: int, d: int)
    requires d > 0
    ensures (n / d) * d <= n < (n / d) * d + d
    ensures n >= 0 ==> n / d >= 0
  {
    assert n == (n / d) * d + n % d;
  }

  /** x <= m/d and m/d <= n/e give x <= n/e, all cross-multiplied. */
  lemma CrossLe(x: int, d: int, m: int, e: int, n: int)
    requires d > 0 && e > 0 && x * d <= m && m * e <= n * d
    ensures x * e <= n
  {
    MulMono(x * d, m, e);
    assert (x * d) * e == (x * e) * d;
    MulCancel(x * e, n, d);
  }

  /** x < m/d and m/d <= n/e give x < n/e, all cross-multiplied. */
  lemma CrossLt(x: int, d: int, m: int, e: int, n: int)
    requires d > 0 && e > 0 && x * d < m && m * e <= n * d
    ensures x * e < n
  {
    MulStrictMono(x * d, m, e);
    assert (x * d) * e == (x * e) * d;
    if x * e >= n {
      MulMono(n, x * e, d);
    }
  }

  /** Scaling both sides of x*y <= u*v by the same non-negative factor. */
  lemma ScaleBoth(h: int, x: int, y: int, u: int, v: int)
    requires h >= 0 && x * y <= u * v
    ensures (h * x) * y <= (h * u) * v
  {
    assert (h * x) * y == h * (x * y);
    assert (h * u) * v == h * (u * v);
    MulLeftMono(h, x * y, u * v);
  }

  /** The sign of a product with a positive factor is the sign of the other. */
  lemma SignOfProduct(n: int, d: int)
    requires d > 0
    ensures n < 0 <==> n * d < 0
  {
    if n < 0 {
      MulStrictMono(n, 0, d);
    } else {
      MulMono(0, n, d);
    }
  }

  /** x*e < (y + 1)*e with e > 0 means x <= y. */
  lemma BelowNext(x: int, y: int, e: int)
    requires e > 0 && x * e < y * e + e
    ensures x <= y
  {
    if x > y {
      MulMono(y + 1, x, e);
    }
  }

  /** Below m rows of n, index k sits in row k / n at column k % n. */
  lemma DivModSplit(k: nat, n: nat, m: nat)
    requires k < m * n
    ensures n > 0 && k / n < m && k % n < n && k == (k / n) * n + k % n
  {
    DivBounds(k, n);
    if k / n >= m {
      MulMono(m, k / n, n);
    }
  }
}
