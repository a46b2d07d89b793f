// `Math.round` of a ratio of whole numbers, as the pages use it for
// percentages and averages. `Math.round(x)` is `floor(x + 1/2)`, so for a
// positive divisor `d` it is `floor((2n + d) / 2d)`, which is Dafny's `/`.

module Rounding {

  /**
   * `Math.round(n / d)`: the integer nearest to `n / d`, a tie going up,
   * that is `r - 1/2 <= n / d < r + 1/2`.
   */
  function RoundDiv(n: int, d: int): (r: int)
    requires d > 0
    ensures 2 * n - d < 2 * d * r <= 2 * n + d
  {
    var q := (2 * n + d) / (2 * d);
    assert 2 * n + d == 2 * d * q + (2 * n + d) % (2 * d);
    q
  }

  /** `Math.round((n / d) * 100)`: the integer nearest to `100 n / d`, a tie going up. */
  function RoundPercent(n: int, d: int): (r: int)
    requires d > 0
    ensures 200 * n - d < 2 * d * r <= 200 * n + d
  {
    RoundDiv(100 * n, d)
  }

  lemma MulMono(b: int, x: int, y: int)
    requires b >= 0 && x >= y
    ensures b * x >= b * y
  {
    assert b * x - b * y == b * (x - y);
  }

  /** The quotient is `q` exactly when `a` lies in `[b*q, b*(q+1))`. */
  lemma DivBetween(a: int, b: int, q: int)
    requires b > 0 && b * q <= a < b * (q + 1)
    ensures a / b == q
  {
    var r := a / b;
    assert a == b * r + a % b && 0 <= a % b < b;
    if r < q {
      assert b * (r + 1) == b * r + b;
      MulMono(b, q, r + 1);
    } else if r > q {
      MulMono(b, r, q + 1);
    }
  }

  /** A quotient below `a < b*q` is below `q`; a non-negative dividend gives a non-negative quotient. */
  lemma DivBounds(a: int, b: int, q: int)
    requires b > 0 && 0 <= a < b * q
    ensures 0 <= a / b < q
  {
    var r := a / b;
    assert a == b * r + a % b && 0 <= a % b < b;
    if r >= q {
      MulMono(b, r, q);
    }
    if r < 0 {
      MulMono(b, -1, r);
    }
  }

  /** A whole multiple rounds to itself: `Math.round((v * n) / n)` is `v`. */
  lemma RoundDivExact(v: int, n: int)
    requires n > 0
    ensures RoundDiv(v * n, n) == v
  {
    var a := 2 * (v * n) + n;
    assert a == (2 * n) * v + n;
    assert (2 * n) * (v + 1) == (2 * n) * v + 2 * n;
    DivBetween(a, 2 * n, v);
  }

  /**
   * A share `n` of a whole `d` rounds to a percentage in 0..100, which is 0
   * for no share and 100 for the whole.
   */
  lemma RoundPercentBounds(n: nat, d: nat)
    requires 0 < d && n <= d
    ensures 0 <= RoundPercent(n, d) <= 100
    ensures n == 0 ==> RoundPercent(n, d) == 0
    ensures n == d ==> RoundPercent(n, d) == 100
  {
    var a := 2 * (100 * n) + d;
    MulMono(200, d, n);
    assert a < (2 * d) * 101;
    DivBounds(a, 2 * d, 101);
    if n == 0 {
      DivBetween(a, 2 * d, 0);
    }
    if n == d {
      DivBetween(a, 2 * d, 100);
    }
  }
}
