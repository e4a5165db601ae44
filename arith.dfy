/** Integer and rational facts shared by the index arithmetic, the padding and the
    rounding code: multiples, quotients and `math.ceil`. */
module Arith {
  /** A multiple of k leaves no remainder, and dividing it by k gives back the factor. */
  lemma MultipleMod(q: int, k: int)
    requires k > 0
    ensures (q * k) % k == 0
    ensures (q * k) / k == q
  {
    var d := (q * k) / k;
    var r := (q * k) % k;
    assert q * k == d * k + r;
    assert (q - d) * k == r;
    MulAwayFromZero(q - d, k);
  }

  /** A non-zero multiple of k is at least k away from zero. */
  lemma MulAwayFromZero(t: int, k: int)
    requires k > 0
    ensures t == 0 || t * k >= k || t * k <= -k
  {
    if t >= 1 {
      assert t * k == (t - 1) * k + k;
      assert (t - 1) * k >= 0;
    } else if t <= -1 {
      assert t * k == (t + 1) * k - k;
      assert (t + 1) * k <= 0;
    }
  }

  /** A non-negative number below k has quotient 0. */
  lemma DivBelow(x: int, k: int)
    requires 0 <= x < k
    ensures x / k == 0
  {
    MulAwayFromZero(x / k, k);
  }

  lemma MulMonotone(a: nat, b: nat, c: nat)
    requires a <= b
    ensures a * c <= b * c
  {
  }

  lemma MulCancel(a: int, b: int, k: int)
    requires k > 0 && a * k < b * k
    ensures a < b
  {
  }

  lemma DivUpper(n: nat, k: nat, w: nat)
    requires k > 0 && n < w * k
    ensures n / k < w
  {
    assert (n / k) * k <= n;
    MulCancel(n / k, w, k);
  }

  lemma DivModUnique(x: nat, d: nat, q: nat, r: nat)
    requires d > 0 && r < d && x == q * d + r
    ensures x / d == q && x % d == r
  {
    var q', r' := x / d, x % d;
    assert x == q' * d + r';
    assert (q' - q) * d == r - r';
    assert (q - q') * d == r' - r;
    MulCancel(q' - q, 1, d);
    MulCancel(q - q', 1, d);
  }

  /** `math.ceil`. */
  function Ceil(x: real): (c: int)
    ensures c as real >= x && (c as real) - 1.0 < x
  {
    -((-x).Floor)
  }
}
