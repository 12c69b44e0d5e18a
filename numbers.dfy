/** The two integer roundings the application uses on non-negative values. */
module Numbers {

  /** `Math.round(t / n)` for a non-negative total `t` and a positive count `n`:
      the nearest integer to t/n, halves rounded up. */
  function RoundDiv(t: nat, n: nat): (r: nat)
    requires n > 0
    ensures 2 * t - n < 2 * n * r <= 2 * t + n
  {
    var q := (2 * t + n) / (2 * n);
    DivBounds(2 * t + n, 2 * n);
    q
  }

  /** `Math.ceil(len / size)` for a non-negative length and a positive size. */
  function CeilDiv(len: nat, size: nat): (r: nat)
    requires size > 0
    ensures size * r >= len
    ensures r > 0 ==> size * (r - 1) < len
  {
    var q := (len + size - 1) / size;
    DivBounds(len + size - 1, size);
    q
  }

  /** Euclidean division brackets its dividend. */
  lemma DivBounds(a: nat, b: nat)
    requires b > 0
    ensures b * (a / b) <= a < b * (a / b) + b
  {
    var q, m := a / b, a % b;
    assert a == b * q + m;
  }

  /** The rounded mean is unique: any r in the rounding bracket is RoundDiv. */
  lemma {:induction false} RoundDivUnique(t: nat, n: nat, r: nat)
    requires n > 0
    requires 2 * t - n < 2 * n * r <= 2 * t + n
    ensures r == RoundDiv(t, n)
  {
    var q := RoundDiv(t, n);
    var m := 2 * n;
    assert m * r > 2 * t - n && m * q <= 2 * t + n;
    assert m * q > 2 * t - n && m * r <= 2 * t + n;
    if r < q {
      MulGap(m, r, q);
    } else if r > q {
      MulGap(m, q, r);
    }
  }

  /** Multiples of `k` at different factors lie at least `k` apart. */
  lemma MulGap(k: nat, a: nat, b: nat)
    requires a < b
    ensures k * a + k <= k * b
  {
    MulMono(k, a + 1, b);
  }

  lemma MulMono(k: nat, a: nat, b: nat)
    requires a <= b
    ensures k * a <= k * b
  {
    assert k * b == k * a + k * (b - a);
  }

  /** Concrete cases of the rounding: 32/16 = 2, 33/16 = 2.0625 rounds to 2,
      24/16 = 1.5 rounds up to 2, 23/16 = 1.4375 rounds to 1. */
  lemma RoundDivExamples()
    ensures RoundDiv(32, 16) == 2
    ensures RoundDiv(33, 16) == 2
    ensures RoundDiv(24, 16) == 2
    ensures RoundDiv(23, 16) == 1
    ensures RoundDiv(0, 16) == 0
  {
  }
}
