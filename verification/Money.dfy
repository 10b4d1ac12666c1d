/** Cent rounding, powers and geometric sums: the arithmetic under every loan schedule.
    Go's float64 is read as an exact real throughout the project. */
module Money {

  function Abs(x: real): real {
    if x < 0.0 then -x else x
  }

  /** math.Round: to the nearest integer, halves away from zero. */
  function Round(v: real): int {
    if v >= 0.0 then (v + 0.5).Floor else -((0.5 - v).Floor)
  }

  lemma RoundNear(v: real)
    ensures Abs(Round(v) as real - v) <= 0.5
  {}

  /** Halves go away from zero, on both sides. */
  lemma RoundHalves(v: real, k: int)
    ensures Round(-v) == -Round(v)
    ensures v >= 0.0 ==> (Round(v) == k <==> k as real - 0.5 <= v < k as real + 0.5)
  {}

  lemma RoundMonotone(v: real, w: real)
    requires v <= w
    ensures Round(v) <= Round(w)
  {}

  lemma RoundExact(k: int)
    ensures Round(k as real) == k
  {}

  lemma MulLeft(r: real, a: real, b: real)
    requires r >= 0.0 && a <= b
    ensures a * r <= b * r && r * a <= r * b
  {
    assert (b - a) * r >= 0.0;
  }

  lemma ProductAsReal(a: int, b: int)
    ensures (a * b) as real == a as real * b as real
  {}

  lemma Distribute(size: real, a: real, b: real)
    ensures size * (a - b) == size * a - size * b
  {}

  /** n errors of at most half. */
  lemma HalfEach(size: real, error: real)
    requires size >= 0.0 && Abs(error) <= 0.5
    ensures Abs(size * error) <= size / 2.0
  {
    MulLeft(size, error, 0.5);
    MulLeft(size, -0.5, error);
  }

  /** n times a rounded value against n times the value. */
  lemma TimesRounded(n: nat, rounded: int, value: real)
    requires Abs(rounded as real - value) <= 0.5
    ensures Abs((n * rounded) as real - n as real * value) <= n as real / 2.0
  {
    HalfEach(n as real, rounded as real - value);
    ProductAsReal(n, rounded);
    Distribute(n as real, rounded as real, value);
    assert n as real * (rounded as real - value) == (n * rounded) as real - n as real * value;
    hide Abs;
  }

  lemma DivMonotone(a: real, b: real, d: real)
    requires d > 0.0 && a <= b
    ensures a / d <= b / d
  {
    assert b / d - a / d == (b - a) / d;
  }

  /** math.Pow with a whole exponent. */
  function Pow(x: real, n: nat): real {
    if n == 0 then 1.0 else x * Pow(x, n - 1)
  }

  lemma PowStep(x: real, i: nat)
    ensures Pow(x, 0) == 1.0 && Pow(x, i + 1) == x * Pow(x, i)
  {}

  lemma {:induction false} PowAtLeastOne(x: real, n: nat)
    requires x >= 1.0
    ensures Pow(x, n) >= 1.0
    ensures x > 1.0 && n > 0 ==> Pow(x, n) >= x
  {
    if n > 0 {
      PowAtLeastOne(x, n - 1);
      MulLeft(x, 1.0, Pow(x, n - 1));
    }
  }

  lemma {:induction false} PowMonotone(x: real, m: nat, n: nat)
    requires x >= 1.0 && m <= n
    ensures Pow(x, m) <= Pow(x, n)
  {
    if m < n {
      PowMonotone(x, m, n - 1);
      PowAtLeastOne(x, n - 1);
      MulLeft(Pow(x, n - 1), 1.0, x);
    }
  }

  /** 1 + x + ... + x^(k-1). */
  function GeoSum(x: real, k: nat): real {
    if k == 0 then 0.0 else GeoSum(x, k - 1) + Pow(x, k - 1)
  }

  /** The same sum the way an error accumulates: scale by x, add one. */
  lemma {:induction false} GeoSumStep(x: real, k: nat)
    ensures GeoSum(x, k + 1) == x * GeoSum(x, k) + 1.0
  {
    if k > 0 {
      GeoSumStep(x, k - 1);
      assert x * GeoSum(x, k) == x * GeoSum(x, k - 1) + x * Pow(x, k - 1);
    }
  }

  lemma {:induction false} GeoSumMonotone(x: real, j: nat, k: nat)
    requires x >= 1.0 && j <= k
    ensures 0.0 <= GeoSum(x, j) <= GeoSum(x, k)
  {
    if k > 0 {
      PowAtLeastOne(x, k - 1);
      GeoSumMonotone(x, if j < k then j else k - 1, k - 1);
    }
  }
}
