/** Integer arithmetic the source does at machine width, written out over unbounded integers. */
module Numbers {
  const I64_MIN: int := -0x8000_0000_0000_0000
  const I64_MAX: int := 0x7fff_ffff_ffff_ffff
  const U32_MAX: int := 0xffff_ffff

  predicate IsI64(x: int) {
    I64_MIN <= x <= I64_MAX
  }

  function Min(a: int, b: int): int {
    if a <= b then a else b
  }

  function Max(a: int, b: int): int {
    if a >= b then a else b
  }

  /** The nearest value an `i64` can hold. */
  function Saturate(x: int): int {
    Max(I64_MIN, Min(x, I64_MAX))
  }

  function SaturatingAdd(a: int, b: int): int {
    Saturate(a + b)
  }

  function SaturatingMul(a: int, b: int): int {
    Saturate(a * b)
  }

  /** Division that truncates toward zero, for a positive divisor. */
  function TruncDiv(a: int, b: int): int
    requires b > 0
  {
    if a >= 0 then a / b else -((-a) / b)
  }

  function MinReal(a: real, b: real): real {
    if a <= b then a else b
  }

  /** The least integer that is not below `x`. */
  function Ceil(x: real): int {
    -((-x).Floor)
  }

  lemma ProductIsNonNegative(a: int, b: int)
    requires a >= 0 && b >= 0
    ensures a * b >= 0
  {
  }

  lemma ProductAtLeastFactor(a: int, b: int)
    requires a >= 1 && b >= 0
    ensures a * b >= b
  {
    ProductIsNonNegative(a - 1, b);
    assert (a - 1) * b == a * b - b;
  }

  /** Multiples of a positive number are ordered as their factors are. */
  lemma MultiplesAscend(j: int, k: int, n: int)
    requires n > 0
    ensures j < k ==> j * n + n <= k * n
    ensures j <= k ==> j * n <= k * n
  {
    if j < k {
      ProductAtLeastFactor(k - j, n);
      assert (k - j) * n == k * n - j * n;
    }
  }

  lemma DivisionOf(a: int, n: int)
    requires n > 0
    ensures a == (a / n) * n + a % n && 0 <= a % n < n
  {
  }

  lemma QuotientIsUnique(q: int, r: int, n: int)
    requires n > 0 && 0 <= r < n
    ensures (q * n + r) / n == q && (q * n + r) % n == r
  {
    var x := q * n + r;
    DivisionOf(x, n);
    MultiplesAscend(q, x / n, n);
    MultiplesAscend(x / n, q, n);
  }
}
