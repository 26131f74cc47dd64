/** Python's `int()` of a quotient, and exact fractions for the split shares. */
module Numeric {

  /** `a / d` truncated toward zero, as Python's `int()` truncates a float. */
  function TruncDiv(a: int, d: int): (q: int)
    requires d > 0
    ensures a >= 0 ==> 0 <= q && q * d <= a < q * d + d
    ensures a < 0 ==> q <= 0 && q * d - d < a <= q * d
  {
    if a >= 0 then
      EuclidBounds(a, d);
      a / d
    else
      EuclidBounds(-a, d);
      -((-a) / d)
  }

  /** Division of a non-negative dividend brackets it between two multiples
      of the divisor. */
  lemma EuclidBounds(a: nat, d: int)
    requires d > 0
    ensures 0 <= a / d && (a / d) * d <= a < (a / d) * d + d
  {
    var q, r := a / d, a % d;
    assert a == d * q + r && 0 <= r < d;
    assert d * q == q * d;
  }

  /** `int(v)` of a real: the integer part, truncated toward zero. */
  function Trunc(v: real): (t: int)
    ensures v >= 0.0 ==> 0 <= t && t as real <= v < t as real + 1.0
    ensures v < 0.0 ==> t <= 0 && t as real - 1.0 < v <= t as real
    ensures t > 1 <==> v >= 2.0
  {
    if v >= 0.0 then v.Floor else -((-v).Floor)
  }

  /** A split share written as an exact ratio. */
  datatype Fraction = Fraction(num: int, den: int)

  type Share = f: Fraction | f.den > 0 witness Fraction(0, 1)

  /** `int(n * f)`: the product of a length and a share, truncated toward zero. */
  function Scale(n: nat, f: Share): int {
    TruncDiv(n * f.num, f.den)
  }

  /** For a non-negative share the truncated product is the floor. */
  lemma ScaleNonNegative(n: nat, f: Share)
    requires f.num >= 0
    ensures Scale(n, f) == n * f.num / f.den && Scale(n, f) >= 0
  {
    assert n * f.num >= 0;
  }
}
