/** The JavaScript number operations the backend applies to integers, made
    exact: floor division, truncating remainder and half-up rounding. */
module JsMath {

  /** `Math.floor(a / b)` for a positive divisor. */
  function FloorDiv(a: int, b: int): (r: int)
    requires b > 0
    ensures b * r <= a < b * r + b
  {
    a / b
  }

  /** `a % b` as JavaScript computes it: the remainder takes the sign of `a`. */
  function TruncRem(a: int, b: int): (r: int)
    requires b > 0
    ensures a >= 0 ==> 0 <= r < b && r == a % b
    ensures a < 0 ==> -b < r <= 0 && r == -((-a) % b)
  {
    if a >= 0 then a % b else -((-a) % b)
  }

  /** `Math.round(p / q)` for a positive denominator: the nearest integer,
      halves rounded up. */
  function RoundDiv(p: int, q: int): (r: int)
    requires q > 0
    ensures 2 * p - q < 2 * q * r <= 2 * p + q
  {
    var r := (2 * p + q) / (2 * q);
    assert 2 * q * r <= 2 * p + q < 2 * q * r + 2 * q by {
      var m := (2 * p + q) % (2 * q);
      assert 2 * p + q == 2 * q * r + m;
    }
    r
  }

  lemma MulCompare(k: int, a: int, b: int)
    requires k > 0
    ensures a <= b <==> k * a <= k * b
  {
  }

  /** The rounding bound pins the result down: no other integer satisfies it. */
  lemma RoundDivUnique(p: int, q: int, r: int)
    requires q > 0
    requires 2 * p - q < 2 * q * r <= 2 * p + q
    ensures r == RoundDiv(p, q)
  {
    var r0 := RoundDiv(p, q);
    MulCompare(2 * q, r0 + 1, r);
    MulCompare(2 * q, r + 1, r0);
  }

  /** Rounding is monotonic in the numerator. */
  lemma RoundDivMono(p1: int, p2: int, q: int)
    requires q > 0 && p1 <= p2
    ensures RoundDiv(p1, q) <= RoundDiv(p2, q)
  {
    MulCompare(2 * q, RoundDiv(p2, q) + 1, RoundDiv(p1, q));
  }

  function Min(a: int, b: int): (r: int)
    ensures r <= a && r <= b && (r == a || r == b)
  {
    if a <= b then a else b
  }

  function Max(a: int, b: int): (r: int)
    ensures r >= a && r >= b && (r == a || r == b)
  {
    if a >= b then a else b
  }
}
