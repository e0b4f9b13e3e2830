/**
 * C integer arithmetic that differs from Dafny's. Dafny's `/` and `%` are
 * Euclidean; C's `/` truncates toward zero and C's `%` takes the sign of the
 * dividend. Only positive divisors (thread counts, 2) occur in the programs.
 */
module CArith {

  /** C's `a / b` for `b > 0`: the quotient rounded toward zero. */
  function TruncDiv(a: int, b: int): (q: int)
    requires b > 0
    ensures a >= 0 ==> 0 <= q && 0 <= b * q <= a && a - b * q < b
    ensures a < 0 ==> q <= 0 && a <= b * q <= 0 && b * q - a < b
  {
    if a >= 0 then a / b else -((-a) / b)
  }

  /** C's `a % b` for `b > 0`: what is left after `TruncDiv`. */
  function TruncRem(a: int, b: int): (r: int)
    requires b > 0
    ensures a == b * TruncDiv(a, b) + r
    ensures a >= 0 ==> 0 <= r < b
    ensures a < 0 ==> -b < r <= 0
    ensures r == 0 <==> a % b == 0
  {
    var r := a - b * TruncDiv(a, b);
    if a >= 0 then
      EuclidUnique(a, b, TruncDiv(a, b), r);
      r
    else if r == 0 then
      EuclidUnique(a, b, TruncDiv(a, b), 0);
      r
    else
      EuclidUnique(a, b, TruncDiv(a, b) - 1, r + b);
      r
  }

  /** Quotient and remainder of Euclidean division are unique. */
  lemma EuclidUnique(a: int, b: int, q: int, r: int)
    requires b > 0 && 0 <= r < b && a == b * q + r
    ensures a / b == q && a % b == r
  {
    var k := q - a / b;
    assert b * k == a % b - r by {
      assert b * q - b * (a / b) == b * k;
    }
  }
}
