/** The Tools page: the average price after buying a second lot. */
module Tools {

  function Min(x: real, y: real): real { if x <= y then x else y }
  function Max(x: real, y: real): real { if x <= y then y else x }

  /**
   * The quantity-weighted average price of two lots. The quantity inputs
   * start at 1, so the divisor is positive; the price inputs are unbounded.
   */
  function AveragePrice(q1: int, p1: real, q2: int, p2: real): (r: real)
    requires q1 >= 1 && q2 >= 1
    ensures Min(p1, p2) <= r <= Max(p1, p2)
    ensures r * (q1 + q2) as real == q1 as real * p1 + q2 as real * p2
    ensures p1 == p2 ==> r == p1
  {
    WeightedSumBetween(q1 as real, p1, q2 as real, p2);
    (q1 as real * p1 + q2 as real * p2) / (q1 + q2) as real
  }

  /** Weighted sum bounds: a weighted sum lies between the weights times the least and largest price. */
  lemma WeightedSumBetween(a: real, x: real, b: real, y: real)
    requires a > 0.0 && b > 0.0
    ensures (a + b) * Min(x, y) <= a * x + b * y <= (a + b) * Max(x, y)
  {
  }

  /** Swapping the two lots gives the same average. */
  lemma AveragePriceSymmetric(q1: int, p1: real, q2: int, p2: real)
    requires q1 >= 1 && q2 >= 1
    ensures AveragePrice(q1, p1, q2, p2) == AveragePrice(q2, p2, q1, p1)
  {
  }
}
