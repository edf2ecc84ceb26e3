/** Products and quotients of real numbers, as proofs about averages, ranks and limits lean on them. */
module RealArithmetic {

  lemma Scale(x: real, y: real, k: real)
    requires x <= y && k >= 0.0
    ensures x * k <= y * k
  {
  }

  lemma Stretch(x: real, y: real, k: real)
    requires x < y && k > 0.0
    ensures x * k < y * k
  {
  }

  /** A quotient lies where its dividend does. */
  lemma Quotient(low: real, sum: real, high: real, n: real)
    requires n > 0.0 && low * n <= sum <= high * n
    ensures low <= sum / n <= high
  {
    var q := sum / n;
    assert q * n == sum;
    if q < low { Stretch(q, low, n); }
    if q > high { Stretch(high, q, n); }
  }
}
