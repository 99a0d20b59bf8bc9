/** Small facts about real arithmetic used by the threshold tests. */
module Arith {

  /** Dividing by a positive number and comparing is comparing the
      cross-multiplied values. */
  lemma RatioAbove(a: real, l: real, t: real)
    requires l > 0.0
    ensures a / l > t <==> a > t * l
  {
    var q := a / l;
    assert a == q * l;
    assert q * l - t * l == (q - t) * l;
    if q > t { PositiveProduct(q - t, l); }
    if q <= t { NonPositiveProduct(q - t, l); }
  }

  /** a / l > t, for a positive divisor. */
  predicate RatioExceeds(a: real, l: real, t: real)
    requires l > 0.0
  {
    a / l > t
  }

  lemma PositiveProduct(u: real, l: real)
    requires u > 0.0 && l > 0.0
    ensures u * l > 0.0
  {
  }

  lemma NonPositiveProduct(u: real, l: real)
    requires u <= 0.0 && l > 0.0
    ensures u * l <= 0.0
  {
  }

  /** The mean of n hits over len > 0 trials exceeds t. */
  predicate MeanExceeds(n: nat, len: nat, t: real)
    requires len > 0
  {
    (n as real) / (len as real) > t
  }

  /** n hits are more than the fraction t of len trials. */
  predicate CountExceeds(n: nat, len: nat, t: real) {
    n as real > t * len as real
  }

  /** The mean test is the count test. */
  lemma MeanAbove(n: nat, len: nat, t: real)
    requires len > 0
    ensures MeanExceeds(n, len, t) <==> CountExceeds(n, len, t)
  {
    RatioAbove(n as real, len as real, t);
  }

  /** All hits give mean 1, none give mean 0. */
  lemma MeanExtremes(n: nat, len: nat)
    requires len > 0
    ensures n == len ==> (n as real) / (len as real) == 1.0
    ensures n == 0 ==> (n as real) / (len as real) == 0.0
  {
  }

  /** The product of two counts. */
  function Times(a: nat, b: nat): nat {
    a * b
  }

  /** The product of two counts that are each 0 or 1 tells whether both
      are 1. */
  lemma UnitProduct(a: nat, b: nat)
    requires a <= 1 && b <= 1
    ensures Times(a, b) == if a > 0 && b > 0 then 1 else 0
  {
  }
}
