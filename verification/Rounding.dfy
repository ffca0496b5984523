/**
 Money rounding. `parseFloat(x.toFixed(2))` picks the integer n for which n/100 is nearest to |x|,
 the larger n on a tie, and restores the sign (section 21.1.3.3 of ECMA-262). A rounded amount is
 therefore a whole number of cents, and is an `int` here. A NUMERIC(10,2) column rounds the same way.
 */
module Rounding {

  function ToCents(x: real): int {
    if x < 0.0 then -NearestCent(-x) else NearestCent(x)
  }

  function NearestCent(x: real): int {
    (x * 100.0 + 0.5).Floor
  }

  /** The amount that a number of cents stands for. */
  function Amount(cents: int): real {
    cents as real / 100.0
  }

  function Abs(x: real): real {
    if x < 0.0 then -x else x
  }

  function Min(x: real, y: real): real {
    if x <= y then x else y
  }

  function MinInt(x: int, y: int): int {
    if x <= y then x else y
  }

  function Sum(xs: seq<int>): int {
    if xs == [] then 0 else Sum(xs[..|xs| - 1]) + xs[|xs| - 1]
  }

  /** No whole number of cents is nearer to a non-negative amount, and a tie goes up. */
  lemma ToCentsIsNearest(x: real, m: int)
    requires x >= 0.0
    ensures Abs(Amount(ToCents(x)) - x) <= Abs(Amount(m) - x)
    ensures Abs(Amount(ToCents(x)) - x) == Abs(Amount(m) - x) ==> m <= ToCents(x)
  {
    var n := ToCents(x);
    if m < n { assert m as real <= n as real - 1.0; }
    if m > n { assert m as real >= n as real + 1.0; }
  }

  lemma ToCentsHalfCent(x: real)
    ensures Abs(Amount(ToCents(x)) - x) <= 0.005
    ensures x >= 0.0 ==> ToCents(x) >= 0
  {
  }

  /** Rounding is idempotent. */
  lemma ToCentsOfAmount(n: int)
    ensures ToCents(Amount(n)) == n
  {
  }

  /** An exact product, named so that a proof can treat it as one term. */
  function Times(x: real, y: real): real {
    x * y
  }

  lemma TimesMonotone(x: real, y: real, k: real)
    requires x <= y && k >= 0.0
    ensures Times(x, k) <= Times(y, k) && Times(k, x) <= Times(k, y)
    ensures x >= 0.0 ==> Times(x, k) >= 0.0 && Times(k, x) >= 0.0
  {
  }

  lemma TimesOne(x: real)
    ensures Times(x, 1.0) == x && Times(1.0, x) == x
  {
  }

  lemma TimesDistributes(x: real, y: real, k: real)
    ensures Times(x + y, k) == Times(x, k) + Times(y, k)
    ensures Times(k, x + y) == Times(k, x) + Times(k, y)
  {
  }

  lemma FloorScaleMonotone(x: real, y: real, k: real)
    requires x <= y && k >= 0.0
    ensures Times(x, k).Floor <= Times(y, k).Floor
  {
    hide Times;
    TimesMonotone(x, y, k);
    assert Times(x, k).Floor as real <= Times(x, k) <= Times(y, k) < Times(y, k).Floor as real + 1.0;
  }
}
