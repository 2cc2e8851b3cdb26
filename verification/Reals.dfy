/** Facts about products of real numbers. */
module Reals {
  function Sqr(x: real): (r: real) { x * x }

  lemma SqrNonNegative(x: real)
    ensures Sqr(x) >= 0.0
  {
    if x != 0.0 { SqrPositive(x); }
  }

  lemma SqrPositive(x: real)
    requires x != 0.0
    ensures Sqr(x) > 0.0
  {
    calc {
      Sqr(x);
    ==
      x * x;
    > { MulPositive(x, x); }
      0.0;
    }
  }

  lemma MulMonotone(c: real, x: real, y: real)
    requires c >= 0.0 && x <= y
    ensures c * x - c * y <= 0.0 && x * c - y * c <= 0.0
  {
  }

  lemma MulStrict(c: real, x: real, y: real)
    requires c > 0.0 && x < y
    ensures c * x - c * y < 0.0 && x * c - y * c < 0.0
  {
  }

  lemma NonNegativeProduct(x: real, y: real)
    requires x >= 0.0 && y >= 0.0
    ensures x * y >= 0.0
  {
  }

  lemma Reassociate(f: real, e: real, x: real, y: real)
    ensures f * (e * x * y) == (f * e) * x * y
  {
  }

  lemma MulPositive(x: real, y: real)
    requires (x > 0.0 && y > 0.0) || (x < 0.0 && y < 0.0)
    ensures x * y > 0.0 && y * x > 0.0
  {
  }
}
