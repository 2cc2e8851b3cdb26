/** The real arithmetic of the buddy check: correlations below one and probabilities that stay below one. */
module BuddyMath {
  import opened Reals

  // The library functions used, and the facts about them that the bounds rest on
  datatype RealFunctions = RealFunctions(exp: real -> real, log: real -> real, pow: (real, real) -> real,
                                         sin: real -> real, cos: real -> real)

  ghost predicate Lawful(m: RealFunctions) {
    && (forall x :: m.exp(x) > 0.0 && m.exp(x) >= 1.0 + x)
    && (forall x, y :: x <= y ==> m.exp(x) <= m.exp(y))
    && (forall x, y :: y == -x ==> m.exp(x) * m.exp(y) == 1.0)
    && (forall z, d :: z > 0.0 && 0.0 <= d <= 1.0 ==>
          if z >= 1.0 then 1.0 <= m.pow(z, d) <= z else z <= m.pow(z, d) <= 1.0)
  }

  lemma ExpAtZero(m: RealFunctions)
    requires Lawful(m)
    ensures m.exp(0.0) == 1.0
  {
    var e := m.exp(0.0);
    var one := e * e;
    assert one == 1.0 && e >= 1.0;
    if e > 1.0 {
      MulStrict(e, 1.0, e);
    }
  }

  // The natural logarithm, of positive arguments only
  function Log(m: RealFunctions, x: real): (r: real)
    requires x > 0.0
  {
    m.log(x)
  }

  // Second-order autoregressive correlation at scaled distance s, from its exponential factor e
  function Soar(s: real, e: real): (r: real) { (1.0 + s) * e }

  /** (1 + s) exp(-s - a) lies in (0, 1] for s, a >= 0, and so does its second factor. */
  lemma CorrelationBound(m: RealFunctions, s: real, a: real)
    requires Lawful(m) && s >= 0.0 && a >= 0.0
    ensures 0.0 < m.exp(-s - a) <= 1.0
    ensures 0.0 < Soar(s, m.exp(-s - a)) <= 1.0
  {
    var e, e', f := m.exp(s), m.exp(-s), m.exp(-s - a);
    assert f <= e' && e >= 1.0 + s;
    calc {
      (1.0 + s) * f;
    <= { MulMonotone(1.0 + s, f, e'); }
      (1.0 + s) * e';
    <= { MulMonotone(e', 1.0 + s, e); }
      e * e';
    ==
      1.0;
    }
    MulPositive(1.0 + s, f);
    assert f <= (1.0 + s) * f by {
      MulMonotone(f, 1.0, 1.0 + s);
    }
  }

  ghost predicate Additive(m: RealFunctions) {
    forall x, y, s {:trigger m.exp(x), m.exp(y), m.exp(s)} :: s == x + y ==> m.exp(s) == m.exp(x) * m.exp(y)
  }

  /** The correlation falls with the scaled distance and with the separation in the vertical and in time. */
  lemma CorrelationDecreases(m: RealFunctions, s: real, a: real, t: real, b: real)
    requires Lawful(m) && Additive(m) && 0.0 <= s <= t && a <= b
    ensures Soar(t, m.exp(-t - b)) <= Soar(s, m.exp(-s - a))
  {
    var d := t - s;
    assert m.exp(-s - b) == m.exp(-t - b) * m.exp(d) by { assert -s - b == (-t - b) + d; }
    SlowerThanExponential(s, d, m.exp(-t - b), m.exp(-s - b), m.exp(d), m.exp(-s - a));
  }

  lemma SlowerThanExponential(s: real, d: real, e: real, f: real, g: real, h: real)
    requires s >= 0.0 && d >= 0.0 && e > 0.0 && f == e * g && g >= 1.0 + d && f <= h
    ensures Soar(s + d, e) <= Soar(s, h)
  {
    MulMonotone(1.0 + s, 1.0 + d, g);
    var q := (1.0 + s) * (1.0 + d);
    assert q == 1.0 + s + d + s * d;
    NonNegativeProduct(s, d);
    var r := (1.0 + s) * g;
    MulMonotone(e, 1.0 + s + d, r);
    assert e * r == (1.0 + s) * f;
    MulMonotone(1.0 + s, f, h);
  }

  // The estimated error variance of an observation, observation and background errors together
  function ErrorVariance(obs: real, bg: real): (v: real) { Sqr(obs) + Sqr(bg) }

  // The squared total error correlation of two observations with background error covariance covar
  function SquaredCorrelation(covar: real, varA: real, varB: real): (r: real)
    requires varA > 0.0 && varB > 0.0
  {
    assert varA * varB > 0.0;
    Sqr(covar) / (varA * varB)
  }

  /** The squared total error correlation is in [0, 1) when the background correlation k is at most 1 in size
      and all errors are positive. */
  lemma SquaredCorrelationBound(k: real, bgA: real, bgB: real, obsA: real, obsB: real, covar: real, varA: real,
                                varB: real)
    requires -1.0 <= k <= 1.0 && bgA > 0.0 && bgB > 0.0 && obsA > 0.0 && obsB > 0.0
    requires covar == k * bgA * bgB && varA == ErrorVariance(obsA, bgA) && varB == ErrorVariance(obsB, bgB)
    ensures varA > 0.0 && varB > 0.0
    ensures 0.0 <= SquaredCorrelation(covar, varA, varB) < 1.0
    ensures covar == 0.0 ==> SquaredCorrelation(covar, varA, varB) == 0.0
    ensures k != 0.0 ==> covar != 0.0
  {
    SqrPositive(bgA);
    SqrPositive(bgB);
    SqrPositive(obsA);
    SqrPositive(obsB);
    var a, b, p, q := Sqr(bgA), Sqr(bgB), Sqr(obsA), Sqr(obsB);
    var n, ab, k2 := Sqr(covar), a * b, Sqr(k);
    SqrAtMostOne(k);
    MulPositive(a, b);
    ExpandProduct(p, a, q, b);
    assert n == k2 * ab by { SqrProduct(k, bgA, bgB); }
    MulMonotone(ab, k2, 1.0);
    SqrNonNegative(covar);
    SquaredCorrelationQuotient(covar, p + a, q + b);
    if k != 0.0 { NonZeroProduct(k, bgA, bgB); }
  }

  lemma SquaredCorrelationQuotient(covar: real, varA: real, varB: real)
    requires varA > 0.0 && varB > 0.0 && 0.0 <= Sqr(covar) && Sqr(covar) - varA * varB < 0.0
    ensures 0.0 <= SquaredCorrelation(covar, varA, varB) < 1.0
    ensures covar == 0.0 ==> SquaredCorrelation(covar, varA, varB) == 0.0
  {
    var n, d := Sqr(covar), varA * varB;
    QuotientBelowOne(n, d);
  }

  lemma ExpandProduct(p: real, a: real, q: real, b: real)
    requires p > 0.0 && a > 0.0 && q > 0.0 && b > 0.0
    ensures a * b - (p + a) * (q + b) < 0.0
  {
    MulPositive(p, q + b);
    MulStrict(a, b, q + b);
    assert (p + a) * (q + b) == p * (q + b) + a * (q + b);
  }

  lemma NonZeroProduct(x: real, y: real, z: real)
    requires x != 0.0 && y > 0.0 && z > 0.0
    ensures x * y * z != 0.0
  {
    if x > 0.0 {
      MulPositive(x, y);
      MulPositive(x * y, z);
    } else {
      MulPositive(-x, y);
      assert x * y == -(-x * y) < 0.0;
      MulPositive(x * y, -z);
      assert x * y * z == -(x * y * -z);
    }
  }

  lemma SqrAtMostOne(k: real)
    requires -1.0 <= k <= 1.0
    ensures 0.0 <= Sqr(k) <= 1.0
  {
    var j := if k >= 0.0 then k else -k;
    calc {
      Sqr(k);
    ==
      j * j;
    <= { MulMonotone(j, j, 1.0); }
      j * 1.0;
    <=
      1.0;
    }
    if k != 0.0 { SqrPositive(k); }
  }

  lemma SqrProduct(x: real, y: real, z: real)
    ensures Sqr(x * y * z) == Sqr(x) * (Sqr(y) * Sqr(z))
  {
    assert (x * y * z) * (x * y * z) == (x * x) * ((y * y) * (z * z));
  }

  lemma QuotientBelowOne(n: real, d: real)
    requires 0.0 <= n < d
    ensures 0.0 <= n / d < 1.0
  {
  }

  /** |1 - c s| times exp(-s - a) stays within [-1, 1] for c in [0, 1]. */
  lemma TransverseBound(m: RealFunctions, c: real, s: real, a: real)
    requires Lawful(m) && 0.0 <= c <= 1.0 && s >= 0.0 && a >= 0.0
    ensures -1.0 <= (1.0 - c * s) * m.exp(-s - a) <= 1.0
  {
    CorrelationBound(m, s, a);
    var e, cs := m.exp(-s - a), c * s;
    assert 0.0 <= cs <= s by { MulMonotone(s, c, 1.0); MulMonotone(s, 0.0, c); }
    calc {
      (1.0 - cs) * e;
    <= { MulMonotone(e, 1.0 - cs, 1.0 + s); }
      (1.0 + s) * e;
    <=
      1.0;
    }
    calc {
      -1.0;
    <=
      -((1.0 + s) * e);
    ==
      -(1.0 + s) * e;
    <= { MulMonotone(e, -(1.0 + s), 1.0 - cs); }
      (1.0 - cs) * e;
    }
  }

  // ---------------------------------------------------------------------------
  // The update of one pair of probabilities

  // Z = P(OA) P(OB) / P(OA and OB), for agreement factor e
  function Denominator(pA: real, pB: real, e: real): (d: real) {
    1.0 - (1.0 - pA) * (1.0 - pB) * (1.0 - e)
  }

  lemma DenominatorBound(pA: real, pB: real, e: real)
    requires 0.0 <= pA < 1.0 && 0.0 <= pB < 1.0 && e > 0.0
    ensures Denominator(pA, pB, e) > pA && Denominator(pA, pB, e) > pB
    ensures Denominator(pA, pB, e) > 0.0
    ensures Denominator(pA, pB, e) <= 1.0 <==> e <= 1.0
    ensures Denominator(pA, pB, e) >= 1.0 <==> e >= 1.0
  {
    var a, b := 1.0 - pA, 1.0 - pB;
    var q := a * b;
    var r := q * e;
    assert 0.0 < q by { MulPositive(a, b); }
    assert 0.0 < r by { MulPositive(q, e); }
    assert q <= a by { MulMonotone(a, b, 1.0); }
    assert q <= b by { MulMonotone(b, a, 1.0); }
    ScaledSide(q, e, r);
    DenominatorIs(pA, pB, e, a, b, q, r);
  }

  lemma ScaledSide(q: real, e: real, r: real)
    requires q > 0.0 && r == q * e
    ensures e <= 1.0 <==> r <= q
    ensures e >= 1.0 <==> r >= q
  {
    var d := e - 1.0;
    var qd := q * d;
    assert qd == r - q;
    assert d > 0.0 ==> qd > 0.0 by { if d > 0.0 { MulPositive(q, d); } }
    assert d < 0.0 ==> qd < 0.0 by { if d < 0.0 { MulPositive(q, -d); assert q * -d == -qd; } }
  }

  lemma DenominatorIs(pA: real, pB: real, e: real, a: real, b: real, q: real, r: real)
    requires a == 1.0 - pA && b == 1.0 - pB && q == a * b && r == q * e
    ensures Denominator(pA, pB, e) == 1.0 - q + r
  {
    Distributes(q, 1.0, e);
  }

  lemma Distributes(q: real, x: real, e: real)
    ensures q * (x - e) == q * x - q * e
  {
  }

  function Agreement(pA: real, pB: real, e: real): (z: real)
    requires 0.0 <= pA < 1.0 && 0.0 <= pB < 1.0 && e > 0.0
  {
    DenominatorBound(pA, pB, e);
    1.0 / Denominator(pA, pB, e)
  }

  // A probability multiplied by the (damped) agreement factor
  function Updated(p: real, z: real): (r: real) { p * z }

  /** Z is positive, so the guard against z <= 0 never fires; it is at most 1 exactly when the observations
      agree (e >= 1), and scaling either probability by it stays below 1. */
  lemma AgreementBound(pA: real, pB: real, e: real)
    requires 0.0 <= pA < 1.0 && 0.0 <= pB < 1.0 && e > 0.0
    ensures Agreement(pA, pB, e) > 0.0
    ensures Agreement(pA, pB, e) <= 1.0 <==> e >= 1.0
    ensures Agreement(pA, pB, e) >= 1.0 <==> e <= 1.0
    ensures 0.0 <= Updated(pA, Agreement(pA, pB, e)) < 1.0
    ensures 0.0 <= Updated(pB, Agreement(pA, pB, e)) < 1.0
    ensures Agreement(pA, pB, e) == Agreement(pB, pA, e)
  {
    DenominatorBound(pA, pB, e);
    DenominatorBound(pB, pA, e);
    var d := Denominator(pA, pB, e);
    Reciprocal(d);
    var z := Agreement(pA, pB, e);
    ScaledBelowOne(pA, d, z);
    ScaledBelowOne(pB, d, z);
    assert d == Denominator(pB, pA, e) by {
      assert (1.0 - pA) * (1.0 - pB) == (1.0 - pB) * (1.0 - pA);
    }
  }

  lemma Reciprocal(d: real)
    requires d > 0.0
    ensures 1.0 / d > 0.0
    ensures 1.0 / d <= 1.0 <==> d >= 1.0
    ensures 1.0 / d >= 1.0 <==> d <= 1.0
  {
    var r := 1.0 / d;
    var one := r * d;
    assert one == 1.0;
    assert r > 0.0;
    assert d > 1.0 ==> r < one by { if d > 1.0 { MulStrict(r, 1.0, d); } }
    assert d < 1.0 ==> one < r by { if d < 1.0 { MulStrict(r, d, 1.0); } }
  }

  lemma ScaledBelowOne(p: real, d: real, r: real)
    requires 0.0 <= p < d && r == 1.0 / d
    ensures 0.0 <= Updated(p, r) < 1.0
  {
    assert r > 0.0;
    var pr, one := Updated(p, r), d * r;
    assert one == 1.0;
    assert pr < one by { MulStrict(r, p, d); }
    assert 0.0 <= pr by { MulMonotone(r, 0.0, p); }
  }

  /** Damping Z by an exponent in [0, 1] keeps both updated probabilities in [0, 1). */
  lemma DampedUpdateBound(m: RealFunctions, pA: real, pB: real, e: real, d: real)
    requires Lawful(m) && 0.0 <= pA < 1.0 && 0.0 <= pB < 1.0 && e > 0.0 && 0.0 <= d <= 1.0
    ensures m.pow(Agreement(pA, pB, e), d) > 0.0
    ensures 0.0 <= Updated(pA, m.pow(Agreement(pA, pB, e), d)) < 1.0
    ensures 0.0 <= Updated(pB, m.pow(Agreement(pA, pB, e), d)) < 1.0
    ensures m.pow(Agreement(pA, pB, e), d) <= 1.0 <==> e >= 1.0 || m.pow(Agreement(pA, pB, e), d) == 1.0
  {
    AgreementBound(pA, pB, e);
    var z := Agreement(pA, pB, e);
    var w := m.pow(z, d);
    assert if z >= 1.0 then 1.0 <= w <= z else z <= w <= 1.0;
    DampedScale(pA, z, w);
    DampedScale(pB, z, w);
  }

  lemma DampedScale(p: real, z: real, w: real)
    requires 0.0 <= p < 1.0 && 0.0 < z && Updated(p, z) < 1.0
    requires if z >= 1.0 then 1.0 <= w <= z else z <= w <= 1.0
    ensures 0.0 <= Updated(p, w) < 1.0
  {
    var pw, pz := Updated(p, w), Updated(p, z);
    assert 0.0 <= pw by { MulMonotone(w, 0.0, p); }
    assert z >= 1.0 ==> pw <= pz by { if z >= 1.0 { MulMonotone(p, w, z); } }
    assert z < 1.0 ==> pw <= p by { if z < 1.0 { MulMonotone(p, w, 1.0); } }
  }

  // ---------------------------------------------------------------------------
  // What the exponent means

  // -(rho2 / 2) / (1 - rho2) times (dA^2/varA + dB^2/varB - 2 dA dB / covar)
  function ExponentTerm(rho2: real, dA: real, dB: real, varA: real, varB: real, covar: real): (r: real)
    requires 0.0 <= rho2 < 1.0 && varA > 0.0 && varB > 0.0 && covar != 0.0
  {
    -(0.5 * rho2 / (1.0 - rho2)) * (Sqr(dA) / varA + Sqr(dB) / varB - 2.0 * dA * dB / covar)
  }

  // The quadratic form of the departures dA and dB with the inverse of their joint covariance matrix
  function JointForm(dA: real, dB: real, varA: real, varB: real, covar: real): (r: real)
    requires varA * varB - Sqr(covar) > 0.0
  {
    (varB * Sqr(dA) - 2.0 * covar * dA * dB + varA * Sqr(dB)) / (varA * varB - Sqr(covar))
  }

  // What is used of the logarithm here, and only here
  ghost predicate LawfulLog(m: RealFunctions) {
    && (forall x, y, p {:trigger m.log(x), m.log(y), m.log(p)} ::
          x > 0.0 && y > 0.0 && p == x * y ==> m.log(p) == m.log(x) + m.log(y))
    && forall x, y :: 0.0 < x < y ==> m.log(x) < m.log(y)
  }

  // The correlation of two departures with these variances is less than 1.
  predicate Correlated(varA: real, varB: real, covar: real) {
    varA > 0.0 && varB > 0.0 && 0.0 <= SquaredCorrelation(covar, varA, varB) < 1.0
  }

  /** 1 - rho2 is the determinant of the joint covariance matrix over that of independent departures. */
  lemma Determinant(varA: real, varB: real, covar: real)
    requires Correlated(varA, varB, covar)
    ensures varA * varB > 0.0 && varA * varB - Sqr(covar) > 0.0
    ensures (1.0 - SquaredCorrelation(covar, varA, varB)) * (varA * varB) == varA * varB - Sqr(covar)
  {
    var p, rho2 := varA * varB, SquaredCorrelation(covar, varA, varB);
    MulPositive(varA, varB);
    assert rho2 * p == Sqr(covar);
    assert (1.0 - rho2) * p == p - Sqr(covar);
    MulPositive(1.0 - rho2, p);
  }

  // The logarithm of the Gaussian density of two departures, but for a constant: jointly, and as independent ones
  function JointLogDensity(m: RealFunctions, dA: real, dB: real, varA: real, varB: real, covar: real): (r: real)
    requires Correlated(varA, varB, covar)
  {
    Determinant(varA, varB, covar);
    -0.5 * Log(m, varA * varB - Sqr(covar)) - 0.5 * JointForm(dA, dB, varA, varB, covar)
  }

  function IndependentLogDensity(m: RealFunctions, dA: real, dB: real, varA: real, varB: real): (r: real)
    requires varA > 0.0 && varB > 0.0
  {
    MulPositive(varA, varB);
    -0.5 * Log(m, varA * varB) - 0.5 * (Sqr(dA) / varA + Sqr(dB) / varB)
  }

  function LogLikelihoodRatio(m: RealFunctions, d: (real, real), varA: real, varB: real, covar: real): (r: real)
    requires Correlated(varA, varB, covar)
  {
    JointLogDensity(m, d.0, d.1, varA, varB, covar) - IndependentLogDensity(m, d.0, d.1, varA, varB)
  }

  // The exponent of a scalar variable with departures d and covariance covar, before damping
  function ScalarExponent(m: RealFunctions, d: (real, real), varA: real, varB: real, covar: real): (r: real)
    requires Correlated(varA, varB, covar) && covar != 0.0
  {
    var rho2 := SquaredCorrelation(covar, varA, varB);
    -0.5 * Log(m, 1.0 - rho2) + ExponentTerm(rho2, d.0, d.1, varA, varB, covar)
  }

  // The exponent of a wind with longitudinal departures l and transverse ones t; a small transverse term is left out.
  function WindExponent(m: RealFunctions, l: (real, real), t: (real, real), varA: real, varB: real, covar: real,
                        tCovar: real): (r: real)
    requires Correlated(varA, varB, covar) && Correlated(varA, varB, tCovar) && covar != 0.0
  {
    var lRho2, tRho2 := SquaredCorrelation(covar, varA, varB), SquaredCorrelation(tCovar, varA, varB);
    SqrPositive(1.0 - lRho2);
    UncorrelatedIsZero(varA, varB);
    var transverse := if tRho2 <= NEGLIGIBLE then 0.0 else ExponentTerm(tRho2, t.0, t.1, varA, varB, tCovar);
    -0.5 * Log(m, Sqr(1.0 - lRho2)) + (transverse + ExponentTerm(lRho2, l.0, l.1, varA, varB, covar))
  }

  const NEGLIGIBLE := 0.00001

  lemma UncorrelatedIsZero(varA: real, varB: real)
    requires varA > 0.0 && varB > 0.0
    ensures SquaredCorrelation(0.0, varA, varB) == 0.0
  {
    MulPositive(varA, varB);
    assert Sqr(0.0) == 0.0;
  }

  /** The exponent of a scalar variable is the logarithm of a likelihood ratio, that of two departures with their joint
      Gaussian distribution over that of independent ones. */
  lemma ExponentIsLikelihoodRatio(m: RealFunctions, d: (real, real), varA: real, varB: real, covar: real)
    requires LawfulLog(m) && covar != 0.0 && Correlated(varA, varB, covar)
    ensures ScalarExponent(m, d, varA, varB, covar) == LogLikelihoodRatio(m, d, varA, varB, covar)
  {
    Determinant(varA, varB, covar);
    var p, det, rho2 := varA * varB, varA * varB - Sqr(covar), SquaredCorrelation(covar, varA, varB);
    LogOfProduct(m, 1.0 - rho2, p, det);
    TermIsQuadraticRatio(d.0, d.1, varA, varB, covar, rho2);
  }

  lemma LogOfProduct(m: RealFunctions, x: real, y: real, p: real)
    requires LawfulLog(m) && x > 0.0 && y > 0.0 && p > 0.0 && p == x * y
    ensures Log(m, p) == Log(m, x) + Log(m, y)
  {
    assert m.log(p) == m.log(x) + m.log(y);
  }

  /** Without correlation the ratio is 1. */
  lemma UncorrelatedRatio(m: RealFunctions, d: (real, real), varA: real, varB: real)
    requires LawfulLog(m) && varA > 0.0 && varB > 0.0
    ensures Correlated(varA, varB, 0.0) && LogLikelihoodRatio(m, d, varA, varB, 0.0) == 0.0
  {
    MulPositive(varA, varB);
    var dA, dB := d.0, d.1;
    var p, x, y := varA * varB, Sqr(dA) / varA, Sqr(dB) / varB;
    UncorrelatedIsZero(varA, varB);
    assert Sqr(0.0) == 0.0;
    var form := varB * Sqr(dA) - 2.0 * 0.0 * dA * dB + varA * Sqr(dB);
    assert form == (x + y) * p by {
      assert x * varA == Sqr(dA) && y * varB == Sqr(dB);
      assert varB * (x * varA) == x * p;
      assert varA * (y * varB) == y * p;
    }
    assert JointForm(dA, dB, varA, varB, 0.0) == x + y;
  }

  /** With the longitudinal correlation counted twice, the logarithmic term of a wind is that of both components exactly
      when their correlations agree. */
  lemma WindLogarithm(m: RealFunctions, lRho2: real, tRho2: real)
    requires LawfulLog(m) && 0.0 <= lRho2 < 1.0 && 0.0 <= tRho2 < 1.0
    ensures Sqr(1.0 - lRho2) > 0.0 && Log(m, Sqr(1.0 - lRho2)) == 2.0 * Log(m, 1.0 - lRho2)
    ensures Log(m, 1.0 - tRho2) == Log(m, 1.0 - lRho2) <==> tRho2 == lRho2
  {
    SqrPositive(1.0 - lRho2);
    var x, y := 1.0 - lRho2, 1.0 - tRho2;
    LogOfProduct(m, x, x, Sqr(x));
    assert x < y ==> m.log(x) < m.log(y);
    assert y < x ==> m.log(y) < m.log(x);
  }

  // The likelihood ratio of a wind, of its longitudinal and transverse departures together, as a logarithm
  function WindLogRatio(m: RealFunctions, l: (real, real), t: (real, real), varA: real, varB: real, covar: real,
                        tCovar: real): (r: real)
    requires Correlated(varA, varB, covar) && Correlated(varA, varB, tCovar)
  {
    LogLikelihoodRatio(m, l, varA, varB, covar) + LogLikelihoodRatio(m, t, varA, varB, tCovar)
  }

  // No transverse term is left out, unless it is zero.
  predicate NothingNeglected(varA: real, varB: real, tCovar: real)
    requires Correlated(varA, varB, tCovar)
  {
    SquaredCorrelation(tCovar, varA, varB) > 0.00001 || tCovar == 0.0
  }

  function NeglectedTerm(t: (real, real), varA: real, varB: real, tCovar: real): (r: real)
    requires Correlated(varA, varB, tCovar)
  {
    if NothingNeglected(varA, varB, tCovar) then 0.0
    else ExponentTerm(SquaredCorrelation(tCovar, varA, varB), t.0, t.1, varA, varB, tCovar)
  }

  /** By how much the exponent of a wind differs from the logarithm of its likelihood ratio: the logarithmic term has
      the longitudinal correlation twice and the transverse one never, and a small transverse term is left out. */
  lemma WindExponentGap(m: RealFunctions, l: (real, real), t: (real, real), varA: real, varB: real, covar: real,
                        tCovar: real)
    requires LawfulLog(m) && Correlated(varA, varB, covar) && Correlated(varA, varB, tCovar) && covar != 0.0
    ensures var lRho2, tRho2 := SquaredCorrelation(covar, varA, varB), SquaredCorrelation(tCovar, varA, varB);
            WindExponent(m, l, t, varA, varB, covar, tCovar)
            == WindLogRatio(m, l, t, varA, varB, covar, tCovar)
               + (0.5 * (Log(m, 1.0 - tRho2) - Log(m, 1.0 - lRho2)) - NeglectedTerm(t, varA, varB, tCovar))
  {
    var lRho2, tRho2 := SquaredCorrelation(covar, varA, varB), SquaredCorrelation(tCovar, varA, varB);
    var lLog, tLog := Log(m, 1.0 - lRho2), Log(m, 1.0 - tRho2);
    var lTerm, tTerm := ExponentTerm(lRho2, l.0, l.1, varA, varB, covar), RatioTerm(t, varA, varB, tCovar);
    var ratio, neglected := WindLogRatio(m, l, t, varA, varB, covar, tCovar), NeglectedTerm(t, varA, varB, tCovar);
    var exponent := WindExponent(m, l, t, varA, varB, covar, tCovar);
    WindRatioParts(m, l, t, varA, varB, covar, tCovar, ratio, lTerm, tTerm, lLog, tLog);
    ExponentParts(m, l, t, varA, varB, covar, tCovar, lTerm, tTerm, neglected, exponent, lLog);
    assert exponent == ratio + (0.5 * (tLog - lLog) - neglected);
  }

  lemma WindRatioParts(m: RealFunctions, l: (real, real), t: (real, real), varA: real, varB: real, covar: real,
                       tCovar: real, ratio: real, lTerm: real, tTerm: real, lLog: real, tLog: real)
    requires LawfulLog(m) && Correlated(varA, varB, covar) && Correlated(varA, varB, tCovar) && covar != 0.0
    requires ratio == WindLogRatio(m, l, t, varA, varB, covar, tCovar)
    requires lTerm == ExponentTerm(SquaredCorrelation(covar, varA, varB), l.0, l.1, varA, varB, covar)
    requires tTerm == RatioTerm(t, varA, varB, tCovar)
    requires lLog == Log(m, 1.0 - SquaredCorrelation(covar, varA, varB))
    requires tLog == Log(m, 1.0 - SquaredCorrelation(tCovar, varA, varB))
    ensures ratio == -0.5 * (lLog + tLog) + lTerm + tTerm
  {
    RatioParts(m, l, varA, varB, covar, LogLikelihoodRatio(m, l, varA, varB, covar), lTerm, lLog);
    RatioParts(m, t, varA, varB, tCovar, LogLikelihoodRatio(m, t, varA, varB, tCovar), tTerm, tLog);
  }

  // The quadratic part of the ratio: there is none without correlation.
  function RatioTerm(d: (real, real), varA: real, varB: real, covar: real): (r: real)
    requires Correlated(varA, varB, covar)
  {
    if covar == 0.0 then 0.0 else ExponentTerm(SquaredCorrelation(covar, varA, varB), d.0, d.1, varA, varB, covar)
  }

  lemma ExponentParts(m: RealFunctions, l: (real, real), t: (real, real), varA: real, varB: real, covar: real,
                      tCovar: real, lTerm: real, tTerm: real, neglected: real, exponent: real, lLog: real)
    requires LawfulLog(m) && Correlated(varA, varB, covar) && Correlated(varA, varB, tCovar) && covar != 0.0
    requires lTerm == ExponentTerm(SquaredCorrelation(covar, varA, varB), l.0, l.1, varA, varB, covar)
    requires tTerm == RatioTerm(t, varA, varB, tCovar) && neglected == NeglectedTerm(t, varA, varB, tCovar)
    requires exponent == WindExponent(m, l, t, varA, varB, covar, tCovar)
    requires lLog == Log(m, 1.0 - SquaredCorrelation(covar, varA, varB))
    ensures exponent == -lLog + (tTerm - neglected + lTerm)
  {
    UncorrelatedIsZero(varA, varB);
    WindLogarithm(m, SquaredCorrelation(covar, varA, varB), SquaredCorrelation(tCovar, varA, varB));
  }

  // The ratio splits into a logarithmic and a quadratic part.
  lemma RatioParts(m: RealFunctions, d: (real, real), varA: real, varB: real, covar: real, ratio: real, term: real,
                   log: real)
    requires LawfulLog(m) && Correlated(varA, varB, covar) && ratio == LogLikelihoodRatio(m, d, varA, varB, covar)
    requires term == RatioTerm(d, varA, varB, covar) && log == Log(m, 1.0 - SquaredCorrelation(covar, varA, varB))
    ensures ratio == -0.5 * log + term
  {
    if covar == 0.0 {
      UncorrelatedIsZero(varA, varB);
      UncorrelatedRatio(m, d, varA, varB);
      LogOfProduct(m, 1.0, 1.0, 1.0);
    } else {
      ExponentIsLikelihoodRatio(m, d, varA, varB, covar);
    }
  }

  // The exponent of a wind is the logarithm of its likelihood ratio, for these departures.
  ghost predicate MeansRatio(m: RealFunctions, l: (real, real), t: (real, real), varA: real, varB: real, covar: real,
                             tCovar: real)
    requires Correlated(varA, varB, covar) && Correlated(varA, varB, tCovar) && covar != 0.0
  {
    WindExponent(m, l, t, varA, varB, covar, tCovar) == WindLogRatio(m, l, t, varA, varB, covar, tCovar)
  }

  /** It is for all departures exactly when no transverse term is left out and the transverse covariance, f times the
      longitudinal one, has the same size. */
  lemma WindExponentIff(m: RealFunctions, varA: real, varB: real, covar: real, tCovar: real, f: real)
    requires LawfulLog(m) && Correlated(varA, varB, covar) && Correlated(varA, varB, tCovar) && covar != 0.0
    requires tCovar == f * covar
    ensures (forall l, t :: MeansRatio(m, l, t, varA, varB, covar, tCovar)) <==>
            NothingNeglected(varA, varB, tCovar) && (f == 1.0 || f == -1.0)
  {
    var none, one := (0.0, 0.0), (1.0, 0.0);
    if NothingNeglected(varA, varB, tCovar) {
      forall l, t ensures MeansRatio(m, l, t, varA, varB, covar, tCovar) <==> f == 1.0 || f == -1.0 {
        SameSizeIff(m, l, t, varA, varB, covar, tCovar, f);
      }
      assert MeansRatio(m, none, none, varA, varB, covar, tCovar) <==> f == 1.0 || f == -1.0;
    } else {
      NeglectedMatters(m, none, varA, varB, covar, tCovar);
      assert !(MeansRatio(m, none, none, varA, varB, covar, tCovar)
               && MeansRatio(m, none, one, varA, varB, covar, tCovar));
    }
  }

  // Where nothing is left out this does not depend on the departures.
  lemma SameSizeIff(m: RealFunctions, l: (real, real), t: (real, real), varA: real, varB: real, covar: real,
                    tCovar: real, f: real)
    requires LawfulLog(m) && Correlated(varA, varB, covar) && Correlated(varA, varB, tCovar) && covar != 0.0
    requires tCovar == f * covar && NothingNeglected(varA, varB, tCovar)
    ensures MeansRatio(m, l, t, varA, varB, covar, tCovar) <==> f == 1.0 || f == -1.0
  {
    SameCorrelationIff(m, l, t, varA, varB, covar, tCovar);
    CorrelationsAgreeIff(f, covar, varA, varB);
  }

  // Where a term is left out it cannot fit both without and with a transverse departure.
  lemma NeglectedMatters(m: RealFunctions, l: (real, real), varA: real, varB: real, covar: real, tCovar: real)
    requires LawfulLog(m) && Correlated(varA, varB, covar) && Correlated(varA, varB, tCovar) && covar != 0.0
    requires !NothingNeglected(varA, varB, tCovar)
    ensures !(MeansRatio(m, l, (0.0, 0.0), varA, varB, covar, tCovar)
              && MeansRatio(m, l, (1.0, 0.0), varA, varB, covar, tCovar))
  {
    var lLog, tLog := Log(m, 1.0 - SquaredCorrelation(covar, varA, varB)),
                      Log(m, 1.0 - SquaredCorrelation(tCovar, varA, varB));
    GapNamed(m, l, (0.0, 0.0), varA, varB, covar, tCovar, lLog, tLog, NeglectedTerm((0.0, 0.0), varA, varB, tCovar));
    GapNamed(m, l, (1.0, 0.0), varA, varB, covar, tCovar, lLog, tLog, NeglectedTerm((1.0, 0.0), varA, varB, tCovar));
    NeglectedTerms(varA, varB, tCovar);
  }

  lemma GapNamed(m: RealFunctions, l: (real, real), t: (real, real), varA: real, varB: real, covar: real, tCovar: real,
                 lLog: real, tLog: real, neglected: real)
    requires LawfulLog(m) && Correlated(varA, varB, covar) && Correlated(varA, varB, tCovar) && covar != 0.0
    requires lLog == Log(m, 1.0 - SquaredCorrelation(covar, varA, varB))
    requires tLog == Log(m, 1.0 - SquaredCorrelation(tCovar, varA, varB))
    requires neglected == NeglectedTerm(t, varA, varB, tCovar)
    ensures MeansRatio(m, l, t, varA, varB, covar, tCovar) <==> 0.5 * (tLog - lLog) == neglected
  {
    WindExponentGap(m, l, t, varA, varB, covar, tCovar);
    SumEqual(WindExponent(m, l, t, varA, varB, covar, tCovar), WindLogRatio(m, l, t, varA, varB, covar, tCovar),
             0.5 * (tLog - lLog), neglected);
  }

  // The logarithm of what the joint covariance loses to the correlation
  function LogUncorrelated(m: RealFunctions, varA: real, varB: real, covar: real): (r: real)
    requires Correlated(varA, varB, covar)
  {
    Log(m, 1.0 - SquaredCorrelation(covar, varA, varB))
  }

  // The difference, with all its parts named
  lemma GapParts(m: RealFunctions, l: (real, real), t: (real, real), varA: real, varB: real, covar: real, tCovar: real,
                 lLog: real, tLog: real, neglected: real, exponent: real, ratio: real)
    requires LawfulLog(m) && Correlated(varA, varB, covar) && Correlated(varA, varB, tCovar) && covar != 0.0
    requires lLog == LogUncorrelated(m, varA, varB, covar) && tLog == LogUncorrelated(m, varA, varB, tCovar)
    requires neglected == NeglectedTerm(t, varA, varB, tCovar)
    requires exponent == WindExponent(m, l, t, varA, varB, covar, tCovar)
    requires ratio == WindLogRatio(m, l, t, varA, varB, covar, tCovar)
    ensures exponent == ratio + (0.5 * (tLog - lLog) - neglected)
  {
    WindExponentGap(m, l, t, varA, varB, covar, tCovar);
  }

  lemma SumEqual(x: real, y: real, a: real, b: real)
    requires x == y + (a - b)
    ensures x == y <==> a == b
  {
  }

  lemma NeglectedTerms(varA: real, varB: real, tCovar: real)
    requires Correlated(varA, varB, tCovar) && !NothingNeglected(varA, varB, tCovar)
    ensures NeglectedTerm((0.0, 0.0), varA, varB, tCovar) == 0.0
    ensures NeglectedTerm((1.0, 0.0), varA, varB, tCovar) != 0.0
  {
    var rho2, p := SquaredCorrelation(tCovar, varA, varB), varA * varB;
    assert Sqr(0.0) == 0.0 && Sqr(1.0) == 1.0;
    MulPositive(varA, varB);
    SqrPositive(tCovar);
    assert rho2 * p == Sqr(tCovar);
    assert rho2 != 0.0;
    TermAtZero(rho2, varA, varB, tCovar);
    TermAtOne(rho2, varA, varB, tCovar);
  }

  lemma TermAtZero(rho2: real, varA: real, varB: real, covar: real)
    requires 0.0 <= rho2 < 1.0 && varA > 0.0 && varB > 0.0 && covar != 0.0
    ensures ExponentTerm(rho2, 0.0, 0.0, varA, varB, covar) == 0.0
  {
    assert Sqr(0.0) == 0.0;
    assert Sqr(0.0) / varA + Sqr(0.0) / varB - 2.0 * 0.0 * 0.0 / covar == 0.0;
  }

  lemma TermAtOne(rho2: real, varA: real, varB: real, covar: real)
    requires 0.0 < rho2 < 1.0 && varA > 0.0 && varB > 0.0 && covar != 0.0
    ensures ExponentTerm(rho2, 1.0, 0.0, varA, varB, covar) < 0.0
  {
    var k, x := 0.5 * rho2 / (1.0 - rho2), 1.0 / varA;
    assert Sqr(0.0) == 0.0 && Sqr(1.0) == 1.0;
    assert Sqr(1.0) / varA + Sqr(0.0) / varB - 2.0 * 1.0 * 0.0 / covar == x;
    PositiveQuotient(0.5 * rho2, 1.0 - rho2);
    PositiveQuotient(1.0, varA);
    MulPositive(k, x);
  }

  lemma PositiveQuotient(a: real, b: real)
    requires a > 0.0 && b > 0.0
    ensures a / b > 0.0
  {
  }

  lemma SameCorrelationIff(m: RealFunctions, l: (real, real), t: (real, real), varA: real, varB: real, covar: real,
                           tCovar: real)
    requires LawfulLog(m) && Correlated(varA, varB, covar) && Correlated(varA, varB, tCovar) && covar != 0.0
    requires NothingNeglected(varA, varB, tCovar)
    ensures MeansRatio(m, l, t, varA, varB, covar, tCovar) <==>
            SquaredCorrelation(tCovar, varA, varB) == SquaredCorrelation(covar, varA, varB)
  {
    var lRho2, tRho2 := SquaredCorrelation(covar, varA, varB), SquaredCorrelation(tCovar, varA, varB);
    GapNamed(m, l, t, varA, varB, covar, tCovar, Log(m, 1.0 - lRho2), Log(m, 1.0 - tRho2), 0.0);
    WindLogarithm(m, lRho2, tRho2);
  }

  lemma CorrelationsAgreeIff(f: real, covar: real, varA: real, varB: real)
    requires varA > 0.0 && varB > 0.0 && covar != 0.0
    ensures SquaredCorrelation(f * covar, varA, varB) == SquaredCorrelation(covar, varA, varB) <==>
            f == 1.0 || f == -1.0
  {
    MulPositive(varA, varB);
    var p, f2, c2 := varA * varB, Sqr(f), Sqr(covar);
    SqrPositive(covar);
    SqrOfProduct(f, covar);
    var r, r' := SquaredCorrelation(f * covar, varA, varB), SquaredCorrelation(covar, varA, varB);
    assert r' * p == c2;
    assert r * p == f2 * c2;
    EqualQuotients(r, r', p, f2, c2);
    UnitSquare(f);
  }

  lemma SqrOfProduct(x: real, y: real)
    ensures Sqr(x * y) == Sqr(x) * Sqr(y)
  {
    assert (x * y) * (x * y) == (x * x) * (y * y);
  }

  lemma EqualQuotients(r: real, r': real, p: real, f2: real, c2: real)
    requires p > 0.0 && c2 > 0.0 && r * p == f2 * c2 && r' * p == c2
    ensures r == r' <==> f2 == 1.0
  {
    var d, e := r - r', f2 - 1.0;
    assert d * p == e * c2;
    assert d == 0.0 ==> e == 0.0 by { if d == 0.0 { ZeroFactor(e, c2); } }
    assert e == 0.0 ==> d == 0.0 by { if e == 0.0 { ZeroFactor(d, p); } }
  }

  lemma ZeroFactor(x: real, c: real)
    requires c > 0.0 && x * c == 0.0
    ensures x == 0.0
  {
  }

  lemma UnitSquare(f: real)
    ensures Sqr(f) == 1.0 <==> f == 1.0 || f == -1.0
  {
    var x, y := f - 1.0, f + 1.0;
    assert x * y == Sqr(f) - 1.0;
    assert x * y == 0.0 ==> x == 0.0 || y == 0.0;
  }

  /** Its quadratic part: the exponent's is the difference of the quadratic forms. */
  lemma TermIsQuadraticRatio(dA: real, dB: real, varA: real, varB: real, covar: real, rho2: real)
    requires covar != 0.0 && Correlated(varA, varB, covar) && rho2 == SquaredCorrelation(covar, varA, varB)
    ensures varA * varB - Sqr(covar) > 0.0
    ensures ExponentTerm(rho2, dA, dB, varA, varB, covar)
            == 0.5 * (Sqr(dA) / varA + Sqr(dB) / varB) - 0.5 * JointForm(dA, dB, varA, varB, covar)
  {
    Determinant(varA, varB, covar);
    var p, c, d := varA * varB, Sqr(covar), varA * varB - Sqr(covar);
    var x, y, w := Sqr(dA) / varA, Sqr(dB) / varB, 2.0 * dA * dB / covar;
    var k := 0.5 * rho2 / (1.0 - rho2);
    FormTimesDeterminant(dA, dB, varA, varB, covar, x, y, w);
    var j := JointForm(dA, dB, varA, varB, covar);
    assert j * d == p * x + p * y - c * w;
    FactorTimesDeterminant(rho2, p, c, d, k);
    LikelihoodAlgebra(x, y, w, k, j, p, c, d);
  }

  lemma FormTimesDeterminant(dA: real, dB: real, varA: real, varB: real, covar: real, x: real, y: real, w: real)
    requires varA > 0.0 && varB > 0.0 && covar != 0.0
    requires x == Sqr(dA) / varA && y == Sqr(dB) / varB && w == 2.0 * dA * dB / covar
    ensures varB * Sqr(dA) - 2.0 * covar * dA * dB + varA * Sqr(dB)
            == varA * varB * x + varA * varB * y - Sqr(covar) * w
  {
    assert x * varA == Sqr(dA) && y * varB == Sqr(dB) && w * covar == 2.0 * dA * dB;
    assert varB * (x * varA) == varA * varB * x;
    assert varA * (y * varB) == varA * varB * y;
    assert Sqr(covar) * w == covar * (w * covar) == covar * (2.0 * dA * dB) == 2.0 * covar * dA * dB;
  }

  lemma FactorTimesDeterminant(rho2: real, p: real, c: real, d: real, k: real)
    requires 0.0 <= rho2 < 1.0 && rho2 * p == c && (1.0 - rho2) * p == d && k == 0.5 * rho2 / (1.0 - rho2)
    ensures k * d == 0.5 * c
  {
    assert k * (1.0 - rho2) == 0.5 * rho2;
    assert k * d == k * (1.0 - rho2) * p;
    assert 0.5 * rho2 * p == 0.5 * c;
  }

  lemma LikelihoodAlgebra(x: real, y: real, w: real, k: real, j: real, p: real, c: real, d: real)
    requires d == p - c && d > 0.0 && j * d == p * x + p * y - c * w && k * d == 0.5 * c
    ensures -k * (x + y - w) == 0.5 * (x + y) - 0.5 * j
  {
    var left, right, s := -k * (x + y - w), 0.5 * (x + y) - 0.5 * j, x + y - w;
    assert left * d == -(k * d) * s;
    assert left * d == -0.5 * c * s;
    assert c * s == c * x + c * y - c * w;
    assert right * d == 0.5 * ((x + y) * d) - 0.5 * (j * d);
    assert (x + y) * d == p * x + p * y - c * x - c * y;
    assert right * d == -0.5 * (c * x + c * y - c * w);
    assert (left - right) * d == 0.0;
  }
}
