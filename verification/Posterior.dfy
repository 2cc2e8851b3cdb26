/**
 Why the probabilities are multiplied as they are: undamped, the check of a pair of scalars is Bayes' rule. What was the
 probability of a gross error given an observation alone becomes the one given both.
 */
module Posterior {
  import opened Missing
  import opened BuddyMath
  import opened BuddySweep
  import opened LikelihoodRatio
  import opened AgreementFactor
  import opened Reals

  // ---------------------------------------------------------------------------
  // Two observations, each with a gross error or not

  // What is known of one observation: the probability of a gross error before it was made, how likely it is with a
  // gross error and as a good one, and how likely together with having a gross error, and with having none
  datatype Observed = Observed(prior: real, gross: real, good: real, withError: real, without: real) {
    predicate Sensible() {
      && 0.0 < prior < 1.0 && gross > 0.0 && good > 0.0
      && withError == prior * gross && without == (1.0 - prior) * good
    }

    // p is the probability of a gross error given the observation.
    predicate GivenAlone(p: real) { p * (withError + without) == withError }

    lemma Positive()
      requires Sensible()
      ensures withError > 0.0 && without > 0.0
    {
      MulPositive(prior, gross);
      MulPositive(1.0 - prior, good);
    }
  }

  // p is the probability of a gross error in a, given both. Gross errors are independent of each other and of all
  // else; two good observations are together as likely as both says.
  predicate GivenBoth(a: Observed, b: Observed, both: real, p: real) {
    var withError := a.withError * b.withError + a.withError * b.without;
    var without := a.without * b.withError + (1.0 - a.prior) * (1.0 - b.prior) * both;
    p * (withError + without) == withError
  }

  // Dividing by 1 - (1 - p) (1 - p') (1 - f), with f the likelihood ratio of two good observations, is Bayes' rule.
  lemma BayesRule(a: Observed, b: Observed, both: real, f: real, p: real, p': real, q: real, u: real, v: real)
    requires a.Sensible() && b.Sensible() && a.GivenAlone(p) && b.GivenAlone(p')
    requires u == a.good && v == b.good && f * (u * v) == both && Inverts(q, p, p', f)
    ensures GivenBoth(a, b, both, p * q)
  {
    a.Positive();
    b.Positive();
    BothGood(a.prior, b.prior, u, v, both, f, a.without, b.without);
    BayesWeights(a, b, both, f, p, p', q);
  }

  lemma BayesWeights(a: Observed, b: Observed, both: real, f: real, p: real, p': real, q: real)
    requires a.withError > 0.0 && a.without > 0.0 && b.withError > 0.0 && b.without > 0.0
    requires a.GivenAlone(p) && b.GivenAlone(p') && Inverts(q, p, p', f)
    requires (1.0 - a.prior) * (1.0 - b.prior) * both == a.without * b.without * f
    ensures GivenBoth(a, b, both, p * q)
  {
    PosteriorAlgebra(a.withError, a.without, b.withError, b.without, f, p, p', q,
                     (1.0 - a.prior) * (1.0 - b.prior) * both);
  }

  lemma BothGood(x: real, y: real, u: real, v: real, both: real, f: real, xu: real, yv: real)
    requires f * (u * v) == both && xu == (1.0 - x) * u && yv == (1.0 - y) * v
    ensures (1.0 - x) * (1.0 - y) * both == xu * yv * f
  {
    var x', y' := 1.0 - x, 1.0 - y;
    assert x' * y' * (f * (u * v)) == (x' * u) * (y' * v) * f;
  }

  lemma PosteriorAlgebra(x: real, y: real, x': real, y': real, f: real, p: real, p': real, q: real, w: real)
    requires x > 0.0 && y > 0.0 && x' > 0.0 && y' > 0.0 && w == y * y' * f
    requires p * (x + y) == x && p' * (x' + y') == x' && Inverts(q, p, p', f)
    ensures p * q * ((x * x' + x * y') + (y * x' + w)) == x * x' + x * y'
  {
    var s, s' := x + y, x' + y';
    var d := 1.0 - (1.0 - p) * (1.0 - p') * (1.0 - f);
    ScaledDenominator(x, y, x', y', f, p, p', d);
    var t := (x * x' + x * y') + (y * x' + w);
    assert d * (s * s') == t;
    assert p * q * (d * (s * s')) == (q * d) * ((p * s) * s');
    assert x * s' == x * x' + x * y';
  }

  lemma ScaledDenominator(x: real, y: real, x': real, y': real, f: real, p: real, p': real, d: real)
    requires p * (x + y) == x && p' * (x' + y') == x' && d == 1.0 - (1.0 - p) * (1.0 - p') * (1.0 - f)
    ensures d * ((x + y) * (x' + y')) == x * x' + x * y' + y * x' + y * y' * f
  {
    var s, s', u, u' := x + y, x' + y', 1.0 - p, 1.0 - p';
    assert u * s == y && u' * s' == y';
    assert (u * u') * (s * s') == y * y' by { assert (u * u') * (s * s') == (u * s) * (u' * s'); }
    assert d * (s * s') == s * s' - ((u * u') * (s * s')) * (1.0 - f);
    assert s * s' == x * x' + x * y' + y * x' + y * y';
  }

  lemma BayesBoth(o: Observed, o': Observed, both: real, f: real, a: real, b: real, q: real, u: real, v: real)
    requires o.Sensible() && o'.Sensible() && o.GivenAlone(a) && o'.GivenAlone(b)
    requires u == o.good && v == o'.good && f * (u * v) == both && Inverts(q, a, b, f)
    ensures GivenBoth(o, o', both, a * q) && GivenBoth(o', o, both, b * q)
  {
    BayesRule(o, o', both, f, a, b, q, u, v);
    InvertsSwapped(q, a, b, f);
    assert u * v == v * u;
    BayesRule(o', o, both, f, b, a, q, v, u);
  }

  lemma InvertsSwapped(q: real, a: real, b: real, f: real)
    requires Inverts(q, a, b, f)
    ensures Inverts(q, b, a, f)
  {
    assert (1.0 - a) * (1.0 - b) == (1.0 - b) * (1.0 - a);
  }

  // Whatever the prior probabilities and the likelihoods with a gross error may be, if a and b are the probabilities of
  // one given each observation alone, z times them are those given both. As good ones the observations are as likely as
  // u and v say, and both together.
  ghost predicate UpdatesByBayes(u: real, v: real, both: real, a: real, b: real, z: real) {
    forall o: Observed, o': Observed {:trigger o.GivenAlone(a), o'.GivenAlone(b)} ::
      o.Sensible() && o'.Sensible() && o.good == u && o'.good == v && o.GivenAlone(a) && o'.GivenAlone(b) ==>
        GivenBoth(o, o', both, a * z) && GivenBoth(o', o, both, b * z)
  }

  lemma RatioUpdates(u: real, v: real, both: real, f: real, a: real, b: real, q: real)
    requires f * (u * v) == both && Inverts(q, a, b, f)
    ensures UpdatesByBayes(u, v, both, a, b, q)
  {
    forall o: Observed, o': Observed {:trigger o.GivenAlone(a), o'.GivenAlone(b)}
      | o.Sensible() && o'.Sensible() && o.good == u && o'.good == v && o.GivenAlone(a) && o'.GivenAlone(b)
      ensures GivenBoth(o, o', both, a * q) && GivenBoth(o', o, both, b * q)
    {
      BayesBoth(o, o', both, f, a, b, q, u, v);
    }
  }

  // ---------------------------------------------------------------------------
  // The check of a pair of scalars

  // The Gaussian density of a departure with its error variance, but for a constant, and that of two jointly
  function LogDensity(m: RealFunctions, d: real, variance: real): (f: real)
    requires variance > 0.0
  {
    -0.5 * Log(m, variance) - 0.5 * (Sqr(d) / variance)
  }

  function Density(m: RealFunctions, d: real, variance: real): (f: real)
    requires variance > 0.0
  {
    m.exp(LogDensity(m, d, variance))
  }

  function JointDensity(m: RealFunctions, d: (real, real), e: ErrorMoments): (f: real)
    requires e.Usable(false)
  {
    m.exp(JointLogDensity(m, d.0, d.1, e.varA, e.varB, e.covar))
  }

  lemma ExpOfSum(m: RealFunctions, x: real, y: real, s: real)
    requires Additive(m) && s == x + y
    ensures m.exp(s) == m.exp(x) * m.exp(y)
  {
  }

  lemma LogsOfPair(m: RealFunctions, d: (real, real), varA: real, varB: real)
    requires LawfulLog(m) && varA > 0.0 && varB > 0.0
    ensures IndependentLogDensity(m, d.0, d.1, varA, varB) == LogDensity(m, d.0, varA) + LogDensity(m, d.1, varB)
  {
    MulPositive(varA, varB);
    LogOfProduct(m, varA, varB, varA * varB);
  }

  lemma DensitiesMultiply(m: RealFunctions, x: real, y: real, apart: real, ratio: real, joint: real, u: real, v: real,
                          both: real, f: real)
    requires Additive(m) && apart == x + y && ratio == joint - apart
    requires u == m.exp(x) && v == m.exp(y) && both == m.exp(joint) && f == m.exp(ratio)
    ensures f * (u * v) == both
  {
    ExpOfSum(m, x, y, apart);
    ExpOfSum(m, ratio, apart, joint);
  }

  lemma DensitiesOfPair(m: RealFunctions, d: (real, real), e: ErrorMoments, u: real, v: real, both: real, ratio: real,
                        f: real)
    requires LawfulLog(m) && Additive(m) && e.Usable(false)
    requires u == Density(m, d.0, e.varA) && v == Density(m, d.1, e.varB) && both == JointDensity(m, d, e)
    requires ratio == LogLikelihoodRatio(m, d, e.varA, e.varB, e.covar) && f == m.exp(ratio)
    ensures f * (u * v) == both
  {
    LogsOfPair(m, d, e.varA, e.varB);
    DensitiesMultiply(m, LogDensity(m, d.0, e.varA), LogDensity(m, d.1, e.varB),
                      IndependentLogDensity(m, d.0, d.1, e.varA, e.varB), ratio,
                      JointLogDensity(m, d.0, d.1, e.varA, e.varB, e.covar), u, v, both, f);
  }

  ghost predicate UnitPower(m: RealFunctions) {
    forall z :: z > 0.0 ==> m.pow(z, 1.0) == z
  }

  // r is the logarithm of the likelihood ratio of two departures; if it is not beyond the limits, z updates the
  // probabilities by Bayes' rule.
  ghost predicate IsBayesUpdate(m: RealFunctions, e: ErrorMoments, d: (real, real), r: real, a: real, b: real, z: real)
    requires e.Usable(false)
  {
    && r == LogLikelihoodRatio(m, d, e.varA, e.varB, e.covar)
    && (-80.0 <= r <= 80.0 ==>
          UpdatesByBayes(Density(m, d.0, e.varA), Density(m, d.1, e.varB), JointDensity(m, d, e), a, b, z))
  }

  lemma ScalarEvidence(m: RealFunctions, wind: bool, e: ErrorMoments, d: Departures)
    requires e.Usable(wind) && !wind
    ensures Evidence(m, wind, e, d) == LogLikelihoodRatio(m, d.0, e.varA, e.varB, e.covar)
  {
  }

  lemma RatioIsBayesUpdate(m: RealFunctions, e: ErrorMoments, d: (real, real), r: real, a: real, b: real, f: real,
                           z: real, u: real, v: real, both: real)
    requires LawfulLog(m) && Additive(m) && e.Usable(false) && Inverts(z, a, b, f)
    requires r == LogLikelihoodRatio(m, d, e.varA, e.varB, e.covar) && f == m.exp(r)
    requires u == Density(m, d.0, e.varA) && v == Density(m, d.1, e.varB) && both == JointDensity(m, d, e)
    ensures UpdatesByBayes(u, v, both, a, b, z)
  {
    DensitiesOfPair(m, d, e, u, v, both, r, f);
    RatioUpdates(u, v, both, f, a, b, z);
  }

  lemma FactorIsBayesUpdate(m: RealFunctions, e: ErrorMoments, d: (real, real), r: real, a: real, b: real, x: real,
                            z: real)
    requires LawfulLog(m) && Additive(m) && e.Usable(false)
    requires r == LogLikelihoodRatio(m, d, e.varA, e.varB, e.covar)
    requires Limited(r, x) && Inverts(z, a, b, m.exp(x))
    ensures IsBayesUpdate(m, e, d, r, a, b, z)
  {
    if -80.0 <= r <= 80.0 {
      assert x == r;
      RatioIsBayesUpdate(m, e, d, r, a, b, m.exp(x), z, Density(m, d.0, e.varA), Density(m, d.1, e.varB),
                         JointDensity(m, d, e));
    }
  }

  /** Undamped, a checked pair of scalars has its probabilities updated by Bayes' rule, unless the evidence is beyond
      the limits. */
  lemma PairIsBayesRule(c: Check, pair: Pair, rows: nat, cols: nat, g: Grid, l: nat, a: real, b: real)
    returns (k: Reckoning, d: Departures, r: real, z: real)
    requires c.Configured() && c.Sized(rows, cols) && Admissible(g, rows, cols) && c.Ready(pair, rows, cols, g)
    requires Checks(c, pair, rows, cols, g, l, a, b) && LawfulLog(c.m) && Pythagorean(c.m)
    requires Additive(c.m) && UnitPower(c.m)
    requires c.variable.Scalar? && c.options.dampingFactor1 == 1.0 && c.options.dampingFactor2 == 1.0
    ensures c.Comparable(pair, l, rows, cols) && GivenBy(c, pair, l, rows, cols, k, d)
    ensures Multiplies(c, pair, rows, cols, g, l, a, b, z) && IsBayesUpdate(c.m, k.e, d.0, r, a, b, z)
  {
    var x, q;
    k, d, r, x, q, z := PairFactor(c, pair, rows, cols, g, l, a, b);
    Undamped(c, r, x, q);
    ScalarEvidence(c.m, c.variable.Vector?, k.e, d);
    FactorIsBayesUpdate(c.m, k.e, d.0, r, a, b, x, z);
  }

  lemma Undamped(c: Check, r: real, x: real, q: real)
    requires c.options.dampingFactor1 == 1.0 && c.options.dampingFactor2 == 1.0 && UnitPower(c.m) && q > 0.0
    requires IsArgument(c, r, x)
    ensures Limited(r, x) && c.m.pow(q, c.options.dampingFactor2) == q
  {
  }
}
