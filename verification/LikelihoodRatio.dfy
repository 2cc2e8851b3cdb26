/** What the exponent of the buddy check means: when it is the logarithm of a likelihood ratio, and when not. */
module LikelihoodRatio {
  import opened Missing
  import opened BuddyMath
  import opened BuddySweep
  import opened Reals

  // How much likelier the departures of a pair are with the correlations assumed than without, as a logarithm
  function PairLogRatio(m: RealFunctions, wind: bool, e: ErrorMoments, d: Departures): (r: real)
    requires e.Usable(wind)
  {
    if wind then WindLogRatio(m, d.0, d.1, e.varA, e.varB, e.covar, e.tCovar)
    else LogLikelihoodRatio(m, d.0, e.varA, e.varB, e.covar)
  }

  // The exponent is that logarithm, for these departures, and for all.
  ghost predicate Fits(m: RealFunctions, wind: bool, e: ErrorMoments, d: Departures)
    requires e.Usable(wind)
  {
    PairExponent(m, wind, e, d) == PairLogRatio(m, wind, e, d)
  }

  ghost predicate AlwaysFits(m: RealFunctions, wind: bool, e: ErrorMoments)
    requires e.Usable(wind)
  {
    forall d: Departures :: Fits(m, wind, e, d)
  }

  lemma ScalarFits(m: RealFunctions, e: ErrorMoments)
    requires LawfulLog(m) && e.Usable(false)
    ensures AlwaysFits(m, false, e)
  {
    forall d: Departures ensures Fits(m, false, e, d) {
      ExponentIsLikelihoodRatio(m, d.0, e.varA, e.varB, e.covar);
    }
  }

  lemma WindFitsIff(m: RealFunctions, e: ErrorMoments, f: real)
    requires LawfulLog(m) && e.Usable(true) && e.tCovar == f * e.covar
    ensures AlwaysFits(m, true, e) <==> NothingNeglected(e.varA, e.varB, e.tCovar) && (f == 1.0 || f == -1.0)
  {
    WindExponentIff(m, e.varA, e.varB, e.covar, e.tCovar, f);
    forall d: Departures
      ensures Fits(m, true, e, d) <==> MeansRatio(m, d.0, d.1, e.varA, e.varB, e.covar, e.tCovar)
    {
    }
    if AlwaysFits(m, true, e) {
      forall l, t ensures MeansRatio(m, l, t, e.varA, e.varB, e.covar, e.tCovar) {
        assert Fits(m, true, e, (l, t));
      }
    }
  }

  // No transverse term is left out, and the transverse covariance is the longitudinal one or its opposite.
  ghost predicate SameSize(e: ErrorMoments, constraint: real, distance: real)
    requires e.Usable(true)
  {
    NothingNeglected(e.varA, e.varB, e.tCovar) && (constraint * distance == 0.0 || constraint * distance == 2.0)
  }

  /** The exponent of a pair of scalars is that logarithm whatever the departures. That of a pair of winds is exactly
      when no transverse term is left out and the non-divergence constraint times the scaled distance is 0 or 2. */
  lemma ExponentMeaning(c: Check, pair: Pair, lev: nat, rows: nat, cols: nat)
    requires LawfulLog(c.m) && c.Comparable(pair, lev, rows, cols)
    ensures var e := c.Moments(pair, lev, rows, cols);
            AlwaysFits(c.m, c.variable.Vector?, e) <==>
            c.variable.Scalar?
            || SameSize(e, c.options.nonDivergenceConstraint, c.ScaledDistance(pair, rows, cols))
  {
    FitsIff(c.m, c.variable.Vector?, c.Moments(pair, lev, rows, cols), c.options.nonDivergenceConstraint,
            c.ScaledDistance(pair, rows, cols));
  }

  lemma FitsIff(m: RealFunctions, wind: bool, e: ErrorMoments, constraint: real, distance: real)
    requires LawfulLog(m) && e.Usable(wind) && e.tCovar == (1.0 - constraint * distance) * e.covar
    ensures AlwaysFits(m, wind, e) <==> !wind || SameSize(e, constraint, distance)
  {
    if wind {
      WindFitsIff(m, e, 1.0 - constraint * distance);
    } else {
      ScalarFits(m, e);
    }
  }

  // ---------------------------------------------------------------------------
  // A pair of winds half the correlation scale apart, with unit errors and the full non-divergence constraint

  function HalfScaleApart(m: RealFunctions): (c: Check) {
    var ones, zeros := [[1.0], [1.0]], [[0.0], [0.0]];
    Check(m, Options(0.0, 1.0, 1.0, 1.0, 1.0, None), Metadata([PASS, PASS], [100.0, 100.0], [0.0, 0.0], None),
          Vector(ones, ones, zeros, zeros, ones, ones))
  }

  /** Its exponent is not the logarithm of its likelihood ratio. */
  lemma WindExponentFails(m: RealFunctions)
    requires Lawful(m) && LawfulLog(m)
    ensures var c, pair := HalfScaleApart(m), Pair(0, 1, 50.0, 0.0, 0.0);
            && c.Comparable(pair, 0, 2, 1)
            && !Fits(m, true, c.Moments(pair, 0, 2, 1), c.DeparturesOf(pair, 0, 2, 1))
  {
    var c, pair := HalfScaleApart(m), Pair(0, 1, 50.0, 0.0, 0.0);
    HalfScaleMoments(m, c, pair);
    HalfSizeFails(m, c.Moments(pair, 0, 2, 1), c.DeparturesOf(pair, 0, 2, 1));
  }

  lemma HalfSizeFails(m: RealFunctions, e: ErrorMoments, d: Departures)
    requires LawfulLog(m) && e.Usable(true) && e.tCovar == 0.5 * e.covar
    requires NothingNeglected(e.varA, e.varB, e.tCovar)
    ensures !Fits(m, true, e, d)
  {
    SameSizeIff(m, d.0, d.1, e.varA, e.varB, e.covar, e.tCovar, 0.5);
  }

  lemma HalfScaleCorrelation(m: RealFunctions, c: Check, pair: Pair)
    requires Lawful(m) && c == HalfScaleApart(m) && pair == Pair(0, 1, 50.0, 0.0, 0.0)
    ensures c.Comparable(pair, 0, 2, 1) && 0.5 <= c.ExpCorrelation(pair, 2, 1) && c.ScaledDistance(pair, 2, 1) == 0.5
  {
    assert c.Configured() && c.Sized(2, 1) && c.PairUsable(pair, 2, 1);
    assert c.ScaledDistance(pair, 2, 1) == 0.5 && c.Separation(pair, 2, 1) == 0.0;
    assert c.ExpCorrelation(pair, 2, 1) == m.exp(-0.5 - 0.0) >= 0.5;
    assert c.PairCorrelation(pair, 2, 1) == 1.5 * c.ExpCorrelation(pair, 2, 1);
  }

  lemma HalfScaleMoments(m: RealFunctions, c: Check, pair: Pair)
    requires Lawful(m) && c == HalfScaleApart(m) && pair == Pair(0, 1, 50.0, 0.0, 0.0)
    ensures c.Comparable(pair, 0, 2, 1)
    ensures var e := c.Moments(pair, 0, 2, 1);
            e.Usable(true) && e.tCovar == 0.5 * e.covar && NothingNeglected(e.varA, e.varB, e.tCovar)
  {
    HalfScaleCorrelation(m, c, pair);
    var e, k := c.Moments(pair, 0, 2, 1), c.ExpCorrelation(pair, 2, 1);
    UnitMoments(c, pair, 0, 2, 1, e, k, 1.0, 1.0);
    HalfCovariance(c, pair, 0, 2, 1, e);
    HalfSize(e, k);
  }

  lemma HalfCovariance(c: Check, pair: Pair, lev: nat, rows: nat, cols: nat, e: ErrorMoments)
    requires c.Comparable(pair, lev, rows, cols) && e == c.Moments(pair, lev, rows, cols)
    requires c.options.nonDivergenceConstraint == 1.0 && c.ScaledDistance(pair, rows, cols) == 0.5
    ensures e.tCovar == 0.5 * e.covar
  {
    var f := 1.0 - c.options.nonDivergenceConstraint * c.ScaledDistance(pair, rows, cols);
    assert f == 0.5;
    assert e.tCovar == f * e.covar;
  }

  lemma UnitMoments(c: Check, pair: Pair, lev: nat, rows: nat, cols: nat, e: ErrorMoments, k: real, x: real, y: real)
    requires c.Comparable(pair, lev, rows, cols) && c.variable.Vector? && e == c.Moments(pair, lev, rows, cols)
    requires k == c.ExpCorrelation(pair, rows, cols)
    requires x == c.variable.bgErrors[pair.obsIdA][lev] == c.variable.obsErrors[pair.obsIdA][lev] == 1.0
    requires y == c.variable.bgErrors[pair.obsIdB][lev] == c.variable.obsErrors[pair.obsIdB][lev] == 1.0
    ensures e.varA == 2.0 && e.varB == 2.0 && e.covar == k
  {
    WindMoments(c, pair, lev, rows, cols, e, k, x, y);
    UnitErrors(k, x, y);
  }

  lemma WindMoments(c: Check, pair: Pair, lev: nat, rows: nat, cols: nat, e: ErrorMoments, k: real, x: real, y: real)
    requires c.Comparable(pair, lev, rows, cols) && c.variable.Vector? && e == c.Moments(pair, lev, rows, cols)
    requires k == c.ExpCorrelation(pair, rows, cols)
    requires x == c.variable.bgErrors[pair.obsIdA][lev] == c.variable.obsErrors[pair.obsIdA][lev]
    requires y == c.variable.bgErrors[pair.obsIdB][lev] == c.variable.obsErrors[pair.obsIdB][lev]
    ensures e.varA == ErrorVariance(x, x) && e.varB == ErrorVariance(y, y) && e.covar == k * x * y
  {
  }

  lemma UnitErrors(k: real, x: real, y: real)
    requires x == 1.0 && y == 1.0
    ensures k * x * y == k && ErrorVariance(1.0, 1.0) == 2.0
  {
  }

  lemma HalfSize(e: ErrorMoments, k: real)
    requires e.Usable(true) && e.varA == 2.0 && e.varB == 2.0 && e.covar == k && 0.5 <= k <= 1.0
    requires e.tCovar == 0.5 * e.covar
    ensures NothingNeglected(e.varA, e.varB, e.tCovar)
  {
    NotNegligible(k);
  }

  lemma NotNegligible(k: real)
    requires 0.5 <= k <= 1.0
    ensures SquaredCorrelation(0.5 * k, 2.0, 2.0) > NEGLIGIBLE
  {
    var x := 0.5 * k;
    MulMonotone(x, 0.25, x);
    assert Sqr(x) >= 0.0625;
  }
}
