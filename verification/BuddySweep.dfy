/**
 The Met Office buddy check: one sweep over the list of buddy pairs, in order, that multiplies the gross
 error probabilities (PGEs) of both members of a pair by a damped agreement factor, level by level.
 */
module BuddySweep {
  import opened Missing
  import opened BuddyMath
  import opened Reals

  type Grid = seq<seq<Datum>>
  type Field = seq<seq<real>>

  datatype Pair = Pair(obsIdA: nat, obsIdB: nat, distanceInKm: real, rotationAInRad: real, rotationBInRad: real)

  datatype Options = Options(verticalCorrelationScale: real, temporalCorrelationScale: real, dampingFactor1: real,
                             dampingFactor2: real, nonDivergenceConstraint: real, numLevels: Option<nat>)

  // Per observation: QC flags, horizontal correlation scales, times (seconds) and, if available, pressures
  datatype Metadata = Metadata(flags: seq<int>, scales: seq<real>, times: seq<real>, pressures: Option<seq<real>>)

  // The checked variable: one component, or the two components of a wind
  datatype Variable =
    | Scalar(obs: Field, bg: Field, obsErrors: Field, bgErrors: Field)
    | Vector(uObs: Field, vObs: Field, uBg: Field, vBg: Field, obsErrors: Field, bgErrors: Field)

  // Error variances of the members of a pair, and the covariance of their departures: of the longitudinal and of the
  // transverse ones if they are winds
  datatype ErrorMoments = ErrorMoments(varA: real, varB: real, covar: real, tCovar: real) {
    predicate Usable(wind: bool) {
      covar != 0.0 && Correlated(varA, varB, covar) && (wind ==> Correlated(varA, varB, tCovar))
    }
  }

  // The departures of the two members of a pair: scalar or longitudinal ones, and transverse ones if they are winds
  type Departures = ((real, real), (real, real))

  // The exponent of a pair, before damping
  function PairExponent(m: RealFunctions, wind: bool, e: ErrorMoments, d: Departures): (r: real)
    requires e.Usable(wind)
  {
    if wind then WindExponent(m, d.0, d.1, e.varA, e.varB, e.covar, e.tCovar)
    else ScalarExponent(m, d.0, e.varA, e.varB, e.covar)
  }

  const PASS := 0
  const EXP_ARG_MAX := 80.0
  const MAX_GROSS_ERROR_PROBABILITY := 1.0
  const MIN_CORRELATION := 0.1

  datatype Check = Check(m: RealFunctions, options: Options, meta: Metadata, variable: Variable) {

    // -------------------------------------------------------------------------
    // Preconditions

    ghost predicate Configured() {
      && Lawful(m)
      && options.verticalCorrelationScale >= 0.0 && options.temporalCorrelationScale > 0.0
      && 0.0 <= options.dampingFactor2 <= 1.0
      && 0.0 <= options.nonDivergenceConstraint <= 1.0
    }

    ghost predicate Sized(rows: nat, cols: nat) {
      && |meta.flags| == |meta.scales| == |meta.times| == rows
      && (meta.pressures.Some? ==> |meta.pressures.value| == rows)
      && Rectangular(variable.obsErrors, rows, cols) && Rectangular(variable.bgErrors, rows, cols)
      && match variable
         case Scalar(obs, bg, _, _) => Rectangular(obs, rows, cols) && Rectangular(bg, rows, cols)
         case Vector(uObs, vObs, uBg, vBg, _, _) =>
           Rectangular(uObs, rows, cols) && Rectangular(vObs, rows, cols) && Rectangular(uBg, rows, cols)
             && Rectangular(vBg, rows, cols)
    }

    // Both members of the pair have passed quality control so far.
    predicate Candidate(pair: Pair)
      requires pair.obsIdA < |meta.flags| && pair.obsIdB < |meta.flags|
    {
      meta.flags[pair.obsIdA] == PASS && meta.flags[pair.obsIdB] == PASS
    }

    // The data of a candidate pair make its correlation well defined.
    ghost predicate PairUsable(pair: Pair, rows: nat, cols: nat)
      requires Sized(rows, cols)
    {
      && pair.obsIdA < rows && pair.obsIdB < rows && pair.obsIdA != pair.obsIdB
      && (Candidate(pair) ==>
            && pair.distanceInKm >= 0.0
            && meta.scales[pair.obsIdA] + meta.scales[pair.obsIdB] > 0.0
            && (options.numLevels == Some(1) ==>
                  meta.pressures.Some? && meta.pressures.value[pair.obsIdA] > 0.0
                    && meta.pressures.value[pair.obsIdB] > 0.0))
    }

    ghost predicate ErrorsPositive(pair: Pair, lev: nat, rows: nat, cols: nat)
      requires Sized(rows, cols) && pair.obsIdA < rows && pair.obsIdB < rows && lev < cols
    {
      && variable.obsErrors[pair.obsIdA][lev] > 0.0 && variable.bgErrors[pair.obsIdA][lev] > 0.0
      && variable.obsErrors[pair.obsIdB][lev] > 0.0 && variable.bgErrors[pair.obsIdB][lev] > 0.0
    }

    // -------------------------------------------------------------------------
    // Correlations

    function ScaledDistance(pair: Pair, rows: nat, cols: nat): (s: real)
      requires Sized(rows, cols) && PairUsable(pair, rows, cols) && Candidate(pair)
      ensures s >= 0.0
    {
      var hcScale := 0.5 * (meta.scales[pair.obsIdA] + meta.scales[pair.obsIdB]);
      pair.distanceInKm / hcScale
    }

    // What is subtracted from minus the scaled distance in the exponent of the correlation
    function Separation(pair: Pair, rows: nat, cols: nat): (a: real)
      requires Configured() && Sized(rows, cols) && PairUsable(pair, rows, cols) && Candidate(pair)
      ensures a >= 0.0
    {
      var elapsed := (meta.times[pair.obsIdA] - meta.times[pair.obsIdB]) * (1.0 / options.temporalCorrelationScale);
      SqrNonNegative(elapsed);
      if options.numLevels == Some(1) then
        var logRatio := Log(m, meta.pressures.value[pair.obsIdA] / meta.pressures.value[pair.obsIdB]);
        SqrNonNegative(logRatio);
        NonNegativeProduct(options.verticalCorrelationScale, Sqr(logRatio));
        options.verticalCorrelationScale * Sqr(logRatio) + Sqr(elapsed)
      else
        Sqr(elapsed)
    }

    function ExpCorrelation(pair: Pair, rows: nat, cols: nat): (r: real)
      requires Configured() && Sized(rows, cols) && PairUsable(pair, rows, cols) && Candidate(pair)
      ensures 0.0 < r <= 1.0
      ensures 0.0 < Soar(ScaledDistance(pair, rows, cols), r) <= 1.0
    {
      CorrelationBound(m, ScaledDistance(pair, rows, cols), Separation(pair, rows, cols));
      m.exp(-ScaledDistance(pair, rows, cols) - Separation(pair, rows, cols))
    }

    // Background error correlation between the positions of a candidate pair
    function PairCorrelation(pair: Pair, rows: nat, cols: nat): (r: real)
      requires Configured() && Sized(rows, cols) && PairUsable(pair, rows, cols) && Candidate(pair)
      ensures 0.0 < r <= 1.0
    {
      Soar(ScaledDistance(pair, rows, cols), ExpCorrelation(pair, rows, cols))
    }

    // The pair is close enough to be checked.
    predicate Active(pair: Pair, rows: nat, cols: nat)
      requires Configured() && Sized(rows, cols) && PairUsable(pair, rows, cols)
    {
      Candidate(pair) && PairCorrelation(pair, rows, cols) >= MIN_CORRELATION
    }

    predicate Touches(pair: Pair, i: nat, rows: nat, cols: nat)
      requires Configured() && Sized(rows, cols) && PairUsable(pair, rows, cols)
    {
      Active(pair, rows, cols) && (pair.obsIdA == i || pair.obsIdB == i)
    }

    // -------------------------------------------------------------------------
    // Squared total error correlations

    ghost predicate Comparable(pair: Pair, lev: nat, rows: nat, cols: nat) {
      && Configured() && Sized(rows, cols) && PairUsable(pair, rows, cols) && Active(pair, rows, cols)
      && lev < cols && ErrorsPositive(pair, lev, rows, cols)
    }

    function ErrVar(obsId: nat, lev: nat): (v: real)
      requires obsId < |variable.obsErrors| && lev < |variable.obsErrors[obsId]|
      requires obsId < |variable.bgErrors| && lev < |variable.bgErrors[obsId]|
    {
      ErrorVariance(variable.obsErrors[obsId][lev], variable.bgErrors[obsId][lev])
    }

    // Background error correlation: of the scalar variable, or of the longitudinal wind
    function Correlation(pair: Pair, rows: nat, cols: nat): (k: real)
      requires Configured() && Sized(rows, cols) && PairUsable(pair, rows, cols) && Active(pair, rows, cols)
      ensures 0.0 < k <= 1.0
    {
      if variable.Scalar? then PairCorrelation(pair, rows, cols)
      else ExpCorrelation(pair, rows, cols)
    }

    function Covariance(pair: Pair, lev: nat, rows: nat, cols: nat): (r: real)
      requires Comparable(pair, lev, rows, cols)
    {
      Correlation(pair, rows, cols) * variable.bgErrors[pair.obsIdA][lev] * variable.bgErrors[pair.obsIdB][lev]
    }

    lemma VariancesPositive(pair: Pair, lev: nat, rows: nat, cols: nat)
      requires Comparable(pair, lev, rows, cols)
      ensures ErrVar(pair.obsIdA, lev) > 0.0 && ErrVar(pair.obsIdB, lev) > 0.0
    {
      SqrPositive(variable.obsErrors[pair.obsIdA][lev]);
      SqrPositive(variable.obsErrors[pair.obsIdB][lev]);
      SqrNonNegative(variable.bgErrors[pair.obsIdA][lev]);
      SqrNonNegative(variable.bgErrors[pair.obsIdB][lev]);
    }

    /** The squared total error correlation is in [0, 1): 1 - rho2 can be divided by, and has a logarithm. */
    lemma Rho2Bound(pair: Pair, lev: nat, rows: nat, cols: nat)
      requires Comparable(pair, lev, rows, cols)
      ensures ErrVar(pair.obsIdA, lev) > 0.0 && ErrVar(pair.obsIdB, lev) > 0.0
      ensures Covariance(pair, lev, rows, cols) != 0.0
      ensures 0.0 <= SquaredCorrelation(Covariance(pair, lev, rows, cols),
                                        ErrVar(pair.obsIdA, lev), ErrVar(pair.obsIdB, lev)) < 1.0
    {
      VariancesPositive(pair, lev, rows, cols);
      SquaredCorrelationBound(Correlation(pair, rows, cols),
                              variable.bgErrors[pair.obsIdA][lev], variable.bgErrors[pair.obsIdB][lev],
                              variable.obsErrors[pair.obsIdA][lev], variable.obsErrors[pair.obsIdB][lev],
                              Covariance(pair, lev, rows, cols), ErrVar(pair.obsIdA, lev), ErrVar(pair.obsIdB, lev));
    }

    function TransverseCovariance(pair: Pair, lev: nat, rows: nat, cols: nat): (r: real)
      requires Comparable(pair, lev, rows, cols)
    {
      (1.0 - options.nonDivergenceConstraint * ScaledDistance(pair, rows, cols)) * Covariance(pair, lev, rows, cols)
    }

    /** So is the one of the transverse wind, although its correlation may be negative; where it is not
        negligible, its covariance can be divided by. */
    lemma TransverseRho2Bound(pair: Pair, lev: nat, rows: nat, cols: nat)
      requires Comparable(pair, lev, rows, cols) && variable.Vector?
      ensures ErrVar(pair.obsIdA, lev) > 0.0 && ErrVar(pair.obsIdB, lev) > 0.0
      ensures 0.0 <= SquaredCorrelation(TransverseCovariance(pair, lev, rows, cols),
                                        ErrVar(pair.obsIdA, lev), ErrVar(pair.obsIdB, lev)) < 1.0
      ensures TransverseCovariance(pair, lev, rows, cols) == 0.0 ==>
                SquaredCorrelation(TransverseCovariance(pair, lev, rows, cols),
                                   ErrVar(pair.obsIdA, lev), ErrVar(pair.obsIdB, lev)) == 0.0
    {
      var k := TransverseCorrelation(pair, rows, cols);
      TransverseCovarianceFactors(pair, lev, rows, cols);
      SquaredCorrelationBound(k, variable.bgErrors[pair.obsIdA][lev], variable.bgErrors[pair.obsIdB][lev],
                              variable.obsErrors[pair.obsIdA][lev], variable.obsErrors[pair.obsIdB][lev],
                              TransverseCovariance(pair, lev, rows, cols),
                              ErrVar(pair.obsIdA, lev), ErrVar(pair.obsIdB, lev));
    }

    function TransverseCorrelation(pair: Pair, rows: nat, cols: nat): (k: real)
      requires Configured() && Sized(rows, cols) && PairUsable(pair, rows, cols) && Active(pair, rows, cols)
      ensures -1.0 <= k <= 1.0
    {
      var s := ScaledDistance(pair, rows, cols);
      TransverseBound(m, options.nonDivergenceConstraint, s, Separation(pair, rows, cols));
      (1.0 - options.nonDivergenceConstraint * s) * ExpCorrelation(pair, rows, cols)
    }

    lemma TransverseCovarianceFactors(pair: Pair, lev: nat, rows: nat, cols: nat)
      requires Comparable(pair, lev, rows, cols) && variable.Vector?
      ensures TransverseCovariance(pair, lev, rows, cols)
           == TransverseCorrelation(pair, rows, cols) * variable.bgErrors[pair.obsIdA][lev]
              * variable.bgErrors[pair.obsIdB][lev]
    {
      Reassociate(1.0 - options.nonDivergenceConstraint * ScaledDistance(pair, rows, cols),
                  ExpCorrelation(pair, rows, cols), variable.bgErrors[pair.obsIdA][lev],
                    variable.bgErrors[pair.obsIdB][lev]);
    }

    // -------------------------------------------------------------------------
    // The exponent of the agreement factor

    // Longitudinal and transverse components of the departure (u, v), rotated by an angle
    function Longitudinal(rotation: real, u: real, v: real): (r: real) { m.cos(rotation) * u + m.sin(rotation) * v }
    function Transverse(rotation: real, u: real, v: real): (r: real) { -m.sin(rotation) * u + m.cos(rotation) * v }

    function DeparturesOf(pair: Pair, lev: nat, rows: nat, cols: nat): (d: Departures)
      requires Comparable(pair, lev, rows, cols)
    {
      var a, b := pair.obsIdA, pair.obsIdB;
      match variable
      case Scalar(obs, bg, _, _) =>
        ((obs[a][lev] - bg[a][lev], obs[b][lev] - bg[b][lev]), (0.0, 0.0))
      case Vector(uObs, vObs, uBg, vBg, _, _) =>
        var uA, vA := uObs[a][lev] - uBg[a][lev], vObs[a][lev] - vBg[a][lev];
        var uB, vB := uObs[b][lev] - uBg[b][lev], vObs[b][lev] - vBg[b][lev];
        ((Longitudinal(pair.rotationAInRad, uA, vA), Longitudinal(pair.rotationBInRad, uB, vB)),
         (Transverse(pair.rotationAInRad, uA, vA), Transverse(pair.rotationBInRad, uB, vB)))
    }

    lemma PairCorrelated(pair: Pair, lev: nat, rows: nat, cols: nat)
      requires Comparable(pair, lev, rows, cols)
      ensures Covariance(pair, lev, rows, cols) != 0.0
      ensures Correlated(ErrVar(pair.obsIdA, lev), ErrVar(pair.obsIdB, lev), Covariance(pair, lev, rows, cols))
      ensures variable.Vector? ==>
                Correlated(ErrVar(pair.obsIdA, lev), ErrVar(pair.obsIdB, lev),
                           TransverseCovariance(pair, lev, rows, cols))
    {
      Rho2Bound(pair, lev, rows, cols);
      if variable.Vector? { TransverseRho2Bound(pair, lev, rows, cols); }
    }

    // Error variances of both members, and the covariances of their departures
    function Moments(pair: Pair, lev: nat, rows: nat, cols: nat): (e: ErrorMoments)
      requires Comparable(pair, lev, rows, cols)
      ensures e.Usable(variable.Vector?)
      ensures e.tCovar == (1.0 - options.nonDivergenceConstraint * ScaledDistance(pair, rows, cols)) * e.covar
    {
      PairCorrelated(pair, lev, rows, cols);
      ErrorMoments(ErrVar(pair.obsIdA, lev), ErrVar(pair.obsIdB, lev), Covariance(pair, lev, rows, cols),
                   TransverseCovariance(pair, lev, rows, cols))
    }

    function RawExponent(pair: Pair, lev: nat, rows: nat, cols: nat): (r: real)
      requires Comparable(pair, lev, rows, cols)
    {
      PairExponent(m, variable.Vector?, Moments(pair, lev, rows, cols), DeparturesOf(pair, lev, rows, cols))
    }

    function Damped(exponent: real): (r: real) { options.dampingFactor1 * exponent }

    // Damped and clamped to [-80, 80]
    function ExpArg(pair: Pair, lev: nat, rows: nat, cols: nat): (r: real)
      requires Comparable(pair, lev, rows, cols)
    {
      var damped := Damped(RawExponent(pair, lev, rows, cols));
      var raised := if damped < -EXP_ARG_MAX then -EXP_ARG_MAX else damped;
      if raised > EXP_ARG_MAX then EXP_ARG_MAX else raised
    }

    // The factor by which both probabilities are multiplied
    function Multiplier(pair: Pair, lev: nat, rows: nat, cols: nat, pA: real, pB: real): (z: real)
      requires Comparable(pair, lev, rows, cols) && 0.0 <= pA < 1.0 && 0.0 <= pB < 1.0
      ensures z > 0.0 && 0.0 <= Updated(pA, z) < 1.0 && 0.0 <= Updated(pB, z) < 1.0
    {
      DampedUpdateBound(m, pA, pB, m.exp(ExpArg(pair, lev, rows, cols)), options.dampingFactor2);
      m.pow(Agreement(pA, pB, m.exp(ExpArg(pair, lev, rows, cols))), options.dampingFactor2)
    }

    // -------------------------------------------------------------------------
    // The sweep as a function of the grid of probabilities (observations by levels)

    // The errors are positive wherever the pair will be checked.
    ghost predicate Ready(pair: Pair, rows: nat, cols: nat, g: Grid)
      requires Sized(rows, cols) && Rectangular(g, rows, cols)
    {
      && PairUsable(pair, rows, cols)
      && forall lev: nat {:trigger ErrorsPositive(pair, lev, rows, cols)} ::
           lev < cols && Candidate(pair) && Checkable(g[pair.obsIdA][lev]) && Checkable(g[pair.obsIdB][lev]) ==>
             ErrorsPositive(pair, lev, rows, cols)
    }

    ghost predicate Sweepable(pairs: seq<Pair>, rows: nat, cols: nat, g: Grid) {
      && Configured() && Sized(rows, cols) && Admissible(g, rows, cols)
      && forall i :: 0 <= i < |pairs| ==> Ready(pairs[i], rows, cols, g)
    }

    // What becomes of the probabilities a and b of the two members at one level
    function Outcome(pair: Pair, lev: nat, rows: nat, cols: nat, a: Datum, b: Datum): (r: (Datum, Datum))
      requires Configured() && Sized(rows, cols) && PairUsable(pair, rows, cols) && Active(pair, rows, cols)
               && lev < cols
      requires Checkable(a) && Checkable(b) ==> ErrorsPositive(pair, lev, rows, cols) && a.v >= 0.0 && b.v >= 0.0
      ensures SameStatus(a, r.0) && SameStatus(b, r.1)
    {
      if !Checkable(a) || !Checkable(b) then (a, b) else
        var z := Multiplier(pair, lev, rows, cols, a.v, b.v);
        (Value(Updated(a.v, z)), Value(Updated(b.v, z)))
    }

    // The rows of the two members after the first n levels
    function OutcomeRows(pair: Pair, n: nat, rows: nat, cols: nat, g: Grid): (r: (seq<Datum>, seq<Datum>))
      requires Configured() && Sized(rows, cols) && Admissible(g, rows, cols) && Ready(pair, rows, cols, g)
      requires Active(pair, rows, cols) && n <= cols
      ensures |r.0| == |r.1| == cols
      ensures forall l: nat :: l < n ==>
                (r.0[l], r.1[l]) == Outcome(pair, l, rows, cols, g[pair.obsIdA][l], g[pair.obsIdB][l])
      ensures forall l: nat :: n <= l < cols ==> r.0[l] == g[pair.obsIdA][l] && r.1[l] == g[pair.obsIdB][l]
    {
      var a, b := g[pair.obsIdA], g[pair.obsIdB];
      (seq(cols, l requires 0 <= l < cols => if l < n then Outcome(pair, l, rows, cols, a[l], b[l]).0 else a[l]),
       seq(cols, l requires 0 <= l < cols => if l < n then Outcome(pair, l, rows, cols, a[l], b[l]).1 else b[l]))
    }

    // The grid after the first n levels of a pair
    function LevelSteps(pair: Pair, n: nat, rows: nat, cols: nat, g: Grid): (g': Grid)
      requires Configured() && Sized(rows, cols) && Admissible(g, rows, cols) && Ready(pair, rows, cols, g)
      requires Active(pair, rows, cols) && n <= cols
      ensures Admissible(g', rows, cols) && Kept(g, g')
    {
      var r := OutcomeRows(pair, n, rows, cols, g);
      g[pair.obsIdA := r.0][pair.obsIdB := r.1]
    }

    function PairStep(pair: Pair, rows: nat, cols: nat, g: Grid): (g': Grid)
      requires Configured() && Sized(rows, cols) && Admissible(g, rows, cols) && Ready(pair, rows, cols, g)
      ensures Admissible(g', rows, cols) && Kept(g, g')
    {
      if Active(pair, rows, cols) then LevelSteps(pair, cols, rows, cols, g) else g
    }

    // The first n pairs
    function Sweep(pairs: seq<Pair>, n: nat, rows: nat, cols: nat, g: Grid): (g': Grid)
      requires Sweepable(pairs, rows, cols, g) && n <= |pairs|
      ensures Admissible(g', rows, cols) && Kept(g, g')
    {
      if n == 0 then g else PairStep(pairs[n - 1], rows, cols, Sweep(pairs, n - 1, rows, cols, g))
    }
  }

  predicate Rectangular<T>(x: seq<seq<T>>, rows: nat, cols: nat) {
    |x| == rows && forall i :: 0 <= i < rows ==> |x[i]| == cols
  }

  // A probability that the check may change
  predicate Checkable(d: Datum) { d.Value? && d.v < MAX_GROSS_ERROR_PROBABILITY }

  ghost predicate Admissible(g: Grid, rows: nat, cols: nat) {
    Rectangular(g, rows, cols) && forall i, l :: 0 <= i < rows && 0 <= l < cols && g[i][l].Value? ==> g[i][l].v >= 0.0
  }

  // A probability in [0, 1) stays there; anything else stays as it is.
  predicate SameStatus(d: Datum, d': Datum) {
    if Checkable(d) then Checkable(d') && (d.v >= 0.0 ==> d'.v >= 0.0) else d' == d
  }

  ghost predicate Kept(g: Grid, g': Grid) {
    && |g'| == |g|
    && (forall i :: 0 <= i < |g| ==> |g'[i]| == |g[i]|)
    && forall i, l :: 0 <= i < |g| && 0 <= l < |g[i]| ==> SameStatus(g[i][l], g'[i][l])
  }

  // ---------------------------------------------------------------------------
  // The sweep in place

  ghost function Rows(a: array2<Datum>): (g: Grid)
    reads a
    ensures Rectangular(g, a.Length0, a.Length1)
    ensures forall i, l :: 0 <= i < a.Length0 && 0 <= l < a.Length1 ==> g[i][l] == a[i, l]
  {
    seq(a.Length0, i requires 0 <= i < a.Length0 reads a =>
        seq(a.Length1, l requires 0 <= l < a.Length1 reads a => a[i, l]))
  }

  lemma SameGrid(g: Grid, g': Grid, rows: nat, cols: nat)
    requires Rectangular(g, rows, cols) && Rectangular(g', rows, cols)
    requires forall i, l :: 0 <= i < rows && 0 <= l < cols ==> g[i][l] == g'[i][l]
    ensures g == g'
  {
    forall i | 0 <= i < rows ensures g[i] == g'[i] {
    }
  }

  method CheckData(c: Check, pairs: seq<Pair>, pges: array2<Datum>)
    requires c.Sweepable(pairs, pges.Length0, pges.Length1, Rows(pges))
    modifies pges
    ensures Rows(pges) == c.Sweep(pairs, |pairs|, pges.Length0, pges.Length1, old(Rows(pges)))
  {
    ghost var g0 := Rows(pges);
    for k := 0 to |pairs|
      invariant Rows(pges) == c.Sweep(pairs, k, pges.Length0, pges.Length1, g0)
    {
      ghost var g := c.Sweep(pairs, k, pges.Length0, pges.Length1, g0);
      SweepNext(c, pairs, k, pges.Length0, pges.Length1, g0, g);
      CheckPair(c, pairs[k], pges);
    }
  }

  lemma SweepNext(c: Check, pairs: seq<Pair>, n: nat, rows: nat, cols: nat, g: Grid, g1: Grid)
    requires c.Sweepable(pairs, rows, cols, g) && n < |pairs| && g1 == c.Sweep(pairs, n, rows, cols, g)
    ensures c.Configured() && c.Sized(rows, cols) && Admissible(g1, rows, cols) && c.Ready(pairs[n], rows, cols, g1)
    ensures c.Sweep(pairs, n + 1, rows, cols, g) == c.PairStep(pairs[n], rows, cols, g1)
  {
  }

  method CheckPair(c: Check, pair: Pair, pges: array2<Datum>)
    requires c.Configured() && c.Sized(pges.Length0, pges.Length1) && Admissible(Rows(pges), pges.Length0, pges.Length1)
    requires c.Ready(pair, pges.Length0, pges.Length1, Rows(pges))
    modifies pges
    ensures Rows(pges) == c.PairStep(pair, pges.Length0, pges.Length1, old(Rows(pges)))
  {
    if c.meta.flags[pair.obsIdA] != PASS || c.meta.flags[pair.obsIdB] != PASS { return; }
    if c.PairCorrelation(pair, pges.Length0, pges.Length1) < MIN_CORRELATION { return; }
    CheckLevels(c, pair, pges);
  }

  method CheckLevels(c: Check, pair: Pair, pges: array2<Datum>)
    requires c.Configured() && c.Sized(pges.Length0, pges.Length1) && Admissible(Rows(pges), pges.Length0, pges.Length1)
    requires c.Ready(pair, pges.Length0, pges.Length1, Rows(pges)) && c.Active(pair, pges.Length0, pges.Length1)
    modifies pges
    ensures Rows(pges) == c.LevelSteps(pair, pges.Length1, pges.Length0, pges.Length1, old(Rows(pges)))
  {
    ghost var g0 := Rows(pges);
    LevelsStart(c, pair, pges.Length0, pges.Length1, g0);
    for jlev := 0 to pges.Length1
      invariant Rows(pges) == c.LevelSteps(pair, jlev, pges.Length0, pges.Length1, g0)
    {
      LevelNext(c, pair, jlev, pges.Length0, pges.Length1, g0);
      assert pges[pair.obsIdA, jlev] == g0[pair.obsIdA][jlev] && pges[pair.obsIdB, jlev] == g0[pair.obsIdB][jlev];
      CheckLevel(c, pair, jlev, pges);
      LevelDone(c, pair, jlev, pges.Length0, pges.Length1, g0, Rows(pges));
    }
  }

  // The entries of the pair at the next level are still the initial ones.
  lemma LevelNext(c: Check, pair: Pair, n: nat, rows: nat, cols: nat, g: Grid)
    requires c.Configured() && c.Sized(rows, cols) && Admissible(g, rows, cols) && c.Ready(pair, rows, cols, g)
    requires c.Active(pair, rows, cols) && n < cols
    ensures var a, b := g[pair.obsIdA][n], g[pair.obsIdB][n];
            var h := c.LevelSteps(pair, n, rows, cols, g);
            && h[pair.obsIdA][n] == a && h[pair.obsIdB][n] == b
            && (Checkable(a) && Checkable(b) ==> c.ErrorsPositive(pair, n, rows, cols) && a.v >= 0.0 && b.v >= 0.0)
  {
  }

  lemma LevelsStart(c: Check, pair: Pair, rows: nat, cols: nat, g: Grid)
    requires c.Configured() && c.Sized(rows, cols) && Admissible(g, rows, cols) && c.Ready(pair, rows, cols, g)
    requires c.Active(pair, rows, cols)
    ensures c.LevelSteps(pair, 0, rows, cols, g) == g
  {
    SameGrid(g, c.LevelSteps(pair, 0, rows, cols, g), rows, cols);
  }

  // One more level is done when the entries of the pair at that level, and no others, have been updated.
  lemma LevelDone(c: Check, pair: Pair, n: nat, rows: nat, cols: nat, g: Grid, h: Grid)
    requires c.Configured() && c.Sized(rows, cols) && Admissible(g, rows, cols) && c.Ready(pair, rows, cols, g)
    requires c.Active(pair, rows, cols) && n < cols && Rectangular(h, rows, cols)
    requires (h[pair.obsIdA][n], h[pair.obsIdB][n])
             == c.Outcome(pair, n, rows, cols, g[pair.obsIdA][n], g[pair.obsIdB][n])
    requires forall i, l :: 0 <= i < rows && 0 <= l < cols && !(l == n && (i == pair.obsIdA || i == pair.obsIdB)) ==>
               h[i][l] == c.LevelSteps(pair, n, rows, cols, g)[i][l]
    ensures h == c.LevelSteps(pair, n + 1, rows, cols, g)
  {
    SameGrid(h, c.LevelSteps(pair, n + 1, rows, cols, g), rows, cols);
  }

  method CheckLevel(c: Check, pair: Pair, jlev: nat, pges: array2<Datum>)
    requires c.Configured() && c.Sized(pges.Length0, pges.Length1) && c.PairUsable(pair, pges.Length0, pges.Length1)
    requires c.Active(pair, pges.Length0, pges.Length1) && jlev < pges.Length1
    requires Checkable(pges[pair.obsIdA, jlev]) && Checkable(pges[pair.obsIdB, jlev]) ==>
               && c.ErrorsPositive(pair, jlev, pges.Length0, pges.Length1)
               && pges[pair.obsIdA, jlev].v >= 0.0 && pges[pair.obsIdB, jlev].v >= 0.0
    modifies pges
    ensures (pges[pair.obsIdA, jlev], pges[pair.obsIdB, jlev])
         == c.Outcome(pair, jlev, pges.Length0, pges.Length1, old(pges[pair.obsIdA, jlev]),
                      old(pges[pair.obsIdB, jlev]))
    ensures forall i, l ::
              0 <= i < pges.Length0 && 0 <= l < pges.Length1
                && !(l == jlev && (i == pair.obsIdA || i == pair.obsIdB)) ==>
              pges[i, l] == old(pges[i, l])
  {
    var jA, jB := pair.obsIdA, pair.obsIdB;
    var a, b := pges[jA, jlev], pges[jB, jlev];
    if !Checkable(a) || !Checkable(b) { return; }
    var z := DampedAgreement(c, pair, jlev, pges.Length0, pges.Length1, a.v, b.v);
    pges[jA, jlev] := Value(Updated(pges[jA, jlev].v, z));
    pges[jB, jlev] := Value(Updated(pges[jB, jlev].v, z));
  }

  // The guard against a non-positive z is never taken.
  method DampedAgreement(c: Check, pair: Pair, lev: nat, rows: nat, cols: nat, pA: real, pB: real) returns (z: real)
    requires c.Comparable(pair, lev, rows, cols) && 0.0 <= pA < 1.0 && 0.0 <= pB < 1.0
    ensures z == c.Multiplier(pair, lev, rows, cols, pA, pB)
  {
    var e := c.m.exp(c.ExpArg(pair, lev, rows, cols));
    AgreementBound(pA, pB, e);
    z := Agreement(pA, pB, e);
    if z <= 0.0 { z := 1.0; }
    z := c.m.pow(z, c.options.dampingFactor2);
  }

  // ---------------------------------------------------------------------------
  // What a sweep does and does not change

  /** A probability that starts in [0, 1) stays in [0, 1), after every number of pairs. */
  lemma SweepKeepsProbabilities(c: Check, pairs: seq<Pair>, n: nat, rows: nat, cols: nat, g: Grid, i: nat, l: nat)
    requires c.Sweepable(pairs, rows, cols, g) && n <= |pairs| && i < rows && l < cols
    requires g[i][l].Value? && 0.0 <= g[i][l].v < 1.0
    ensures c.Sweep(pairs, n, rows, cols, g)[i][l].Value? && 0.0 <= c.Sweep(pairs, n, rows, cols, g)[i][l].v < 1.0
  {
    assert Checkable(g[i][l]);
    var g' := c.Sweep(pairs, n, rows, cols, g);
    assert Checkable(g'[i][l]);
  }

  /** Entries that are missing or at least 1 stay as they are. */
  lemma SweepKeepsOthers(c: Check, pairs: seq<Pair>, n: nat, rows: nat, cols: nat, g: Grid, i: nat, l: nat)
    requires c.Sweepable(pairs, rows, cols, g) && n <= |pairs| && i < rows && l < cols
    requires g[i][l].Missing? || g[i][l].v >= MAX_GROSS_ERROR_PROBABILITY
    ensures c.Sweep(pairs, n, rows, cols, g)[i][l] == g[i][l]
  {
    assert !Checkable(g[i][l]);
  }

  // Observation i is in none of the first n pairs that are close enough to be checked.
  ghost predicate Untouched(c: Check, pairs: seq<Pair>, n: nat, rows: nat, cols: nat, i: nat)
    requires c.Configured() && c.Sized(rows, cols) && n <= |pairs|
    requires forall k :: 0 <= k < |pairs| ==> c.PairUsable(pairs[k], rows, cols)
  {
    n == 0 || (!c.Touches(pairs[n - 1], i, rows, cols) && Untouched(c, pairs, n - 1, rows, cols, i))
  }

  /** So do all entries of an observation that is in no checked pair. */
  lemma {:induction false} SweepFrame(c: Check, pairs: seq<Pair>, n: nat, rows: nat, cols: nat, g: Grid, i: nat, l: nat)
    requires c.Sweepable(pairs, rows, cols, g) && n <= |pairs| && i < rows && l < cols
    requires Untouched(c, pairs, n, rows, cols, i)
    ensures c.Sweep(pairs, n, rows, cols, g)[i][l] == g[i][l]
  {
    if n > 0 {
      SweepFrame(c, pairs, n - 1, rows, cols, g, i, l);
      var g1 := c.Sweep(pairs, n - 1, rows, cols, g);
      SweepNext(c, pairs, n - 1, rows, cols, g, g1);
      PairFrame(c, pairs[n - 1], rows, cols, g1, i, l);
    }
  }

  lemma PairFrame(c: Check, pair: Pair, rows: nat, cols: nat, g: Grid, i: nat, l: nat)
    requires c.Configured() && c.Sized(rows, cols) && Admissible(g, rows, cols) && c.Ready(pair, rows, cols, g)
    requires i < rows && l < cols && !c.Touches(pair, i, rows, cols)
    ensures c.PairStep(pair, rows, cols, g)[i][l] == g[i][l]
  {
  }

  /** At every level where neither probability is missing or certain, a checked pair multiplies both by one and
      the same factor; the factor is at most 1 when the observations agree and at least 1 when they do not. */
  lemma PairScalesBoth(c: Check, pair: Pair, rows: nat, cols: nat, g: Grid, l: nat) returns (z: real)
    requires c.Configured() && c.Sized(rows, cols) && Admissible(g, rows, cols) && c.Ready(pair, rows, cols, g)
    requires c.Active(pair, rows, cols) && l < cols
    requires Checkable(g[pair.obsIdA][l]) && Checkable(g[pair.obsIdB][l])
    ensures c.ErrorsPositive(pair, l, rows, cols)
    ensures c.PairStep(pair, rows, cols, g)[pair.obsIdA][l] == Value(Updated(g[pair.obsIdA][l].v, z))
    ensures c.PairStep(pair, rows, cols, g)[pair.obsIdB][l] == Value(Updated(g[pair.obsIdB][l].v, z))
    ensures z == c.Multiplier(pair, l, rows, cols, g[pair.obsIdA][l].v, g[pair.obsIdB][l].v) > 0.0
    ensures c.ExpArg(pair, l, rows, cols) >= 0.0 ==> z <= 1.0
    ensures c.ExpArg(pair, l, rows, cols) <= 0.0 ==> z >= 1.0
  {
    assert c.ErrorsPositive(pair, l, rows, cols);
    var pA, pB := g[pair.obsIdA][l].v, g[pair.obsIdB][l].v;
    z := c.Multiplier(pair, l, rows, cols, pA, pB);
    assert c.Outcome(pair, l, rows, cols, g[pair.obsIdA][l], g[pair.obsIdB][l])
           == (Value(Updated(pA, z)), Value(Updated(pB, z)));
    MultiplierSide(c, pair, l, rows, cols, pA, pB);
  }

  lemma MultiplierSide(c: Check, pair: Pair, l: nat, rows: nat, cols: nat, pA: real, pB: real)
    requires c.Comparable(pair, l, rows, cols) && 0.0 <= pA < 1.0 && 0.0 <= pB < 1.0
    ensures c.ExpArg(pair, l, rows, cols) >= 0.0 ==> c.Multiplier(pair, l, rows, cols, pA, pB) <= 1.0
    ensures c.ExpArg(pair, l, rows, cols) <= 0.0 ==> c.Multiplier(pair, l, rows, cols, pA, pB) >= 1.0
  {
    var x := c.ExpArg(pair, l, rows, cols);
    ExpAtZero(c.m);
    assert x >= 0.0 ==> c.m.exp(x) >= c.m.exp(0.0);
    assert x <= 0.0 ==> c.m.exp(x) <= c.m.exp(0.0);
    AgreementBound(pA, pB, c.m.exp(x));
  }

  /** Pairs without a common observation can be checked in either order. */
  lemma DisjointPairsCommute(c: Check, p: Pair, q: Pair, rows: nat, cols: nat, g: Grid)
    requires c.Configured() && c.Sized(rows, cols) && Admissible(g, rows, cols)
    requires c.Ready(p, rows, cols, g) && c.Ready(q, rows, cols, g)
    requires {p.obsIdA, p.obsIdB} !! {q.obsIdA, q.obsIdB}
    ensures c.Ready(p, rows, cols, c.PairStep(q, rows, cols, g)) && c.Ready(q, rows, cols, c.PairStep(p, rows, cols, g))
    ensures c.PairStep(p, rows, cols, c.PairStep(q, rows, cols, g))
            == c.PairStep(q, rows, cols, c.PairStep(p, rows, cols, g))
  {
    var gp, gq := c.PairStep(p, rows, cols, g), c.PairStep(q, rows, cols, g);
    var pq, qp := c.PairStep(p, rows, cols, gq), c.PairStep(q, rows, cols, gp);
    forall i: nat, l: nat | i < rows && l < cols ensures pq[i][l] == qp[i][l] {
      if i == p.obsIdA || i == p.obsIdB {
        SameUpdate(c, p, q, rows, cols, g, i, l);
      } else if i == q.obsIdA || i == q.obsIdB {
        SameUpdate(c, q, p, rows, cols, g, i, l);
      } else {
        PairFrame(c, q, rows, cols, g, i, l);
        PairFrame(c, p, rows, cols, g, i, l);
        PairFrame(c, p, rows, cols, gq, i, l);
        PairFrame(c, q, rows, cols, gp, i, l);
      }
    }
    SameGrid(pq, qp, rows, cols);
  }

  // For an observation of p, checking q before or after p makes no difference.
  lemma SameUpdate(c: Check, p: Pair, q: Pair, rows: nat, cols: nat, g: Grid, i: nat, l: nat)
    requires c.Configured() && c.Sized(rows, cols) && Admissible(g, rows, cols)
    requires c.Ready(p, rows, cols, g) && c.Ready(q, rows, cols, g)
    requires {p.obsIdA, p.obsIdB} !! {q.obsIdA, q.obsIdB}
    requires (i == p.obsIdA || i == p.obsIdB) && l < cols
    ensures c.PairStep(p, rows, cols, c.PairStep(q, rows, cols, g))[i][l]
         == c.PairStep(q, rows, cols, c.PairStep(p, rows, cols, g))[i][l]
  {
    var gp, gq := c.PairStep(p, rows, cols, g), c.PairStep(q, rows, cols, g);
    PairFrame(c, q, rows, cols, g, p.obsIdA, l);
    PairFrame(c, q, rows, cols, g, p.obsIdB, l);
    PairFrame(c, q, rows, cols, gp, i, l);
    if c.Active(p, rows, cols) {
      assert c.Outcome(p, l, rows, cols, gq[p.obsIdA][l], gq[p.obsIdB][l])
          == c.Outcome(p, l, rows, cols, g[p.obsIdA][l], g[p.obsIdB][l]);
    }
  }
}
