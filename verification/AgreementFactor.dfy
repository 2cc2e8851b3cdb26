/**
 What one pair does to the probabilities of its members, from the data: it depends on how much likelier their
 departures are if the correlation of the background errors is taken into account.
 */
module AgreementFactor {
  import opened Missing
  import opened BuddyMath
  import opened BuddySweep
  import opened LikelihoodRatio
  import opened Reals

  // ---------------------------------------------------------------------------
  // Which pairs are checked

  // s is the distance over the mean correlation scale, t the time between the two over the temporal scale, and h the
  // logarithm of the ratio of their pressures, if data on single levels are checked.
  ghost predicate Separated(c: Check, pair: Pair, rows: nat, cols: nat, s: real, t: real, h: real)
    requires c.Sized(rows, cols) && c.PairUsable(pair, rows, cols) && c.Candidate(pair)
  {
    && s * (c.meta.scales[pair.obsIdA] + c.meta.scales[pair.obsIdB]) == 2.0 * pair.distanceInKm
    && t * c.options.temporalCorrelationScale == c.meta.times[pair.obsIdA] - c.meta.times[pair.obsIdB]
    && h == if c.options.numLevels == Some(1)
            then c.m.log(c.meta.pressures.value[pair.obsIdA] / c.meta.pressures.value[pair.obsIdB]) else 0.0
  }

  function Decay(c: Check, s: real, t: real, h: real): (r: real) {
    c.m.exp(-s - (c.options.verticalCorrelationScale * (h * h) + t * t))
  }

  // s is the scaled distance of a pair, and k the exponential part of its correlation.
  ghost predicate Correlates(c: Check, pair: Pair, rows: nat, cols: nat, s: real, k: real)
    requires c.Configured() && c.Sized(rows, cols) && c.PairUsable(pair, rows, cols) && c.Candidate(pair)
  {
    && s == c.ScaledDistance(pair, rows, cols) && k == c.ExpCorrelation(pair, rows, cols)
    && c.PairCorrelation(pair, rows, cols) == (1.0 + s) * k
  }

  lemma SeparationOf(c: Check, pair: Pair, rows: nat, cols: nat) returns (s: real, t: real, h: real)
    requires c.Configured() && c.Sized(rows, cols) && c.PairUsable(pair, rows, cols) && c.Candidate(pair)
    ensures Separated(c, pair, rows, cols, s, t, h) && Correlates(c, pair, rows, cols, s, Decay(c, s, t, h))
  {
    s := ScaledDistanceOf(c, pair, rows, cols);
    t := ElapsedOf(c, pair, rows, cols);
    h := if c.options.numLevels == Some(1)
         then c.m.log(c.meta.pressures.value[pair.obsIdA] / c.meta.pressures.value[pair.obsIdB]) else 0.0;
    SquaresAdd(c, pair, rows, cols, t, h);
    CorrelationsOf(c, pair, rows, cols, s, t, h, Decay(c, s, t, h));
  }

  lemma ScaledDistanceOf(c: Check, pair: Pair, rows: nat, cols: nat) returns (s: real)
    requires c.Sized(rows, cols) && c.PairUsable(pair, rows, cols) && c.Candidate(pair)
    ensures s == c.ScaledDistance(pair, rows, cols)
    ensures s * (c.meta.scales[pair.obsIdA] + c.meta.scales[pair.obsIdB]) == 2.0 * pair.distanceInKm
  {
    s := c.ScaledDistance(pair, rows, cols);
    HalfSum(pair.distanceInKm, c.meta.scales[pair.obsIdA] + c.meta.scales[pair.obsIdB], s);
  }

  lemma ElapsedOf(c: Check, pair: Pair, rows: nat, cols: nat) returns (t: real)
    requires c.Sized(rows, cols) && c.PairUsable(pair, rows, cols) && c.Candidate(pair)
    requires c.options.temporalCorrelationScale > 0.0
    ensures t == (c.meta.times[pair.obsIdA] - c.meta.times[pair.obsIdB]) * (1.0 / c.options.temporalCorrelationScale)
    ensures t * c.options.temporalCorrelationScale == c.meta.times[pair.obsIdA] - c.meta.times[pair.obsIdB]
  {
    t := (c.meta.times[pair.obsIdA] - c.meta.times[pair.obsIdB]) * (1.0 / c.options.temporalCorrelationScale);
    Rescaled(c.meta.times[pair.obsIdA] - c.meta.times[pair.obsIdB], c.options.temporalCorrelationScale, t);
  }

  lemma CorrelationsOf(c: Check, pair: Pair, rows: nat, cols: nat, s: real, t: real, h: real, k: real)
    requires c.Configured() && c.Sized(rows, cols) && c.PairUsable(pair, rows, cols) && c.Candidate(pair)
    requires s == c.ScaledDistance(pair, rows, cols) && k == Decay(c, s, t, h)
    requires c.Separation(pair, rows, cols) == c.options.verticalCorrelationScale * (h * h) + t * t
    ensures Correlates(c, pair, rows, cols, s, k)
  {
    var q := c.Separation(pair, rows, cols);
    assert k == c.m.exp(-s - q);
  }

  lemma HalfSum(x: real, y: real, s: real)
    requires y > 0.0 && s == x / (0.5 * y)
    ensures s * y == 2.0 * x
  {
    assert s * (0.5 * y) == x;
  }

  lemma Rescaled(x: real, y: real, t: real)
    requires y > 0.0 && t == x * (1.0 / y)
    ensures t * y == x
  {
    assert (1.0 / y) * y == 1.0;
    assert t * y == x * ((1.0 / y) * y);
  }

  lemma SquaresAdd(c: Check, pair: Pair, rows: nat, cols: nat, t: real, h: real)
    requires c.Configured() && c.Sized(rows, cols) && c.PairUsable(pair, rows, cols) && c.Candidate(pair)
    requires t == (c.meta.times[pair.obsIdA] - c.meta.times[pair.obsIdB]) * (1.0 / c.options.temporalCorrelationScale)
    requires h == if c.options.numLevels == Some(1)
             then c.m.log(c.meta.pressures.value[pair.obsIdA] / c.meta.pressures.value[pair.obsIdB]) else 0.0
    ensures c.Separation(pair, rows, cols) == c.options.verticalCorrelationScale * (h * h) + t * t
  {
  }

  lemma SameSeparation(c: Check, pair: Pair, rows: nat, cols: nat, s: real, t: real, h: real, s': real, t': real,
                       h': real)
    requires c.Configured() && c.Sized(rows, cols) && c.PairUsable(pair, rows, cols) && c.Candidate(pair)
    requires Separated(c, pair, rows, cols, s, t, h) && Separated(c, pair, rows, cols, s', t', h')
    ensures s == s' && t == t' && h == h'
  {
    SameFactor(s, s', c.meta.scales[pair.obsIdA] + c.meta.scales[pair.obsIdB]);
    SameFactor(t, t', c.options.temporalCorrelationScale);
  }

  lemma SameFactor(x: real, y: real, z: real)
    requires z > 0.0 && x * z == y * z
    ensures x == y
  {
    ZeroFactor(x - y, z);
  }

  // Both have passed quality control, and their background errors have a correlation of at least a tenth.
  ghost predicate Close(c: Check, pair: Pair, rows: nat, cols: nat)
    requires c.Sized(rows, cols) && c.PairUsable(pair, rows, cols)
  {
    && c.meta.flags[pair.obsIdA] == 0 && c.meta.flags[pair.obsIdB] == 0
    && exists s, t, h :: CloseAt(c, pair, rows, cols, s, t, h)
  }

  ghost predicate CloseAt(c: Check, pair: Pair, rows: nat, cols: nat, s: real, t: real, h: real)
    requires c.Sized(rows, cols) && c.PairUsable(pair, rows, cols) && c.Candidate(pair)
  {
    Separated(c, pair, rows, cols, s, t, h) && (1.0 + s) * Decay(c, s, t, h) >= 0.1
  }

  lemma ActiveIff(c: Check, pair: Pair, rows: nat, cols: nat)
    requires c.Configured() && c.Sized(rows, cols) && c.PairUsable(pair, rows, cols)
    ensures c.Active(pair, rows, cols) <==> Close(c, pair, rows, cols)
  {
    if c.Candidate(pair) {
      var s, t, h := SeparationOf(c, pair, rows, cols);
      CloseAtIff(c, pair, rows, cols, s, t, h, c.PairCorrelation(pair, rows, cols));
      if Close(c, pair, rows, cols) { CloseAnywhere(c, pair, rows, cols, s, t, h); }
    }
  }

  lemma CloseAtIff(c: Check, pair: Pair, rows: nat, cols: nat, s: real, t: real, h: real, r: real)
    requires c.Sized(rows, cols) && c.PairUsable(pair, rows, cols) && c.Candidate(pair)
    requires Separated(c, pair, rows, cols, s, t, h) && r == (1.0 + s) * Decay(c, s, t, h)
    ensures CloseAt(c, pair, rows, cols, s, t, h) <==> r >= MIN_CORRELATION
  {
  }

  lemma CloseAnywhere(c: Check, pair: Pair, rows: nat, cols: nat, s: real, t: real, h: real)
    requires c.Configured() && c.Sized(rows, cols) && c.PairUsable(pair, rows, cols) && Close(c, pair, rows, cols)
    requires Separated(c, pair, rows, cols, s, t, h)
    ensures CloseAt(c, pair, rows, cols, s, t, h)
  {
    var s', t', h' :| CloseAt(c, pair, rows, cols, s', t', h');
    SameSeparation(c, pair, rows, cols, s, t, h, s', t', h');
  }

  // A probability, not missing, that is less than 1
  predicate Uncertain(d: Datum) { d.Value? && d.v < 1.0 }

  /** A pair changes entries of its own members only, at levels where neither is missing or certain, and only if both
      have passed quality control and are close. */
  lemma PairChangesOnly(c: Check, pair: Pair, rows: nat, cols: nat, g: Grid, i: nat, l: nat)
    requires c.Configured() && c.Sized(rows, cols) && Admissible(g, rows, cols) && c.Ready(pair, rows, cols, g)
    requires i < rows && l < cols && c.PairStep(pair, rows, cols, g)[i][l] != g[i][l]
    ensures i == pair.obsIdA || i == pair.obsIdB
    ensures Close(c, pair, rows, cols) && Uncertain(g[pair.obsIdA][l]) && Uncertain(g[pair.obsIdB][l])
  {
    ActiveIff(c, pair, rows, cols);
  }

  // ---------------------------------------------------------------------------
  // The moments and departures of a checked pair

  ghost predicate ErrorsGive(c: Check, pair: Pair, lev: nat, rows: nat, cols: nat, e: ErrorMoments, s: real, k: real)
    requires c.Comparable(pair, lev, rows, cols)
  {
    var oA, oB := c.variable.obsErrors[pair.obsIdA][lev], c.variable.obsErrors[pair.obsIdB][lev];
    var bA, bB := c.variable.bgErrors[pair.obsIdA][lev], c.variable.bgErrors[pair.obsIdB][lev];
    && e.varA == oA * oA + bA * bA && e.varB == oB * oB + bB * bB
    && e.covar == (if c.variable.Scalar? then (1.0 + s) * k else k) * bA * bB
    && e.tCovar == (1.0 - c.options.nonDivergenceConstraint * s) * e.covar
  }

  // Turned back by the rotation, the longitudinal component l and the transverse one t are u and v.
  predicate TurnsTo(m: RealFunctions, rotation: real, l: real, t: real, u: real, v: real) {
    m.cos(rotation) * l - m.sin(rotation) * t == u && m.sin(rotation) * l + m.cos(rotation) * t == v
  }

  ghost predicate Pythagorean(m: RealFunctions) {
    forall x :: m.cos(x) * m.cos(x) + m.sin(x) * m.sin(x) == 1.0
  }

  ghost predicate DeparturesGive(c: Check, pair: Pair, lev: nat, rows: nat, cols: nat, d: Departures)
    requires c.Comparable(pair, lev, rows, cols)
  {
    var a, b := pair.obsIdA, pair.obsIdB;
    match c.variable
    case Scalar(obs, bg, _, _) => d.0 == (obs[a][lev] - bg[a][lev], obs[b][lev] - bg[b][lev])
    case Vector(uObs, vObs, uBg, vBg, _, _) =>
      && TurnsTo(c.m, pair.rotationAInRad, d.0.0, d.1.0, uObs[a][lev] - uBg[a][lev], vObs[a][lev] - vBg[a][lev])
      && TurnsTo(c.m, pair.rotationBInRad, d.0.1, d.1.1, uObs[b][lev] - uBg[b][lev], vObs[b][lev] - vBg[b][lev])
  }

  // What is worked out for a pair at a level: scaled distance and time, logarithm of the ratio of the pressures, and
  // error moments
  datatype Reckoning = Reckoning(s: real, t: real, h: real, e: ErrorMoments)

  ghost predicate GivenBy(c: Check, pair: Pair, lev: nat, rows: nat, cols: nat, k: Reckoning, d: Departures)
    requires c.Comparable(pair, lev, rows, cols)
  {
    && Separated(c, pair, rows, cols, k.s, k.t, k.h) && k.e.Usable(c.variable.Vector?)
    && ErrorsGive(c, pair, lev, rows, cols, k.e, k.s, Decay(c, k.s, k.t, k.h))
    && DeparturesGive(c, pair, lev, rows, cols, d)
  }

  lemma Turned(c: Check, rotation: real, u: real, v: real)
    requires Pythagorean(c.m)
    ensures TurnsTo(c.m, rotation, c.Longitudinal(rotation, u, v), c.Transverse(rotation, u, v), u, v)
  {
    Recomposed(c.m.cos(rotation), c.m.sin(rotation), u, v);
  }

  lemma Recomposed(x: real, y: real, u: real, v: real)
    requires x * x + y * y == 1.0
    ensures x * (x * u + y * v) - y * (-y * u + x * v) == u && y * (x * u + y * v) + x * (-y * u + x * v) == v
  {
    assert x * (x * u + y * v) - y * (-y * u + x * v) == (x * x + y * y) * u;
    assert y * (x * u + y * v) + x * (-y * u + x * v) == (x * x + y * y) * v;
  }

  lemma ErrorsOfPair(c: Check, pair: Pair, lev: nat, rows: nat, cols: nat, s: real, k: real)
    requires c.Comparable(pair, lev, rows, cols)
    requires Correlates(c, pair, rows, cols, s, k)
    ensures ErrorsGive(c, pair, lev, rows, cols, c.Moments(pair, lev, rows, cols), s, k)
  {
  }

  lemma DataOfPair(c: Check, pair: Pair, lev: nat, rows: nat, cols: nat) returns (k: Reckoning)
    requires c.Comparable(pair, lev, rows, cols) && Pythagorean(c.m)
    ensures GivenBy(c, pair, lev, rows, cols, k, c.DeparturesOf(pair, lev, rows, cols))
    ensures k.e == c.Moments(pair, lev, rows, cols)
  {
    var s, t, h := SeparationOf(c, pair, rows, cols);
    k := Reckoning(s, t, h, c.Moments(pair, lev, rows, cols));
    ErrorsOfPair(c, pair, lev, rows, cols, s, Decay(c, s, t, h));
    DeparturesTurn(c, pair, lev, rows, cols);
  }

  lemma DeparturesTurn(c: Check, pair: Pair, lev: nat, rows: nat, cols: nat)
    requires c.Comparable(pair, lev, rows, cols) && Pythagorean(c.m)
    ensures DeparturesGive(c, pair, lev, rows, cols, c.DeparturesOf(pair, lev, rows, cols))
  {
    match c.variable
    case Scalar(_, _, _, _) =>
    case Vector(uObs, vObs, uBg, vBg, _, _) =>
      var a, b := pair.obsIdA, pair.obsIdB;
      Turned(c, pair.rotationAInRad, uObs[a][lev] - uBg[a][lev], vObs[a][lev] - vBg[a][lev]);
      Turned(c, pair.rotationBInRad, uObs[b][lev] - uBg[b][lev], vObs[b][lev] - vBg[b][lev]);
  }

  // ---------------------------------------------------------------------------
  // The factor

  // What the exponent has besides the logarithm of the likelihood ratio: nothing for a scalar
  function Gap(m: RealFunctions, wind: bool, e: ErrorMoments, d: Departures): (r: real)
    requires e.Usable(wind)
  {
    if !wind then 0.0
    else 0.5 * (LogUncorrelated(m, e.varA, e.varB, e.tCovar) - LogUncorrelated(m, e.varA, e.varB, e.covar))
         - NeglectedTerm(d.1, e.varA, e.varB, e.tCovar)
  }

  function Evidence(m: RealFunctions, wind: bool, e: ErrorMoments, d: Departures): (r: real)
    requires e.Usable(wind)
  {
    PairLogRatio(m, wind, e, d) + Gap(m, wind, e, d)
  }

  lemma ExponentIsEvidence(m: RealFunctions, wind: bool, e: ErrorMoments, d: Departures)
    requires LawfulLog(m) && e.Usable(wind)
    ensures PairExponent(m, wind, e, d) == Evidence(m, wind, e, d)
  {
    if wind {
      GapParts(m, d.0, d.1, e.varA, e.varB, e.covar, e.tCovar, LogUncorrelated(m, e.varA, e.varB, e.covar),
               LogUncorrelated(m, e.varA, e.varB, e.tCovar), NeglectedTerm(d.1, e.varA, e.varB, e.tCovar),
               PairExponent(m, wind, e, d), PairLogRatio(m, wind, e, d));
    } else {
      ScalarParts(m, e, d, PairExponent(m, wind, e, d), PairLogRatio(m, wind, e, d));
    }
  }

  lemma ScalarParts(m: RealFunctions, e: ErrorMoments, d: Departures, exponent: real, ratio: real)
    requires LawfulLog(m) && e.Usable(false) && exponent == PairExponent(m, false, e, d)
    requires ratio == PairLogRatio(m, false, e, d)
    ensures exponent == ratio
  {
    ExponentIsLikelihoodRatio(m, d.0, e.varA, e.varB, e.covar);
  }

  // y is x, but no more than 80 and no less than -80.
  predicate Limited(x: real, y: real) {
    if x > 80.0 then y == 80.0 else if x < -80.0 then y == -80.0 else y == x
  }

  // x is the evidence r, damped and limited.
  predicate IsArgument(c: Check, r: real, x: real) { Limited(c.options.dampingFactor1 * r, x) }

  lemma ArgumentIsLimited(c: Check, pair: Pair, l: nat, rows: nat, cols: nat)
    requires c.Comparable(pair, l, rows, cols)
    ensures IsArgument(c, c.RawExponent(pair, l, rows, cols), c.ExpArg(pair, l, rows, cols))
  {
    DampedIs(c, c.RawExponent(pair, l, rows, cols), c.Damped(c.RawExponent(pair, l, rows, cols)),
             c.ExpArg(pair, l, rows, cols));
  }

  lemma DampedIs(c: Check, r: real, y: real, x: real)
    requires y == c.Damped(r) && Limited(y, x)
    ensures IsArgument(c, r, x)
  {
  }

  // The entries of a checked pair at a level are a and b, both uncertain; e and d are its moments and departures.
  ghost predicate Checks(c: Check, pair: Pair, rows: nat, cols: nat, g: Grid, l: nat, a: real, b: real)
    requires c.Configured() && c.Sized(rows, cols) && Admissible(g, rows, cols) && c.Ready(pair, rows, cols, g)
  {
    && l < cols && Close(c, pair, rows, cols)
    && g[pair.obsIdA][l] == Value(a) && g[pair.obsIdB][l] == Value(b) && a < 1.0 && b < 1.0
  }

  lemma ChecksCompare(c: Check, pair: Pair, rows: nat, cols: nat, g: Grid, l: nat, a: real, b: real)
    requires c.Configured() && c.Sized(rows, cols) && Admissible(g, rows, cols) && c.Ready(pair, rows, cols, g)
    requires Checks(c, pair, rows, cols, g, l, a, b)
    ensures c.Active(pair, rows, cols) && c.Comparable(pair, l, rows, cols) && 0.0 <= a < 1.0 && 0.0 <= b < 1.0
  {
    ActiveIff(c, pair, rows, cols);
    assert c.ErrorsPositive(pair, l, rows, cols);
  }

  // Both entries of the pair at the level are multiplied by z.
  ghost predicate Multiplies(c: Check, pair: Pair, rows: nat, cols: nat, g: Grid, l: nat, a: real, b: real, z: real)
    requires c.Configured() && c.Sized(rows, cols) && Admissible(g, rows, cols) && c.Ready(pair, rows, cols, g)
    requires l < cols
  {
    && c.PairStep(pair, rows, cols, g)[pair.obsIdA][l] == Value(a * z)
    && c.PairStep(pair, rows, cols, g)[pair.obsIdB][l] == Value(b * z)
  }

  // r is the evidence that the members of a pair are right together.
  ghost predicate Weighs(c: Check, pair: Pair, l: nat, rows: nat, cols: nat, k: Reckoning, d: Departures, r: real)
    requires c.Comparable(pair, l, rows, cols)
  {
    GivenBy(c, pair, l, rows, cols, k, d) && r == Evidence(c.m, c.variable.Vector?, k.e, d)
  }

  lemma RawExponentWeighs(c: Check, pair: Pair, l: nat, rows: nat, cols: nat)
    returns (k: Reckoning, d: Departures, r: real)
    requires c.Comparable(pair, l, rows, cols) && LawfulLog(c.m) && Pythagorean(c.m)
    ensures Weighs(c, pair, l, rows, cols, k, d, r) && r == c.RawExponent(pair, l, rows, cols)
  {
    k := DataOfPair(c, pair, l, rows, cols);
    d := c.DeparturesOf(pair, l, rows, cols);
    r := Evidence(c.m, c.variable.Vector?, k.e, d);
    ExponentIsEvidence(c.m, c.variable.Vector?, k.e, d);
  }

  // q is the reciprocal of 1 - (1 - a) (1 - b) (1 - f).
  predicate Inverts(q: real, a: real, b: real, f: real) {
    q > 0.0 && q * (1.0 - (1.0 - a) * (1.0 - b) * (1.0 - f)) == 1.0
  }

  /** A checked pair multiplies both probabilities by z, the damped power of the reciprocal of
      1 - (1 - a) (1 - b) (1 - exp(x)), where x is the damped and limited evidence. */
  lemma PairFactor(c: Check, pair: Pair, rows: nat, cols: nat, g: Grid, l: nat, a: real, b: real)
    returns (k: Reckoning, d: Departures, r: real, x: real, q: real, z: real)
    requires c.Configured() && c.Sized(rows, cols) && Admissible(g, rows, cols) && c.Ready(pair, rows, cols, g)
    requires Checks(c, pair, rows, cols, g, l, a, b) && LawfulLog(c.m) && Pythagorean(c.m)
    ensures c.Comparable(pair, l, rows, cols) && Weighs(c, pair, l, rows, cols, k, d, r)
    ensures IsArgument(c, r, x) && Inverts(q, a, b, c.m.exp(x))
    ensures z == c.m.pow(q, c.options.dampingFactor2) && Multiplies(c, pair, rows, cols, g, l, a, b, z)
    ensures 0.0 <= a < 1.0 && 0.0 <= b < 1.0
  {
    ChecksCompare(c, pair, rows, cols, g, l, a, b);
    k, d, r := RawExponentWeighs(c, pair, l, rows, cols);
    x := c.ExpArg(pair, l, rows, cols);
    ArgumentIsLimited(c, pair, l, rows, cols);
    q := Agreement(a, b, c.m.exp(x));
    AgreementInverts(a, b, c.m.exp(x), q);
    z := c.m.pow(q, c.options.dampingFactor2);
    StepMultiplies(c, pair, rows, cols, g, l, a, b, x, q, z);
  }

  lemma AgreementInverts(a: real, b: real, f: real, q: real)
    requires 0.0 <= a < 1.0 && 0.0 <= b < 1.0 && f > 0.0 && q == Agreement(a, b, f)
    ensures Inverts(q, a, b, f)
  {
    DenominatorBound(a, b, f);
    AgreementBound(a, b, f);
    var d := Denominator(a, b, f);
    assert q == 1.0 / d && q * d == 1.0;
  }

  lemma StepMultiplies(c: Check, pair: Pair, rows: nat, cols: nat, g: Grid, l: nat, a: real, b: real, x: real, q: real,
                       z: real)
    requires c.Configured() && c.Sized(rows, cols) && Admissible(g, rows, cols) && c.Ready(pair, rows, cols, g)
    requires Checks(c, pair, rows, cols, g, l, a, b)
    requires c.Comparable(pair, l, rows, cols) && 0.0 <= a < 1.0 && 0.0 <= b < 1.0
    requires x == c.ExpArg(pair, l, rows, cols) && q == Agreement(a, b, c.m.exp(x))
    requires z == c.m.pow(q, c.options.dampingFactor2)
    ensures Multiplies(c, pair, rows, cols, g, l, a, b, z)
  {
    FactorIsPower(c, pair, rows, cols, l, a, b, x, q, z);
    var y := PairScalesBoth(c, pair, rows, cols, g, l);
  }

  lemma FactorIsPower(c: Check, pair: Pair, rows: nat, cols: nat, l: nat, a: real, b: real, x: real, q: real, z: real)
    requires c.Comparable(pair, l, rows, cols) && 0.0 <= a < 1.0 && 0.0 <= b < 1.0
    requires x == c.ExpArg(pair, l, rows, cols) && q == Agreement(a, b, c.m.exp(x))
    requires z == c.m.pow(q, c.options.dampingFactor2)
    ensures c.Multiplier(pair, l, rows, cols, a, b) == z
  {
  }

  /** The evidence is the logarithm of the likelihood ratio: for a scalar, and for a wind if no transverse term is left
      out and the non-divergence constraint times the scaled distance is 0 or 2. */
  lemma EvidenceIsRatio(m: RealFunctions, wind: bool, e: ErrorMoments, constraint: real, distance: real, d: Departures)
    requires LawfulLog(m) && e.Usable(wind) && e.tCovar == (1.0 - constraint * distance) * e.covar
    requires wind ==> SameSize(e, constraint, distance)
    ensures Evidence(m, wind, e, d) == PairLogRatio(m, wind, e, d)
  {
    FitsIff(m, wind, e, constraint, distance);
    assert Fits(m, wind, e, d);
    ExponentIsEvidence(m, wind, e, d);
  }

  /** If the evidence is for the pair both probabilities fall or stay; if it is against it they rise or stay. */
  lemma EvidenceDecides(c: Check, pair: Pair, rows: nat, cols: nat, g: Grid, l: nat, a: real, b: real)
    returns (k: Reckoning, d: Departures, r: real, z: real)
    requires c.Configured() && c.Sized(rows, cols) && Admissible(g, rows, cols) && c.Ready(pair, rows, cols, g)
    requires Checks(c, pair, rows, cols, g, l, a, b) && LawfulLog(c.m) && Pythagorean(c.m)
    requires c.options.dampingFactor1 > 0.0
    ensures c.Comparable(pair, l, rows, cols) && Weighs(c, pair, l, rows, cols, k, d, r)
    ensures Multiplies(c, pair, rows, cols, g, l, a, b, z)
    ensures (r >= 0.0 ==> z <= 1.0) && (r <= 0.0 ==> z >= 1.0)
  {
    var x, q;
    k, d, r, x, q, z := PairFactor(c, pair, rows, cols, g, l, a, b);
    SideOfFactor(c, a, b, r, x, q, z);
  }

  lemma SideOfFactor(c: Check, a: real, b: real, r: real, x: real, q: real, z: real)
    requires c.Configured() && c.options.dampingFactor1 > 0.0 && 0.0 <= a < 1.0 && 0.0 <= b < 1.0
    requires IsArgument(c, r, x) && Inverts(q, a, b, c.m.exp(x))
    requires z == c.m.pow(q, c.options.dampingFactor2)
    ensures (r >= 0.0 ==> z <= 1.0) && (r <= 0.0 ==> z >= 1.0)
  {
    SideOfZero(c.options.dampingFactor1, r, x);
    SideOfOne(c.m, a, b, x, q, c.options.dampingFactor2, z);
  }

  lemma SideOfZero(f: real, y: real, x: real)
    requires f > 0.0 && Limited(f * y, x)
    ensures (y >= 0.0 ==> x >= 0.0) && (y <= 0.0 ==> x <= 0.0)
  {
    if y > 0.0 { MulPositive(f, y); }
    if y < 0.0 { MulPositive(f, -y); assert f * -y == -(f * y); }
  }

  lemma SideOfOne(m: RealFunctions, a: real, b: real, x: real, q: real, f: real, z: real)
    requires Lawful(m) && 0.0 <= a < 1.0 && 0.0 <= b < 1.0 && 0.0 <= f <= 1.0
    requires Inverts(q, a, b, m.exp(x)) && z == m.pow(q, f)
    ensures (x >= 0.0 ==> z <= 1.0) && (x <= 0.0 ==> z >= 1.0)
  {
    ExpAtZero(m);
    var e := m.exp(x);
    assert x >= 0.0 ==> e >= m.exp(0.0);
    assert x <= 0.0 ==> e <= m.exp(0.0);
    DenominatorBound(a, b, e);
    InverseSide(q, Denominator(a, b, e));
    assert if q >= 1.0 then 1.0 <= z <= q else q <= z <= 1.0;
  }

  lemma InverseSide(q: real, d: real)
    requires q > 0.0 && q * d == 1.0
    ensures (d <= 1.0 ==> q >= 1.0) && (d >= 1.0 ==> q <= 1.0)
  {
    assert d <= 1.0 ==> q * d <= q by { if d <= 1.0 { MulMonotone(q, d, 1.0); } }
    assert d >= 1.0 ==> q * d >= q by { if d >= 1.0 { MulMonotone(q, 1.0, d); } }
  }
}
