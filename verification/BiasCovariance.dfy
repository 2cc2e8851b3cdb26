/** The diagonal covariance of bias coefficient errors, as a state machine over calls of linearize. */
module BiasCovariance {
  import opened Missing
  import opened Sums
  import opened Layout

  datatype Config = Config(nvars: nat, npreds: nat, smallestVariance: real, largestVariance: real,
                           largestAnalysisVariance: real, stepSize: real, minimalObsNumber: nat)

  // Data of the previous cycle: the file, when given, holds observation counts and analysis variances.
  datatype PriorFile = PriorFile(obsNum: seq<nat>, analysis: seq<real>)
  datatype Prior = Prior(ratio: real, ratioForSmallDataset: real, file: Option<PriorFile>)

  // What one call of linearize reads from the observation space: per variable the QC flags (if stored), the effective
  // errors, and one predictor vector for each predictor. Predictors are numbers as stored: the code squares a missing
  // one as it does any other.
  datatype OuterLoop = OuterLoop(biased: bool, iteration: int, nlocs: nat, qc: seq<Option<seq<int>>>,
                                 errors: seq<Datum>, predictors: seq<seq<real>>)

  datatype State = State(variances: seq<real>, preconditioner: seq<real>, hessian: seq<real>,
                         obsNum: seq<nat>, analysis: seq<real>)

  ghost predicate WellSized(c: Config, s: State) {
    && |s.variances| == |s.preconditioner| == |s.hessian| == |s.analysis| == c.nvars * c.npreds
    && |s.obsNum| == c.nvars
  }

  ghost predicate Readable(c: Config, o: OuterLoop) {
    && |o.qc| == c.nvars
    && (forall v :: 0 <= v < |o.qc| ==> o.qc[v].Some? ==> |o.qc[v].value| == o.nlocs)
    && |o.errors| == o.nlocs * c.nvars
    && (forall k :: 0 <= k < |o.errors| ==> o.errors[k] != Value(0.0))
    && |o.predictors| == c.npreds
    && forall p :: 0 <= p < |o.predictors| ==> |o.predictors[p]| == o.nlocs * c.nvars
  }

  // ---------------------------------------------------------------------------
  // What linearize computes

  function Passed(flags: seq<int>): (n: nat) {
    if flags == [] then 0 else Passed(flags[..|flags| - 1]) + (if flags[|flags| - 1] == 0 then 1 else 0)
  }

  // How many of them are zero
  lemma {:induction false} PassedIsCount(flags: seq<int>)
    ensures Passed(flags) == |set k: nat | k < |flags| && flags[k] == 0|
  {
    var zeros := set k: nat | k < |flags| && flags[k] == 0;
    if flags == [] {
      assert zeros == {};
    } else {
      var n := |flags| - 1;
      PassedIsCount(flags[..n]);
      var before := set k: nat | k < |flags[..n]| && flags[..n][k] == 0;
      assert zeros == before + if flags[n] == 0 then {n} else {};
    }
  }

  function InverseVariance(e: Datum): (r: real)
    requires e != Value(0.0)
  {
    if e.Missing? then 0.0 else 1.0 / (e.v * e.v)
  }

  lemma InverseVarianceNonNegative(e: Datum)
    requires e != Value(0.0)
    ensures InverseVariance(e) >= 0.0
  {
    if e.Value? {
      assert e.v * e.v > 0.0;
    }
  }

  function HessianTerm(c: Config, o: OuterLoop, v: nat, p: nat, l: nat): (r: real)
    requires Readable(c, o) && v < c.nvars && p < c.npreds && l < o.nlocs
  {
    ErrorKnown(c, o, l, v);
    var x := Cell(o.predictors[p], o.nlocs, c.nvars, l, v);
    (x * x) * InverseVariance(Cell(o.errors, o.nlocs, c.nvars, l, v))
  }

  lemma ErrorKnown(c: Config, o: OuterLoop, l: nat, v: nat)
    requires Readable(c, o) && v < c.nvars && l < o.nlocs
    ensures Cell(o.errors, o.nlocs, c.nvars, l, v) != Value(0.0)
  {
    InRange(o.nlocs, c.nvars, l, v);
  }

  // The diagonal of the Hessian of the observation term, from the first n locations
  function Hessian(c: Config, o: OuterLoop, v: nat, p: nat, n: nat): (r: real)
    requires Readable(c, o) && v < c.nvars && p < c.npreds && n <= o.nlocs
  {
    Sum(n, (l: nat) => if l < o.nlocs then HessianTerm(c, o, v, p, l) else 0.0)
  }

  predicate Refuses(o: OuterLoop) {
    o.biased && o.iteration >= 1 && exists v :: 0 <= v < |o.qc| && o.qc[v].None?
  }

  // s' follows s by one call of linearize that did not throw.
  ghost predicate Linearized(c: Config, s: State, o: OuterLoop, s': State)
    requires WellSized(c, s) && Readable(c, o) && !Refuses(o)
  {
    WellSized(c, s') &&
    if !o.biased then s' == s else
      && (if o.iteration >= 1
          then (forall v :: 0 <= v < c.nvars ==> s'.obsNum[v] == Passed(o.qc[v].value))
               && (forall v: nat, p: nat {:trigger Cell(s'.hessian, c.nvars, c.npreds, v, p)} ::
                     v < c.nvars && p < c.npreds ==>
                     Cell(s'.hessian, c.nvars, c.npreds, v, p) == Hessian(c, o, v, p, o.nlocs))
          else s'.obsNum == s.obsNum && s'.hessian == s.hessian)
      && (forall v: nat, p: nat {:trigger Cell(s'.variances, c.nvars, c.npreds, v, p)} ::
            v < c.nvars && p < c.npreds ==>
            Cell(s'.variances, c.nvars, c.npreds, v, p)
            == if s'.obsNum[v] <= c.minimalObsNumber then c.smallestVariance
               else Cell(s.variances, c.nvars, c.npreds, v, p))
      && (forall v: nat, p: nat {:trigger Cell(s'.preconditioner, c.nvars, c.npreds, v, p)} ::
            v < c.nvars && p < c.npreds ==>
            Cell(s'.preconditioner, c.nvars, c.npreds, v, p)
            == if s'.obsNum[v] > 0
               then Combined(Cell(s'.variances, c.nvars, c.npreds, v, p), Cell(s'.hessian, c.nvars, c.npreds, v, p))
               else c.stepSize)
      && (forall v: nat, p: nat {:trigger Cell(s'.analysis, c.nvars, c.npreds, v, p)} :: v < c.nvars && p < c.npreds ==>
            Cell(s'.analysis, c.nvars, c.npreds, v, p)
            == if s'.obsNum[v] <= c.minimalObsNumber then Cell(s.analysis, c.nvars, c.npreds, v, p)
               else if Cell(s'.hessian, c.nvars, c.npreds, v, p) > 0.0
               then Combined(Cell(s'.variances, c.nvars, c.npreds, v, p), Cell(s'.hessian, c.nvars, c.npreds, v, p))
               else c.largestAnalysisVariance)
  }

  // 1 / (1/v + h), with the quotients of reals that do not divide by zero
  function Combined(v: real, h: real): (r: real) {
    if v == 0.0 || 1.0 / v + h == 0.0 then 0.0 else 1.0 / (1.0 / v + h)
  }

  // Adding information never makes a variance larger.
  lemma CombinedBounds(v: real, h: real)
    requires v > 0.0 && h >= 0.0
    ensures 0.0 < Combined(v, h) <= v
    ensures Combined(v, h) == v <==> h == 0.0
  {
    var a := 1.0 / v;
    PositiveReciprocal(v);
    var r := 1.0 / (a + h);
    PositiveReciprocal(a + h);
    assert r * (a + h) == 1.0 == a * v;
    assert r * a + r * h == a * v;
    assert r * h >= 0.0;
    assert a * (v - r) == r * h;
    if r > v { assert a * (v - r) < 0.0; }
    if h > 0.0 { assert r * h > 0.0; }
  }

  lemma PositiveReciprocal(x: real)
    requires x > 0.0
    ensures 1.0 / x > 0.0
  {
  }

  // ---------------------------------------------------------------------------
  // Invariant over every run

  ghost predicate Sound(c: Config) {
    0.0 < c.smallestVariance <= c.largestVariance
  }

  ghost predicate Bounded(c: Config, s: State) {
    && WellSized(c, s)
    && (forall v: nat, p: nat {:trigger Cell(s.variances, c.nvars, c.npreds, v, p)} :: v < c.nvars && p < c.npreds ==>
          c.smallestVariance <= Cell(s.variances, c.nvars, c.npreds, v, p) <= c.largestVariance)
    && forall v: nat, p: nat {:trigger Cell(s.hessian, c.nvars, c.npreds, v, p)} :: v < c.nvars && p < c.npreds ==>
         Cell(s.hessian, c.nvars, c.npreds, v, p) >= 0.0
  }

  lemma HessianNonNegative(c: Config, o: OuterLoop, v: nat, p: nat)
    requires Readable(c, o) && v < c.nvars && p < c.npreds
    ensures Hessian(c, o, v, p, o.nlocs) >= 0.0
  {
    var f := (l: nat) => if l < o.nlocs then HessianTerm(c, o, v, p, l) else 0.0;
    forall l: nat | l < o.nlocs ensures f(l) >= 0.0 {
      ErrorKnown(c, o, l, v);
      var x, e := Cell(o.predictors[p], o.nlocs, c.nvars, l, v), Cell(o.errors, o.nlocs, c.nvars, l, v);
      InverseVarianceNonNegative(e);
      assert x * x >= 0.0;
      assert (x * x) * InverseVariance(e) >= 0.0;
    }
    SumNonNegative(o.nlocs, f);
    assert Hessian(c, o, v, p, o.nlocs) == Sum(o.nlocs, f);
  }

  // ---------------------------------------------------------------------------
  // The Hessian as what it is called: the curvature of the misfit to the observations

  // Half the squared misfit at one location, in units of its error: departure d, less the bias b times the predictor
  function Misfit(d: real, b: real, x: real, e: Datum): (r: real)
    requires e != Value(0.0)
  {
    if e.Missing? then 0.0 else 0.5 * (((d - b * x) / e.v) * ((d - b * x) / e.v))
  }

  // The misfit of variable v to all observations, as a function of the coefficient b of predictor p
  function Cost(c: Config, o: OuterLoop, v: nat, p: nat, departures: nat -> real, b: real): (r: real)
    requires Readable(c, o) && v < c.nvars && p < c.npreds
  {
    Sum(o.nlocs, Misfits(c, o, v, p, departures, b))
  }

  function Misfits(c: Config, o: OuterLoop, v: nat, p: nat, departures: nat -> real, b: real): (f: nat -> real)
    requires Readable(c, o) && v < c.nvars && p < c.npreds
  {
    (l: nat) => if l < o.nlocs then MisfitAt(c, o, v, p, departures, b, l) else 0.0
  }

  function MisfitAt(c: Config, o: OuterLoop, v: nat, p: nat, departures: nat -> real, b: real, l: nat): (r: real)
    requires Readable(c, o) && v < c.nvars && p < c.npreds && l < o.nlocs
  {
    ErrorKnown(c, o, l, v);
    Misfit(departures(l), b, Cell(o.predictors[p], o.nlocs, c.nvars, l, v), Cell(o.errors, o.nlocs, c.nvars, l, v))
  }

  function CostOf(c: Config, o: OuterLoop, v: nat, p: nat, departures: nat -> real): (f: real -> real)
    requires Readable(c, o) && v < c.nvars && p < c.npreds
  {
    (b: real) => Cost(c, o, v, p, departures, b)
  }

  // The second difference of a function, with step t
  function Curvature(f: real -> real, b: real, t: real): (r: real) { f(b + t) - 2.0 * f(b) + f(b - t) }

  lemma CurvatureIs(f: real -> real, b: real, t: real, above: real, here: real, below: real)
    requires f(b + t) == above && f(b) == here && f(b - t) == below
    ensures Curvature(f, b, t) == above - 2.0 * here + below
  {
  }

  lemma MisfitCurvature(d: real, b: real, t: real, x: real, e: Datum)
    requires e != Value(0.0)
    ensures Misfit(d, b + t, x, e) - 2.0 * Misfit(d, b, x, e) + Misfit(d, b - t, x, e)
         == (t * t) * ((x * x) * InverseVariance(e))
  {
    if e.Value? {
      var q, y := (d - b * x) / e.v, t * x / e.v;
      Shifted(d - b * x, t * x, e.v, d - (b + t) * x, d - (b - t) * x);
      SquaresCurvature(q, y);
      SquareOverSquare(t, x, e.v);
    }
  }

  lemma Shifted(a: real, c: real, e: real, below: real, above: real)
    requires e != 0.0 && below == a - c && above == a + c
    ensures below / e == a / e - c / e && above / e == a / e + c / e
  {
    var q, y, r := a / e, c / e, 1.0 / e;
    assert q == a * r && y == c * r;
    assert below / e == below * r && above / e == above * r;
  }

  lemma SquaresCurvature(q: real, y: real)
    ensures 0.5 * ((q - y) * (q - y)) - 2.0 * (0.5 * (q * q)) + 0.5 * ((q + y) * (q + y)) == y * y
  {
  }

  lemma SquareOverSquare(t: real, x: real, e: real)
    requires e != 0.0
    ensures e * e != 0.0 && (t * x / e) * (t * x / e) == (t * t) * ((x * x) * (1.0 / (e * e)))
  {
    var y, r := t * x / e, 1.0 / (e * e);
    assert e * e != 0.0;
    assert y * e == t * x;
    assert (y * y) * (e * e) == (t * t) * (x * x);
    assert (e * e) * r == 1.0;
    assert (y * y) * ((e * e) * r) == (t * t) * ((x * x) * r);
  }

  lemma TermIsCurvature(c: Config, o: OuterLoop, v: nat, p: nat, departures: nat -> real, b: real, t: real, l: nat)
    requires Readable(c, o) && v < c.nvars && p < c.npreds && l < o.nlocs
    ensures MisfitAt(c, o, v, p, departures, b + t, l) - 2.0 * MisfitAt(c, o, v, p, departures, b, l)
              + MisfitAt(c, o, v, p, departures, b - t, l)
         == (t * t) * HessianTerm(c, o, v, p, l)
  {
    ErrorKnown(c, o, l, v);
    MisfitCurvature(departures(l), b, t, Cell(o.predictors[p], o.nlocs, c.nvars, l, v),
                    Cell(o.errors, o.nlocs, c.nvars, l, v));
  }

  // The terms of the Hessian, each multiplied by a factor
  function ScaledTerms(c: Config, o: OuterLoop, v: nat, p: nat, factor: real): (f: nat -> real)
    requires Readable(c, o) && v < c.nvars && p < c.npreds
  {
    (l: nat) => if l < o.nlocs then factor * HessianTerm(c, o, v, p, l) else 0.0
  }

  lemma SumOfScaledTerms(c: Config, o: OuterLoop, v: nat, p: nat, factor: real)
    requires Readable(c, o) && v < c.nvars && p < c.npreds
    ensures Sum(o.nlocs, ScaledTerms(c, o, v, p, factor)) == factor * Hessian(c, o, v, p, o.nlocs)
  {
    var d := (l: nat) => if l < o.nlocs then HessianTerm(c, o, v, p, l) else 0.0;
    assert Hessian(c, o, v, p, o.nlocs) == Sum(o.nlocs, d);
    SumScale(o.nlocs, factor, d, ScaledTerms(c, o, v, p, factor));
  }

  lemma CostsDiffer(c: Config, o: OuterLoop, v: nat, p: nat, departures: nat -> real, below: real, b: real,
                    above: real, d: nat -> real)
    requires Readable(c, o) && v < c.nvars && p < c.npreds
    requires forall l: nat {:trigger d(l)} :: l < o.nlocs ==>
               MisfitAt(c, o, v, p, departures, above, l) - 2.0 * MisfitAt(c, o, v, p, departures, b, l)
                 + MisfitAt(c, o, v, p, departures, below, l)
               == d(l)
    ensures Cost(c, o, v, p, departures, above) - 2.0 * Cost(c, o, v, p, departures, b)
              + Cost(c, o, v, p, departures, below)
         == Sum(o.nlocs, d)
  {
    var f, g, h := Misfits(c, o, v, p, departures, above), Misfits(c, o, v, p, departures, b),
                   Misfits(c, o, v, p, departures, below);
    forall l: nat {:trigger d(l)} | l < o.nlocs ensures f(l) - 2.0 * g(l) + h(l) == d(l) {
      assert f(l) == MisfitAt(c, o, v, p, departures, above, l);
    }
    SumDifference(o.nlocs, f, g, h, d);
  }

  lemma CostCurvature(c: Config, o: OuterLoop, v: nat, p: nat, departures: nat -> real, b: real, t: real, square: real)
    requires Readable(c, o) && v < c.nvars && p < c.npreds && square == t * t
    ensures Cost(c, o, v, p, departures, b + t) - 2.0 * Cost(c, o, v, p, departures, b)
              + Cost(c, o, v, p, departures, b - t)
         == square * Hessian(c, o, v, p, o.nlocs)
  {
    var d := ScaledTerms(c, o, v, p, square);
    forall l: nat {:trigger d(l)} | l < o.nlocs
      ensures MisfitAt(c, o, v, p, departures, b + t, l) - 2.0 * MisfitAt(c, o, v, p, departures, b, l)
                + MisfitAt(c, o, v, p, departures, b - t, l)
              == d(l)
    {
      TermIsCurvature(c, o, v, p, departures, b, t, l);
      assert d(l) == square * HessianTerm(c, o, v, p, l);
    }
    CostsDiffer(c, o, v, p, departures, b - t, b, b + t, d);
    SumOfScaledTerms(c, o, v, p, square);
  }

  /** Its diagonal is that curvature, whatever the departures and wherever it is taken. */
  lemma HessianIsCurvature(c: Config, o: OuterLoop, v: nat, p: nat, departures: nat -> real, b: real, t: real)
    requires Readable(c, o) && v < c.nvars && p < c.npreds
    ensures Curvature(CostOf(c, o, v, p, departures), b, t) == (t * t) * Hessian(c, o, v, p, o.nlocs)
  {
    CostCurvature(c, o, v, p, departures, b, t, t * t);
    CurvatureIs(CostOf(c, o, v, p, departures), b, t, Cost(c, o, v, p, departures, b + t),
                Cost(c, o, v, p, departures, b), Cost(c, o, v, p, departures, b - t));
  }

  lemma LinearizedKeepsBounds(c: Config, s: State, o: OuterLoop, s': State)
    requires Sound(c) && Bounded(c, s) && Readable(c, o) && !Refuses(o)
    requires Linearized(c, s, o, s')
    ensures Bounded(c, s')
  {
    if o.biased && o.iteration >= 1 {
      forall v: nat, p: nat | v < c.nvars && p < c.npreds
        ensures Cell(s'.hessian, c.nvars, c.npreds, v, p) >= 0.0
      {
        HessianNonNegative(c, o, v, p);
      }
    }
  }

  // A run: states before, between and after successive calls; a call that throws leaves the state alone.
  ghost predicate Run(c: Config, loops: seq<OuterLoop>, states: seq<State>) {
    && |states| == |loops| + 1
    && (forall i :: 0 <= i < |loops| ==> Readable(c, loops[i]))
    && (forall i :: 0 <= i < |states| ==> WellSized(c, states[i]))
    && forall i :: 0 <= i < |loops| ==>
         if Refuses(loops[i]) then states[i + 1] == states[i] else Linearized(c, states[i], loops[i], states[i + 1])
  }

  /** Every state of every run keeps the variances between their limits and the Hessian non-negative. */
  lemma {:induction false} RunKeepsBounds(c: Config, loops: seq<OuterLoop>, states: seq<State>, i: nat)
    requires Sound(c) && Run(c, loops, states) && Bounded(c, states[0]) && i < |states|
    ensures Bounded(c, states[i])
  {
    if i > 0 {
      RunKeepsBounds(c, loops, states, i - 1);
      if !Refuses(loops[i - 1]) {
        LinearizedKeepsBounds(c, states[i - 1], loops[i - 1], states[i]);
      }
    }
  }

  // Call i of the run found too few observations of variable v.
  ghost predicate Starved(c: Config, loops: seq<OuterLoop>, states: seq<State>, v: nat, i: nat)
    requires Run(c, loops, states) && v < c.nvars && i < |loops|
  {
    loops[i].biased && !Refuses(loops[i]) && states[i + 1].obsNum[v] <= c.minimalObsNumber
  }

  /** A variance is reset to the smallest one by the first call that finds too few observations, and no later
      call, whatever it finds, ever changes it again; without such a call it keeps its initial value. */
  lemma {:induction false} RunVariance(c: Config, loops: seq<OuterLoop>, states: seq<State>, v: nat, p: nat, n: nat)
    requires Run(c, loops, states) && v < c.nvars && p < c.npreds && n < |states|
    ensures Cell(states[n].variances, c.nvars, c.npreds, v, p)
         == if exists i: nat :: i < n && Starved(c, loops, states, v, i) then c.smallestVariance
            else Cell(states[0].variances, c.nvars, c.npreds, v, p)
  {
    if n > 0 {
      RunVariance(c, loops, states, v, p, n - 1);
      if Starved(c, loops, states, v, n - 1) {
        assert Cell(states[n].variances, c.nvars, c.npreds, v, p) == c.smallestVariance;
      } else {
        assert Cell(states[n].variances, c.nvars, c.npreds, v, p)
               == Cell(states[n - 1].variances, c.nvars, c.npreds, v, p);
        assert (exists i: nat :: i < n && Starved(c, loops, states, v, i))
           <==> (exists i: nat :: i < n - 1 && Starved(c, loops, states, v, i));
      }
    }
  }

  /** After a call that did its work, preconditioner entries backed by observations and analysis variances
      backed by information lie in (0, variance]; a positive Hessian makes them strictly smaller. */
  lemma LinearizedIsInformative(c: Config, s: State, o: OuterLoop, s': State, v: nat, p: nat)
    requires Sound(c) && Bounded(c, s) && Readable(c, o) && !Refuses(o)
    requires Linearized(c, s, o, s') && o.biased && v < c.nvars && p < c.npreds
    ensures s'.obsNum[v] > 0 ==>
              0.0 < Cell(s'.preconditioner, c.nvars, c.npreds, v, p) <= Cell(s'.variances, c.nvars, c.npreds, v, p)
    ensures s'.obsNum[v] > c.minimalObsNumber && Cell(s'.hessian, c.nvars, c.npreds, v, p) > 0.0 ==>
              0.0 < Cell(s'.analysis, c.nvars, c.npreds, v, p) < Cell(s'.variances, c.nvars, c.npreds, v, p)
    ensures s'.obsNum[v] == 0 ==> Cell(s'.preconditioner, c.nvars, c.npreds, v, p) == c.stepSize
  {
    LinearizedKeepsBounds(c, s, o, s');
    CombinedBounds(Cell(s'.variances, c.nvars, c.npreds, v, p), Cell(s'.hessian, c.nvars, c.npreds, v, p));
  }

  // The misfit together with the distance of the coefficient from its background, in units of its variance
  function TotalCost(c: Config, o: OuterLoop, v: nat, p: nat, departures: nat -> real, variance: real, b: real)
      : (r: real)
    requires Readable(c, o) && v < c.nvars && p < c.npreds && variance > 0.0
  {
    Cost(c, o, v, p, departures, b) + 0.5 * (b * b / variance)
  }

  lemma BackgroundCurvature(b: real, t: real, variance: real)
    requires variance > 0.0
    ensures 0.5 * ((b + t) * (b + t) / variance) - 2.0 * (0.5 * (b * b / variance))
              + 0.5 * ((b - t) * (b - t) / variance)
         == (t * t) * (1.0 / variance)
  {
    var x, y, z, w := (b + t) * (b + t) / variance, b * b / variance, (b - t) * (b - t) / variance, 1.0 / variance;
    assert x == (b + t) * (b + t) * w && y == b * b * w && z == (b - t) * (b - t) * w;
    assert (b + t) * (b + t) + (b - t) * (b - t) == 2.0 * (b * b) + 2.0 * (t * t);
    assert x + z == (2.0 * (b * b) + 2.0 * (t * t)) * w;
  }

  function TotalCostOf(c: Config, o: OuterLoop, v: nat, p: nat, departures: nat -> real, variance: real)
      : (f: real -> real)
    requires Readable(c, o) && v < c.nvars && p < c.npreds && variance > 0.0
  {
    (b: real) => TotalCost(c, o, v, p, departures, variance, b)
  }

  lemma TotalCurvature(c: Config, o: OuterLoop, v: nat, p: nat, departures: nat -> real, variance: real, b: real,
                       t: real)
    requires Readable(c, o) && v < c.nvars && p < c.npreds && variance > 0.0
    ensures Curvature(TotalCostOf(c, o, v, p, departures, variance), b, t)
         == (t * t) * (1.0 / variance + Hessian(c, o, v, p, o.nlocs))
  {
    CostCurvature(c, o, v, p, departures, b, t, t * t);
    BackgroundCurvature(b, t, variance);
    Distribute(t * t, 1.0 / variance, Hessian(c, o, v, p, o.nlocs));
    CurvatureIs(TotalCostOf(c, o, v, p, departures, variance), b, t, TotalCost(c, o, v, p, departures, variance, b + t),
                TotalCost(c, o, v, p, departures, variance, b), TotalCost(c, o, v, p, departures, variance, b - t));
  }

  lemma Distribute(x: real, y: real, z: real)
    ensures x * (y + z) == x * y + x * z
  {
  }

  // The curvature of the total cost with the variance of a state
  function TotalCurvatureOf(c: Config, o: OuterLoop, v: nat, p: nat, departures: nat -> real, s: State, b: real,
                            t: real)
      : (r: real)
    requires Readable(c, o) && v < c.nvars && p < c.npreds && WellSized(c, s)
    requires Cell(s.variances, c.nvars, c.npreds, v, p) > 0.0
  {
    var variance := Cell(s.variances, c.nvars, c.npreds, v, p);
    Curvature(TotalCostOf(c, o, v, p, departures, variance), b, t)
  }

  lemma CombinedIsInverse(c: Config, o: OuterLoop, v: nat, p: nat, departures: nat -> real, s: State, b: real, t: real,
                          x: real)
    requires Readable(c, o) && v < c.nvars && p < c.npreds && WellSized(c, s)
    requires Cell(s.variances, c.nvars, c.npreds, v, p) > 0.0
    requires Cell(s.hessian, c.nvars, c.npreds, v, p) == Hessian(c, o, v, p, o.nlocs) >= 0.0
    requires x == Combined(Cell(s.variances, c.nvars, c.npreds, v, p), Cell(s.hessian, c.nvars, c.npreds, v, p))
    ensures x * TotalCurvatureOf(c, o, v, p, departures, s, b, t) == t * t
  {
    var variance, h := Cell(s.variances, c.nvars, c.npreds, v, p), Cell(s.hessian, c.nvars, c.npreds, v, p);
    TotalCurvature(c, o, v, p, departures, variance, b, t);
    CombinedInverts(variance, h, t * t, x);
  }

  // x is the inverse of that curvature.
  ghost predicate IsInverseCurvature(c: Config, o: OuterLoop, v: nat, p: nat, s: State, x: real)
    requires Readable(c, o) && v < c.nvars && p < c.npreds && WellSized(c, s)
  {
    Cell(s.variances, c.nvars, c.npreds, v, p) > 0.0 &&
    forall departures: nat -> real, b: real, t: real :: x * TotalCurvatureOf(c, o, v, p, departures, s, b, t) == t * t
  }

  lemma CombinedIsInverseCurvature(c: Config, o: OuterLoop, v: nat, p: nat, s: State, x: real)
    requires Readable(c, o) && v < c.nvars && p < c.npreds && WellSized(c, s)
    requires Cell(s.variances, c.nvars, c.npreds, v, p) > 0.0
    requires Cell(s.hessian, c.nvars, c.npreds, v, p) == Hessian(c, o, v, p, o.nlocs) >= 0.0
    requires x == Combined(Cell(s.variances, c.nvars, c.npreds, v, p), Cell(s.hessian, c.nvars, c.npreds, v, p))
    ensures IsInverseCurvature(c, o, v, p, s, x)
  {
    forall departures: nat -> real, b: real, t: real
      ensures x * TotalCurvatureOf(c, o, v, p, departures, s, b, t) == t * t
    {
      CombinedIsInverse(c, o, v, p, departures, s, b, t, x);
    }
  }

  /** The preconditioner, for a variable with observations, and the analysis variance, with enough of them and some
      information in them, are the inverse of that curvature. */
  lemma LinearizedIsInverseCurvature(c: Config, s: State, o: OuterLoop, s': State, v: nat, p: nat)
    requires Sound(c) && Bounded(c, s) && Readable(c, o) && !Refuses(o) && v < c.nvars && p < c.npreds
    requires Linearized(c, s, o, s') && o.biased && o.iteration >= 1
    ensures s'.obsNum[v] > 0 ==>
              IsInverseCurvature(c, o, v, p, s', Cell(s'.preconditioner, c.nvars, c.npreds, v, p))
    ensures s'.obsNum[v] > c.minimalObsNumber && Cell(s'.hessian, c.nvars, c.npreds, v, p) > 0.0 ==>
              IsInverseCurvature(c, o, v, p, s', Cell(s'.analysis, c.nvars, c.npreds, v, p))
  {
    LinearizedKeepsBounds(c, s, o, s');
    HessianNonNegative(c, o, v, p);
    assert Cell(s'.variances, c.nvars, c.npreds, v, p) >= c.smallestVariance;
    assert Cell(s'.hessian, c.nvars, c.npreds, v, p) == Hessian(c, o, v, p, o.nlocs);
    CombinedIsInverseCurvature(c, o, v, p, s', Combined(Cell(s'.variances, c.nvars, c.npreds, v, p),
                                                        Cell(s'.hessian, c.nvars, c.npreds, v, p)));
  }

  lemma CombinedInverts(v: real, h: real, square: real, x: real)
    requires v > 0.0 && h >= 0.0 && x == Combined(v, h)
    ensures x * (square * (1.0 / v + h)) == square
  {
    PositiveReciprocal(v);
    var sum := 1.0 / v + h;
    assert sum > 0.0;
    assert x * sum == 1.0;
    assert x * (square * sum) == square * (x * sum);
  }

  // ---------------------------------------------------------------------------
  // The initial state

  function Inflation(c: Config, prior: Prior, obsNum: nat): (r: real) {
    if obsNum <= c.minimalObsNumber then prior.ratioForSmallDataset else prior.ratio
  }

  // A prior analysis variance is inflated once here when the larger ratio applies, and again for the variance.
  function InflatedAnalysis(c: Config, prior: Prior, obsNum: nat, analysis: real): (r: real) {
    var inflation := Inflation(c, prior, obsNum);
    if inflation > prior.ratio then inflation * analysis + c.smallestVariance else analysis
  }

  function InflatedVariance(c: Config, prior: Prior, obsNum: nat, analysis: real): (r: real) {
    Inflation(c, prior, obsNum) * InflatedAnalysis(c, prior, obsNum, analysis) + c.smallestVariance
  }

  function Min(x: real, y: real): (r: real) { if x > y then y else x }

  // The state before the prior is applied: read gives the counts and analysis variances of the file, if any.
  function Blank(c: Config, prior: Option<Prior>): (s: State)
    requires FileFits(c, prior)
  {
    var n := c.nvars * c.npreds;
    var fromFile := prior.Some? && prior.value.file.Some?;
    State(seq(n, _ => c.largestVariance), seq(n, _ => c.stepSize), seq(n, _ => 0.0),
          if fromFile then prior.value.file.value.obsNum else seq(c.nvars, _ => 0),
          if fromFile then prior.value.file.value.analysis else seq(n, _ => c.largestVariance))
  }

  predicate FileFits(c: Config, prior: Option<Prior>) {
    prior.Some? && prior.value.file.Some? ==>
      |prior.value.file.value.obsNum| == c.nvars && |prior.value.file.value.analysis| == c.nvars * c.npreds
  }

  ghost predicate Initial(c: Config, prior: Option<Prior>, s: State)
    requires FileFits(c, prior)
  {
    var b := Blank(c, prior);
    WellSized(c, s) &&
    if prior.None? then s == b else
      && s.preconditioner == b.preconditioner && s.hessian == b.hessian && s.obsNum == b.obsNum
      && (forall v: nat, p: nat {:trigger Cell(s.variances, c.nvars, c.npreds, v, p)} :: v < c.nvars && p < c.npreds ==>
            Cell(s.variances, c.nvars, c.npreds, v, p)
            == Min(InflatedVariance(c, prior.value, b.obsNum[v], Cell(b.analysis, c.nvars, c.npreds, v, p)),
                   c.largestVariance))
      && (forall v: nat, p: nat {:trigger Cell(s.analysis, c.nvars, c.npreds, v, p)} :: v < c.nvars && p < c.npreds ==>
            Cell(s.analysis, c.nvars, c.npreds, v, p)
            == Min(InflatedAnalysis(c, prior.value, b.obsNum[v], Cell(b.analysis, c.nvars, c.npreds, v, p)),
                   c.largestAnalysisVariance))
  }

  // No inflated analysis variance of the prior is negative.
  ghost predicate NonNegativePrior(c: Config, prior: Option<Prior>)
    requires FileFits(c, prior)
  {
    prior.Some? ==>
      var b := Blank(c, prior);
      forall v: nat, p: nat {:trigger Cell(b.analysis, c.nvars, c.npreds, v, p)} :: v < c.nvars && p < c.npreds ==>
        NonNegativeEntry(c, prior.value, b.obsNum[v], Cell(b.analysis, c.nvars, c.npreds, v, p))
  }

  // The inflation ratio and the analysis variance it multiplies do not have opposite signs.
  predicate NonNegativeEntry(c: Config, prior: Prior, obsNum: nat, analysis: real) {
    Inflation(c, prior, obsNum) * InflatedAnalysis(c, prior, obsNum, analysis) >= 0.0
  }

  // r is the smaller of the two.
  predicate Least(r: real, x: real, y: real) { r <= x && r <= y && (r == x || r == y) }

  // A variance and an analysis variance, inflated by a ratio: once, or first the one and then the other
  ghost predicate InflatedBy(c: Config, ratio: real, twice: bool, before: real, a: real, variance: real) {
    var once := ratio * before + c.smallestVariance;
    && Least(a, if twice then once else before, c.largestAnalysisVariance)
    && Least(variance, if twice then ratio * once + c.smallestVariance else once, c.largestVariance)
  }

  // Counted from no more observations than required, they are inflated by the ratio for small data sets, and even twice
  // if that ratio is the larger one; otherwise by the other ratio, once.
  ghost predicate IsInflated(c: Config, prior: Prior, count: nat, before: real, a: real, variance: real) {
    if count <= c.minimalObsNumber then
      InflatedBy(c, prior.ratioForSmallDataset, prior.ratioForSmallDataset > prior.ratio, before, a, variance)
    else
      InflatedBy(c, prior.ratio, false, before, a, variance)
  }

  lemma InflationIs(c: Config, prior: Prior, count: nat, before: real, a: real, variance: real)
    requires variance == Min(InflatedVariance(c, prior, count, before), c.largestVariance)
    requires a == Min(InflatedAnalysis(c, prior, count, before), c.largestAnalysisVariance)
    ensures IsInflated(c, prior, count, before, a, variance)
  {
    RatioIs(c, prior, count, before, a, variance, Inflation(c, prior, count));
  }

  lemma RatioIs(c: Config, prior: Prior, count: nat, before: real, a: real, variance: real, ratio: real)
    requires variance == Min(InflatedVariance(c, prior, count, before), c.largestVariance)
    requires a == Min(InflatedAnalysis(c, prior, count, before), c.largestAnalysisVariance)
    requires ratio == Inflation(c, prior, count)
    ensures InflatedBy(c, ratio, ratio > prior.ratio, before, a, variance)
  {
  }

  /** What a prior gives, from the counts and analysis variances of its file, or without one from none and the largest
      variance. */
  lemma InitialFromPrior(c: Config, prior: Prior, s: State, v: nat, p: nat)
    requires FileFits(c, Some(prior)) && Initial(c, Some(prior), s) && v < c.nvars && p < c.npreds
    ensures var count := if prior.file.Some? then prior.file.value.obsNum[v] else 0;
            var before := if prior.file.Some? then Cell(prior.file.value.analysis, c.nvars, c.npreds, v, p)
                          else c.largestVariance;
            s.obsNum[v] == count && IsInflated(c, prior, count, before, Cell(s.analysis, c.nvars, c.npreds, v, p),
                                               Cell(s.variances, c.nvars, c.npreds, v, p))
  {
    InRange(c.nvars, c.npreds, v, p);
    var b := Blank(c, Some(prior));
    InflationIs(c, prior, b.obsNum[v], Cell(b.analysis, c.nvars, c.npreds, v, p),
                Cell(s.analysis, c.nvars, c.npreds, v, p), Cell(s.variances, c.nvars, c.npreds, v, p));
  }

  /** With or without a prior the preconditioner starts at the step size and the Hessian at zero; without one, nothing
      has been counted and all variances are the largest one. */
  lemma InitialEntries(c: Config, prior: Option<Prior>, s: State, v: nat, p: nat)
    requires FileFits(c, prior) && Initial(c, prior, s) && v < c.nvars && p < c.npreds
    ensures Cell(s.preconditioner, c.nvars, c.npreds, v, p) == c.stepSize
    ensures Cell(s.hessian, c.nvars, c.npreds, v, p) == 0.0
    ensures prior.None? ==>
              && s.obsNum[v] == 0 && Cell(s.variances, c.nvars, c.npreds, v, p) == c.largestVariance
              && Cell(s.analysis, c.nvars, c.npreds, v, p) == c.largestVariance
  {
    InRange(c.nvars, c.npreds, v, p);
  }

  /** The initial state is within bounds exactly when no inflated analysis variance is negative. */
  lemma InitialBounded(c: Config, prior: Option<Prior>, s: State)
    requires Sound(c) && FileFits(c, prior) && Initial(c, prior, s)
    ensures Bounded(c, s) <==> NonNegativePrior(c, prior)
  {
    forall v: nat, p: nat | v < c.nvars && p < c.npreds
      ensures Cell(s.hessian, c.nvars, c.npreds, v, p) == 0.0
      ensures prior.None? ==> Cell(s.variances, c.nvars, c.npreds, v, p) == c.largestVariance
    {
      InRange(c.nvars, c.npreds, v, p);
    }
    if prior.Some? {
      var b := Blank(c, prior);
      forall v: nat, p: nat | v < c.nvars && p < c.npreds
        ensures c.smallestVariance <= Cell(s.variances, c.nvars, c.npreds, v, p) <= c.largestVariance
           <==> NonNegativeEntry(c, prior.value, b.obsNum[v], Cell(b.analysis, c.nvars, c.npreds, v, p))
      {
      }
      if Bounded(c, s) {
        forall v: nat, p: nat | v < c.nvars && p < c.npreds
          ensures NonNegativeEntry(c, prior.value, b.obsNum[v], Cell(b.analysis, c.nvars, c.npreds, v, p))
        {
          assert c.smallestVariance <= Cell(s.variances, c.nvars, c.npreds, v, p);
        }
      }
    }
  }

  // ---------------------------------------------------------------------------
  // The covariance object

  class ObsBiasCovariance {
    const config: Config
    var variances: seq<real>
    var preconditioner: seq<real>
    var htRinvH: seq<real>
    var obsNum: seq<nat>
    var analysisVariances: seq<real>

    ghost function Abstract(): (s: State)
      reads this
    {
      State(variances, preconditioner, htRinvH, obsNum, analysisVariances)
    }

    ghost predicate Valid()
      reads this
    {
      Bounded(config, Abstract())
    }

    constructor (c: Config, prior: Option<Prior>)
      requires FileFits(c, prior)
      ensures config == c
      ensures Initial(c, prior, Abstract())
    {
      config := c;
      var b := Blank(c, prior);
      variances, preconditioner, htRinvH := b.variances, b.preconditioner, b.hessian;
      obsNum, analysisVariances := b.obsNum, b.analysis;
      new;
      if prior.Some? {
        ApplyPrior(prior.value, b.analysis);
      }
    }

    method ApplyPrior(prior: Prior, ghost analysis: seq<real>)
      requires WellSized(config, Abstract()) && analysisVariances == analysis
      modifies `variances, `analysisVariances
      ensures WellSized(config, Abstract())
      ensures forall v: nat, p: nat {:trigger Cell(variances, config.nvars, config.npreds, v, p)} ::
                v < config.nvars && p < config.npreds ==>
                Cell(variances, config.nvars, config.npreds, v, p)
                == Min(InflatedVariance(config, prior, obsNum[v], Cell(analysis, config.nvars, config.npreds, v, p)),
                       config.largestVariance)
      ensures forall v: nat, p: nat {:trigger Cell(analysisVariances, config.nvars, config.npreds, v, p)} ::
                v < config.nvars && p < config.npreds ==>
                Cell(analysisVariances, config.nvars, config.npreds, v, p)
                == Min(InflatedAnalysis(config, prior, obsNum[v], Cell(analysis, config.nvars, config.npreds, v, p)),
                       config.largestAnalysisVariance)
    {
      var nvars, npreds := config.nvars, config.npreds;
      for j := 0 to nvars
        invariant WellSized(config, Abstract())
        invariant PriorApplied(config, prior, obsNum, analysis, variances, analysisVariances, j, 0)
      {
        var inflation := if obsNum[j] <= config.minimalObsNumber then prior.ratioForSmallDataset else prior.ratio;
        for p := 0 to npreds
          invariant WellSized(config, Abstract())
          invariant PriorApplied(config, prior, obsNum, analysis, variances, analysisVariances, j, p)
        {
          var variance, av := Inflate(config, prior, obsNum[j], inflation,
                                      Cell(analysisVariances, nvars, npreds, j, p));
          PriorStep(config, prior, obsNum, analysis, variances, analysisVariances, j, p, variance, av);
          variances := Put(variances, nvars, npreds, j, p, variance);
          analysisVariances := Put(analysisVariances, nvars, npreds, j, p, av);
        }
        PriorVariable(config, prior, obsNum, analysis, variances, analysisVariances, j);
      }
    }

    // A missing QC flag vector is an error and leaves the object as it was.
    method Linearize(o: OuterLoop) returns (r: Result<()>)
      requires Sound(config) && Valid() && Readable(config, o)
      modifies `variances, `preconditioner, `htRinvH, `obsNum, `analysisVariances
      ensures Valid()
      ensures r.Err? <==> Refuses(o)
      ensures r.Err? ==> Abstract() == old(Abstract())
      ensures r.Ok? ==> Linearized(config, old(Abstract()), o, Abstract())
    {
      ghost var s0 := Abstract();
      if !o.biased { return Ok(()); }
      if o.iteration >= 1 {
        var counts := CountObservations(o.qc);
        if counts.None? { return Err("Unable to find QC flags"); }
        var rInv := InverseVariances(o.errors);
        var hessian := AccumulateHessian(config, o, rInv);
        obsNum, htRinvH := counts.value, hessian;
        forall v: nat, p: nat | v < config.nvars && p < config.npreds
          ensures Cell(htRinvH, config.nvars, config.npreds, v, p) >= 0.0
        {
          HessianNonNegative(config, o, v, p);
        }
      }
      ResetVariances();
      Precondition();
      r := Ok(());
    }

    method ResetVariances()
      requires Sound(config) && Valid()
      modifies `variances
      ensures Valid()
      ensures forall v: nat, p: nat {:trigger Cell(variances, config.nvars, config.npreds, v, p)} ::
                v < config.nvars && p < config.npreds ==>
                Cell(variances, config.nvars, config.npreds, v, p)
                == if obsNum[v] <= config.minimalObsNumber then config.smallestVariance
                   else Cell(old(variances), config.nvars, config.npreds, v, p)
    {
      var nvars, npreds := config.nvars, config.npreds;
      ghost var before := variances;
      for j := 0 to nvars
        invariant Valid()
        invariant forall v: nat, p: nat {:trigger Cell(variances, nvars, npreds, v, p)} :: v < nvars && p < npreds ==>
                    Cell(variances, nvars, npreds, v, p)
                    == if v < j && obsNum[v] <= config.minimalObsNumber then config.smallestVariance
                       else Cell(before, nvars, npreds, v, p)
      {
        if obsNum[j] <= config.minimalObsNumber {
          for p := 0 to npreds
            invariant Valid()
            invariant forall v: nat, q: nat {:trigger Cell(variances, nvars, npreds, v, q)} ::
                        v < nvars && q < npreds ==>
                        Cell(variances, nvars, npreds, v, q)
                        == if Before(v, q, j, p) && obsNum[v] <= config.minimalObsNumber then config.smallestVariance
                           else Cell(before, nvars, npreds, v, q)
          {
            variances := Put(variances, nvars, npreds, j, p, config.smallestVariance);
          }
        }
      }
    }

    method Precondition()
      requires Sound(config) && Valid()
      modifies `preconditioner, `analysisVariances
      ensures Valid()
      ensures Preconditioned(config, obsNum, variances, htRinvH, old(analysisVariances), preconditioner,
                             analysisVariances, config.nvars, 0)
    {
      var nvars, npreds := config.nvars, config.npreds;
      ghost var before, s := analysisVariances, Abstract();
      for j := 0 to nvars
        invariant |preconditioner| == |analysisVariances| == nvars * npreds
        invariant Preconditioned(config, obsNum, variances, htRinvH, before, preconditioner, analysisVariances, j, 0)
      {
        for p := 0 to npreds
          invariant |preconditioner| == |analysisVariances| == nvars * npreds
          invariant Preconditioned(config, obsNum, variances, htRinvH, before, preconditioner, analysisVariances, j, p)
        {
          EntryBounds(config, s, j, p);
          var v, h := Cell(variances, nvars, npreds, j, p), Cell(htRinvH, nvars, npreds, j, p);
          var factor, analysis := Precision(config, obsNum[j], v, h, Cell(analysisVariances, nvars, npreds, j, p));
          PreconditionStep(config, obsNum, variances, htRinvH, before, preconditioner, analysisVariances, j, p, factor,
                           analysis);
          preconditioner := Put(preconditioner, nvars, npreds, j, p, factor);
          analysisVariances := Put(analysisVariances, nvars, npreds, j, p, analysis);
        }
        PreconditionVariable(config, obsNum, variances, htRinvH, before, preconditioner, analysisVariances, j);
      }
    }

    method Multiply(dx1: seq<real>) returns (dx2: seq<real>)
      requires Sound(config) && Valid() && |dx1| == |variances|
      ensures |dx2| == |dx1| && forall k :: 0 <= k < |dx1| ==> dx2[k] == dx1[k] * variances[k]
    {
      var vs := variances;
      dx2 := seq(|dx1|, k requires 0 <= k < |dx1| => dx1[k] * vs[k]);
    }

    method InverseMultiply(dx1: seq<real>) returns (dx2: seq<real>)
      requires Sound(config) && Valid() && |dx1| == |variances|
      ensures |dx2| == |dx1|
      ensures forall k :: 0 <= k < |dx1| ==> variances[k] > 0.0 && dx2[k] == dx1[k] / variances[k]
    {
      PositiveEverywhere(config, Abstract());
      var vs := variances;
      dx2 := seq(|dx1|, k requires 0 <= k < |dx1| => dx1[k] / vs[k]);
    }

    // The two operators undo each other, in either order.
    method MultiplyRoundTrip(dx: seq<real>) returns (there: seq<real>, back: seq<real>)
      requires Sound(config) && Valid() && |dx| == |variances|
      ensures there == dx && back == dx
    {
      var x := Multiply(dx);
      there := InverseMultiply(x);
      var y := InverseMultiply(dx);
      back := Multiply(y);
      forall k | 0 <= k < |dx| ensures there[k] == dx[k] && back[k] == dx[k] {
        Cancel(dx[k], variances[k]);
      }
    }
  }

  lemma Cancel(x: real, v: real)
    requires v != 0.0
    ensures (x * v) / v == x && (x / v) * v == x
  {
  }

  lemma PositiveEverywhere(c: Config, s: State)
    requires Sound(c) && Bounded(c, s)
    ensures forall k :: 0 <= k < |s.variances| ==> s.variances[k] > 0.0
  {
    forall k | 0 <= k < |s.variances| ensures s.variances[k] > 0.0 {
      var v, p := Surjective(c.nvars, c.npreds, k);
      assert Cell(s.variances, c.nvars, c.npreds, v, p) >= c.smallestVariance;
    }
  }

  // The number of zero flags per variable; none if some variable has no stored flags
  method CountObservations(qc: seq<Option<seq<int>>>) returns (r: Option<seq<nat>>)
    ensures r.None? <==> exists v :: 0 <= v < |qc| && qc[v].None?
    ensures r.Some? ==> |r.value| == |qc| && forall v :: 0 <= v < |qc| ==>
              r.value[v] == Passed(qc[v].value) == |set k: nat | k < |qc[v].value| && qc[v].value[k] == 0|
  {
    var counts: seq<nat> := seq(|qc|, _ => 0);
    for jvar := 0 to |qc|
      invariant |counts| == |qc|
      invariant forall v :: 0 <= v < jvar ==> qc[v].Some? && counts[v] == Passed(qc[v].value)
      invariant forall v :: jvar <= v < |qc| ==> counts[v] == 0
    {
      if qc[jvar].None? { return None; }
      var flags := qc[jvar].value;
      for jloc := 0 to |flags|
        invariant |counts| == |qc|
        invariant forall v :: 0 <= v < jvar ==> counts[v] == Passed(qc[v].value)
        invariant forall v :: jvar < v < |qc| ==> counts[v] == 0
        invariant counts[jvar] == Passed(flags[..jloc])
      {
        assert flags[..jloc + 1][..jloc] == flags[..jloc];
        if flags[jloc] == 0 { counts := counts[jvar := counts[jvar] + 1]; }
      }
      assert flags[..|flags|] == flags;
    }
    r := Some(counts);
    forall v | 0 <= v < |qc|
      ensures Passed(qc[v].value) == |set k: nat | k < |qc[v].value| && qc[v].value[k] == 0|
    {
      PassedIsCount(qc[v].value);
    }
  }

  method InverseVariances(errors: seq<Datum>) returns (rInv: seq<real>)
    requires forall k :: 0 <= k < |errors| ==> errors[k] != Value(0.0)
    ensures |rInv| == |errors| && forall k :: 0 <= k < |errors| ==> rInv[k] == InverseVariance(errors[k])
  {
    rInv := seq(|errors|, _ => 0.0);
    for k := 0 to |errors|
      invariant |rInv| == |errors|
      invariant forall i :: 0 <= i < k ==> rInv[i] == InverseVariance(errors[i])
    {
      rInv := rInv[k := if errors[k] != Missing then 1.0 / (errors[k].v * errors[k].v) else 0.0];
    }
  }

  // The entries of the Hessian that are complete, those still empty, and the one being summed
  ghost predicate Accumulated(c: Config, o: OuterLoop, h: seq<real>, q: nat, v0: nat, n: nat)
    requires Readable(c, o) && n <= o.nlocs
  {
    && |h| == c.nvars * c.npreds
    && forall v: nat, p: nat {:trigger Cell(h, c.nvars, c.npreds, v, p)} :: v < c.nvars && p < c.npreds ==>
         Cell(h, c.nvars, c.npreds, v, p)
         == if Before(p, v, q, v0) then Hessian(c, o, v, p, o.nlocs)
            else if p == q && v == v0 then Hessian(c, o, v, p, n) else 0.0
  }

  method AccumulateHessian(c: Config, o: OuterLoop, rInv: seq<real>) returns (h: seq<real>)
    requires Readable(c, o) && |rInv| == |o.errors|
    requires forall k :: 0 <= k < |rInv| ==> rInv[k] == InverseVariance(o.errors[k])
    ensures |h| == c.nvars * c.npreds
    ensures forall v: nat, p: nat {:trigger Cell(h, c.nvars, c.npreds, v, p)} :: v < c.nvars && p < c.npreds ==>
              Cell(h, c.nvars, c.npreds, v, p) == Hessian(c, o, v, p, o.nlocs)
  {
    h := seq(c.nvars * c.npreds, _ => 0.0);
    AccumulatedStart(c, o, h);
    for p := 0 to c.npreds
      invariant Accumulated(c, o, h, p, 0, 0)
    {
      var predx := o.predictors[p];
      for vv := 0 to c.nvars
        invariant Accumulated(c, o, h, p, vv, 0)
      {
        for ii := 0 to o.nlocs
          invariant Accumulated(c, o, h, p, vv, ii)
        {
          var x := Cell(predx, o.nlocs, c.nvars, ii, vv);
          var term := (x * x) * Cell(rInv, o.nlocs, c.nvars, ii, vv);
          TermOfHessian(c, o, rInv, vv, p, ii, x);
          AccumulatedStep(c, o, h, p, vv, ii, term);
          h := Put(h, c.nvars, c.npreds, vv, p, Cell(h, c.nvars, c.npreds, vv, p) + term);
        }
        AccumulatedVariable(c, o, h, p, vv);
      }
      AccumulatedPredictor(c, o, h, p);
    }
    AccumulatedEnd(c, o, h);
  }

  lemma TermOfHessian(c: Config, o: OuterLoop, rInv: seq<real>, v: nat, p: nat, l: nat, x: real)
    requires Readable(c, o) && |rInv| == |o.errors| && v < c.nvars && p < c.npreds && l < o.nlocs
    requires forall k :: 0 <= k < |rInv| ==> rInv[k] == InverseVariance(o.errors[k])
    requires x == Cell(o.predictors[p], o.nlocs, c.nvars, l, v)
    ensures (x * x) * Cell(rInv, o.nlocs, c.nvars, l, v) == HessianTerm(c, o, v, p, l)
  {
    InRange(o.nlocs, c.nvars, l, v);
  }

  lemma AccumulatedStart(c: Config, o: OuterLoop, h: seq<real>)
    requires Readable(c, o) && h == seq(c.nvars * c.npreds, _ => 0.0)
    ensures Accumulated(c, o, h, 0, 0, 0)
  {
    forall v: nat, p: nat | v < c.nvars && p < c.npreds ensures Cell(h, c.nvars, c.npreds, v, p) == 0.0 {
      InRange(c.nvars, c.npreds, v, p);
    }
  }

  lemma AccumulatedStep(c: Config, o: OuterLoop, h: seq<real>, q: nat, v0: nat, n: nat, term: real)
    requires Readable(c, o) && n < o.nlocs && q < c.npreds && v0 < c.nvars
    requires Accumulated(c, o, h, q, v0, n)
    requires term == HessianTerm(c, o, v0, q, n)
    ensures Accumulated(c, o, Put(h, c.nvars, c.npreds, v0, q, Cell(h, c.nvars, c.npreds, v0, q) + term), q, v0, n + 1)
  {
    assert Hessian(c, o, v0, q, n + 1) == Hessian(c, o, v0, q, n) + term;
  }

  lemma AccumulatedVariable(c: Config, o: OuterLoop, h: seq<real>, q: nat, v0: nat)
    requires Readable(c, o) && q < c.npreds && v0 < c.nvars
    requires Accumulated(c, o, h, q, v0, o.nlocs)
    ensures Accumulated(c, o, h, q, v0 + 1, 0)
  {
  }

  lemma AccumulatedPredictor(c: Config, o: OuterLoop, h: seq<real>, q: nat)
    requires Readable(c, o) && q < c.npreds
    requires Accumulated(c, o, h, q, c.nvars, 0)
    ensures Accumulated(c, o, h, q + 1, 0, 0)
  {
  }

  lemma AccumulatedEnd(c: Config, o: OuterLoop, h: seq<real>)
    requires Readable(c, o)
    requires Accumulated(c, o, h, c.npreds, 0, 0)
    ensures forall v: nat, p: nat {:trigger Cell(h, c.nvars, c.npreds, v, p)} :: v < c.nvars && p < c.npreds ==>
              Cell(h, c.nvars, c.npreds, v, p) == Hessian(c, o, v, p, o.nlocs)
  {
  }

  // The preconditioner entries and analysis variances before entry (j, q) have been recomputed.
  ghost predicate Preconditioned(c: Config, obsNum: seq<nat>, variances: seq<real>, hessian: seq<real>,
                                 analysis: seq<real>, preconditioner: seq<real>, analysis': seq<real>, j: nat, q: nat)
    requires |obsNum| == c.nvars && |preconditioner| == |analysis'| == c.nvars * c.npreds
    requires |variances| == |hessian| == |analysis| == c.nvars * c.npreds
  {
    && (forall v: nat, p: nat {:trigger Cell(preconditioner, c.nvars, c.npreds, v, p)} ::
          v < c.nvars && p < c.npreds && Before(v, p, j, q) ==>
          Cell(preconditioner, c.nvars, c.npreds, v, p)
          == if obsNum[v] > 0
             then Combined(Cell(variances, c.nvars, c.npreds, v, p), Cell(hessian, c.nvars, c.npreds, v, p))
               else c.stepSize)
    && forall v: nat, p: nat {:trigger Cell(analysis', c.nvars, c.npreds, v, p)} :: v < c.nvars && p < c.npreds ==>
         Cell(analysis', c.nvars, c.npreds, v, p)
         == if !Before(v, p, j, q) || obsNum[v] <= c.minimalObsNumber then Cell(analysis, c.nvars, c.npreds, v, p)
            else if Cell(hessian, c.nvars, c.npreds, v, p) > 0.0
            then Combined(Cell(variances, c.nvars, c.npreds, v, p), Cell(hessian, c.nvars, c.npreds, v, p))
            else c.largestAnalysisVariance
  }

  lemma PreconditionStep(c: Config, obsNum: seq<nat>, variances: seq<real>, hessian: seq<real>, analysis: seq<real>,
                         preconditioner: seq<real>, analysis': seq<real>, j: nat, q: nat, factor: real, av: real)
    requires |obsNum| == c.nvars && |preconditioner| == |analysis'| == c.nvars * c.npreds
    requires |variances| == |hessian| == |analysis| == c.nvars * c.npreds
    requires j < c.nvars && q < c.npreds
    requires Preconditioned(c, obsNum, variances, hessian, analysis, preconditioner, analysis', j, q)
    requires Cell(variances, c.nvars, c.npreds, j, q) > 0.0 && Cell(hessian, c.nvars, c.npreds, j, q) >= 0.0
    requires factor == if obsNum[j] > 0
                       then Combined(Cell(variances, c.nvars, c.npreds, j, q), Cell(hessian, c.nvars, c.npreds, j, q))
                         else c.stepSize
    requires av == if obsNum[j] <= c.minimalObsNumber then Cell(analysis', c.nvars, c.npreds, j, q)
                   else if Cell(hessian, c.nvars, c.npreds, j, q) > 0.0
                   then Combined(Cell(variances, c.nvars, c.npreds, j, q), Cell(hessian, c.nvars, c.npreds, j, q))
                   else c.largestAnalysisVariance
    ensures Preconditioned(c, obsNum, variances, hessian, analysis,
                           Put(preconditioner, c.nvars, c.npreds, j, q, factor),
                             Put(analysis', c.nvars, c.npreds, j, q, av), j, q + 1)
  {
  }

  lemma PreconditionVariable(c: Config, obsNum: seq<nat>, variances: seq<real>, hessian: seq<real>, analysis: seq<real>,
                             preconditioner: seq<real>, analysis': seq<real>, j: nat)
    requires |obsNum| == c.nvars && |preconditioner| == |analysis'| == c.nvars * c.npreds
    requires |variances| == |hessian| == |analysis| == c.nvars * c.npreds && j < c.nvars
    requires Preconditioned(c, obsNum, variances, hessian, analysis, preconditioner, analysis', j, c.npreds)
    ensures Preconditioned(c, obsNum, variances, hessian, analysis, preconditioner, analysis', j + 1, 0)
  {
  }

  lemma EntryBounds(c: Config, s: State, v: nat, p: nat)
    requires Sound(c) && Bounded(c, s) && v < c.nvars && p < c.npreds
    ensures Cell(s.variances, c.nvars, c.npreds, v, p) > 0.0 && Cell(s.hessian, c.nvars, c.npreds, v, p) >= 0.0
  {
  }

  // The preconditioner entry and the analysis variance of one coefficient
  method Precision(c: Config, obsNum: nat, v: real, h: real, before: real) returns (factor: real, analysis: real)
    requires v > 0.0 && h >= 0.0
    ensures factor == if obsNum > 0 then Combined(v, h) else c.stepSize
    ensures analysis == if obsNum <= c.minimalObsNumber then before
                        else if h > 0.0 then Combined(v, h) else c.largestAnalysisVariance
  {
    PositiveReciprocal(v);
    factor, analysis := c.stepSize, before;
    if obsNum > 0 { factor := 1.0 / (1.0 / v + h); }
    if obsNum > c.minimalObsNumber {
      analysis := if h > 0.0 then 1.0 / (1.0 / v + h) else c.largestAnalysisVariance;
    }
  }

  predicate Before(v: nat, p: nat, j: nat, q: nat) { v < j || (v == j && p < q) }

  // One entry of the prior: the variance and the analysis variance, both bounded above
  method Inflate(config: Config, prior: Prior, obsNum: nat, inflation: real, analysis: real)
    returns (variance: real, av: real)
    requires inflation == if obsNum <= config.minimalObsNumber then prior.ratioForSmallDataset else prior.ratio
    ensures variance == Min(InflatedVariance(config, prior, obsNum, analysis), config.largestVariance)
    ensures av == Min(InflatedAnalysis(config, prior, obsNum, analysis), config.largestAnalysisVariance)
  {
    av := analysis;
    if inflation > prior.ratio {
      av := inflation * av + config.smallestVariance;
    }
    variance := inflation * av + config.smallestVariance;
    if variance > config.largestVariance { variance := config.largestVariance; }
    if av > config.largestAnalysisVariance { av := config.largestAnalysisVariance; }
  }

  ghost predicate PriorApplied(c: Config, prior: Prior, obsNum: seq<nat>, analysis: seq<real>,
                               variances: seq<real>, analysis': seq<real>, j: nat, q: nat)
    requires |obsNum| == c.nvars && |analysis| == |variances| == |analysis'| == c.nvars * c.npreds
  {
    && (forall v: nat, p: nat {:trigger Cell(variances, c.nvars, c.npreds, v, p)} ::
          v < c.nvars && p < c.npreds && Before(v, p, j, q) ==>
          Cell(variances, c.nvars, c.npreds, v, p)
          == Min(InflatedVariance(c, prior, obsNum[v], Cell(analysis, c.nvars, c.npreds, v, p)), c.largestVariance))
    && forall v: nat, p: nat {:trigger Cell(analysis', c.nvars, c.npreds, v, p)} :: v < c.nvars && p < c.npreds ==>
         Cell(analysis', c.nvars, c.npreds, v, p)
         == if Before(v, p, j, q)
            then Min(InflatedAnalysis(c, prior, obsNum[v], Cell(analysis, c.nvars, c.npreds, v, p)),
                     c.largestAnalysisVariance)
            else Cell(analysis, c.nvars, c.npreds, v, p)
  }

  lemma PriorStep(c: Config, prior: Prior, obsNum: seq<nat>, analysis: seq<real>,
                  variances: seq<real>, analysis': seq<real>, j: nat, q: nat, variance: real, av: real)
    requires |obsNum| == c.nvars && |analysis| == |variances| == |analysis'| == c.nvars * c.npreds
    requires j < c.nvars && q < c.npreds
    requires PriorApplied(c, prior, obsNum, analysis, variances, analysis', j, q)
    requires variance == Min(InflatedVariance(c, prior, obsNum[j], Cell(analysis', c.nvars, c.npreds, j, q)),
                             c.largestVariance)
    requires av == Min(InflatedAnalysis(c, prior, obsNum[j], Cell(analysis', c.nvars, c.npreds, j, q)),
                       c.largestAnalysisVariance)
    ensures PriorApplied(c, prior, obsNum, analysis, Put(variances, c.nvars, c.npreds, j, q, variance),
                         Put(analysis', c.nvars, c.npreds, j, q, av), j, q + 1)
  {
  }

  lemma PriorVariable(c: Config, prior: Prior, obsNum: seq<nat>, analysis: seq<real>,
                      variances: seq<real>, analysis': seq<real>, j: nat)
    requires |obsNum| == c.nvars && |analysis| == |variances| == |analysis'| == c.nvars * c.npreds
    requires j < c.nvars
    requires PriorApplied(c, prior, obsNum, analysis, variances, analysis', j, c.npreds)
    ensures PriorApplied(c, prior, obsNum, analysis, variances, analysis', j + 1, 0)
  {
  }

  // ---------------------------------------------------------------------------
  // One object over a sequence of outer loops

  lemma RunGrows(c: Config, loops: seq<OuterLoop>, n: nat, states: seq<State>, s': State)
    requires n < |loops| && Run(c, loops[..n], states) && Readable(c, loops[n]) && WellSized(c, s')
    requires if Refuses(loops[n]) then s' == states[n] else Linearized(c, states[n], loops[n], s')
    ensures Run(c, loops[..n + 1], states + [s'])
  {
    var all := states + [s'];
    forall i | 0 <= i < n + 1
      ensures if Refuses(loops[..n + 1][i]) then all[i + 1] == all[i]
              else Linearized(c, all[i], loops[..n + 1][i], all[i + 1])
    {
      if i < n { assert loops[..n][i] == loops[..n + 1][i]; }
    }
    var read := loops[..n + 1];
    forall i | 0 <= i < n ensures Readable(c, read[i]) { assert loops[..n][i] == read[i]; }
  }

  /** Constructs a covariance and presents it with one outer loop after the other, whether or not it refuses some: its
      states are a run from the initial one, and all of them lie within the bounds. */
  method RunLoops(c: Config, prior: Option<Prior>, loops: seq<OuterLoop>)
    returns (covariance: ObsBiasCovariance, ghost states: seq<State>)
    requires Sound(c) && FileFits(c, prior) && NonNegativePrior(c, prior)
    requires forall i :: 0 <= i < |loops| ==> Readable(c, loops[i])
    ensures fresh(covariance) && covariance.config == c && covariance.Valid()
    ensures Run(c, loops, states) && Initial(c, prior, states[0]) && covariance.Abstract() == states[|loops|]
    ensures forall i :: 0 <= i < |states| ==> Bounded(c, states[i])
  {
    covariance := new ObsBiasCovariance(c, prior);
    InitialBounded(c, prior, covariance.Abstract());
    states := [covariance.Abstract()];
    for n := 0 to |loops|
      invariant fresh(covariance) && covariance.config == c && covariance.Valid()
      invariant Run(c, loops[..n], states) && Initial(c, prior, states[0]) && covariance.Abstract() == states[n]
      invariant forall i :: 0 <= i < |states| ==> Bounded(c, states[i])
    {
      var r := covariance.Linearize(loops[n]);
      RunGrows(c, loops, n, states, covariance.Abstract());
      states := states + [covariance.Abstract()];
    }
    assert loops[..|loops|] == loops;
  }
}
