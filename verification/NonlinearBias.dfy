/** The nonlinear bias correction operator, and how far its tangent linear is exact. */
module NonlinearBias {
  import opened Missing
  import opened Sums
  import opened Layout
  import opened ObsVectors
  import opened BiasOperator

  // Static predictors come first and have coefficient one; only variable ones have stored coefficients.
  function Beta(numStatic: nat, nvars: nat, numVariable: nat, coeffs: seq<real>, jpred: nat, jvar: nat): (b: real)
    requires |coeffs| == nvars * numVariable && jvar < nvars && jpred < numStatic + numVariable
  {
    if jpred < numStatic then 1.0 else Cell(coeffs, nvars, numVariable, jvar, jpred - numStatic)
  }

  class ObsBias {
    const nvars: nat
    const numStatic: nat
    const numVariable: nat
    const chlistNoBC: seq<int>
    var biascoeffs: seq<real>

    ghost predicate Valid()
      reads this
    {
      |biascoeffs| == nvars * numVariable
    }

    constructor (nvars: nat, numStatic: nat, numVariable: nat, chlistNoBC: seq<int>)
      ensures Valid() && biascoeffs == seq(nvars * numVariable, _ => 0.0)
      ensures this.nvars == nvars && this.numStatic == numStatic
      ensures this.numVariable == numVariable && this.chlistNoBC == chlistNoBC
    {
      this.nvars, this.numStatic, this.numVariable, this.chlistNoBC := nvars, numStatic, numVariable, chlistNoBC;
      biascoeffs := seq(nvars * numVariable, _ => 0.0);
    }

    ghost function AsSeen(): (b: Coefficients)
      reads this
    {
      Coefficients(numStatic, numVariable, biascoeffs, chlistNoBC)
    }

    method PlusAssign(dx: ObsBiasIncrement)
      requires Valid() && dx.Valid() && dx.nvars == nvars && dx.npreds == numVariable
      modifies this
      ensures Valid()
      ensures IsSum(biascoeffs, old(biascoeffs), dx.biascoeffsinc)
    {
      var x, y := biascoeffs, dx.biascoeffsinc;
      biascoeffs := seq(|x|, k requires 0 <= k < |x| => x[k] + y[k]);
    }
  }

  ghost predicate IsSum(z: seq<real>, x: seq<real>, y: seq<real>) {
    && |z| == |x| == |y|
    && forall k :: 0 <= k < |z| ==> z[k] == x[k] + y[k]
  }

  // 0 for a variable listed (counting from 1) as not bias-corrected, 1 for the others
  function Weight(chNoBC: seq<int>, jvar: nat): (w: real) {
    if jvar + 1 in chNoBC then 0.0 else 1.0
  }

  // The coefficients an operator application sees
  datatype Coefficients = Coefficients(numStatic: nat, numVariable: nat, coeffs: seq<real>, chNoBC: seq<int>) {
    ghost predicate Fits(s: Setting) {
      && s.Valid()
      && s.NumPreds() == numStatic + numVariable
      && |coeffs| == s.nvars * numVariable
      && forall c :: c in chNoBC ==> 1 <= c <= s.nvars
    }
  }

  function BiasTerm(s: Setting, b: Coefficients, l: nat, v: nat, p: nat): (r: real)
    requires b.Fits(s) && l < s.nlocs && v < s.nvars && p < s.NumPreds()
  {
    (OrZero(s.Pred(l, v, p)) * Weight(b.chNoBC, v)) * Beta(b.numStatic, s.nvars, b.numVariable, b.coeffs, p, v)
  }

  // The bias from the first k predictors
  function BiasSum(s: Setting, b: Coefficients, l: nat, v: nat, k: nat): (r: real)
    requires b.Fits(s) && l < s.nlocs && v < s.nvars
  {
    Sum(k, (p: nat) => if p < s.NumPreds() then BiasTerm(s, b, l, v, p) else 0.0)
  }

  ghost predicate IsBias(s: Setting, b: Coefficients, y: seq<Datum>)
    requires b.Fits(s)
  {
    && |y| == s.nlocs * s.nvars
    && forall l: nat, v: nat {:trigger Cell(y, s.nlocs, s.nvars, l, v)} :: l < s.nlocs && v < s.nvars ==>
         Cell(y, s.nlocs, s.nvars, l, v) == Value(BiasSum(s, b, l, v, s.NumPreds()))
  }

  function Scaled(d: Datum, w: real): (r: Datum) {
    if d.Missing? then Missing else Value(d.v * w)
  }

  // The predictors as saved: scaled by the weight of the variable
  ghost predicate IsScaledPredictors(s: Setting, chNoBC: seq<int>, preds': seq<seq<Datum>>)
    requires s.Valid()
  {
    && |preds'| == s.NumPreds()
    && (forall p :: 0 <= p < |preds'| ==> |preds'[p]| == s.nlocs * s.nvars)
    && forall l: nat, v: nat, p: nat {:trigger s.Pred(l, v, p)} :: l < s.nlocs && v < s.nvars && p < s.NumPreds() ==>
         Cell(preds'[p], s.nlocs, s.nvars, l, v) == Scaled(s.Pred(l, v, p), Weight(chNoBC, v))
  }

  // Progress of the triple loop: variables below jvar are done, and so are, for variable jvar, predictors
  // below jp and, for predictor jp, locations below jl.
  predicate Visited(jvar: nat, jp: nat, jl: nat, l: nat, v: nat, p: nat) {
    v < jvar || (v == jvar && (p < jp || (p == jp && l < jl)))
  }

  ghost predicate Progress(s: Setting, b: Coefficients, jvar: nat, jp: nat, jl: nat, preds: seq<seq<Datum>>,
                           y: seq<Datum>)
    requires b.Fits(s)
  {
    && |y| == s.nlocs * s.nvars
    && |preds| == s.NumPreds()
    && (forall p :: 0 <= p < |preds| ==> |preds[p]| == s.nlocs * s.nvars)
    && (forall l: nat, v: nat, p: nat {:trigger Cell(preds[p], s.nlocs, s.nvars, l, v)} ::
          l < s.nlocs && v < s.nvars && p < s.NumPreds() ==>
            Cell(preds[p], s.nlocs, s.nvars, l, v)
            == if Visited(jvar, jp, jl, l, v, p) then Scaled(s.Pred(l, v, p), Weight(b.chNoBC, v)) else s.Pred(l, v, p))
    && (forall l: nat, v: nat {:trigger Cell(y, s.nlocs, s.nvars, l, v)} :: l < s.nlocs && v < s.nvars ==>
          Cell(y, s.nlocs, s.nvars, l, v) == Value(BiasSum(s, b, l, v, Done(s, jvar, jp, jl, l, v))))
  }

  // The number of predictors already added in at one observation
  function Done(s: Setting, jvar: nat, jp: nat, jl: nat, l: nat, v: nat): (k: nat) {
    if v < jvar then s.NumPreds() else if v > jvar then 0 else if l < jl then jp + 1 else jp
  }

  method ComputeObsBias(computed: seq<seq<Datum>>, ybias: ObsVector, biascoeffs: ObsBias)
    returns (predData: seq<seq<Datum>>)
    requires ybias.Valid() && biascoeffs.Valid() && biascoeffs.nvars == ybias.nvars
    requires biascoeffs.AsSeen().Fits(Setting(ybias.nlocs, ybias.nvars, computed))
    modifies ybias
    ensures ybias.Valid()
    ensures IsBias(Setting(ybias.nlocs, ybias.nvars, computed),
                   biascoeffs.AsSeen(),
                   ybias.values)
    ensures IsScaledPredictors(Setting(ybias.nlocs, ybias.nvars, computed), biascoeffs.chlistNoBC, predData)
  {
    ghost var s := Setting(ybias.nlocs, ybias.nvars, computed);
    ghost var b := biascoeffs.AsSeen();
    predData := computed;
    var npreds := |predData|;
    var nlocs, nvars := ybias.nlocs, ybias.nvars;
    var chNoBC := biascoeffs.chlistNoBC;
    var chidxBC := ChannelMask(chNoBC, nvars);
    ybias.Zero();
    ProgressStart(s, b, ybias.values);
    var biasTerm := seq(nlocs, _ => 0.0);
    for jvar := 0 to nvars
      invariant ybias.Valid() && |biasTerm| == nlocs
      invariant Progress(s, b, jvar, 0, 0, predData, ybias.values)
    {
      var wpred := 1.0;
      if |chNoBC| > 0 && chidxBC[jvar] == 0 { wpred := 0.0; }
      for jp := 0 to npreds
        invariant ybias.Valid() && |biasTerm| == nlocs
        invariant Progress(s, b, jvar, jp, 0, predData, ybias.values)
      {
        var beta := Beta(biascoeffs.numStatic, nvars, biascoeffs.numVariable, biascoeffs.biascoeffs, jp, jvar);
        predData, biasTerm := AddPredictor(s, b, jvar, jp, wpred, beta, predData, biasTerm, ybias);
        ProgressLocations(s, b, jvar, jp, predData, ybias.values);
      }
      ProgressPredictors(s, b, jvar, predData, ybias.values);
    }
    ProgressEnd(s, b, predData, ybias.values);
  }

  // The innermost loop: adds predictor jp times beta to the bias of variable jvar at all locations.
  method AddPredictor(ghost s: Setting, ghost b: Coefficients, jvar: nat, jp: nat, wpred: real, beta: real,
                      preds: seq<seq<Datum>>, term: seq<real>, ybias: ObsVector)
    returns (predData: seq<seq<Datum>>, biasTerm: seq<real>)
    requires b.Fits(s) && jvar < s.nvars && jp < s.NumPreds() && |term| == s.nlocs
    requires ybias.nlocs == s.nlocs && ybias.nvars == s.nvars
    requires wpred == Weight(b.chNoBC, jvar)
    requires beta == Beta(b.numStatic, s.nvars, b.numVariable, b.coeffs, jp, jvar)
    requires Progress(s, b, jvar, jp, 0, preds, ybias.values)
    modifies ybias
    ensures |biasTerm| == s.nlocs
    ensures Progress(s, b, jvar, jp, s.nlocs, predData, ybias.values)
  {
    var nlocs, nvars := ybias.nlocs, ybias.nvars;
    predData, biasTerm := preds, term;
    for jl := 0 to nlocs
      invariant |biasTerm| == nlocs
      invariant Progress(s, b, jvar, jp, jl, predData, ybias.values)
    {
      ghost var preds0, y0 := predData, ybias.values;
      ProgressHere(s, b, jvar, jp, jl, preds0, y0);
      var d := Cell(predData[jp], nlocs, nvars, jl, jvar);
      if d != Missing {
        var p := Put(predData[jp], nlocs, nvars, jl, jvar, Value(d.v * wpred));
        predData := predData[jp := p];
        biasTerm := biasTerm[jl := (d.v * wpred) * beta];
        var e := Cell(ybias.values, nlocs, nvars, jl, jvar);
        assert Value(d.v * wpred) == Scaled(s.Pred(jl, jvar, jp), Weight(b.chNoBC, jvar));
        assert biasTerm[jl] == BiasTerm(s, b, jl, jvar, jp);
        ybias.values := Put(ybias.values, nlocs, nvars, jl, jvar, Value(e.v + biasTerm[jl]));
      }
      ProgressStep(s, b, jvar, jp, jl, preds0, y0, predData, ybias.values);
    }
  }

  // 0 at the positions of the listed channels, 1 elsewhere; left empty when no channel is listed
  method ChannelMask(chNoBC: seq<int>, nvars: nat) returns (chidxBC: seq<int>)
    requires forall c :: c in chNoBC ==> 1 <= c <= nvars
    ensures chNoBC != [] ==> |chidxBC| == nvars
    ensures forall jvar: nat :: chNoBC != [] && jvar < nvars ==> (chidxBC[jvar] == 0 <==> jvar + 1 in chNoBC)
  {
    chidxBC := [];
    if |chNoBC| > 0 {
      chidxBC := seq(nvars, _ => 1);
      for it := 0 to |chNoBC|
        invariant |chidxBC| == nvars
        invariant forall jvar: nat :: jvar < nvars ==> (chidxBC[jvar] == 0 <==> jvar + 1 in chNoBC[..it])
      {
        assert chNoBC[..it + 1] == chNoBC[..it] + [chNoBC[it]];
        assert chNoBC[it] in chNoBC;
        var jvar := chNoBC[it] - 1;
        chidxBC := chidxBC[jvar := 0];
      }
      assert chNoBC[..|chNoBC|] == chNoBC;
    }
  }

  lemma ProgressStart(s: Setting, b: Coefficients, y: seq<Datum>)
    requires b.Fits(s) && |y| == s.nlocs * s.nvars && forall k :: 0 <= k < |y| ==> y[k] == Value(0.0)
    ensures Progress(s, b, 0, 0, 0, s.preds, y)
  {
    forall l: nat, v: nat | l < s.nlocs && v < s.nvars
      ensures Cell(y, s.nlocs, s.nvars, l, v) == Value(BiasSum(s, b, l, v, 0))
    {
      InRange(s.nlocs, s.nvars, l, v);
      assert Cell(y, s.nlocs, s.nvars, l, v) == y[Flat(s.nvars, l, v)];
    }
  }

  lemma ProgressHere(s: Setting, b: Coefficients, jvar: nat, jp: nat, jl: nat, preds: seq<seq<Datum>>, y: seq<Datum>)
    requires b.Fits(s) && jvar < s.nvars && jp < s.NumPreds() && jl < s.nlocs
    requires Progress(s, b, jvar, jp, jl, preds, y)
    ensures Cell(preds[jp], s.nlocs, s.nvars, jl, jvar) == s.Pred(jl, jvar, jp)
    ensures Cell(y, s.nlocs, s.nvars, jl, jvar).Value?
  {
  }

  // One iteration of the innermost loop: nothing changes at a missing predictor, whose term is zero.
  lemma ProgressStep(s: Setting, b: Coefficients, jvar: nat, jp: nat, jl: nat,
                     preds: seq<seq<Datum>>, y: seq<Datum>, preds': seq<seq<Datum>>, y': seq<Datum>)
    requires b.Fits(s) && jvar < s.nvars && jp < s.NumPreds() && jl < s.nlocs
    requires Progress(s, b, jvar, jp, jl, preds, y)
    requires s.Pred(jl, jvar, jp).Missing? ==> preds' == preds && y' == y
    requires s.Pred(jl, jvar, jp).Value? ==>
               && preds' == preds[jp := Put(preds[jp], s.nlocs, s.nvars, jl, jvar,
                                            Scaled(s.Pred(jl, jvar, jp), Weight(b.chNoBC, jvar)))]
               && y' == Put(y, s.nlocs, s.nvars, jl, jvar,
                            Value(OrZero(Cell(y, s.nlocs, s.nvars, jl, jvar)) + BiasTerm(s, b, jl, jvar, jp)))
    ensures Progress(s, b, jvar, jp, jl + 1, preds', y')
  {
    assert BiasSum(s, b, jl, jvar, jp + 1) == BiasSum(s, b, jl, jvar, jp) + BiasTerm(s, b, jl, jvar, jp);
    forall l: nat, v: nat | l < s.nlocs && v < s.nvars
      ensures Cell(y', s.nlocs, s.nvars, l, v) == Value(BiasSum(s, b, l, v, Done(s, jvar, jp, jl + 1, l, v)))
    {
      assert Cell(y, s.nlocs, s.nvars, l, v) == Value(BiasSum(s, b, l, v, Done(s, jvar, jp, jl, l, v)));
    }
  }

  lemma ProgressLocations(s: Setting, b: Coefficients, jvar: nat, jp: nat, preds: seq<seq<Datum>>, y: seq<Datum>)
    requires b.Fits(s) && jvar < s.nvars && jp < s.NumPreds()
    requires Progress(s, b, jvar, jp, s.nlocs, preds, y)
    ensures Progress(s, b, jvar, jp + 1, 0, preds, y)
  {
  }

  lemma ProgressPredictors(s: Setting, b: Coefficients, jvar: nat, preds: seq<seq<Datum>>, y: seq<Datum>)
    requires b.Fits(s) && jvar < s.nvars
    requires Progress(s, b, jvar, s.NumPreds(), 0, preds, y)
    ensures Progress(s, b, jvar + 1, 0, 0, preds, y)
  {
  }

  lemma ProgressEnd(s: Setting, b: Coefficients, preds: seq<seq<Datum>>, y: seq<Datum>)
    requires b.Fits(s)
    requires Progress(s, b, s.nvars, 0, 0, preds, y)
    ensures IsBias(s, b, y) && IsScaledPredictors(s, b.chNoBC, preds)
  {
    forall l: nat, v: nat | l < s.nlocs && v < s.nvars
      ensures Cell(y, s.nlocs, s.nvars, l, v) == Value(BiasSum(s, b, l, v, s.NumPreds()))
    {
      assert Done(s, s.nvars, 0, 0, l, v) == s.NumPreds();
    }
  }

  // ---------------------------------------------------------------------------
  // Exactness of the tangent linear

  // The setting in which the tangent linear works: variable predictors only
  function VariableSetting(s: Setting, numStatic: nat): (t: Setting)
    requires numStatic <= s.NumPreds()
  {
    Setting(s.nlocs, s.nvars, s.preds[numStatic..])
  }

  // The bias as a static part, which does not depend on the coefficients, plus a variable part
  lemma SplitBias(s: Setting, b: Coefficients, l: nat, v: nat, fixed: nat -> real, variable: nat -> real)
    requires b.Fits(s) && l < s.nlocs && v < s.nvars
    requires forall p: nat :: p < b.numStatic ==> fixed(p) == OrZero(s.Pred(l, v, p)) * Weight(b.chNoBC, v)
    requires forall p: nat :: p < b.numVariable ==> variable(p) == BiasTerm(s, b, l, v, b.numStatic + p)
    ensures BiasSum(s, b, l, v, s.NumPreds()) == Sum(b.numStatic, fixed) + Sum(b.numVariable, variable)
  {
    var f := (p: nat) => if p < s.NumPreds() then BiasTerm(s, b, l, v, p) else 0.0;
    assert BiasSum(s, b, l, v, s.NumPreds()) == Sum(s.NumPreds(), f);
    SumSplit(b.numStatic, b.numVariable, f, variable);
    SumExt(b.numStatic, f, fixed);
  }

  // The static predictors cancel, and what remains is the weight times the tangent linear's sum.
  lemma BiasDifference(s: Setting, b: Coefficients, dx: seq<real>, b': Coefficients, l: nat, v: nat)
    requires b.Fits(s) && b'.Fits(s) && l < s.nlocs && v < s.nvars
    requires b' == b.(coeffs := b'.coeffs) && IsSum(b'.coeffs, b.coeffs, dx)
    ensures BiasSum(s, b', l, v, s.NumPreds())
         == BiasSum(s, b, l, v, s.NumPreds())
            + Weight(b.chNoBC, v) * LinearSum(VariableSetting(s, b.numStatic), dx, l, v, b.numVariable)
  {
    var fixed, variable, variable' := BiasTerms(s, b, b', l, v);
    VariableSumDifference(s, b, dx, b', l, v, variable, variable');
  }

  // The terms of both parts, as functions; the static ones are the same for other coefficients.
  lemma BiasTerms(s: Setting, b: Coefficients, b': Coefficients, l: nat, v: nat)
    returns (fixed: nat -> real, variable: nat -> real, variable': nat -> real)
    requires b.Fits(s) && b'.Fits(s) && l < s.nlocs && v < s.nvars && b' == b.(coeffs := b'.coeffs)
    ensures forall p: nat :: p < b.numVariable ==> variable(p) == BiasTerm(s, b, l, v, b.numStatic + p)
    ensures forall p: nat :: p < b.numVariable ==> variable'(p) == BiasTerm(s, b', l, v, b.numStatic + p)
    ensures BiasSum(s, b, l, v, s.NumPreds()) == Sum(b.numStatic, fixed) + Sum(b.numVariable, variable)
    ensures BiasSum(s, b', l, v, s.NumPreds()) == Sum(b.numStatic, fixed) + Sum(b.numVariable, variable')
  {
    var ns, nv := b.numStatic, b.numVariable;
    fixed := (p: nat) => if p < ns then OrZero(s.Pred(l, v, p)) * Weight(b.chNoBC, v) else 0.0;
    variable := (p: nat) => if p < nv then BiasTerm(s, b, l, v, ns + p) else 0.0;
    variable' := (p: nat) => if p < nv then BiasTerm(s, b', l, v, ns + p) else 0.0;
    SplitBias(s, b, l, v, fixed, variable);
    SplitBias(s, b', l, v, fixed, variable');
  }

  lemma VariableSumDifference(s: Setting, b: Coefficients, dx: seq<real>, b': Coefficients, l: nat, v: nat,
                              variable: nat -> real, variable': nat -> real)
    requires b.Fits(s) && b'.Fits(s) && l < s.nlocs && v < s.nvars
    requires b' == b.(coeffs := b'.coeffs) && IsSum(b'.coeffs, b.coeffs, dx)
    requires forall p: nat :: p < b.numVariable ==> variable(p) == BiasTerm(s, b, l, v, b.numStatic + p)
    requires forall p: nat :: p < b.numVariable ==> variable'(p) == BiasTerm(s, b', l, v, b.numStatic + p)
    ensures Sum(b.numVariable, variable')
            == Sum(b.numVariable, variable)
               + Weight(b.chNoBC, v) * LinearSum(VariableSetting(s, b.numStatic), dx, l, v, b.numVariable)
  {
    var g := LinearTerms(s, b, dx, l, v);
    var w := Weight(b.chNoBC, v);
    VariableDifference(s, b, dx, b', l, v, variable, variable', g, w);
    SumOfSums(b.numVariable, w, variable, g, variable',
              LinearSum(VariableSetting(s, b.numStatic), dx, l, v, b.numVariable));
  }

  lemma SumOfSums(n: nat, w: real, f: nat -> real, g: nat -> real, h: nat -> real, total: real)
    requires total == Sum(n, g) && forall p: nat :: p < n ==> h(p) == f(p) + w * g(p)
    ensures Sum(n, h) == Sum(n, f) + w * total
  {
    SumAffine(n, w, f, g, h);
  }

  lemma VariableDifference(s: Setting, b: Coefficients, dx: seq<real>, b': Coefficients, l: nat, v: nat,
                           variable: nat -> real, variable': nat -> real, g: nat -> real, w: real)
    requires b.Fits(s) && b'.Fits(s) && l < s.nlocs && v < s.nvars
    requires b' == b.(coeffs := b'.coeffs) && IsSum(b'.coeffs, b.coeffs, dx)
    requires forall p: nat :: p < b.numVariable ==> variable(p) == BiasTerm(s, b, l, v, b.numStatic + p)
    requires forall p: nat :: p < b.numVariable ==> variable'(p) == BiasTerm(s, b', l, v, b.numStatic + p)
    requires forall p: nat :: p < b.numVariable ==>
               g(p) == Cell(dx, s.nvars, b.numVariable, v, p) * OrZero(VariableSetting(s, b.numStatic).Pred(l, v, p))
    requires w == Weight(b.chNoBC, v)
    ensures forall p: nat :: p < b.numVariable ==> variable'(p) == variable(p) + w * g(p)
  {
    forall p: nat | p < b.numVariable ensures variable'(p) == variable(p) + w * g(p) {
      TermDifference(s, b, dx, b', l, v, p);
    }
  }

  // The terms of the tangent linear's sum, as a function
  lemma LinearTerms(s: Setting, b: Coefficients, dx: seq<real>, l: nat, v: nat) returns (g: nat -> real)
    requires b.Fits(s) && l < s.nlocs && v < s.nvars && |dx| == s.nvars * b.numVariable
    ensures forall p: nat :: p < b.numVariable ==>
              g(p) == Cell(dx, s.nvars, b.numVariable, v, p) * OrZero(VariableSetting(s, b.numStatic).Pred(l, v, p))
    ensures LinearSum(VariableSetting(s, b.numStatic), dx, l, v, b.numVariable) == Sum(b.numVariable, g)
  {
    var t := VariableSetting(s, b.numStatic);
    g := (p: nat) => if p < t.NumPreds() then Cell(dx, t.nvars, t.NumPreds(), v, p) * OrZero(t.Pred(l, v, p)) else 0.0;
  }

  lemma TermDifference(s: Setting, b: Coefficients, dx: seq<real>, b': Coefficients, l: nat, v: nat, p: nat)
    requires b.Fits(s) && b'.Fits(s) && l < s.nlocs && v < s.nvars && p < b.numVariable
    requires b' == b.(coeffs := b'.coeffs) && IsSum(b'.coeffs, b.coeffs, dx)
    ensures BiasTerm(s, b', l, v, b.numStatic + p)
         == BiasTerm(s, b, l, v, b.numStatic + p)
            + Weight(b.chNoBC, v) * (Cell(dx, s.nvars, b.numVariable, v, p)
                                     * OrZero(VariableSetting(s, b.numStatic).Pred(l, v, p)))
  {
    InRange(s.nvars, b.numVariable, v, p);
    var x, x', d := Cell(b.coeffs, s.nvars, b.numVariable, v, p), Cell(b'.coeffs, s.nvars, b.numVariable, v, p),
                    Cell(dx, s.nvars, b.numVariable, v, p);
    var pred, w := OrZero(s.Pred(l, v, b.numStatic + p)), Weight(b.chNoBC, v);
    assert x' == x + d;
    assert (pred * w) * (x + d) == (pred * w) * x + w * (d * pred);
  }

  /** For every b and dx: wherever the tangent linear of dx is not missing, the change of the bias
      correction from b to b + dx is that tangent linear times the weight of the variable. */
  lemma TangentLinearIsExact(s: Setting, b: Coefficients, dx: seq<real>, b': Coefficients,
                             y: seq<Datum>, y': seq<Datum>, u: seq<Datum>, l: nat, v: nat)
    requires b.Fits(s) && b'.Fits(s) && l < s.nlocs && v < s.nvars
    requires b' == b.(coeffs := b'.coeffs) && IsSum(b'.coeffs, b.coeffs, dx)
    requires IsBias(s, b, y) && IsBias(s, b', y')
    requires IsTangent(VariableSetting(s, b.numStatic), dx, u)
    ensures Cell(y, s.nlocs, s.nvars, l, v).Value? && Cell(y', s.nlocs, s.nvars, l, v).Value?
    ensures Cell(u, s.nlocs, s.nvars, l, v).Missing? <==> !VariableSetting(s, b.numStatic).Present(l, v)
    ensures Cell(u, s.nlocs, s.nvars, l, v).Value? ==>
              Cell(y', s.nlocs, s.nvars, l, v).v - Cell(y, s.nlocs, s.nvars, l, v).v
              == Weight(b.chNoBC, v) * Cell(u, s.nlocs, s.nvars, l, v).v
  {
    BiasDifference(s, b, dx, b', l, v);
    var t := VariableSetting(s, b.numStatic);
    assert Cell(u, t.nlocs, t.nvars, l, v)
        == if t.Present(l, v) then Value(LinearSum(t, dx, l, v, t.NumPreds())) else Missing;
  }

  /** The tangent linear does not know the channels without bias correction: it is the exact difference
      at an observation exactly when the variable is corrected or the tangent linear vanishes there. */
  lemma TangentLinearExactIff(s: Setting, b: Coefficients, dx: seq<real>, b': Coefficients,
                              y: seq<Datum>, y': seq<Datum>, u: seq<Datum>, l: nat, v: nat)
    requires b.Fits(s) && b'.Fits(s) && l < s.nlocs && v < s.nvars
    requires b' == b.(coeffs := b'.coeffs) && IsSum(b'.coeffs, b.coeffs, dx)
    requires IsBias(s, b, y) && IsBias(s, b', y')
    requires IsTangent(VariableSetting(s, b.numStatic), dx, u)
    requires VariableSetting(s, b.numStatic).Present(l, v)
    ensures OrZero(Cell(y', s.nlocs, s.nvars, l, v)) - OrZero(Cell(y, s.nlocs, s.nvars, l, v))
            == OrZero(Cell(u, s.nlocs, s.nvars, l, v))
       <==> v + 1 !in b.chNoBC || Cell(u, s.nlocs, s.nvars, l, v) == Value(0.0)
  {
    TangentLinearIsExact(s, b, dx, b', y, y', u, l, v);
  }

  // The p-th variable predictor; static ones come first.
  function VariablePred(s: Setting, b: Coefficients, l: nat, v: nat, p: nat): (d: Datum)
    requires b.Fits(s) && l < s.nlocs && v < s.nvars && p < b.numVariable
  {
    s.Pred(l, v, b.numStatic + p)
  }

  // The exact change of the bias from b to b + dx at one observation is the sum the tangent linear computes there.
  ghost predicate ExactAt(s: Setting, b: Coefficients, dx: seq<real>, l: nat, v: nat)
    requires b.Fits(s) && l < s.nlocs && v < s.nvars && |dx| == s.nvars * b.numVariable
  {
    forall b': Coefficients :: b'.Fits(s) && b' == b.(coeffs := b'.coeffs) && IsSum(b'.coeffs, b.coeffs, dx) ==>
      BiasSum(s, b', l, v, s.NumPreds()) - BiasSum(s, b, l, v, s.NumPreds())
      == LinearSum(VariableSetting(s, b.numStatic), dx, l, v, b.numVariable)
  }

  ghost predicate AlwaysExactAt(s: Setting, b: Coefficients, l: nat, v: nat)
    requires b.Fits(s) && l < s.nlocs && v < s.nvars
  {
    forall dx: seq<real> :: |dx| == s.nvars * b.numVariable ==> ExactAt(s, b, dx, l, v)
  }

  /** It is so for every increment exactly when the variable is corrected or no variable predictor contributes there. */
  lemma AlwaysExactIff(s: Setting, b: Coefficients, l: nat, v: nat)
    requires b.Fits(s) && l < s.nlocs && v < s.nvars
    ensures AlwaysExactAt(s, b, l, v) <==>
              v + 1 !in b.chNoBC || forall p: nat :: p < b.numVariable ==> OrZero(VariablePred(s, b, l, v, p)) == 0.0
  {
    if v + 1 !in b.chNoBC || forall p: nat :: p < b.numVariable ==> OrZero(VariablePred(s, b, l, v, p)) == 0.0 {
      forall dx: seq<real> | |dx| == s.nvars * b.numVariable ensures ExactAt(s, b, dx, l, v) {
        ExactThere(s, b, dx, l, v);
      }
    } else {
      var p: nat :| p < b.numVariable && OrZero(VariablePred(s, b, l, v, p)) != 0.0;
      var dx := UnitIncrement(s, b, v, p);
      SingleTerm(s, b, dx, l, v, p);
      var b' := b.(coeffs := seq(|dx|, k requires 0 <= k < |dx| => b.coeffs[k] + dx[k]));
      BiasDifference(s, b, dx, b', l, v);
      assert !ExactAt(s, b, dx, l, v);
    }
  }

  /** One observation of an excluded channel with one predictor: there it is not. */
  lemma ExcludedChannelFails()
    ensures var s, b := Setting(1, 1, [[Value(1.0)]]), Coefficients(0, 1, [0.0], [1]);
            b.Fits(s) && !AlwaysExactAt(s, b, 0, 0)
  {
    var s, b := Setting(1, 1, [[Value(1.0)]]), Coefficients(0, 1, [0.0], [1]);
    assert s.Valid() && b.Fits(s);
    AlwaysExactIff(s, b, 0, 0);
    assert VariablePred(s, b, 0, 0, 0) == Value(1.0);
  }

  lemma ExactThere(s: Setting, b: Coefficients, dx: seq<real>, l: nat, v: nat)
    requires b.Fits(s) && l < s.nlocs && v < s.nvars && |dx| == s.nvars * b.numVariable
    requires v + 1 !in b.chNoBC || forall p: nat :: p < b.numVariable ==> OrZero(VariablePred(s, b, l, v, p)) == 0.0
    ensures ExactAt(s, b, dx, l, v)
  {
    if v + 1 in b.chNoBC {
      var g := LinearTerms(s, b, dx, l, v);
      forall p: nat | p < b.numVariable ensures g(p) == 0.0 {
        assert VariableSetting(s, b.numStatic).Pred(l, v, p) == VariablePred(s, b, l, v, p);
      }
      SumZero(b.numVariable, g);
    }
    forall b': Coefficients | b'.Fits(s) && b' == b.(coeffs := b'.coeffs) && IsSum(b'.coeffs, b.coeffs, dx)
      ensures BiasSum(s, b', l, v, s.NumPreds()) - BiasSum(s, b, l, v, s.NumPreds())
           == LinearSum(VariableSetting(s, b.numStatic), dx, l, v, b.numVariable)
    {
      BiasDifference(s, b, dx, b', l, v);
    }
  }

  // The increment of one coefficient by 1
  ghost function UnitIncrement(s: Setting, b: Coefficients, v: nat, p: nat): (dx: seq<real>)
    requires v < s.nvars && p < b.numVariable
    ensures |dx| == s.nvars * b.numVariable
    ensures forall q: nat {:trigger Cell(dx, s.nvars, b.numVariable, v, q)} :: q < b.numVariable ==>
              Cell(dx, s.nvars, b.numVariable, v, q) == if q == p then 1.0 else 0.0
  {
    Tabulated(s.nvars, b.numVariable, (w: nat, q: nat) => if w == v && q == p then 1.0 else 0.0)
  }

  lemma SingleTerm(s: Setting, b: Coefficients, dx: seq<real>, l: nat, v: nat, p: nat)
    requires b.Fits(s) && l < s.nlocs && v < s.nvars && p < b.numVariable && dx == UnitIncrement(s, b, v, p)
    ensures LinearSum(VariableSetting(s, b.numStatic), dx, l, v, b.numVariable) == OrZero(VariablePred(s, b, l, v, p))
  {
    var g := LinearTerms(s, b, dx, l, v);
    SumSingle(b.numVariable, g, p);
  }

  // Two bias corrections and the tangent linear between them at one observation: it is missing where a variable
  // predictor is, and otherwise the difference, or no difference is made.
  ghost predicate Linearized(s: Setting, b: Coefficients, before: seq<Datum>, after: seq<Datum>, dy: seq<Datum>, l: nat,
                             v: nat)
    requires b.Fits(s) && |before| == |after| == |dy| == s.nlocs * s.nvars && l < s.nlocs && v < s.nvars
  {
    var x, y, d := Cell(before, s.nlocs, s.nvars, l, v), Cell(after, s.nlocs, s.nvars, l, v),
                   Cell(dy, s.nlocs, s.nvars, l, v);
    && x.Value? && y.Value?
    && (d.Missing? <==> exists p: nat :: p < b.numVariable && VariablePred(s, b, l, v, p).Missing?)
    && (d.Value? ==> y.v - x.v == if v + 1 in b.chNoBC then 0.0 else d.v)
  }

  lemma IsLinearized(s: Setting, b: Coefficients, dx: seq<real>, b': Coefficients, before: seq<Datum>,
                     after: seq<Datum>, dy: seq<Datum>, l: nat, v: nat)
    requires b.Fits(s) && b'.Fits(s) && l < s.nlocs && v < s.nvars
    requires b' == b.(coeffs := b'.coeffs) && IsSum(b'.coeffs, b.coeffs, dx)
    requires IsBias(s, b, before) && IsBias(s, b', after) && IsTangent(VariableSetting(s, b.numStatic), dx, dy)
    ensures Linearized(s, b, before, after, dy, l, v)
  {
    TangentLinearIsExact(s, b, dx, b', before, after, dy, l, v);
    AbsentIff(s, b, l, v);
  }

  lemma AbsentIff(s: Setting, b: Coefficients, l: nat, v: nat)
    requires b.Fits(s) && l < s.nlocs && v < s.nvars
    ensures VariableSetting(s, b.numStatic).Valid()
    ensures !VariableSetting(s, b.numStatic).Present(l, v) <==>
            exists p: nat :: p < b.numVariable && VariablePred(s, b, l, v, p).Missing?
  {
    var t := VariableSetting(s, b.numStatic);
    assert forall p: nat :: p < b.numVariable ==> t.Pred(l, v, p) == VariablePred(s, b, l, v, p);
  }

  ghost predicate AllLinearized(s: Setting, b: Coefficients, before: seq<Datum>, after: seq<Datum>, dy: seq<Datum>)
    requires b.Fits(s) && |before| == |after| == |dy| == s.nlocs * s.nvars
  {
    forall l: nat, v: nat :: l < s.nlocs && v < s.nvars ==> Linearized(s, b, before, after, dy, l, v)
  }

  lemma AllAreLinearized(s: Setting, b: Coefficients, dx: seq<real>, b': Coefficients, before: seq<Datum>,
                         after: seq<Datum>, dy: seq<Datum>)
    requires b.Fits(s) && b'.Fits(s) && b' == b.(coeffs := b'.coeffs) && IsSum(b'.coeffs, b.coeffs, dx)
    requires IsBias(s, b, before) && IsBias(s, b', after) && IsTangent(VariableSetting(s, b.numStatic), dx, dy)
    ensures AllLinearized(s, b, before, after, dy)
  {
    forall l: nat, v: nat | l < s.nlocs && v < s.nvars ensures Linearized(s, b, before, after, dy, l, v) {
      IsLinearized(s, b, dx, b', before, after, dy, l, v);
    }
  }

  /** The operators together: from one evaluation of the bias to another, with an increment of the coefficients between
      them, the bias changes by the tangent linear of the increment, except in channels without correction. */
  method LinearizeBias(computed: seq<seq<Datum>>, bias: ObsBias, increment: ObsBiasIncrement, op: LinearObsBiasOperator,
                       before: ObsVector, after: ObsVector, dy: ObsVector)
    requires bias.Valid() && increment.Valid() && before.Valid() && after.Valid() && dy.Valid()
    requires before != after && before != dy && after != dy
    requires bias.nvars == increment.nvars == before.nvars == after.nvars == dy.nvars
    requires before.nlocs == after.nlocs == dy.nlocs && increment.npreds == bias.numVariable
    requires bias.AsSeen().Fits(Setting(dy.nlocs, dy.nvars, computed))
    modifies bias, op, before, after, dy
    ensures before.Valid() && after.Valid() && dy.Valid()
    ensures IsSum(bias.biascoeffs, old(bias.biascoeffs), increment.biascoeffsinc)
    ensures AllLinearized(Setting(dy.nlocs, dy.nvars, computed), old(bias.AsSeen()), before.values, after.values,
                          dy.values)
  {
    ghost var s, b := Setting(dy.nlocs, dy.nvars, computed), bias.AsSeen();
    op.SetTrajectory(computed, bias.numStatic);
    assert op.predData == computed[bias.numStatic..];
    var predData := ComputeObsBias(computed, before, bias);
    bias.PlusAssign(increment);
    ghost var b' := bias.AsSeen();
    predData := ComputeObsBias(computed, after, bias);
    op.ComputeObsBiasTL(increment, dy);
    AllAreLinearized(s, b, increment.biascoeffsinc, b', before.values, after.values, dy.values);
  }
}
