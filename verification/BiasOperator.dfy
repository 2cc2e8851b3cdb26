/**
 The variational bias correction: the nonlinear operator, its tangent linear and its adjoint,
 over the flattened observation (location-major) and coefficient (variable-major) layouts.
 */
module BiasOperator {
  import opened Missing
  import opened Sums
  import opened Layout
  import opened ObsVectors

  // Sizes shared by an operator application, and the predictor data: one observation vector
  // of nlocs x nvars entries for each variable predictor.
  datatype Setting = Setting(nlocs: nat, nvars: nat, preds: seq<seq<Datum>>) {

    function NumPreds(): nat { |preds| }

    ghost predicate Valid() {
      forall p :: 0 <= p < |preds| ==> |preds[p]| == nlocs * nvars
    }

    function Pred(l: nat, v: nat, p: nat): (d: Datum)
      requires Valid() && l < nlocs && v < nvars && p < |preds|
    {
      Cell(preds[p], nlocs, nvars, l, v)
    }

    // No predictor is missing at this observation.
    predicate Present(l: nat, v: nat)
      requires Valid() && l < nlocs && v < nvars
    {
      forall p: nat :: p < |preds| ==> Pred(l, v, p).Value?
    }
  }

  // ---------------------------------------------------------------------------
  // Coefficient increments, flattened variable by variable

  function CoeffDot(x: seq<real>, y: seq<real>): (s: real)
    requires |x| == |y|
  {
    Sum(|x|, (k: nat) => if k < |x| then x[k] * y[k] else 0.0)
  }

  class ObsBiasIncrement {
    const nvars: nat
    const npreds: nat
    var biascoeffsinc: seq<real>

    ghost predicate Valid()
      reads this
    {
      |biascoeffsinc| == nvars * npreds
    }

    constructor (nvars: nat, npreds: nat)
      ensures Valid() && this.nvars == nvars && this.npreds == npreds
      ensures biascoeffsinc == seq(nvars * npreds, _ => 0.0)
    {
      this.nvars, this.npreds := nvars, npreds;
      biascoeffsinc := seq(nvars * npreds, _ => 0.0);
    }

    method Coefficients(jpred: nat) returns (coeffs: seq<real>)
      requires Valid() && jpred < npreds
      ensures |coeffs| == nvars
      ensures forall v: nat :: v < nvars ==> coeffs[v] == Cell(biascoeffsinc, nvars, npreds, v, jpred)
    {
      coeffs := seq(nvars, _ => 0.0);
      for jvar := 0 to nvars
        invariant |coeffs| == nvars
        invariant forall v: nat :: v < jvar ==> coeffs[v] == Cell(biascoeffsinc, nvars, npreds, v, jpred)
      {
        coeffs := coeffs[jvar := Cell(biascoeffsinc, nvars, npreds, jvar, jpred)];
      }
    }

    method UpdateCoeff(jpred: nat, coeffs: seq<real>)
      requires Valid() && jpred < npreds && |coeffs| == nvars
      modifies this
      ensures Valid()
      ensures forall v: nat, p: nat {:trigger Cell(biascoeffsinc, nvars, npreds, v, p)} :: v < nvars && p < npreds ==>
                Cell(biascoeffsinc, nvars, npreds, v, p)
                == Cell(old(biascoeffsinc), nvars, npreds, v, p) + (if p == jpred then coeffs[v] else 0.0)
    {
      ghost var before := biascoeffsinc;
      for jj := 0 to nvars
        invariant Valid()
        invariant forall v: nat, p: nat {:trigger Cell(biascoeffsinc, nvars, npreds, v, p)} ::
                    v < nvars && p < npreds ==>
                    Cell(biascoeffsinc, nvars, npreds, v, p)
                    == Cell(before, nvars, npreds, v, p) + (if p == jpred && v < jj then coeffs[v] else 0.0)
      {
        biascoeffsinc := Put(biascoeffsinc, nvars, npreds, jj, jpred,
                             Cell(biascoeffsinc, nvars, npreds, jj, jpred) + coeffs[jj]);
      }
    }

    method Axpy(fact: real, rhs: ObsBiasIncrement)
      requires Valid() && rhs.Valid() && |rhs.biascoeffsinc| == |biascoeffsinc|
      modifies this
      ensures Valid()
      ensures forall k :: 0 <= k < |biascoeffsinc| ==>
                biascoeffsinc[k] == old(biascoeffsinc)[k] + fact * old(rhs.biascoeffsinc)[k]
    {
      var x, y := biascoeffsinc, rhs.biascoeffsinc;
      biascoeffsinc := seq(|x|, k requires 0 <= k < |x| => x[k] + fact * y[k]);
    }

    method Serialize(vect: seq<real>) returns (vect': seq<real>)
      requires Valid()
      ensures vect' == vect + biascoeffsinc
    {
      vect' := vect + biascoeffsinc;
    }

    // Reads as many entries as the increment holds, from position index on.
    method Deserialize(vect: seq<real>, index: nat) returns (index': nat)
      requires Valid() && index + |biascoeffsinc| <= |vect|
      modifies this
      ensures Valid() && index' == index + |biascoeffsinc|
      ensures biascoeffsinc == vect[index..index']
    {
      index' := index;
      ghost var n := |biascoeffsinc|;
      for jj := 0 to |biascoeffsinc|
        invariant |biascoeffsinc| == n && index' == index + jj
        invariant forall k :: 0 <= k < jj ==> biascoeffsinc[k] == vect[index + k]
      {
        biascoeffsinc := biascoeffsinc[jj := vect[index']];
        index' := index' + 1;
      }
    }
  }

  // Writing two increments one after the other and reading them back restores both.
  method SerializeRoundTrip(a: ObsBiasIncrement, b: ObsBiasIncrement, a': ObsBiasIncrement, b': ObsBiasIncrement)
    requires a.Valid() && b.Valid() && a'.Valid() && b'.Valid()
    requires a'.nvars == a.nvars && a'.npreds == a.npreds && b'.nvars == b.nvars && b'.npreds == b.npreds
    requires a != a' && a != b' && b != a' && b != b' && a' != b'
    modifies a', b'
    ensures a'.biascoeffsinc == a.biascoeffsinc && b'.biascoeffsinc == b.biascoeffsinc
  {
    var vect := a.Serialize([]);
    vect := b.Serialize(vect);
    var index := a'.Deserialize(vect, 0);
    index := b'.Deserialize(vect, index);
  }

  // ---------------------------------------------------------------------------
  // Tangent linear and adjoint

  // The sum over the first k predictors of coefficient times predictor at one observation
  function LinearSum(s: Setting, x: seq<real>, l: nat, v: nat, k: nat): (r: real)
    requires s.Valid() && |x| == s.nvars * s.NumPreds() && l < s.nlocs && v < s.nvars
  {
    Sum(k, (p: nat) => if p < s.NumPreds() then Cell(x, s.nvars, s.NumPreds(), v, p) * OrZero(s.Pred(l, v, p)) else 0.0)
  }

  // The value accumulated at one observation after the first k predictors
  function PartialTangent(s: Setting, x: seq<real>, l: nat, v: nat, k: nat): (d: Datum)
    requires s.Valid() && |x| == s.nvars * s.NumPreds() && l < s.nlocs && v < s.nvars && k <= s.NumPreds()
  {
    if forall p: nat :: p < k ==> s.Pred(l, v, p).Value? then Value(LinearSum(s, x, l, v, k)) else Missing
  }

  ghost predicate IsPartialTangent(s: Setting, x: seq<real>, u: seq<Datum>, k: nat)
    requires s.Valid() && |x| == s.nvars * s.NumPreds() && k <= s.NumPreds()
  {
    && |u| == s.nlocs * s.nvars
    && forall l: nat, v: nat {:trigger Cell(u, s.nlocs, s.nvars, l, v)} :: l < s.nlocs && v < s.nvars ==>
         Cell(u, s.nlocs, s.nvars, l, v) == PartialTangent(s, x, l, v, k)
  }

  lemma PartialTangentStep(s: Setting, x: seq<real>, u: seq<Datum>, k: nat, beta: seq<real>, u': seq<Datum>)
    requires s.Valid() && |x| == s.nvars * s.NumPreds() && k < s.NumPreds()
    requires IsPartialTangent(s, x, u, k)
    requires |beta| == s.nvars && forall v: nat :: v < s.nvars ==> beta[v] == Cell(x, s.nvars, s.NumPreds(), v, k)
    requires IsAxpy(s.nlocs, s.nvars, u, beta, s.preds[k], u')
    ensures IsPartialTangent(s, x, u', k + 1)
  {
    forall l: nat, v: nat | l < s.nlocs && v < s.nvars
      ensures Cell(u', s.nlocs, s.nvars, l, v) == PartialTangent(s, x, l, v, k + 1)
    {
      assert Cell(u, s.nlocs, s.nvars, l, v) == PartialTangent(s, x, l, v, k);
      assert Cell(s.preds[k], s.nlocs, s.nvars, l, v) == s.Pred(l, v, k);
    }
  }

  lemma PartialTangentStart(s: Setting, x: seq<real>, u: seq<Datum>)
    requires s.Valid() && |x| == s.nvars * s.NumPreds() && |u| == s.nlocs * s.nvars
    requires forall k :: 0 <= k < |u| ==> u[k] == Value(0.0)
    ensures IsPartialTangent(s, x, u, 0)
  {
    forall l: nat, v: nat | l < s.nlocs && v < s.nvars
      ensures Cell(u, s.nlocs, s.nvars, l, v) == PartialTangent(s, x, l, v, 0)
    {
      InRange(s.nlocs, s.nvars, l, v);
      assert Cell(u, s.nlocs, s.nvars, l, v) == u[Flat(s.nvars, l, v)];
    }
  }

  // u is the tangent linear applied to the coefficient increment x.
  ghost predicate IsTangent(s: Setting, x: seq<real>, u: seq<Datum>)
    requires s.Valid() && |x| == s.nvars * s.NumPreds()
  {
    && |u| == s.nlocs * s.nvars
    && forall l: nat, v: nat {:trigger Cell(u, s.nlocs, s.nvars, l, v)} :: l < s.nlocs && v < s.nvars ==>
         Cell(u, s.nlocs, s.nvars, l, v)
         == if s.Present(l, v) then Value(LinearSum(s, x, l, v, s.NumPreds())) else Missing
  }

  lemma PartialTangentEnd(s: Setting, x: seq<real>, u: seq<Datum>)
    requires s.Valid() && |x| == s.nvars * s.NumPreds()
    requires IsPartialTangent(s, x, u, s.NumPreds())
    ensures IsTangent(s, x, u)
  {
    forall l: nat, v: nat | l < s.nlocs && v < s.nvars
      ensures Cell(u, s.nlocs, s.nvars, l, v)
           == if s.Present(l, v) then Value(LinearSum(s, x, l, v, s.NumPreds())) else Missing
    {
      assert Cell(u, s.nlocs, s.nvars, l, v) == PartialTangent(s, x, l, v, s.NumPreds());
    }
  }

  // c is the increment c0 after the adjoint has accumulated the sensitivity y into it.
  ghost predicate IsAdjoint(s: Setting, c0: seq<real>, y: seq<Datum>, c: seq<real>)
    requires s.Valid() && |c0| == s.nvars * s.NumPreds() && |y| == s.nlocs * s.nvars
  {
    && |c| == |c0|
    && forall v: nat, p: nat {:trigger Cell(c, s.nvars, s.NumPreds(), v, p)} :: v < s.nvars && p < s.NumPreds() ==>
         Cell(c, s.nvars, s.NumPreds(), v, p)
         == Cell(c0, s.nvars, s.NumPreds(), v, p) + VariableDot(s.nlocs, s.nvars, s.preds[p], y, v)
  }

  class LinearObsBiasOperator {
    var predData: seq<seq<Datum>>

    constructor ()
      ensures predData == []
    {
      predData := [];
    }

    // Keeps the data of the variable predictors only; computed holds one vector per predictor, static ones first.
    method SetTrajectory(computed: seq<seq<Datum>>, numStatic: nat)
      requires numStatic <= |computed|
      modifies this
      ensures numStatic + |predData| == |computed|
      ensures forall p :: 0 <= p < |predData| ==> predData[p] == computed[numStatic + p]
    {
      predData := computed[numStatic..];
    }

    method ComputeObsBiasTL(biascoeffinc: ObsBiasIncrement, ybiasinc: ObsVector)
      requires biascoeffinc.Valid() && ybiasinc.Valid()
      requires Setting(ybiasinc.nlocs, ybiasinc.nvars, predData).Valid()
      requires biascoeffinc.nvars == ybiasinc.nvars && biascoeffinc.npreds == |predData|
      modifies ybiasinc
      ensures ybiasinc.Valid()
      ensures IsTangent(Setting(ybiasinc.nlocs, ybiasinc.nvars, predData), biascoeffinc.biascoeffsinc, ybiasinc.values)
    {
      ghost var s := Setting(ybiasinc.nlocs, ybiasinc.nvars, predData);
      ghost var x := biascoeffinc.biascoeffsinc;
      var npreds := |predData|;
      ybiasinc.Zero();
      PartialTangentStart(s, x, ybiasinc.values);
      for jpred := 0 to npreds
        invariant ybiasinc.Valid()
        invariant IsPartialTangent(s, x, ybiasinc.values, jpred)
      {
        ghost var before := ybiasinc.values;
        var coeffs := biascoeffinc.Coefficients(jpred);
        ybiasinc.Axpy(coeffs, predData[jpred]);
        PartialTangentStep(s, x, before, jpred, coeffs, ybiasinc.values);
      }
      PartialTangentEnd(s, x, ybiasinc.values);
    }

    method ComputeObsBiasAD(biascoeffinc: ObsBiasIncrement, ybiasinc: ObsVector)
      requires biascoeffinc.Valid() && ybiasinc.Valid()
      requires Setting(ybiasinc.nlocs, ybiasinc.nvars, predData).Valid()
      requires biascoeffinc.nvars == ybiasinc.nvars && biascoeffinc.npreds == |predData|
      modifies biascoeffinc
      ensures biascoeffinc.Valid()
      ensures IsAdjoint(Setting(ybiasinc.nlocs, ybiasinc.nvars, predData), old(biascoeffinc.biascoeffsinc),
                        ybiasinc.values, biascoeffinc.biascoeffsinc)
    {
      ghost var s := Setting(ybiasinc.nlocs, ybiasinc.nvars, predData);
      ghost var c0 := biascoeffinc.biascoeffsinc;
      var npreds := |predData|;
      for jpred := 0 to npreds
        invariant biascoeffinc.Valid()
        invariant forall v: nat, p: nat {:trigger Cell(biascoeffinc.biascoeffsinc, s.nvars, npreds, v, p)} ::
                    v < s.nvars && p < npreds ==>
                      Cell(biascoeffinc.biascoeffsinc, s.nvars, npreds, v, p)
                      == Cell(c0, s.nvars, npreds, v, p)
                         + (if p < jpred then VariableDot(s.nlocs, s.nvars, s.preds[p], ybiasinc.values, v) else 0.0)
      {
        var dots := MultivarDot(ybiasinc.nlocs, ybiasinc.nvars, predData[jpred], ybiasinc.values);
        biascoeffinc.UpdateCoeff(jpred, dots);
      }
    }
  }

  // ---------------------------------------------------------------------------
  // The adjoint identity

  // y is missing wherever some predictor is missing.
  ghost predicate Masked(s: Setting, y: seq<Datum>)
    requires s.Valid() && |y| == s.nlocs * s.nvars
  {
    forall l: nat, v: nat {:trigger s.Present(l, v)} :: l < s.nlocs && v < s.nvars ==>
      Cell(y, s.nlocs, s.nvars, l, v).Value? ==> s.Present(l, v)
  }

  function PairTerm(s: Setting, u: seq<Datum>, y: seq<Datum>, l: nat, v: nat): (r: real)
    requires |u| == |y| == s.nlocs * s.nvars
  {
    if l < s.nlocs && v < s.nvars
    then OrZero(Cell(u, s.nlocs, s.nvars, l, v)) * OrZero(Cell(y, s.nlocs, s.nvars, l, v)) else 0.0
  }

  // coefficient * predictor * sensitivity
  function TripleTerm(s: Setting, x: seq<real>, y: seq<Datum>, l: nat, v: nat, p: nat): (r: real)
    requires s.Valid() && |x| == s.nvars * s.NumPreds() && |y| == s.nlocs * s.nvars
  {
    if l < s.nlocs && v < s.nvars && p < s.NumPreds()
    then OrZero(Cell(y, s.nlocs, s.nvars, l, v)) * (Cell(x, s.nvars, s.NumPreds(), v, p) * OrZero(s.Pred(l, v, p)))
    else 0.0
  }

  lemma TangentPairTerm(s: Setting, x: seq<real>, y: seq<Datum>, u: seq<Datum>, l: nat, v: nat)
    requires s.Valid() && |x| == s.nvars * s.NumPreds() && |y| == s.nlocs * s.nvars
    requires IsTangent(s, x, u) && Masked(s, y) && l < s.nlocs && v < s.nvars
    ensures PairTerm(s, u, y, l, v) == Sum(s.NumPreds(), (p: nat) => TripleTerm(s, x, y, l, v, p))
  {
    var np := s.NumPreds();
    var term := (p: nat) => TripleTerm(s, x, y, l, v, p);
    var yv := OrZero(Cell(y, s.nlocs, s.nvars, l, v));
    if s.Present(l, v) {
      var f := (p: nat) => if p < np then Cell(x, s.nvars, np, v, p) * OrZero(s.Pred(l, v, p)) else 0.0;
      SumScale(np, yv, f, term);
      SumExt(np, f, (p: nat) => if p < s.NumPreds()
                                then Cell(x, s.nvars, s.NumPreds(), v, p) * OrZero(s.Pred(l, v, p)) else 0.0);
      assert Cell(u, s.nlocs, s.nvars, l, v) == Value(LinearSum(s, x, l, v, np));
    } else {
      assert Cell(u, s.nlocs, s.nvars, l, v) == Missing;
      SumZero(np, term);
    }
  }

  lemma AdjointCoefficientTerm(s: Setting, x: seq<real>, y: seq<Datum>, v: nat, p: nat)
    requires s.Valid() && |x| == s.nvars * s.NumPreds() && |y| == s.nlocs * s.nvars
    requires v < s.nvars && p < s.NumPreds()
    ensures Cell(x, s.nvars, s.NumPreds(), v, p) * VariableDot(s.nlocs, s.nvars, s.preds[p], y, v)
         == Sum(s.nlocs, (l: nat) => TripleTerm(s, x, y, l, v, p))
  {
    var f := (l: nat) => if l < s.nlocs
                         then OrZero(Cell(s.preds[p], s.nlocs, s.nvars, l, v)) * OrZero(Cell(y, s.nlocs, s.nvars, l, v))
                         else 0.0;
    var xv := Cell(x, s.nvars, s.NumPreds(), v, p);
    var term := (l: nat) => TripleTerm(s, x, y, l, v, p);
    forall l: nat | l < s.nlocs ensures term(l) == xv * f(l) {
      assert s.Pred(l, v, p) == Cell(s.preds[p], s.nlocs, s.nvars, l, v);
      MulRotate(OrZero(Cell(y, s.nlocs, s.nvars, l, v)), xv, OrZero(s.Pred(l, v, p)));
    }
    SumScale(s.nlocs, xv, f, term);
    SumExt(s.nlocs, f, (l: nat) => if l < s.nlocs
                                   then OrZero(Cell(s.preds[p], s.nlocs, s.nvars, l, v))
                                     * OrZero(Cell(y, s.nlocs, s.nvars, l, v))
                                   else 0.0);
  }

  lemma MulRotate(a: real, b: real, c: real)
    ensures a * (b * c) == b * (c * a)
  {
  }

  // The part of both inner products that belongs to one variable
  lemma AdjointForVariable(s: Setting, x: seq<real>, y: seq<Datum>, u: seq<Datum>, v: nat, left: nat -> real,
                           right: nat -> real)
    requires s.Valid() && |x| == s.nvars * s.NumPreds() && |y| == s.nlocs * s.nvars
    requires IsTangent(s, x, u) && Masked(s, y) && v < s.nvars
    requires forall l: nat :: l < s.nlocs ==> left(l) == PairTerm(s, u, y, l, v)
    requires forall p: nat :: p < s.NumPreds() ==>
               right(p) == Cell(x, s.nvars, s.NumPreds(), v, p) * VariableDot(s.nlocs, s.nvars, s.preds[p], y, v)
    ensures Sum(s.nlocs, left) == Sum(s.NumPreds(), right)
  {
    var f := (l: nat, p: nat) => TripleTerm(s, x, y, l, v, p);
    forall l: nat | l < s.nlocs ensures left(l) == Sum(s.NumPreds(), (p: nat) => f(l, p)) {
      TangentPairTerm(s, x, y, u, l, v);
      SumExt(s.NumPreds(), (p: nat) => TripleTerm(s, x, y, l, v, p), (p: nat) => f(l, p));
    }
    forall p: nat | p < s.NumPreds() ensures right(p) == Sum(s.nlocs, (l: nat) => f(l, p)) {
      AdjointCoefficientTerm(s, x, y, v, p);
      SumExt(s.nlocs, (l: nat) => TripleTerm(s, x, y, l, v, p), (l: nat) => f(l, p));
    }
    SumSwap(s.nlocs, s.NumPreds(), f, left, right);
  }

  // The flattened inner product, variable by variable
  lemma ObsDotByVariable(s: Setting, u: seq<Datum>, y: seq<Datum>)
    requires |u| == |y| == s.nlocs * s.nvars
    ensures ObsDot(u, y) == Sum(s.nvars, (v: nat) => Sum(s.nlocs, (l: nat) => PairTerm(s, u, y, l, v)))
  {
    var flat := (k: nat) => if k < |u| then OrZero(u[k]) * OrZero(y[k]) else 0.0;
    var f := (l: nat, v: nat) => PairTerm(s, u, y, l, v);
    var rows := (l: nat) => Sum(s.nvars, (v: nat) => f(l, v));
    forall l: nat | l < s.nlocs ensures rows(l) == Sum(s.nvars, (v: nat) => flat(l * s.nvars + v)) {
      forall v: nat | v < s.nvars ensures f(l, v) == flat(l * s.nvars + v) {
        InRange(s.nlocs, s.nvars, l, v);
      }
      SumExt(s.nvars, (v: nat) => f(l, v), (v: nat) => flat(l * s.nvars + v));
    }
    SumFlat(s.nlocs, s.nvars, flat, rows);
    var columns := (v: nat) => Sum(s.nlocs, (l: nat) => PairTerm(s, u, y, l, v));
    forall v: nat | v < s.nvars ensures columns(v) == Sum(s.nlocs, (l: nat) => f(l, v)) {
      SumExt(s.nlocs, (l: nat) => PairTerm(s, u, y, l, v), (l: nat) => f(l, v));
    }
    SumSwap(s.nlocs, s.nvars, f, rows, columns);
    SumExt(s.nlocs * s.nvars, flat, (k: nat) => if k < |u| then OrZero(u[k]) * OrZero(y[k]) else 0.0);
    SumExt(s.nvars, columns, (v: nat) => Sum(s.nlocs, (l: nat) => PairTerm(s, u, y, l, v)));
  }

  function CoeffTerm(nvars: nat, npreds: nat, x: seq<real>, y: seq<real>, v: nat, p: nat): (r: real)
    requires |x| == |y| == nvars * npreds
  {
    if v < nvars && p < npreds then Cell(x, nvars, npreds, v, p) * Cell(y, nvars, npreds, v, p) else 0.0
  }

  lemma CoeffDotByVariable(nvars: nat, npreds: nat, x: seq<real>, y: seq<real>)
    requires |x| == |y| == nvars * npreds
    ensures CoeffDot(x, y) == Sum(nvars, (v: nat) => Sum(npreds, (p: nat) => CoeffTerm(nvars, npreds, x, y, v, p)))
  {
    var flat := (k: nat) => if k < |x| then x[k] * y[k] else 0.0;
    var rows := (v: nat) => Sum(npreds, (p: nat) => CoeffTerm(nvars, npreds, x, y, v, p));
    forall v: nat | v < nvars ensures rows(v) == Sum(npreds, (p: nat) => flat(v * npreds + p)) {
      forall p: nat | p < npreds ensures CoeffTerm(nvars, npreds, x, y, v, p) == flat(v * npreds + p) {
        InRange(nvars, npreds, v, p);
      }
      SumExt(npreds, (p: nat) => CoeffTerm(nvars, npreds, x, y, v, p), (p: nat) => flat(v * npreds + p));
    }
    SumFlat(nvars, npreds, flat, rows);
    SumExt(nvars * npreds, flat, (k: nat) => if k < |x| then x[k] * y[k] else 0.0);
    SumExt(nvars, rows, (v: nat) => Sum(npreds, (p: nat) => CoeffTerm(nvars, npreds, x, y, v, p)));
  }

  lemma CoeffDotDifference(s: Setting, x: seq<real>, c0: seq<real>, y: seq<Datum>, c: seq<real>, v: nat,
                           right: nat -> real)
    requires s.Valid() && |x| == |c0| == s.nvars * s.NumPreds() && |y| == s.nlocs * s.nvars
    requires IsAdjoint(s, c0, y, c) && v < s.nvars
    requires forall p: nat :: p < s.NumPreds() ==>
               right(p) == Cell(x, s.nvars, s.NumPreds(), v, p) * VariableDot(s.nlocs, s.nvars, s.preds[p], y, v)
    ensures Sum(s.NumPreds(), (p: nat) => CoeffTerm(s.nvars, s.NumPreds(), x, c, v, p))
         == Sum(s.NumPreds(), (p: nat) => CoeffTerm(s.nvars, s.NumPreds(), x, c0, v, p)) + Sum(s.NumPreds(), right)
  {
    var np := s.NumPreds();
    var after := (p: nat) => CoeffTerm(s.nvars, np, x, c, v, p);
    var before := (p: nat) => CoeffTerm(s.nvars, np, x, c0, v, p);
    forall p: nat | p < np ensures after(p) == before(p) + right(p) {
      var d := VariableDot(s.nlocs, s.nvars, s.preds[p], y, v);
      assert Cell(c, s.nvars, np, v, p) == Cell(c0, s.nvars, np, v, p) + d;
      Distribute(Cell(x, s.nvars, np, v, p), Cell(c0, s.nvars, np, v, p), d);
    }
    SumAdd(np, before, right, after);
    SumExt(np, after, (p: nat) => CoeffTerm(s.nvars, s.NumPreds(), x, c, v, p));
    SumExt(np, before, (p: nat) => CoeffTerm(s.nvars, s.NumPreds(), x, c0, v, p));
  }

  lemma Distribute(a: real, b: real, c: real)
    ensures a * (b + c) == a * b + a * c
  {
  }

  /** <TL x, y> equals <x, AD(c0, y)> - <x, c0>, whatever increment c0 the adjoint starts from. */
  lemma AdjointIdentity(s: Setting, x: seq<real>, u: seq<Datum>, c0: seq<real>, y: seq<Datum>, c: seq<real>)
    requires s.Valid() && |x| == |c0| == s.nvars * s.NumPreds() && |y| == s.nlocs * s.nvars
    requires IsTangent(s, x, u) && IsAdjoint(s, c0, y, c)
    requires Masked(s, y)
    ensures ObsDot(u, y) == CoeffDot(x, c) - CoeffDot(x, c0)
  {
    var np := s.NumPreds();
    ObsDotByVariable(s, u, y);
    CoeffDotByVariable(s.nvars, np, x, c);
    CoeffDotByVariable(s.nvars, np, x, c0);
    var obs := (v: nat) => Sum(s.nlocs, (l: nat) => PairTerm(s, u, y, l, v));
    var after := (v: nat) => Sum(np, (p: nat) => CoeffTerm(s.nvars, np, x, c, v, p));
    var before := (v: nat) => Sum(np, (p: nat) => CoeffTerm(s.nvars, np, x, c0, v, p));
    forall v: nat | v < s.nvars ensures after(v) == before(v) + obs(v) {
      var left := (l: nat) => PairTerm(s, u, y, l, v);
      var right := (p: nat) => if p < np
                               then Cell(x, s.nvars, np, v, p) * VariableDot(s.nlocs, s.nvars, s.preds[p], y, v)
                               else 0.0;
      AdjointForVariable(s, x, y, u, v, left, right);
      CoeffDotDifference(s, x, c0, y, c, v, right);
      SumExt(s.nlocs, left, (l: nat) => PairTerm(s, u, y, l, v));
      SumExt(np, (p: nat) => CoeffTerm(s.nvars, np, x, c, v, p),
             (p: nat) => CoeffTerm(s.nvars, s.NumPreds(), x, c, v, p));
      SumExt(np, (p: nat) => CoeffTerm(s.nvars, np, x, c0, v, p),
             (p: nat) => CoeffTerm(s.nvars, s.NumPreds(), x, c0, v, p));
    }
    SumAdd(s.nvars, before, obs, after);
    SumExt(s.nvars, obs, (v: nat) => Sum(s.nlocs, (l: nat) => PairTerm(s, u, y, l, v)));
    SumExt(s.nvars, after, (v: nat) => Sum(np, (p: nat) => CoeffTerm(s.nvars, np, x, c, v, p)));
    SumExt(s.nvars, before, (v: nat) => Sum(np, (p: nat) => CoeffTerm(s.nvars, np, x, c0, v, p)));
  }
}
