/** The adjoint of the bias operator where predictors are missing: it reads products the tangent linear skips. */
module AdjointDefect {
  import opened Missing
  import opened Sums
  import opened Layout
  import opened ObsVectors
  import opened BiasOperator
  import opened Reals

  // What the entries of y at observations with some missing predictor add to the coefficient of predictor p
  function Hidden(s: Setting, y: seq<Datum>, v: nat, p: nat): (r: real)
    requires s.Valid() && |y| == s.nlocs * s.nvars && v < s.nvars && p < s.NumPreds()
  {
    Sum(s.nlocs, (l: nat) => if l < s.nlocs && !s.Present(l, v)
                             then OrZero(s.Pred(l, v, p)) * OrZero(Cell(y, s.nlocs, s.nvars, l, v)) else 0.0)
  }

  ghost predicate IsHidden(s: Setting, y: seq<Datum>, h: seq<real>)
    requires s.Valid() && |y| == s.nlocs * s.nvars
  {
    && |h| == s.nvars * s.NumPreds()
    && forall v: nat, p: nat {:trigger Cell(h, s.nvars, s.NumPreds(), v, p)} :: v < s.nvars && p < s.NumPreds() ==>
         Cell(h, s.nvars, s.NumPreds(), v, p) == Hidden(s, y, v, p)
  }

  // y without its entries at observations with some missing predictor
  ghost function Visible(s: Setting, y: seq<Datum>): (y': seq<Datum>)
    requires s.Valid() && |y| == s.nlocs * s.nvars
    ensures |y'| == |y|
    ensures forall l: nat, v: nat {:trigger Cell(y', s.nlocs, s.nvars, l, v)} :: l < s.nlocs && v < s.nvars ==>
              Cell(y', s.nlocs, s.nvars, l, v) == if s.Present(l, v) then Cell(y, s.nlocs, s.nvars, l, v) else Missing
  {
    Tabulated(s.nlocs, s.nvars, (l: nat, v: nat) =>
      if l < s.nlocs && v < s.nvars && s.Present(l, v) then Cell(y, s.nlocs, s.nvars, l, v) else Missing)
  }

  lemma TangentExists(s: Setting, x: seq<real>) returns (u: seq<Datum>)
    requires s.Valid() && |x| == s.nvars * s.NumPreds()
    ensures IsTangent(s, x, u)
  {
    u := Tabulated(s.nlocs, s.nvars, (l: nat, v: nat) =>
      if l < s.nlocs && v < s.nvars && s.Present(l, v) then Value(LinearSum(s, x, l, v, s.NumPreds())) else Missing);
  }

  // Each coefficient of the adjoint is that of the visible part plus the hidden one.
  lemma VariableDotSplits(s: Setting, y: seq<Datum>, v: nat, p: nat)
    requires s.Valid() && |y| == s.nlocs * s.nvars && v < s.nvars && p < s.NumPreds()
    ensures VariableDot(s.nlocs, s.nvars, s.preds[p], y, v)
            == VariableDot(s.nlocs, s.nvars, s.preds[p], Visible(s, y), v) + Hidden(s, y, v, p)
  {
    var y' := Visible(s, y);
    var all := (l: nat) =>
      if l < s.nlocs then OrZero(Cell(s.preds[p], s.nlocs, s.nvars, l, v)) * OrZero(Cell(y, s.nlocs, s.nvars, l, v))
      else 0.0;
    var seen := (l: nat) =>
      if l < s.nlocs then OrZero(Cell(s.preds[p], s.nlocs, s.nvars, l, v)) * OrZero(Cell(y', s.nlocs, s.nvars, l, v))
      else 0.0;
    var hidden := (l: nat) => if l < s.nlocs && !s.Present(l, v)
                              then OrZero(s.Pred(l, v, p)) * OrZero(Cell(y, s.nlocs, s.nvars, l, v)) else 0.0;
    SumAdd(s.nlocs, seen, hidden, all);
    assert VariableDot(s.nlocs, s.nvars, s.preds[p], y, v) == Sum(s.nlocs, all);
    assert VariableDot(s.nlocs, s.nvars, s.preds[p], y', v) == Sum(s.nlocs, seen);
    assert Hidden(s, y, v, p) == Sum(s.nlocs, hidden);
  }

  // The tangent linear is missing where y is hidden.
  lemma VisibleDot(s: Setting, x: seq<real>, u: seq<Datum>, y: seq<Datum>)
    requires s.Valid() && |x| == s.nvars * s.NumPreds() && |y| == s.nlocs * s.nvars && IsTangent(s, x, u)
    ensures ObsDot(u, y) == ObsDot(u, Visible(s, y))
  {
    var y' := Visible(s, y);
    var f := (k: nat) => if k < |u| then OrZero(u[k]) * OrZero(y[k]) else 0.0;
    var g := (k: nat) => if k < |u| then OrZero(u[k]) * OrZero(y'[k]) else 0.0;
    forall k: nat | k < |u| ensures f(k) == g(k) {
      var l, v := Surjective(s.nlocs, s.nvars, k);
      assert u[k] == Cell(u, s.nlocs, s.nvars, l, v) && y[k] == Cell(y, s.nlocs, s.nvars, l, v)
             && y'[k] == Cell(y', s.nlocs, s.nvars, l, v);
    }
    SumExt(|u|, f, g);
    assert ObsDot(u, y) == Sum(|u|, f) && ObsDot(u, y') == Sum(|u|, g);
  }

  // The adjoint of the visible part
  function Subtracted(c: seq<real>, h: seq<real>): (d: seq<real>)
    requires |c| == |h|
  {
    seq(|c|, (k: nat) requires k < |c| => c[k] - h[k])
  }

  lemma VisibleAdjoint(s: Setting, c0: seq<real>, y: seq<Datum>, c: seq<real>, h: seq<real>)
    requires s.Valid() && |c0| == s.nvars * s.NumPreds() && |y| == s.nlocs * s.nvars
    requires IsAdjoint(s, c0, y, c) && IsHidden(s, y, h)
    ensures IsAdjoint(s, c0, Visible(s, y), Subtracted(c, h))
  {
    var d, np := Subtracted(c, h), s.NumPreds();
    forall v: nat, p: nat | v < s.nvars && p < np
      ensures Cell(d, s.nvars, np, v, p)
              == Cell(c0, s.nvars, np, v, p) + VariableDot(s.nlocs, s.nvars, s.preds[p], Visible(s, y), v)
    {
      InRange(s.nvars, np, v, p);
      VariableDotSplits(s, y, v, p);
      assert Cell(d, s.nvars, np, v, p) == Cell(c, s.nvars, np, v, p) - Cell(h, s.nvars, np, v, p);
    }
  }

  lemma CoeffDotSubtracted(x: seq<real>, c: seq<real>, h: seq<real>)
    requires |x| == |c| == |h|
    ensures CoeffDot(x, c) == CoeffDot(x, Subtracted(c, h)) + CoeffDot(x, h)
  {
    var d := Subtracted(c, h);
    var f := (k: nat) => if k < |x| then x[k] * d[k] else 0.0;
    var g := (k: nat) => if k < |x| then x[k] * h[k] else 0.0;
    var e := (k: nat) => if k < |x| then x[k] * c[k] else 0.0;
    forall k: nat | k < |x| ensures e(k) == f(k) + g(k) { Distribute(x[k], d[k], h[k]); }
    SumAdd(|x|, f, g, e);
    assert CoeffDot(x, c) == Sum(|x|, e) && CoeffDot(x, d) == Sum(|x|, f) && CoeffDot(x, h) == Sum(|x|, g);
  }

  /** For every y, masked or not: <TL x, y> = <x, AD(c0, y)> - <x, c0> - <x, h>, h being what hidden entries add. */
  lemma AdjointDefect(s: Setting, x: seq<real>, u: seq<Datum>, c0: seq<real>, y: seq<Datum>, c: seq<real>, h: seq<real>)
    requires s.Valid() && |x| == |c0| == s.nvars * s.NumPreds() && |y| == s.nlocs * s.nvars
    requires IsTangent(s, x, u) && IsAdjoint(s, c0, y, c) && IsHidden(s, y, h)
    ensures ObsDot(u, y) == CoeffDot(x, c) - CoeffDot(x, c0) - CoeffDot(x, h)
  {
    VisibleDot(s, x, u, y);
    VisibleAdjoint(s, c0, y, c, h);
    AdjointIdentity(s, x, u, c0, Visible(s, y), Subtracted(c, h));
    CoeffDotSubtracted(x, c, h);
  }

  lemma {:induction false} SquaresVanish(n: nat, f: nat -> real)
    requires (forall k: nat :: k < n ==> f(k) >= 0.0) && Sum(n, f) == 0.0
    ensures forall k: nat :: k < n ==> f(k) == 0.0
  {
    if n > 0 {
      SumNonNegative(n - 1, f);
      SquaresVanish(n - 1, f);
    }
  }

  lemma NormZero(h: seq<real>)
    requires CoeffDot(h, h) == 0.0
    ensures forall k :: 0 <= k < |h| ==> h[k] == 0.0
  {
    var f := (k: nat) => if k < |h| then Sqr(h[k]) else 0.0;
    var g := (k: nat) => if k < |h| then h[k] * h[k] else 0.0;
    SumExt(|h|, f, g);
    assert CoeffDot(h, h) == Sum(|h|, g);
    forall k: nat | k < |h| ensures f(k) >= 0.0 { SqrNonNegative(h[k]); }
    SquaresVanish(|h|, f);
    forall k: nat | k < |h| ensures h[k] == 0.0 {
      assert f(k) == 0.0;
      SquareZero(h[k]);
    }
  }

  lemma SquareZero(a: real)
    ensures Sqr(a) == 0.0 ==> a == 0.0
  {
    if a != 0.0 { SqrPositive(a); }
  }

  /** The adjoint identity holds for a given y and all coefficients x exactly when, for every coefficient, the
      products of its predictor with y at observations where another predictor is missing sum to zero. */
  lemma AdjointIdentityIff(s: Setting, c0: seq<real>, y: seq<Datum>, c: seq<real>)
    requires s.Valid() && |c0| == s.nvars * s.NumPreds() && |y| == s.nlocs * s.nvars && IsAdjoint(s, c0, y, c)
    ensures (forall x: seq<real>, u: seq<Datum> :: |x| == s.nvars * s.NumPreds() && IsTangent(s, x, u) ==>
               ObsDot(u, y) == CoeffDot(x, c) - CoeffDot(x, c0))
       <==> (forall v: nat, p: nat :: v < s.nvars && p < s.NumPreds() ==> Hidden(s, y, v, p) == 0.0)
  {
    var np := s.NumPreds();
    var h := Tabulated(s.nvars, np, (v: nat, p: nat) => if v < s.nvars && p < np then Hidden(s, y, v, p) else 0.0);
    assert IsHidden(s, y, h);
    if forall x: seq<real>, u: seq<Datum> :: |x| == s.nvars * np && IsTangent(s, x, u) ==>
         ObsDot(u, y) == CoeffDot(x, c) - CoeffDot(x, c0) {
      var u := TangentExists(s, h);
      AdjointDefect(s, h, u, c0, y, c, h);
      NormZero(h);
      forall v: nat, p: nat | v < s.nvars && p < np ensures Hidden(s, y, v, p) == 0.0 {
        InRange(s.nvars, np, v, p);
        assert Cell(h, s.nvars, np, v, p) == h[Flat(np, v, p)];
      }
    }
    if forall v: nat, p: nat :: v < s.nvars && p < np ==> Hidden(s, y, v, p) == 0.0 {
      forall x: seq<real>, u: seq<Datum> | |x| == s.nvars * np && IsTangent(s, x, u)
        ensures ObsDot(u, y) == CoeffDot(x, c) - CoeffDot(x, c0)
      {
        AdjointDefect(s, x, u, c0, y, c, h);
        NothingHidden(s, y, h, x);
      }
    }
  }

  lemma NothingHidden(s: Setting, y: seq<Datum>, h: seq<real>, x: seq<real>)
    requires s.Valid() && |y| == s.nlocs * s.nvars && IsHidden(s, y, h) && |x| == |h|
    requires forall v: nat, p: nat :: v < s.nvars && p < s.NumPreds() ==> Hidden(s, y, v, p) == 0.0
    ensures CoeffDot(x, h) == 0.0
  {
    var g := (k: nat) => if k < |x| then x[k] * h[k] else 0.0;
    forall k: nat | k < |x| ensures g(k) == 0.0 {
      var v, p := Surjective(s.nvars, s.NumPreds(), k);
      assert h[k] == Cell(h, s.nvars, s.NumPreds(), v, p) == 0.0;
    }
    SumZero(|x|, g);
    assert CoeffDot(x, h) == Sum(|x|, g);
  }

  // One observation of one variable, the first of two predictors missing: y reaches the second coefficient.
  lemma HiddenReachesCoefficients() returns (s: Setting, y: seq<Datum>)
    ensures s.Valid() && |y| == s.nlocs * s.nvars && s.nvars == 1 && s.NumPreds() == 2
    ensures Hidden(s, y, 0, 1) != 0.0
  {
    s := Setting(1, 1, [[Missing], [Value(1.0)]]);
    y := [Value(1.0)];
    assert s.Pred(0, 0, 0).Missing? && !s.Present(0, 0);
    var f := (l: nat) => if l < s.nlocs && !s.Present(l, 0)
                         then OrZero(s.Pred(l, 0, 1)) * OrZero(Cell(y, s.nlocs, s.nvars, l, 0)) else 0.0;
    assert Hidden(s, y, 0, 1) == Sum(1, f) == Sum(0, f) + f(0);
    assert f(0) == 1.0;
  }
}
