/**
 The observation error covariance R = D^{1/2} C D^{1/2} with cross-variable correlations C: at each
 location the used (non-missing) entries are gathered, multiplied by the matching block of C or by its
 inverse, and scattered back, with scratch buffers that are shared by all locations.
 */
module CrossVarCov {
  import opened Missing
  import opened Sums
  import opened Layout
  import opened ObsVectors

  type Matrix = seq<seq<real>>

  predicate Square(c: Matrix, n: nat) {
    |c| == n && forall i :: 0 <= i < n ==> |c[i]| == n
  }

  // An entry of the correlation matrix; the diagonal is one whatever the matrix holds there.
  function Corr(c: Matrix, n: nat, i: nat, j: nat): (r: real)
    requires Square(c, n) && i < n && j < n
  {
    if i == j then 1.0 else c[i][j]
  }

  ghost predicate Symmetric(c: Matrix, n: nat)
    requires Square(c, n)
  {
    forall i: nat, j: nat {:trigger Corr(c, n, i, j)} :: i < n && j < n ==> Corr(c, n, i, j) == Corr(c, n, j, i)
  }

  // Row i of C times the vector z
  function RowTimes(c: Matrix, n: nat, i: nat, z: seq<real>): (r: real)
    requires Square(c, n) && i < n && |z| == n
  {
    Sum(n, (j: nat) => if j < n then Corr(c, n, i, j) * z[j] else 0.0)
  }

  function Dot(n: nat, x: seq<real>, y: seq<real>): (r: real)
    requires |x| == |y| == n
  {
    Sum(n, (i: nat) => if i < n then x[i] * y[i] else 0.0)
  }

  function Times(c: Matrix, n: nat, z: seq<real>): (r: seq<real>)
    requires Square(c, n) && |z| == n
    ensures |r| == n && forall i: nat :: i < n ==> r[i] == RowTimes(c, n, i, z)
  {
    seq(n, i requires 0 <= i < n => RowTimes(c, n, i, z))
  }

  // C is positive definite: the quadratic form is positive except at zero.
  ghost predicate PositiveDefinite(c: Matrix, n: nat)
    requires Square(c, n)
  {
    forall z: seq<real> {:trigger Times(c, n, z)} :: |z| == n && (exists i :: 0 <= i < n && z[i] != 0.0) ==>
      Dot(n, z, Times(c, n, z)) > 0.0
  }

  // ---------------------------------------------------------------------------
  // One location

  // The entries at one location, missing ones as zero
  function Zeroed(x: seq<Datum>): (z: seq<real>)
    ensures |z| == |x| && forall i :: 0 <= i < |x| ==> z[i] == OrZero(x[i])
  {
    seq(|x|, i requires 0 <= i < |x| => OrZero(x[i]))
  }

  // C applied to the used entries only; missing ones stay missing.
  function Correlated(c: Matrix, n: nat, x: seq<Datum>): (y: seq<Datum>)
    requires Square(c, n) && |x| == n
    ensures |y| == n && forall i: nat :: i < n ==>
              y[i] == if x[i].Missing? then Missing else Value(RowTimes(c, n, i, Zeroed(x)))
  {
    seq(n, i requires 0 <= i < n => if x[i].Missing? then Missing else Value(RowTimes(c, n, i, Zeroed(x))))
  }

  function Used(x: seq<Datum>): (mask: nat -> bool) {
    (i: nat) => i < |x| && x[i].Value?
  }

  function UsedIndices(x: seq<Datum>): (s: seq<nat>) {
    Selected(Used(x), |x|)
  }

  // The block product over the used entries is the full product with missing entries as zero.
  lemma GatheredRow(c: Matrix, n: nat, x: seq<Datum>, i: nat, g: nat -> real)
    requires Square(c, n) && |x| == n && i < n
    requires forall a: nat :: a < |UsedIndices(x)| ==>
               UsedIndices(x)[a] < n && g(a) == Corr(c, n, i, UsedIndices(x)[a]) * OrZero(x[UsedIndices(x)[a]])
    ensures Sum(|UsedIndices(x)|, g) == RowTimes(c, n, i, Zeroed(x))
  {
    var z := Zeroed(x);
    var f := (j: nat) => if j < n then Corr(c, n, i, j) * z[j] else 0.0;
    var s := UsedIndices(x);
    forall j: nat | j < n && !Used(x)(j) ensures f(j) == 0.0 {
      assert z[j] == 0.0;
    }
    forall a: nat | a < |s| ensures g(a) == f(s[a]) {
      assert s[a] < n;
    }
    SumGather(n, Used(x), f, s, g);
    assert RowTimes(c, n, i, z) == Sum(n, f);
  }

  // A column of a symmetric matrix is a row of it.
  lemma ColumnSum(c: Matrix, n: nat, xj: real, y: seq<real>, j: nat, column: nat -> real)
    requires Square(c, n) && Symmetric(c, n) && |y| == n && j < n
    requires forall i: nat :: i < n ==> column(i) == y[i] * (Corr(c, n, i, j) * xj)
    ensures xj * RowTimes(c, n, j, y) == Sum(n, column)
  {
    var row := (i: nat) => if i < n then Corr(c, n, j, i) * y[i] else 0.0;
    forall i: nat | i < n ensures column(i) == xj * row(i) {
      assert Corr(c, n, i, j) == Corr(c, n, j, i);
      Regroup(y[i], Corr(c, n, i, j), xj);
    }
    SumScale(n, xj, row, column);
    assert RowTimes(c, n, j, y) == Sum(n, row);
  }

  /** <C x, y> = <x, C y> for a symmetric C */
  lemma SymmetricForm(c: Matrix, n: nat, x: seq<real>, y: seq<real>)
    requires Square(c, n) && Symmetric(c, n) && |x| == |y| == n
    ensures Dot(n, Times(c, n, x), y) == Dot(n, x, Times(c, n, y))
  {
    var f := (i: nat, j: nat) => if i < n && j < n then y[i] * (Corr(c, n, i, j) * x[j]) else 0.0;
    var cx, cy := Times(c, n, x), Times(c, n, y);
    var left := (i: nat) => if i < n then cx[i] * y[i] else 0.0;
    var right := (j: nat) => if j < n then x[j] * cy[j] else 0.0;
    forall i: nat | i < n ensures left(i) == Sum(n, (j: nat) => f(i, j)) {
      var row := (j: nat) => if j < n then Corr(c, n, i, j) * x[j] else 0.0;
      SumScale(n, y[i], row, (j: nat) => f(i, j));
      assert RowTimes(c, n, i, x) == Sum(n, row);
    }
    forall j: nat | j < n ensures right(j) == Sum(n, (i: nat) => f(i, j)) {
      ColumnSum(c, n, x[j], y, j, (i: nat) => f(i, j));
    }
    SumSwap(n, n, f, left, right);
    SumExt(n, left, (i: nat) => if i < n then cx[i] * y[i] else 0.0);
    SumExt(n, right, (i: nat) => if i < n then x[i] * cy[i] else 0.0);
  }

  lemma Regroup(a: real, b: real, c: real)
    ensures a * (b * c) == c * (b * a)
  {
  }

  // ---------------------------------------------------------------------------
  // The gathered system

  // The block of C over the indices u
  function Block(c: Matrix, n: nat, u: seq<nat>): (g: Matrix)
    requires Square(c, n) && forall a :: 0 <= a < |u| ==> u[a] < n
    ensures Square(g, |u|)
  {
    seq(|u|, a requires 0 <= a < |u| => seq(|u|, b requires 0 <= b < |u| => Corr(c, n, u[a], u[b])))
  }

  // y has values z at the indices u used by x, and misses what x misses.
  ghost predicate Spread(x: seq<Datum>, u: seq<nat>, z: seq<real>, y: seq<Datum>) {
    && |y| == |x| && |z| == |u|
    && (forall i :: 0 <= i < |x| ==> (x[i].Missing? <==> y[i].Missing?))
    && forall a :: 0 <= a < |u| ==> u[a] < |x| && y[u[a]] == Value(z[a])
  }

  lemma SpreadExists(x: seq<Datum>, z: seq<real>) returns (y: seq<Datum>)
    requires |z| == |UsedIndices(x)|
    ensures Spread(x, UsedIndices(x), z, y)
  {
    var mask, u := Used(x), UsedIndices(x);
    SelectedFacts(mask, |x|);
    forall i: nat | i < |x| && x[i].Value?
      ensures |Selected(mask, i)| < |u| && u[|Selected(mask, i)|] == i
    {
      SelectedRank(mask, |x|, i);
    }
    y := seq(|x|, i requires 0 <= i < |x| => if x[i].Missing? then Missing else Value(z[|Selected(mask, i)|]));
  }

  lemma {:induction false} SelectedSame(mask: nat -> bool, mask': nat -> bool, n: nat)
    requires forall i: nat :: i < n ==> mask(i) == mask'(i)
    ensures Selected(mask, n) == Selected(mask', n)
  {
    if n > 0 { SelectedSame(mask, mask', n - 1); }
  }

  // The block times the gathered values is C times the spread values.
  lemma SpreadRow(c: Matrix, x: seq<Datum>, u: seq<nat>, z: seq<real>, y: seq<Datum>, a: nat)
    requires Square(c, |x|) && u == UsedIndices(x) && Spread(x, u, z, y) && a < |u|
    ensures Times(Block(c, |x|, u), |u|, z)[a] == RowTimes(c, |x|, u[a], Zeroed(y))
  {
    SelectedSame(Used(x), Used(y), |x|);
    var g := (b: nat) => if b < |u| then Block(c, |x|, u)[a][b] * z[b] else 0.0;
    assert UsedIndices(y) == u;
    forall b: nat | b < |u| ensures u[b] < |x| && g(b) == Corr(c, |x|, u[a], u[b]) * OrZero(y[u[b]]) {
      assert y[u[b]] == Value(z[b]);
      assert Block(c, |x|, u)[a][b] == Corr(c, |x|, u[a], u[b]);
    }
    GatheredRow(c, |x|, y, u[a], g);
    var h := (b: nat) => if b < |u| then Corr(Block(c, |x|, u), |u|, a, b) * z[b] else 0.0;
    SumExt(|u|, g, h);
    assert RowTimes(Block(c, |x|, u), |u|, a, z) == Sum(|u|, h);
  }

  lemma SpreadDot(x: seq<Datum>, u: seq<nat>, z: seq<real>, y: seq<Datum>, v: seq<real>, w: seq<real>)
    requires u == UsedIndices(x) && Spread(x, u, z, y) && |v| == |u| && |w| == |x|
    requires forall a :: 0 <= a < |u| ==> v[a] == w[u[a]]
    ensures Dot(|u|, z, v) == Dot(|x|, Zeroed(y), w)
  {
    SelectedSame(Used(x), Used(y), |x|);
    var f := (i: nat) => if i < |x| then Zeroed(y)[i] * w[i] else 0.0;
    var g := (a: nat) => if a < |u| then z[a] * v[a] else 0.0;
    forall i: nat | i < |x| && !Used(y)(i) ensures f(i) == 0.0 {
      assert Zeroed(y)[i] == 0.0;
    }
    forall a: nat | a < |u| ensures g(a) == f(u[a]) {
      assert y[u[a]] == Value(z[a]);
      var i := u[a];
      assert f(i) == Zeroed(y)[i] * w[i];
      assert g(a) == z[a] * v[a];
    }
    SumGather(|x|, Used(y), f, u, g);
    assert Dot(|u|, z, v) == Sum(|u|, g) && Dot(|x|, Zeroed(y), w) == Sum(|x|, f);
  }

  /** Every block of a positive definite C is positive definite. */
  lemma BlockPositiveDefinite(c: Matrix, x: seq<Datum>, u: seq<nat>)
    requires Square(c, |x|) && PositiveDefinite(c, |x|) && u == UsedIndices(x)
    requires forall a :: 0 <= a < |u| ==> u[a] < |x|
    ensures PositiveDefinite(Block(c, |x|, u), |u|)
  {
    var g := Block(c, |x|, u);
    forall z: seq<real> | |z| == |u| && exists a :: 0 <= a < |u| && z[a] != 0.0
      ensures Dot(|u|, z, Times(g, |u|, z)) > 0.0
    {
      var y := SpreadExists(x, z);
      var w := Times(c, |x|, Zeroed(y));
      forall a | 0 <= a < |u| ensures Times(g, |u|, z)[a] == w[u[a]] {
        SpreadRow(c, x, u, z, y, a);
      }
      SpreadDot(x, u, z, y, Times(g, |u|, z), w);
      var a :| 0 <= a < |u| && z[a] != 0.0;
      assert Zeroed(y)[u[a]] != 0.0;
    }
  }

  lemma ZeroProduct(a: real, b: real)
    requires a == 0.0 || b == 0.0
    ensures a * b == 0.0
  {
  }

  lemma RowDifference(c: Matrix, n: nat, i: nat, y: seq<real>, z: seq<real>, d: seq<real>)
    requires Square(c, n) && i < n && |y| == |z| == |d| == n && forall j :: 0 <= j < n ==> d[j] == y[j] - z[j]
    ensures RowTimes(c, n, i, y) == RowTimes(c, n, i, z) + RowTimes(c, n, i, d)
  {
    var f := (j: nat) => if j < n then Corr(c, n, i, j) * z[j] else 0.0;
    var g := (j: nat) => if j < n then Corr(c, n, i, j) * d[j] else 0.0;
    var h := (j: nat) => if j < n then Corr(c, n, i, j) * y[j] else 0.0;
    SumAdd(n, f, g, h);
    assert RowTimes(c, n, i, z) == Sum(n, f) && RowTimes(c, n, i, d) == Sum(n, g) && RowTimes(c, n, i, y) == Sum(n, h);
  }

  /** A positive definite C maps different vectors to different vectors. */
  lemma PositiveDefiniteInjective(c: Matrix, n: nat, y: seq<real>, z: seq<real>)
    requires Square(c, n) && PositiveDefinite(c, n) && |y| == |z| == n
    requires forall i :: 0 <= i < n ==> y[i] == z[i] || Times(c, n, y)[i] == Times(c, n, z)[i]
    ensures y == z
  {
    var d := seq(n, i requires 0 <= i < n => y[i] - z[i]);
    var q := (i: nat) => if i < n then d[i] * Times(c, n, d)[i] else 0.0;
    forall i: nat | i < n ensures q(i) == 0.0 {
      RowDifference(c, n, i, y, z, d);
      ZeroProduct(d[i], Times(c, n, d)[i]);
    }
    SumZero(n, q);
    assert Dot(n, d, Times(c, n, d)) == Sum(n, q);
    forall i | 0 <= i < n ensures y[i] == z[i] {
      assert d[i] == 0.0;
    }
  }

  // ---------------------------------------------------------------------------
  // All locations

  // The entries of location l
  function Row(x: seq<Datum>, nlocs: nat, nvars: nat, l: nat): (r: seq<Datum>)
    requires |x| == nlocs * nvars && l < nlocs
    ensures |r| == nvars && forall i: nat :: i < nvars ==> r[i] == Cell(x, nlocs, nvars, l, i)
  {
    seq(nvars, i requires 0 <= i < nvars => Cell(x, nlocs, nvars, l, i))
  }

  // y is C applied to x, location by location.
  ghost predicate IsCorrelated(c: Matrix, nlocs: nat, nvars: nat, x: seq<Datum>, y: seq<Datum>)
    requires Square(c, nvars) && |x| == nlocs * nvars
  {
    && |y| == |x|
    && forall l: nat {:trigger Row(y, nlocs, nvars, l)} :: l < nlocs ==>
         Row(y, nlocs, nvars, l) == Correlated(c, nvars, Row(x, nlocs, nvars, l))
  }

  ghost predicate IsProduct(x: seq<Datum>, s: seq<Datum>, y: seq<Datum>) {
    |x| == |s| == |y| && forall k :: 0 <= k < |y| ==> y[k] == Product(x[k], s[k])
  }

  ghost predicate NonZero(s: seq<Datum>) {
    forall k :: 0 <= k < |s| ==> s[k] != Value(0.0)
  }

  ghost predicate IsQuotient(x: seq<Datum>, s: seq<Datum>, y: seq<Datum>)
    requires NonZero(s)
  {
    |x| == |s| == |y| && forall k :: 0 <= k < |y| ==> y[k] == Quotient(x[k], s[k])
  }

  // The lower triangle that the Cholesky solver reads, as rows of growing length
  predicate LowerTriangle(t: Matrix) {
    forall a :: 0 <= a < |t| ==> |t[a]| == a + 1
  }

  function Completed(t: Matrix): (c: Matrix)
    requires LowerTriangle(t)
    ensures Square(c, |t|)
    ensures forall a, b :: 0 <= a < |t| && 0 <= b < |t| ==> c[a][b] == if b <= a then t[a][b] else t[b][a]
  {
    seq(|t|, a requires 0 <= a < |t| =>
      seq(|t|, b requires 0 <= b < |t| => if b <= a then t[a][b] else t[b][a]))
  }

  type Solver = (Matrix, seq<real>) -> seq<real>

  // What is taken from the Cholesky solver: it solves every positive definite system with unit diagonal.
  ghost predicate Solves(solve: Solver) {
    forall t: Matrix, r: seq<real> {:trigger solve(t, r)} ::
      LowerTriangle(t) && |r| == |t| && (forall a :: 0 <= a < |t| ==> t[a][a] == 1.0)
        && PositiveDefinite(Completed(t), |t|) ==>
        |solve(t, r)| == |r| && Times(Completed(t), |t|, solve(t, r)) == r
  }

  class ObsErrorCrossVarCov {
    const nlocs: nat
    const nvars: nat
    const varcorrelations: Matrix
    var stddev: seq<Datum>

    ghost predicate Valid()
      reads this
    {
      Square(varcorrelations, nvars) && |stddev| == nlocs * nvars
    }

    constructor (nlocs: nat, nvars: nat, varcorrelations: Matrix, stddev: seq<Datum>)
      requires Square(varcorrelations, nvars) && |stddev| == nlocs * nvars
      ensures Valid() && this.nlocs == nlocs && this.nvars == nvars
      ensures this.varcorrelations == varcorrelations && this.stddev == stddev
    {
      this.nlocs, this.nvars, this.varcorrelations, this.stddev := nlocs, nvars, varcorrelations, stddev;
    }

    method Update(obserr: seq<Datum>)
      requires Valid() && |obserr| == nlocs * nvars
      modifies this
      ensures Valid() && stddev == obserr
    {
      stddev := obserr;
    }

    method Multiply(dy: ObsVector)
      requires Valid() && dy.Valid() && dy.nlocs == nlocs && dy.nvars == nvars
      modifies dy
      ensures dy.Valid()
      ensures IsMultiplied(varcorrelations, nlocs, nvars, stddev, old(dy.values), dy.values)
    {
      dy.TimesAssign(stddev);
      ghost var x1 := dy.values;
      var usedobsIndices := new nat[nvars];
      var dyAtLoc := new real[nvars];
      var corr := new real[nvars, nvars]((i, j) => if i == j then 1.0 else 0.0);
      for jloc := 0 to nlocs
        invariant dy.Valid() && UnitDiagonal(corr)
        invariant forall l: nat {:trigger Row(dy.values, nlocs, nvars, l)} :: l < nlocs ==>
                    Row(dy.values, nlocs, nvars, l)
                    == if l < jloc then Correlated(varcorrelations, nvars, Row(x1, nlocs, nvars, l))
                       else Row(x1, nlocs, nvars, l)
      {
        MultiplyLocation(varcorrelations, dy, jloc, usedobsIndices, dyAtLoc, corr);
      }
      ghost var x2 := dy.values;
      dy.TimesAssign(stddev);
      assert IsMultiplied(varcorrelations, nlocs, nvars, stddev, old(dy.values), dy.values) by {
        assert IsProduct(old(dy.values), stddev, x1) && IsCorrelated(varcorrelations, nlocs, nvars, x1, x2);
        assert IsProduct(x2, stddev, dy.values);
      }
    }

    method InverseMultiply(dy: ObsVector, solve: Solver)
      requires Valid() && dy.Valid() && dy.nlocs == nlocs && dy.nvars == nvars
      requires NonZero(stddev)
      requires Symmetric(varcorrelations, nvars) && PositiveDefinite(varcorrelations, nvars) && Solves(solve)
      modifies dy
      ensures dy.Valid()
      ensures IsInverseMultiplied(varcorrelations, nlocs, nvars, stddev, old(dy.values), dy.values)
    {
      dy.DivideAssign(stddev);
      ghost var x1 := dy.values;
      var usedobsIndices := new nat[nvars];
      var dyAtLoc := new real[nvars];
      var corr := new real[nvars, nvars]((i, j) => if i == j then 1.0 else 0.0);
      for jloc := 0 to nlocs
        invariant dy.Valid() && UnitDiagonal(corr)
        invariant forall l: nat {:trigger Row(dy.values, nlocs, nvars, l)} :: l < nlocs ==>
                    if l < jloc then Correlated(varcorrelations, nvars, Row(dy.values, nlocs, nvars, l))
                       == Row(x1, nlocs, nvars, l)
                    else Row(dy.values, nlocs, nvars, l) == Row(x1, nlocs, nvars, l)
      {
        SolveLocation(varcorrelations, dy, jloc, usedobsIndices, dyAtLoc, corr, solve);
      }
      ghost var x2 := dy.values;
      assert IsCorrelated(varcorrelations, nlocs, nvars, x2, x1) by {
        forall l: nat | l < nlocs
          ensures Row(x1, nlocs, nvars, l) == Correlated(varcorrelations, nvars, Row(x2, nlocs, nvars, l))
        {
          assert Row(dy.values, nlocs, nvars, l) == Row(x2, nlocs, nvars, l);
        }
      }
      dy.DivideAssign(stddev);
    }
  }

  ghost predicate IsInverseMultiplied(c: Matrix, nlocs: nat, nvars: nat, s: seq<Datum>, x: seq<Datum>, y: seq<Datum>)
    requires Square(c, nvars) && |s| == |x| == nlocs * nvars && NonZero(s)
  {
    exists x1, x2 :: IsQuotient(x, s, x1) && |x2| == |x1| && IsCorrelated(c, nlocs, nvars, x2, x1)
        && IsQuotient(x2, s, y)
  }

  // The body of the loop over locations: the used entries are replaced by the solution of the gathered system.
  method SolveLocation(c: Matrix, dy: ObsVector, jloc: nat, used: array<nat>, dyAtLoc: array<real>, corr: array2<real>,
                       solve: Solver)
    requires dy.Valid() && jloc < dy.nlocs && Square(c, dy.nvars)
    requires used.Length == dyAtLoc.Length == corr.Length0 == dy.nvars && UnitDiagonal(corr)
    requires Symmetric(c, dy.nvars) && PositiveDefinite(c, dy.nvars) && Solves(solve)
    modifies dy, used, dyAtLoc, corr
    ensures dy.Valid() && UnitDiagonal(corr)
    ensures Correlated(c, dy.nvars, Row(dy.values, dy.nlocs, dy.nvars, jloc))
            == Row(old(dy.values), dy.nlocs, dy.nvars, jloc)
    ensures forall l: nat {:trigger Row(dy.values, dy.nlocs, dy.nvars, l)} :: l < dy.nlocs && l != jloc ==>
              Row(dy.values, dy.nlocs, dy.nvars, l) == Row(old(dy.values), dy.nlocs, dy.nvars, l)
  {
    ghost var x := Row(dy.values, dy.nlocs, dy.nvars, jloc);
    var nused := GatherIndices(dy.values, dy.nlocs, dy.nvars, jloc, used);
    FillBlock(c, dy.values, dy.nlocs, dy.nvars, jloc, used, nused, dyAtLoc, corr, false);
    ghost var u := used[..nused];
    assert forall a :: 0 <= a < nused ==> u[a] == used[a];
    ghost var rhs := dyAtLoc[..nused];
    SolveBlock(c, x, u, nused, dyAtLoc, corr, solve);
    ghost var solution := dyAtLoc[..nused];
    Scatter(dy, jloc, used, nused, dyAtLoc);
    SolvedRow(c, x, u, rhs, solution, Row(dy.values, dy.nlocs, dy.nvars, jloc));
  }

  // Replaces the gathered entries by the solution of the system with the leading block of corr, of which the
  // solver reads the lower triangle only.
  method SolveBlock(ghost c: Matrix, ghost x: seq<Datum>, ghost u: seq<nat>, nused: nat, dyAtLoc: array<real>,
                    corr: array2<real>, solve: Solver)
    requires Square(c, |x|) && dyAtLoc.Length == corr.Length0 == |x| && UnitDiagonal(corr)
    requires Symmetric(c, |x|) && PositiveDefinite(c, |x|) && Solves(solve)
    requires nused <= |x| && |u| == nused && u == UsedIndices(x) && Gathered(x, u, dyAtLoc[..nused])
    requires forall a, b :: 0 <= b < a < nused ==> u[b] < u[a] && corr[a, b] == c[u[a]][u[b]]
    modifies dyAtLoc
    ensures Times(Block(c, |x|, u), |u|, dyAtLoc[..nused]) == old(dyAtLoc[..nused])
  {
    var lower := LowerBlock(corr, nused);
    var rhs := dyAtLoc[..nused];
    var solution := solve(lower, rhs);
    SolvedBlock(c, x, u, lower, rhs, solve);
    for a := 0 to nused
      invariant forall k :: 0 <= k < a ==> dyAtLoc[k] == solution[k]
    {
      dyAtLoc[a] := solution[a];
    }
    assert dyAtLoc[..nused] == solution;
  }

  method LowerBlock(corr: array2<real>, nused: nat) returns (lower: Matrix)
    requires nused <= corr.Length0 == corr.Length1
    ensures |lower| == nused && LowerTriangle(lower)
    ensures forall a, b :: 0 <= b <= a < nused ==> lower[a][b] == corr[a, b]
  {
    lower := [];
    for a := 0 to nused
      invariant |lower| == a && LowerTriangle(lower)
      invariant forall k, b :: 0 <= b <= k < a ==> lower[k][b] == corr[k, b]
    {
      lower := lower + [seq(a + 1, b requires 0 <= b <= a reads corr => corr[a, b])];
    }
  }

  // The triangle gathered from C is completed to a block of C, which is positive definite, so it is solved.
  lemma SolvedBlock(c: Matrix, x: seq<Datum>, u: seq<nat>, lower: Matrix, rhs: seq<real>, solve: Solver)
    requires Square(c, |x|) && Symmetric(c, |x|) && PositiveDefinite(c, |x|) && Solves(solve)
    requires u == UsedIndices(x) && Gathered(x, u, rhs)
    requires |lower| == |u| && LowerTriangle(lower) && forall a :: 0 <= a < |u| ==> lower[a][a] == 1.0
    requires forall a, b :: 0 <= b < a < |u| ==> u[b] < u[a] && lower[a][b] == c[u[a]][u[b]]
    ensures |solve(lower, rhs)| == |u|
    ensures Times(Block(c, |x|, u), |u|, solve(lower, rhs)) == rhs
  {
    var block := Block(c, |x|, u);
    assert Completed(lower) == block by {
      forall a, b | 0 <= a < |u| && 0 <= b < |u| ensures Completed(lower)[a][b] == block[a][b] {
        assert block[a][b] == Corr(c, |x|, u[a], u[b]);
        assert Corr(c, |x|, u[a], u[b]) == Corr(c, |x|, u[b], u[a]);
      }
      forall a | 0 <= a < |u| ensures Completed(lower)[a] == block[a] {
      }
    }
    BlockPositiveDefinite(c, x, u);
  }

  lemma SolvedRow(c: Matrix, x: seq<Datum>, u: seq<nat>, rhs: seq<real>, solution: seq<real>, y: seq<Datum>)
    requires Square(c, |x|) && |y| == |x| && u == UsedIndices(x) && Gathered(x, u, rhs)
    requires |solution| == |u| && Times(Block(c, |x|, u), |u|, solution) == rhs
    requires forall i: nat :: i < |x| && x[i].Missing? ==> y[i] == Missing
    requires forall a :: 0 <= a < |u| ==> y[u[a]] == Value(solution[a])
    ensures Correlated(c, |x|, y) == x
  {
    SelectedFacts(Used(x), |x|);
    forall i: nat | i < |x| && x[i].Value?
      ensures y[i].Value? && Value(RowTimes(c, |x|, i, Zeroed(y))) == x[i]
    {
      assert Used(x)(i);
      var a :| 0 <= a < |u| && u[a] == i;
      assert Spread(x, u, solution, y) by {
        forall k: nat | k < |x| && x[k].Value? ensures y[k].Value? {
          assert Used(x)(k);
          var b :| 0 <= b < |u| && u[b] == k;
        }
      }
      SpreadRow(c, x, u, solution, y, a);
    }
  }

  // The body of the loop over locations: whatever the buffers held, location jloc gets C times its used entries.
  method MultiplyLocation(c: Matrix, dy: ObsVector, jloc: nat, used: array<nat>, dyAtLoc: array<real>,
                          corr: array2<real>)
    requires dy.Valid() && jloc < dy.nlocs && Square(c, dy.nvars)
    requires used.Length == dyAtLoc.Length == corr.Length0 == dy.nvars && UnitDiagonal(corr)
    modifies dy, used, dyAtLoc, corr
    ensures dy.Valid() && UnitDiagonal(corr)
    ensures Row(dy.values, dy.nlocs, dy.nvars, jloc)
            == Correlated(c, dy.nvars, Row(old(dy.values), dy.nlocs, dy.nvars, jloc))
    ensures forall l: nat {:trigger Row(dy.values, dy.nlocs, dy.nvars, l)} :: l < dy.nlocs && l != jloc ==>
              Row(dy.values, dy.nlocs, dy.nvars, l) == Row(old(dy.values), dy.nlocs, dy.nvars, l)
  {
    ghost var x := Row(dy.values, dy.nlocs, dy.nvars, jloc);
    var nused := GatherIndices(dy.values, dy.nlocs, dy.nvars, jloc, used);
    FillBlock(c, dy.values, dy.nlocs, dy.nvars, jloc, used, nused, dyAtLoc, corr, true);
    ghost var u := used[..nused];
    assert forall a :: 0 <= a < nused ==> u[a] == used[a];
    MultiplyBlock(c, x, u, nused, dyAtLoc, corr);
    Scatter(dy, jloc, used, nused, dyAtLoc);
    ScatteredRow(c, x, u, Row(dy.values, dy.nlocs, dy.nvars, jloc));
  }

  ghost predicate IsMultiplied(c: Matrix, nlocs: nat, nvars: nat, s: seq<Datum>, x: seq<Datum>, y: seq<Datum>)
    requires Square(c, nvars) && |s| == |x| == nlocs * nvars
  {
    exists x1, x2 :: IsProduct(x, s, x1) && IsCorrelated(c, nlocs, nvars, x1, x2) && IsProduct(x2, s, y)
  }

  ghost predicate UnitDiagonal(corr: array2<real>)
    reads corr
  {
    corr.Length0 == corr.Length1 && forall a :: 0 <= a < corr.Length0 ==> corr[a, a] == 1.0
  }

  // Collects, in order, the indices of the entries at location jloc that are not missing.
  method GatherIndices(x: seq<Datum>, nlocs: nat, nvars: nat, jloc: nat, used: array<nat>) returns (nused: nat)
    requires |x| == nlocs * nvars && jloc < nlocs && used.Length == nvars
    modifies used
    ensures nused <= nvars && used[..nused] == UsedIndices(Row(x, nlocs, nvars, jloc))
  {
    ghost var mask := Used(Row(x, nlocs, nvars, jloc));
    nused := 0;
    for jvar := 0 to nvars
      invariant nused <= jvar
      invariant used[..nused] == Selected(mask, jvar)
    {
      if Cell(x, nlocs, nvars, jloc, jvar) != Missing {
        used[nused] := jvar;
        nused := nused + 1;
      }
    }
  }

  // Copies the used entries and the correlations between them into the scratch buffers. The diagonal of the
  // block, and with full unset also its upper triangle, is left as it is.
  method FillBlock(c: Matrix, x: seq<Datum>, nlocs: nat, nvars: nat, jloc: nat, used: array<nat>, nused: nat,
                   dyAtLoc: array<real>, corr: array2<real>, full: bool)
    requires Square(c, nvars) && |x| == nlocs * nvars && jloc < nlocs
    requires used.Length == dyAtLoc.Length == corr.Length0 == nvars && UnitDiagonal(corr)
    requires nused <= nvars && used[..nused] == UsedIndices(Row(x, nlocs, nvars, jloc))
    modifies dyAtLoc, corr
    ensures UnitDiagonal(corr)
    ensures Gathered(Row(x, nlocs, nvars, jloc), used[..nused], dyAtLoc[..nused])
    ensures forall a, b :: 0 <= b < a < nused ==> used[b] < used[a] < nvars && corr[a, b] == c[used[a]][used[b]]
    ensures full ==> forall a, b :: 0 <= a < b < nused ==> corr[a, b] == c[used[a]][used[b]]
  {
    ghost var row, u := Row(x, nlocs, nvars, jloc), used[..nused];
    UsedInRange(row, u);
    for jvar := 0 to nused
      invariant UnitDiagonal(corr)
      invariant forall a :: 0 <= a < jvar ==> dyAtLoc[a] == OrZero(row[u[a]])
      invariant forall a, b ::
                  0 <= a < nused && 0 <= b < nused && ((b < a && b < jvar) || (full && a < b && a < jvar)) ==>
                  corr[a, b] == c[u[a]][u[b]]
    {
      assert used[jvar] == u[jvar];
      dyAtLoc[jvar] := Cell(x, nlocs, nvars, jloc, used[jvar]).v;
      FillColumn(c, used, u, nused, jvar, corr, full);
    }
    SelectedFacts(Used(row), nvars);
  }

  lemma UsedInRange(row: seq<Datum>, u: seq<nat>)
    requires u == UsedIndices(row)
    ensures forall a :: 0 <= a < |u| ==> u[a] < |row| && row[u[a]].Value?
  {
    SelectedFacts(Used(row), |row|);
  }

  // The values at are those of x at the indices u.
  ghost predicate Gathered(x: seq<Datum>, u: seq<nat>, at: seq<real>) {
    |at| == |u| && forall a :: 0 <= a < |u| ==> u[a] < |x| && at[a] == OrZero(x[u[a]])
  }

  // The correlations of used entry jvar with the used entries after it
  method FillColumn(c: Matrix, used: array<nat>, ghost u: seq<nat>, nused: nat, jvar: nat, corr: array2<real>,
                    full: bool)
    requires Square(c, corr.Length0) && corr.Length0 == corr.Length1 == used.Length
    requires jvar < nused <= used.Length && u == used[..nused]
    requires forall a :: 0 <= a < nused ==> u[a] < corr.Length0
    modifies corr
    ensures forall a, b :: 0 <= a < corr.Length0 && 0 <= b < corr.Length1 ==>
              corr[a, b] == if b == jvar < a < nused || (full && a == jvar < b < nused) then c[u[a]][u[b]]
                            else old(corr[a, b])
  {
    assert forall a :: 0 <= a < nused ==> used[a] == u[a];
    for jvar2 := jvar + 1 to nused
      invariant forall a, b :: 0 <= a < corr.Length0 && 0 <= b < corr.Length1 ==>
                  corr[a, b] == if b == jvar < a < jvar2 || (full && a == jvar < b < jvar2) then c[u[a]][u[b]]
                            else old(corr[a, b])
    {
      var ind, ind2 := used[jvar], used[jvar2];
      if full { corr[jvar, jvar2] := c[ind][ind2]; }
      corr[jvar2, jvar] := c[ind2][ind];
    }
  }

  // Replaces the gathered entries by the leading block of corr times them.
  method MultiplyBlock(ghost c: Matrix, ghost x: seq<Datum>, ghost u: seq<nat>, nused: nat, dyAtLoc: array<real>,
                       corr: array2<real>)
    requires Square(c, |x|) && dyAtLoc.Length == corr.Length0 == corr.Length1 == |x|
    requires nused <= |x| && |u| == nused && u == UsedIndices(x)
    requires Gathered(x, u, dyAtLoc[..nused])
    requires forall a, b :: 0 <= a < nused && 0 <= b < nused ==> corr[a, b] == Corr(c, |x|, u[a], u[b])
    modifies dyAtLoc
    ensures forall a :: 0 <= a < nused ==> dyAtLoc[a] == RowTimes(c, |x|, u[a], Zeroed(x))
  {
    var head := dyAtLoc[..nused];
    for a := 0 to nused
      invariant forall k :: 0 <= k < a ==> dyAtLoc[k] == RowTimes(c, |x|, u[k], Zeroed(x))
    {
      var acc := BlockRow(c, x, u, a, head, corr);
      dyAtLoc[a] := acc;
    }
  }

  method BlockRow(ghost c: Matrix, ghost x: seq<Datum>, ghost u: seq<nat>, a: nat, head: seq<real>, corr: array2<real>)
    returns (acc: real)
    requires Square(c, |x|) && corr.Length0 == corr.Length1 == |x|
    requires u == UsedIndices(x) && a < |u| <= |x| && Gathered(x, u, head)
    requires forall b :: 0 <= b < |u| ==> corr[a, b] == Corr(c, |x|, u[a], u[b])
    ensures acc == RowTimes(c, |x|, u[a], Zeroed(x))
  {
    ghost var g := (b: nat) => if b < |u| && u[b] < |x| then Corr(c, |x|, u[a], u[b]) * OrZero(x[u[b]]) else 0.0;
    acc := 0.0;
    for b := 0 to |head|
      invariant acc == Sum(b, g)
    {
      acc := acc + corr[a, b] * head[b];
    }
    GatheredRow(c, |x|, x, u[a], g);
  }

  // A location whose used entries have been replaced by C times them
  lemma ScatteredRow(c: Matrix, x: seq<Datum>, u: seq<nat>, y: seq<Datum>)
    requires Square(c, |x|) && |y| == |x| && u == UsedIndices(x)
    requires forall i: nat :: i < |x| && x[i].Missing? ==> y[i] == Missing
    requires forall a :: 0 <= a < |u| ==> u[a] < |x| && y[u[a]] == Value(RowTimes(c, |x|, u[a], Zeroed(x)))
    ensures y == Correlated(c, |x|, x)
  {
    SelectedFacts(Used(x), |x|);
    forall i: nat | i < |x| && x[i].Value? ensures y[i] == Value(RowTimes(c, |x|, i, Zeroed(x))) {
      assert Used(x)(i);
      var a :| 0 <= a < |u| && u[a] == i;
    }
  }

  // Writes the gathered entries back to their places; nothing else changes.
  method Scatter(dy: ObsVector, jloc: nat, used: array<nat>, nused: nat, dyAtLoc: array<real>)
    requires dy.Valid() && jloc < dy.nlocs && used.Length == dyAtLoc.Length == dy.nvars
    requires nused <= dy.nvars && used[..nused] == UsedIndices(Row(dy.values, dy.nlocs, dy.nvars, jloc))
    modifies dy
    ensures dy.Valid()
    ensures forall l: nat {:trigger Row(dy.values, dy.nlocs, dy.nvars, l)} :: l < dy.nlocs && l != jloc ==>
              Row(dy.values, dy.nlocs, dy.nvars, l) == Row(old(dy.values), dy.nlocs, dy.nvars, l)
    ensures forall i: nat :: i < dy.nvars && Row(old(dy.values), dy.nlocs, dy.nvars, jloc)[i].Missing? ==>
              Row(dy.values, dy.nlocs, dy.nvars, jloc)[i] == Missing
    ensures forall a :: 0 <= a < nused ==>
              used[a] < dy.nvars && Row(dy.values, dy.nlocs, dy.nvars, jloc)[used[a]] == Value(dyAtLoc[a])
  {
    ghost var before := dy.values;
    SelectedFacts(Used(Row(before, dy.nlocs, dy.nvars, jloc)), dy.nvars);
    assert forall a :: 0 <= a < nused ==> used[a] == used[..nused][a];
    for jvar := 0 to nused
      invariant dy.Valid()
      invariant forall l: nat, i: nat {:trigger Cell(dy.values, dy.nlocs, dy.nvars, l, i)} ::
                  l < dy.nlocs && i < dy.nvars ==>
                  (l != jloc || Cell(before, dy.nlocs, dy.nvars, l, i).Missing?) ==>
                    Cell(dy.values, dy.nlocs, dy.nvars, l, i) == Cell(before, dy.nlocs, dy.nvars, l, i)
      invariant forall a :: 0 <= a < jvar ==> Cell(dy.values, dy.nlocs, dy.nvars, jloc, used[a]) == Value(dyAtLoc[a])
    {
      dy.values := Put(dy.values, dy.nlocs, dy.nvars, jloc, used[jvar], Value(dyAtLoc[jvar]));
    }
  }

  // ---------------------------------------------------------------------------
  // What the two operators are for

  lemma CorrelatedEntry(c: Matrix, nlocs: nat, nvars: nat, x: seq<Datum>, y: seq<Datum>, l: nat, i: nat)
    requires Square(c, nvars) && |x| == nlocs * nvars && IsCorrelated(c, nlocs, nvars, x, y) && l < nlocs && i < nvars
    ensures Cell(y, nlocs, nvars, l, i)
         == if Cell(x, nlocs, nvars, l, i).Missing? then Missing
            else Value(RowTimes(c, nvars, i, Zeroed(Row(x, nlocs, nvars, l))))
  {
    assert Row(y, nlocs, nvars, l) == Correlated(c, nvars, Row(x, nlocs, nvars, l));
    assert Row(y, nlocs, nvars, l)[i] == Cell(y, nlocs, nvars, l, i);
  }

  // C keeps the missing entries and no others.
  lemma CorrelatedMask(c: Matrix, nlocs: nat, nvars: nat, x: seq<Datum>, y: seq<Datum>)
    requires Square(c, nvars) && |x| == nlocs * nvars && IsCorrelated(c, nlocs, nvars, x, y)
    ensures forall k :: 0 <= k < |x| ==> (y[k].Missing? <==> x[k].Missing?)
  {
    forall k | 0 <= k < |x| ensures y[k].Missing? <==> x[k].Missing? {
      var l, i := Surjective(nlocs, nvars, k);
      CorrelatedEntry(c, nlocs, nvars, x, y, l, i);
    }
  }

  /** R misses exactly what its operand or the standard deviations miss. */
  lemma MultiplyKeepsMissing(c: Matrix, nlocs: nat, nvars: nat, s: seq<Datum>, x: seq<Datum>, y: seq<Datum>)
    requires Square(c, nvars) && |s| == |x| == nlocs * nvars && IsMultiplied(c, nlocs, nvars, s, x, y)
    ensures |y| == |x| && forall k :: 0 <= k < |x| ==> (y[k].Missing? <==> x[k].Missing? || s[k].Missing?)
  {
    var x1: seq<Datum>, x2: seq<Datum> :| IsProduct(x, s, x1) && IsCorrelated(c, nlocs, nvars, x1, x2)
                                          && IsProduct(x2, s, y);
    CorrelatedMask(c, nlocs, nvars, x1, x2);
  }

  /** The elements of R are covariances: applied to a vector with the one entry j at a location, it has as entry i the
      correlation of the two variables times both their standard deviations. */
  lemma MultiplyElement(c: Matrix, nlocs: nat, nvars: nat, s: seq<Datum>, x: seq<Datum>, y: seq<Datum>, l: nat, i: nat,
                        j: nat)
    requires Square(c, nvars) && |s| == |x| == nlocs * nvars && IsMultiplied(c, nlocs, nvars, s, x, y)
    requires l < nlocs && i < nvars && j < nvars
    requires Cell(x, nlocs, nvars, l, i).Value? && Cell(s, nlocs, nvars, l, i).Value?
    requires Cell(x, nlocs, nvars, l, j).Value? && Cell(s, nlocs, nvars, l, j).Value?
    requires forall k: nat :: k < nvars && k != j ==> OrZero(Cell(x, nlocs, nvars, l, k)) == 0.0
    ensures |y| == nlocs * nvars
    ensures Cell(y, nlocs, nvars, l, i)
         == Value(((if i == j then 1.0 else c[i][j]) * (Cell(x, nlocs, nvars, l, j).v * Cell(s, nlocs, nvars, l, j).v))
                  * Cell(s, nlocs, nvars, l, i).v)
  {
    var x1: seq<Datum>, x2: seq<Datum> :| IsProduct(x, s, x1) && IsCorrelated(c, nlocs, nvars, x1, x2)
                                          && IsProduct(x2, s, y);
    OneProduct(nlocs, nvars, x, s, x1, l, j);
    ProductEntry(nlocs, nvars, x, s, x1, l, i);
    var a := Cell(x, nlocs, nvars, l, j).v * Cell(s, nlocs, nvars, l, j).v;
    assert Cell(x1, nlocs, nvars, l, j) == Value(a);
    OneEntry(c, nlocs, nvars, x1, x2, l, i, j, a);
    ProductEntry(nlocs, nvars, x2, s, y, l, i);
  }

  // The product with a vector with one entry at a location has one entry there.
  lemma OneProduct(nlocs: nat, nvars: nat, x: seq<Datum>, s: seq<Datum>, y: seq<Datum>, l: nat, j: nat)
    requires |x| == nlocs * nvars && IsProduct(x, s, y) && l < nlocs && j < nvars
    requires forall k: nat :: k < nvars && k != j ==> OrZero(Cell(x, nlocs, nvars, l, k)) == 0.0
    ensures Cell(y, nlocs, nvars, l, j) == Product(Cell(x, nlocs, nvars, l, j), Cell(s, nlocs, nvars, l, j))
    ensures forall k: nat :: k < nvars && k != j ==> OrZero(Cell(y, nlocs, nvars, l, k)) == 0.0
  {
    ProductEntry(nlocs, nvars, x, s, y, l, j);
    forall k: nat | k < nvars && k != j ensures OrZero(Cell(y, nlocs, nvars, l, k)) == 0.0 {
      ProductEntry(nlocs, nvars, x, s, y, l, k);
    }
  }

  lemma ProductEntry(nlocs: nat, nvars: nat, x: seq<Datum>, s: seq<Datum>, y: seq<Datum>, l: nat, k: nat)
    requires |x| == nlocs * nvars && IsProduct(x, s, y) && l < nlocs && k < nvars
    ensures Cell(y, nlocs, nvars, l, k) == Product(Cell(x, nlocs, nvars, l, k), Cell(s, nlocs, nvars, l, k))
  {
    InRange(nlocs, nvars, l, k);
  }

  lemma OneEntry(c: Matrix, nlocs: nat, nvars: nat, x: seq<Datum>, y: seq<Datum>, l: nat, i: nat, j: nat, a: real)
    requires Square(c, nvars) && |x| == nlocs * nvars && IsCorrelated(c, nlocs, nvars, x, y)
    requires l < nlocs && i < nvars && j < nvars
    requires Cell(x, nlocs, nvars, l, i).Value? && Cell(x, nlocs, nvars, l, j) == Value(a)
    requires forall k: nat :: k < nvars && k != j ==> OrZero(Cell(x, nlocs, nvars, l, k)) == 0.0
    ensures Cell(y, nlocs, nvars, l, i) == Value((if i == j then 1.0 else c[i][j]) * a)
  {
    CorrelatedEntry(c, nlocs, nvars, x, y, l, i);
    var z := Zeroed(Row(x, nlocs, nvars, l));
    SumSingle(nvars, (k: nat) => if k < nvars then Corr(c, nvars, i, k) * z[k] else 0.0, j);
  }

  lemma ObsDotByLocation(nlocs: nat, nvars: nat, x: seq<Datum>, y: seq<Datum>, rows: nat -> real)
    requires |x| == |y| == nlocs * nvars
    requires forall l: nat :: l < nlocs ==>
               rows(l) == Dot(nvars, Zeroed(Row(x, nlocs, nvars, l)), Zeroed(Row(y, nlocs, nvars, l)))
    ensures ObsDot(x, y) == Sum(nlocs, rows)
  {
    var flat := (k: nat) => if k < |x| then OrZero(x[k]) * OrZero(y[k]) else 0.0;
    forall l: nat | l < nlocs ensures rows(l) == Sum(nvars, (i: nat) => flat(l * nvars + i)) {
      var xl, yl := Zeroed(Row(x, nlocs, nvars, l)), Zeroed(Row(y, nlocs, nvars, l));
      var f := (i: nat) => if i < nvars then xl[i] * yl[i] else 0.0;
      forall i: nat | i < nvars ensures f(i) == flat(l * nvars + i) {
        InRange(nlocs, nvars, l, i);
      }
      SumExt(nvars, f, (i: nat) => flat(l * nvars + i));
      assert Dot(nvars, xl, yl) == Sum(nvars, f);
    }
    SumFlat(nlocs, nvars, flat, rows);
    assert ObsDot(x, y) == Sum(|x|, flat);
  }

  // At one location, <R x, y> is <C D^{1/2} x, D^{1/2} y>.
  lemma FormAtLocation(c: Matrix, nlocs: nat, nvars: nat, s: seq<Datum>, x: seq<Datum>, y: seq<Datum>,
                       x1: seq<Datum>, x2: seq<Datum>, rx: seq<Datum>, y1: seq<Datum>, l: nat)
    requires Square(c, nvars) && |s| == |x| == |y| == nlocs * nvars && l < nlocs
    requires forall k :: 0 <= k < |x| ==> (x[k].Missing? <==> y[k].Missing?)
    requires IsProduct(x, s, x1) && IsCorrelated(c, nlocs, nvars, x1, x2) && IsProduct(x2, s, rx)
    requires IsProduct(y, s, y1)
    ensures Dot(nvars, Zeroed(Row(rx, nlocs, nvars, l)), Zeroed(Row(y, nlocs, nvars, l)))
         == Dot(nvars, Times(c, nvars, Zeroed(Row(x1, nlocs, nvars, l))), Zeroed(Row(y1, nlocs, nvars, l)))
  {
    var z := Zeroed(Row(x1, nlocs, nvars, l));
    var a, b := Zeroed(Row(rx, nlocs, nvars, l)), Zeroed(Row(y, nlocs, nvars, l));
    var cz, d := Times(c, nvars, z), Zeroed(Row(y1, nlocs, nvars, l));
    var f := (i: nat) => if i < nvars then a[i] * b[i] else 0.0;
    var g := (i: nat) => if i < nvars then cz[i] * d[i] else 0.0;
    forall i: nat | i < nvars ensures f(i) == g(i) {
      InRange(nlocs, nvars, l, i);
      CorrelatedEntry(c, nlocs, nvars, x1, x2, l, i);
      var k := Flat(nvars, l, i);
      if x[k].Value? && s[k].Value? {
        assert f(i) == (cz[i] * s[k].v) * y[k].v;
        assert g(i) == cz[i] * (y[k].v * s[k].v);
      }
    }
    SumExt(nvars, f, g);
    assert Dot(nvars, a, b) == Sum(nvars, f) && Dot(nvars, cz, d) == Sum(nvars, g);
  }

  lemma DotCommutes(n: nat, x: seq<real>, y: seq<real>)
    requires |x| == |y| == n
    ensures Dot(n, x, y) == Dot(n, y, x)
  {
    SumExt(n, (i: nat) => if i < n then x[i] * y[i] else 0.0, (i: nat) => if i < n then y[i] * x[i] else 0.0);
  }

  /** <R x, y> = <x, R y> for vectors with the same missing entries, when C is symmetric */
  lemma MultiplySelfAdjoint(c: Matrix, nlocs: nat, nvars: nat, s: seq<Datum>,
                            x: seq<Datum>, rx: seq<Datum>, y: seq<Datum>, ry: seq<Datum>)
    requires Square(c, nvars) && Symmetric(c, nvars) && |s| == |x| == |y| == nlocs * nvars
    requires forall k :: 0 <= k < |x| ==> (x[k].Missing? <==> y[k].Missing?)
    requires IsMultiplied(c, nlocs, nvars, s, x, rx) && IsMultiplied(c, nlocs, nvars, s, y, ry)
    ensures |rx| == |ry| == |x|
    ensures ObsDot(rx, y) == ObsDot(x, ry)
  {
    var x1: seq<Datum>, x2: seq<Datum> :| IsProduct(x, s, x1) && IsCorrelated(c, nlocs, nvars, x1, x2)
                                          && IsProduct(x2, s, rx);
    var y1: seq<Datum>, y2: seq<Datum> :| IsProduct(y, s, y1) && IsCorrelated(c, nlocs, nvars, y1, y2)
                                          && IsProduct(y2, s, ry);
    var left := (l: nat) => if l < nlocs
                            then Dot(nvars, Zeroed(Row(rx, nlocs, nvars, l)), Zeroed(Row(y, nlocs, nvars, l))) else 0.0;
    var right := (l: nat) => if l < nlocs
                             then Dot(nvars, Zeroed(Row(x, nlocs, nvars, l)), Zeroed(Row(ry, nlocs, nvars, l)))
                             else 0.0;
    forall l: nat | l < nlocs ensures left(l) == right(l) {
      FormAtLocation(c, nlocs, nvars, s, x, y, x1, x2, rx, y1, l);
      FormAtLocation(c, nlocs, nvars, s, y, x, y1, y2, ry, x1, l);
      SymmetricForm(c, nvars, Zeroed(Row(x1, nlocs, nvars, l)), Zeroed(Row(y1, nlocs, nvars, l)));
      DotCommutes(nvars, Zeroed(Row(x, nlocs, nvars, l)), Zeroed(Row(ry, nlocs, nvars, l)));
      DotCommutes(nvars, Zeroed(Row(x1, nlocs, nvars, l)), Times(c, nvars, Zeroed(Row(y1, nlocs, nvars, l))));
    }
    ObsDotByLocation(nlocs, nvars, rx, y, left);
    ObsDotByLocation(nlocs, nvars, x, ry, right);
    SumExt(nlocs, left, right);
  }

  /** <R x, x> is never negative, when C is positive definite. */
  lemma MultiplyPositive(c: Matrix, nlocs: nat, nvars: nat, s: seq<Datum>, x: seq<Datum>, rx: seq<Datum>)
    requires Square(c, nvars) && PositiveDefinite(c, nvars) && |s| == |x| == nlocs * nvars
    requires IsMultiplied(c, nlocs, nvars, s, x, rx)
    ensures |rx| == |x| && ObsDot(rx, x) >= 0.0
  {
    var x1: seq<Datum>, x2: seq<Datum> :| IsProduct(x, s, x1) && IsCorrelated(c, nlocs, nvars, x1, x2)
                                          && IsProduct(x2, s, rx);
    var rows := (l: nat) => if l < nlocs
                            then Dot(nvars, Zeroed(Row(rx, nlocs, nvars, l)), Zeroed(Row(x, nlocs, nvars, l))) else 0.0;
    forall l: nat | l < nlocs ensures rows(l) >= 0.0 {
      var z := Zeroed(Row(x1, nlocs, nvars, l));
      FormAtLocation(c, nlocs, nvars, s, x, x, x1, x2, rx, x1, l);
      DotCommutes(nvars, Times(c, nvars, z), z);
      if !exists i :: 0 <= i < nvars && z[i] != 0.0 {
        var w := Times(c, nvars, z);
        SumZero(nvars, (i: nat) => if i < nvars then z[i] * w[i] else 0.0);
      }
    }
    ObsDotByLocation(nlocs, nvars, rx, x, rows);
    SumNonNegative(nlocs, rows);
  }

  // C x = C x' with the same missing entries means x = x'.
  lemma CorrelatedInjective(c: Matrix, nlocs: nat, nvars: nat, x: seq<Datum>, x': seq<Datum>, y: seq<Datum>)
    requires Square(c, nvars) && PositiveDefinite(c, nvars) && |x| == |x'| == nlocs * nvars
    requires IsCorrelated(c, nlocs, nvars, x, y) && IsCorrelated(c, nlocs, nvars, x', y)
    ensures x == x'
  {
    CorrelatedMask(c, nlocs, nvars, x, y);
    CorrelatedMask(c, nlocs, nvars, x', y);
    forall l: nat, i: nat | l < nlocs && i < nvars
      ensures Cell(x, nlocs, nvars, l, i) == Cell(x', nlocs, nvars, l, i)
    {
      var z, z' := Zeroed(Row(x, nlocs, nvars, l)), Zeroed(Row(x', nlocs, nvars, l));
      forall j | 0 <= j < nvars ensures z[j] == z'[j] || Times(c, nvars, z)[j] == Times(c, nvars, z')[j] {
        CorrelatedEntry(c, nlocs, nvars, x, y, l, j);
        CorrelatedEntry(c, nlocs, nvars, x', y, l, j);
      }
      PositiveDefiniteInjective(c, nvars, z, z');
      InRange(nlocs, nvars, l, i);
      assert OrZero(Cell(x, nlocs, nvars, l, i)) == z[i] == z'[i] == OrZero(Cell(x', nlocs, nvars, l, i));
    }
    Extensional(x, x', nlocs, nvars);
  }

  // x with the entries missing whose standard deviation is missing
  ghost predicate IsRestricted(x: seq<Datum>, s: seq<Datum>, z: seq<Datum>) {
    |x| == |s| == |z| && forall k :: 0 <= k < |z| ==> z[k] == if s[k].Missing? then Missing else x[k]
  }

  lemma CorrelatedUnique(c: Matrix, nlocs: nat, nvars: nat, x: seq<Datum>, y: seq<Datum>, y': seq<Datum>)
    requires Square(c, nvars) && |x| == nlocs * nvars
    requires IsCorrelated(c, nlocs, nvars, x, y) && IsCorrelated(c, nlocs, nvars, x, y')
    ensures y == y'
  {
    forall l: nat, i: nat | l < nlocs && i < nvars
      ensures Cell(y, nlocs, nvars, l, i) == Cell(y', nlocs, nvars, l, i)
    {
      CorrelatedEntry(c, nlocs, nvars, x, y, l, i);
      CorrelatedEntry(c, nlocs, nvars, x, y', l, i);
    }
    Extensional(y, y', nlocs, nvars);
  }

  lemma DivideMultiply(x: real, s: real)
    requires s != 0.0
    ensures (x / s) * s == x && (x * s) / s == x
  {
  }

  lemma ProductOfQuotient(x: seq<Datum>, s: seq<Datum>, q: seq<Datum>, z: seq<Datum>)
    requires NonZero(s) && IsQuotient(x, s, q) && IsProduct(q, s, z)
    ensures IsRestricted(x, s, z)
  {
    forall k | 0 <= k < |z| ensures z[k] == if s[k].Missing? then Missing else x[k] {
      if x[k].Value? && s[k].Value? { DivideMultiply(x[k].v, s[k].v); }
    }
  }

  lemma QuotientOfProduct(x: seq<Datum>, s: seq<Datum>, p: seq<Datum>, z: seq<Datum>)
    requires NonZero(s) && IsProduct(x, s, p) && IsQuotient(p, s, z)
    ensures IsRestricted(x, s, z)
  {
    forall k | 0 <= k < |z| ensures z[k] == if s[k].Missing? then Missing else x[k] {
      if x[k].Value? && s[k].Value? { DivideMultiply(x[k].v, s[k].v); }
    }
  }

  lemma RestrictedSame(x: seq<Datum>, s: seq<Datum>, z: seq<Datum>)
    requires IsRestricted(x, s, z) && forall k :: 0 <= k < |s| && s[k].Missing? ==> x[k].Missing?
    ensures z == x
  {
  }

  /** Multiplying by R after its inverse restores every entry that has a standard deviation. */
  lemma MultiplyUndoesInverse(c: Matrix, nlocs: nat, nvars: nat, s: seq<Datum>, x: seq<Datum>, y: seq<Datum>,
                              z: seq<Datum>)
    requires Square(c, nvars) && |s| == |x| == nlocs * nvars && NonZero(s)
    requires IsInverseMultiplied(c, nlocs, nvars, s, x, y)
    requires |y| == |x| && IsMultiplied(c, nlocs, nvars, s, y, z)
    ensures IsRestricted(x, s, z)
  {
    var y1: seq<Datum>, y2: seq<Datum> :|
      IsQuotient(x, s, y1) && |y2| == |y1| && IsCorrelated(c, nlocs, nvars, y2, y1) && IsQuotient(y2, s, y);
    var z1: seq<Datum>, z2: seq<Datum> :| IsProduct(y, s, z1) && IsCorrelated(c, nlocs, nvars, z1, z2)
                                          && IsProduct(z2, s, z);
    CorrelatedMask(c, nlocs, nvars, y2, y1);
    ProductOfQuotient(y2, s, y, z1);
    RestrictedSame(y2, s, z1);
    CorrelatedUnique(c, nlocs, nvars, y2, y1, z2);
    ProductOfQuotient(x, s, y1, z);
  }

  /** Multiplying by the inverse of R after R restores every entry that has a standard deviation. */
  lemma InverseUndoesMultiply(c: Matrix, nlocs: nat, nvars: nat, s: seq<Datum>, x: seq<Datum>, y: seq<Datum>,
                              z: seq<Datum>)
    requires Square(c, nvars) && PositiveDefinite(c, nvars) && |s| == |x| == nlocs * nvars && NonZero(s)
    requires IsMultiplied(c, nlocs, nvars, s, x, y)
    requires |y| == |x| && IsInverseMultiplied(c, nlocs, nvars, s, y, z)
    ensures IsRestricted(x, s, z)
  {
    var x1: seq<Datum>, x2: seq<Datum> :| IsProduct(x, s, x1) && IsCorrelated(c, nlocs, nvars, x1, x2)
                                          && IsProduct(x2, s, y);
    var z1: seq<Datum>, z2: seq<Datum> :|
      IsQuotient(y, s, z1) && |z2| == |z1| && IsCorrelated(c, nlocs, nvars, z2, z1) && IsQuotient(z2, s, z);
    CorrelatedMask(c, nlocs, nvars, x1, x2);
    QuotientOfProduct(x2, s, y, z1);
    RestrictedSame(x2, s, z1);
    CorrelatedInjective(c, nlocs, nvars, x1, z2, x2);
    QuotientOfProduct(x, s, x1, z);
  }
}
