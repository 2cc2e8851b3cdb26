/**
 Vectors of observed quantities: nlocs x nvars entries, location-major. An entry missing in either
 operand of an arithmetic operation is missing in the result, and is skipped by inner products.
 */
module ObsVectors {
  import opened Missing
  import opened Sums
  import opened Layout

  function AxpyEntry(d: Datum, b: real, e: Datum): (r: Datum) {
    if d.Missing? || e.Missing? then Missing else Value(d.v + b * e.v)
  }

  function Product(d: Datum, e: Datum): (r: Datum) {
    if d.Missing? || e.Missing? then Missing else Value(d.v * e.v)
  }

  function Quotient(d: Datum, e: Datum): (r: Datum)
    requires e != Value(0.0)
  {
    if d.Missing? || e.Missing? then Missing else Value(d.v / e.v)
  }

  // u' is u + beta * y, with one factor per variable.
  ghost predicate IsAxpy(nlocs: nat, nvars: nat, u: seq<Datum>, beta: seq<real>, y: seq<Datum>, u': seq<Datum>)
    requires |u| == |y| == nlocs * nvars && |beta| == nvars
  {
    && |u'| == |u|
    && forall l: nat, v: nat {:trigger Cell(u', nlocs, nvars, l, v)} :: l < nlocs && v < nvars ==>
         Cell(u', nlocs, nvars, l, v)
         == AxpyEntry(Cell(u, nlocs, nvars, l, v), beta[v], Cell(y, nlocs, nvars, l, v))
  }

  class ObsVector {
    const nlocs: nat
    const nvars: nat
    var values: seq<Datum>

    ghost predicate Valid()
      reads this
    {
      |values| == nlocs * nvars
    }

    constructor (nlocs: nat, nvars: nat)
      ensures Valid() && this.nlocs == nlocs && this.nvars == nvars
      ensures forall k :: 0 <= k < |values| ==> values[k] == Value(0.0)
    {
      this.nlocs, this.nvars := nlocs, nvars;
      values := seq(nlocs * nvars, _ => Value(0.0));
    }

    method Zero()
      requires Valid()
      modifies this
      ensures Valid()
      ensures forall k :: 0 <= k < |values| ==> values[k] == Value(0.0)
    {
      values := seq(|values|, _ => Value(0.0));
    }

    method Axpy(beta: seq<real>, y: seq<Datum>)
      requires Valid() && |beta| == nvars && |y| == nlocs * nvars
      modifies this
      ensures Valid()
      ensures IsAxpy(nlocs, nvars, old(values), beta, y, values)
    {
      ghost var before := values;
      for jloc := 0 to nlocs
        invariant Valid()
        invariant forall l: nat, v: nat {:trigger Cell(values, nlocs, nvars, l, v)} :: l < nlocs && v < nvars ==>
                    Cell(values, nlocs, nvars, l, v)
                    == if l < jloc
                       then AxpyEntry(Cell(before, nlocs, nvars, l, v), beta[v], Cell(y, nlocs, nvars, l, v))
                       else Cell(before, nlocs, nvars, l, v)
      {
        for jvar := 0 to nvars
          invariant Valid()
          invariant forall l: nat, v: nat {:trigger Cell(values, nlocs, nvars, l, v)} :: l < nlocs && v < nvars ==>
                      Cell(values, nlocs, nvars, l, v)
                      == if l < jloc || (l == jloc && v < jvar)
                         then AxpyEntry(Cell(before, nlocs, nvars, l, v), beta[v], Cell(y, nlocs, nvars, l, v))
                         else Cell(before, nlocs, nvars, l, v)
        {
          var entry := AxpyEntry(Cell(values, nlocs, nvars, jloc, jvar), beta[jvar], Cell(y, nlocs, nvars, jloc, jvar));
          values := Put(values, nlocs, nvars, jloc, jvar, entry);
        }
      }
    }

    method TimesAssign(y: seq<Datum>)
      requires Valid() && |y| == |values|
      modifies this
      ensures Valid() && forall k :: 0 <= k < |y| ==> values[k] == Product(old(values)[k], y[k])
    {
      var x := values;
      values := seq(|x|, k requires 0 <= k < |x| => Product(x[k], y[k]));
    }

    method DivideAssign(y: seq<Datum>)
      requires Valid() && |y| == |values|
      requires forall k :: 0 <= k < |y| ==> y[k] != Value(0.0)
      modifies this
      ensures Valid() && forall k :: 0 <= k < |y| ==> values[k] == Quotient(old(values)[k], y[k])
    {
      var x := values;
      values := seq(|x|, k requires 0 <= k < |x| => Quotient(x[k], y[k]));
    }
  }

  // The inner product of two observation vectors for one variable
  function VariableDot(nlocs: nat, nvars: nat, x: seq<Datum>, y: seq<Datum>, v: nat): (s: real)
    requires |x| == |y| == nlocs * nvars && v < nvars
  {
    Sum(nlocs, (l: nat) => if l < nlocs
                           then OrZero(Cell(x, nlocs, nvars, l, v)) * OrZero(Cell(y, nlocs, nvars, l, v))
                           else 0.0)
  }

  function MultivarDot(nlocs: nat, nvars: nat, x: seq<Datum>, y: seq<Datum>): (s: seq<real>)
    requires |x| == |y| == nlocs * nvars
  {
    seq(nvars, v requires 0 <= v < nvars => VariableDot(nlocs, nvars, x, y, v))
  }

  // The inner product of two observation vectors: entries missing in either are skipped
  function ObsDot(x: seq<Datum>, y: seq<Datum>): (s: real)
    requires |x| == |y|
  {
    Sum(|x|, (k: nat) => if k < |x| then OrZero(x[k]) * OrZero(y[k]) else 0.0)
  }
}
