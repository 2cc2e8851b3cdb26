/** The buddy check of one filter variable from flat data to flat data, by way of profiles. */
module BuddyCheck {
  import opened Missing
  import opened BuddySweep
  import opened ProfileIndex

  ghost function Unraveled(flat: seq<Datum>, ix: Index, cols: nat): (g: Grid)
    requires Injective(ix, cols, |flat|)
    ensures IsUnraveled(flat, ix, cols, g)
  {
    seq(|ix|, i requires 0 <= i < |ix| => seq(cols, l requires 0 <= l < cols => flat[ix[i][l]]))
  }

  // The larger of two probabilities; the missing value is the smallest float.
  function MaxDatum(a: Datum, b: Datum): (r: Datum)
    ensures r == a || r == b
    ensures forall d :: d == a || d == b ==> d.Missing? || (r.Value? && d.v <= r.v)
  {
    if a.Missing? then b else if b.Missing? then a else if a.v < b.v then b else a
  }

  predicate Probability(d: Datum) { d.Value? && 0.0 <= d.v < 1.0 }

  // Every probability below 1 is still one, and nothing else has changed: neither missing or certain entries,
  // nor those at locations outside the index.
  ghost predicate Checked(flat: seq<Datum>, ix: Index, cols: nat, flat': seq<Datum>) {
    && |flat'| == |flat|
    && forall x :: 0 <= x < |flat| ==>
         && (Probability(flat[x]) ==> Probability(flat'[x]))
         && (!Checkable(flat[x]) || !Covered(ix, cols, x) ==> flat'[x] == flat[x])
  }

  lemma KeptChecked(flat: seq<Datum>, ix: Index, cols: nat, g: Grid, g': Grid, flat': seq<Datum>)
    requires Injective(ix, cols, |flat|) && IsUnraveled(flat, ix, cols, g)
    requires Kept(g, g') && IsUpdated(flat, ix, cols, g', flat')
    ensures Checked(flat, ix, cols, flat')
  {
    forall x | 0 <= x < |flat|
      ensures Probability(flat[x]) ==> Probability(flat'[x])
      ensures !Checkable(flat[x]) || !Covered(ix, cols, x) ==> flat'[x] == flat[x]
    {
      if Covered(ix, cols, x) {
        var i, l :| 0 <= i < |ix| && 0 <= l < |ix[i]| && l < cols && ix[i][l] == x;
        assert flat'[ix[i][l]] == g'[i][l] && g[i][l] == flat[ix[i][l]];
        assert SameStatus(g[i][l], g'[i][l]);
      }
    }
  }

  /** A scalar variable: unravel, sweep, write back. */
  method CheckScalarVariable(c: Check, pairs: seq<Pair>, flat: array<Datum>, index: Option<Index>, cols: nat)
    requires c.variable.Scalar? && Fits(index, cols, flat.Length)
    requires c.Sweepable(pairs, |IndexFor(index, flat.Length)|, cols,
                         Unraveled(flat[..], IndexFor(index, flat.Length), cols))
    modifies flat
    ensures var ix := IndexFor(index, flat.Length);
            IsUpdated(old(flat[..]), ix, cols, c.Sweep(pairs, |pairs|, |ix|, cols, Unraveled(old(flat[..]), ix, cols)),
                      flat[..])
    ensures Checked(old(flat[..]), IndexFor(index, flat.Length), cols, flat[..])
  {
    ghost var ix, flat0 := IndexFor(index, flat.Length), flat[..];
    ghost var g := Unraveled(flat0, ix, cols);
    var pges := Unravel(flat[..], index, cols);
    SameGrid(Rows(pges), g, |ix|, cols);
    CheckData(c, pairs, pges);
    UpdateFlatData(flat, pges, index);
    KeptChecked(flat0, ix, cols, g, Rows(pges), flat[..]);
  }

  ghost function MaxGrid(g: Grid, h: Grid, rows: nat, cols: nat): (r: Grid)
    requires Rectangular(g, rows, cols) && Rectangular(h, rows, cols)
    ensures Rectangular(r, rows, cols)
    ensures forall i, l :: 0 <= i < rows && 0 <= l < cols ==> r[i][l] == MaxDatum(g[i][l], h[i][l])
  {
    seq(rows, i requires 0 <= i < rows => seq(cols, l requires 0 <= l < cols => MaxDatum(g[i][l], h[i][l])))
  }

  ghost function LargerOf(first: seq<Datum>, second: seq<Datum>, ix: Index, cols: nat): (g: Grid)
    requires |first| == |second| && Injective(ix, cols, |first|)
    ensures Rectangular(g, |ix|, cols)
  {
    MaxGrid(Unraveled(first, ix, cols), Unraveled(second, ix, cols), |ix|, cols)
  }

  /** A vector variable: the sweep starts from the larger probability of the two components, and its result, written
      into the data of the first component, is stored for both. */
  method CheckVectorVariable(c: Check, pairs: seq<Pair>, first: array<Datum>, second: seq<Datum>, index: Option<Index>,
                             cols: nat)
    returns (forFirst: seq<Datum>, forSecond: seq<Datum>)
    requires c.variable.Vector? && first.Length == |second| && Fits(index, cols, first.Length)
    requires c.Sweepable(pairs, |IndexFor(index, first.Length)|, cols,
                         LargerOf(first[..], second, IndexFor(index, first.Length), cols))
    modifies first
    ensures forFirst == forSecond
    ensures var ix := IndexFor(index, first.Length);
            IsUpdated(old(first[..]), ix, cols,
                      c.Sweep(pairs, |pairs|, |ix|, cols, LargerOf(old(first[..]), second, ix, cols)), forFirst)
    ensures forall x :: 0 <= x < first.Length && Probability(old(first[x])) && Probability(second[x]) ==>
              Probability(forFirst[x])
  {
    ghost var ix, first0 := IndexFor(index, first.Length), first[..];
    var pges := SweepLarger(c, pairs, first[..], second, index, cols);
    UpdateFlatData(first, pges, index);
    MaxChecked(first0, second, ix, cols, Rows(pges), first[..]);
    forFirst, forSecond := first[..], first[..];
  }

  method SweepLarger(c: Check, pairs: seq<Pair>, first: seq<Datum>, second: seq<Datum>, index: Option<Index>, cols: nat)
    returns (pges: array2<Datum>)
    requires |first| == |second| && Fits(index, cols, |first|)
    requires c.Sweepable(pairs, |IndexFor(index, |first|)|, cols,
                         LargerOf(first, second, IndexFor(index, |first|), cols))
    ensures fresh(pges) && pges.Length0 == |IndexFor(index, |first|)| && pges.Length1 == cols
    ensures var ix := IndexFor(index, |first|);
            Rows(pges) == c.Sweep(pairs, |pairs|, |ix|, cols, LargerOf(first, second, ix, cols))
  {
    ghost var ix := IndexFor(index, |first|);
    pges := Unravel(first, index, cols);
    var other := Unravel(second, index, cols);
    TakeLarger(pges, other, Unraveled(first, ix, cols), Unraveled(second, ix, cols));
    SameGrid(Rows(pges), LargerOf(first, second, ix, cols), |ix|, cols);
    CheckData(c, pairs, pges);
  }

  method TakeLarger(pges: array2<Datum>, other: array2<Datum>, ghost g1: Grid, ghost g2: Grid)
    requires pges != other && pges.Length0 == other.Length0 && pges.Length1 == other.Length1
    requires IsGrid(pges, g1) && IsGrid(other, g2)
    modifies pges
    ensures forall i, l :: 0 <= i < pges.Length0 && 0 <= l < pges.Length1 ==> pges[i, l] == MaxDatum(g1[i][l], g2[i][l])
  {
    for i := 0 to pges.Length0
      invariant forall k, l :: 0 <= k < pges.Length0 && 0 <= l < pges.Length1 ==>
                  pges[k, l] == if k < i then MaxDatum(g1[k][l], g2[k][l]) else g1[k][l]
    {
      for j := 0 to pges.Length1
        invariant forall k, l :: 0 <= k < pges.Length0 && 0 <= l < pges.Length1 ==>
                    pges[k, l] == if k < i || (k == i && l < j) then MaxDatum(g1[k][l], g2[k][l]) else g1[k][l]
      {
        pges[i, j] := MaxDatum(pges[i, j], other[i, j]);
      }
    }
  }

  ghost predicate IsGrid(a: array2<Datum>, g: Grid)
    reads a
  {
    Rectangular(g, a.Length0, a.Length1) && forall i, l :: 0 <= i < a.Length0 && 0 <= l < a.Length1 ==>
        a[i, l] == g[i][l]
  }

  lemma MaxChecked(first: seq<Datum>, second: seq<Datum>, ix: Index, cols: nat, g': Grid, flat': seq<Datum>)
    requires |first| == |second| && Injective(ix, cols, |first|)
    requires Kept(LargerOf(first, second, ix, cols), g')
    requires IsUpdated(first, ix, cols, g', flat')
    ensures forall x :: 0 <= x < |first| && Probability(first[x]) && Probability(second[x]) ==> Probability(flat'[x])
  {
    var g := LargerOf(first, second, ix, cols);
    forall x | 0 <= x < |first| && Probability(first[x]) && Probability(second[x]) ensures Probability(flat'[x]) {
      if Covered(ix, cols, x) {
        var i, l :| 0 <= i < |ix| && 0 <= l < |ix[i]| && l < cols && ix[i][l] == x;
        assert flat'[ix[i][l]] == g'[i][l] && g[i][l] == MaxDatum(first[x], second[x]);
        assert SameStatus(g[i][l], g'[i][l]);
      }
    }
  }

  /** Exactly the locations at or above the threshold are added to those already flagged. */
  method FlagRejected(pges: seq<Datum>, rejectionThreshold: real, flagged: array<bool>)
    requires |pges| == flagged.Length
    modifies flagged
    ensures forall x :: 0 <= x < flagged.Length ==>
              (flagged[x] <==> old(flagged[x]) || (pges[x].Value? && pges[x].v >= rejectionThreshold))
  {
    for obsId := 0 to |pges|
      invariant forall x :: 0 <= x < flagged.Length ==>
                  (flagged[x] <==> old(flagged[x]) || (x < obsId && pges[x].Value? && pges[x].v >= rejectionThreshold))
    {
      if pges[obsId].Value? && pges[obsId].v >= rejectionThreshold { flagged[obsId] := true; }
    }
  }
}
