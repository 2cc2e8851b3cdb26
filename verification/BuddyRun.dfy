/** The buddy check of one variable from the observations on: the pairs found are those swept over. */
module BuddyRun {
  import opened Missing
  import opened BuddyMath
  import opened BuddySweep
  import opened BuddyCollectors
  import opened BuddySearch
  import opened BuddyPairFinder
  import opened Distinctness

  // The metadata of the valid observations: distances and correlation scales as the check needs them, pressures where
  // it uses them, and positive errors at every level
  ghost predicate Measured(c: Check, geometry: Geometry, validObsIds: seq<nat>, rows: nat, cols: nat)
    requires c.Sized(rows, cols)
  {
    && (forall x :: x in validObsIds ==> x < rows && c.meta.scales[x] > 0.0)
    && (forall x: nat, y: nat {:trigger geometry.locate(x, y)} ::
          x in validObsIds && y in validObsIds ==> geometry.locate(x, y).0 >= 0.0)
    && (c.options.numLevels == Some(1) ==>
          c.meta.pressures.Some? && forall x :: x in validObsIds ==> c.meta.pressures.value[x] > 0.0)
    && forall x, l :: x in validObsIds && 0 <= l < cols ==>
         c.variable.obsErrors[x][l] > 0.0 && c.variable.bgErrors[x][l] > 0.0
  }

  // A pair of two of them, with its distance
  ghost predicate Found(p: Pair, geometry: Geometry, validObsIds: seq<nat>) {
    && p.obsIdA in validObsIds && p.obsIdB in validObsIds && p.obsIdA != p.obsIdB
    && p.distanceInKm == geometry.locate(p.obsIdA, p.obsIdB).0
  }

  lemma FoundReady(c: Check, geometry: Geometry, validObsIds: seq<nat>, p: Pair, rows: nat, cols: nat, g: Grid)
    requires c.Sized(rows, cols) && Measured(c, geometry, validObsIds, rows, cols) && Rectangular(g, rows, cols)
    requires Found(p, geometry, validObsIds)
    ensures c.PairUsable(p, rows, cols) && c.Ready(p, rows, cols, g)
  {
    forall lev: nat | lev < cols ensures c.ErrorsPositive(p, lev, rows, cols) {
    }
  }

  /** What the search returns is what the sweep needs, so that a probability of any observation stays one. */
  lemma FoundSweepable(c: Check, geometry: Geometry, validObsIds: seq<nat>, pairs: seq<Pair>, rows: nat, cols: nat,
                       g: Grid)
    requires c.Configured() && c.Sized(rows, cols) && Admissible(g, rows, cols)
    requires Measured(c, geometry, validObsIds, rows, cols)
    requires forall k :: 0 <= k < |pairs| ==> Found(pairs[k], geometry, validObsIds)
    ensures c.Sweepable(pairs, rows, cols, g)
  {
    forall k | 0 <= k < |pairs| ensures c.Ready(pairs[k], rows, cols, g) {
      FoundReady(c, geometry, validObsIds, pairs[k], rows, cols, g);
    }
  }

  ghost predicate KeptProbabilities(before: Grid, after: Grid, rows: nat, cols: nat)
    requires Rectangular(before, rows, cols) && Rectangular(after, rows, cols)
  {
    forall i, l :: 0 <= i < rows && 0 <= l < cols && before[i][l].Value? && 0.0 <= before[i][l].v < 1.0 ==>
      after[i][l].Value? && 0.0 <= after[i][l].v < 1.0
  }

  /** Finds the buddy pairs of the valid observations and checks one variable with them. */
  method FindAndCheck(finder: BuddyPairFinder, validObsIds: seq<nat>, visit: seq<nat>, c: Check,
                      pges: array2<Datum>)
    returns (pairs: seq<Pair>)
    requires finder.zones.Valid() && finder.SensibleLimits() && finder.Known(validObsIds) && Distinct(validObsIds)
    requires finder.Presents(visit, validObsIds)
    requires c.Configured() && c.Sized(pges.Length0, pges.Length1)
    requires Admissible(Rows(pges), pges.Length0, pges.Length1)
    requires Measured(c, finder.geometry, validObsIds, pges.Length0, pges.Length1)
    modifies pges
    ensures forall k :: 0 <= k < |pairs| ==> Found(pairs[k], finder.geometry, validObsIds)
    ensures c.Sweepable(pairs, pges.Length0, pges.Length1, old(Rows(pges)))
    ensures Rows(pges) == c.Sweep(pairs, |pairs|, pges.Length0, pges.Length1, old(Rows(pges)))
    ensures KeptProbabilities(old(Rows(pges)), Rows(pges), pges.Length0, pges.Length1)
  {
    ghost var s;
    ghost var rows, cols, g := pges.Length0, pges.Length1, Rows(pges);
    pairs, s := finder.FindBuddyPairs(validObsIds, visit);
    FoundSweepable(c, finder.geometry, validObsIds, pairs, rows, cols, g);
    CheckData(c, pairs, pges);
    forall i, l | 0 <= i < rows && 0 <= l < cols && g[i][l].Value? && 0.0 <= g[i][l].v < 1.0
      ensures var d := c.Sweep(pairs, |pairs|, rows, cols, g)[i][l]; d.Value? && 0.0 <= d.v < 1.0
    {
      SweepKeepsProbabilities(c, pairs, |pairs|, rows, cols, g, i, l);
    }
  }
}
