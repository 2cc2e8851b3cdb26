/**
 Gaussian thinning: of the observations that fall into the same bin one survives, the best one according to
 priority, distance to the bin centre and time, or the one closest to the median of the bin.
 */
module GaussianThinning {
  import opened Distinctness
  import opened Missing
  import opened Sorting

  // ---------------------------------------------------------------------------
  // Comparison of observations, by their index among the valid ones

  // Distances are by valid index; priorities (if a priority variable is set) and times (if ties are to be broken in
  // favour of the latest observation) are by observation.
  datatype Criteria = Criteria(validObsIds: seq<nat>, distances: seq<real>, priorities: Option<seq<int>>,
                               times: Option<seq<int>>) {
    predicate Covers(total: nat) {
      && |distances| == |validObsIds|
      && (forall v :: 0 <= v < |validObsIds| ==> validObsIds[v] < total)
      && (priorities.Some? ==> |priorities.value| == total)
      && (times.Some? ==> |times.value| == total)
    }

    function Priority(total: nat, v: nat): (p: int)
      requires Covers(total) && v < |validObsIds| && priorities.Some?
    {
      priorities.value[validObsIds[v]]
    }

    function Time(total: nat, v: nat): (t: int)
      requires Covers(total) && v < |validObsIds| && times.Some?
    {
      times.value[validObsIds[v]]
    }

    // The four comparators; the tuples of the code are compared lexicographically.
    predicate Better(total: nat, a: nat, b: nat)
      requires Covers(total) && a < |validObsIds| && b < |validObsIds|
    {
      var dA, dB := distances[a], distances[b];
      if priorities.None? then
        if times.Some? then -dA > -dB || (-dA == -dB && Time(total, a) > Time(total, b))
        else dA < dB
      else
        var pA, pB := Priority(total, a), Priority(total, b);
        if times.Some? then
          pA > pB || (pA == pB && (-dA > -dB || (-dA == -dB && Time(total, a) > Time(total, b))))
        else -pA < -pB || (-pA == -pB && dA < dB)
    }

    predicate Tied(total: nat, a: nat, b: nat)
      requires Covers(total) && a < |validObsIds| && b < |validObsIds|
    {
      !Better(total, a, b) && !Better(total, b, a)
    }

    /** Every comparator is a strict weak order: being better is irreflexive and transitive, and so is being tied. */
    lemma StrictWeakOrder(total: nat, a: nat, b: nat, c: nat)
      requires Covers(total) && a < |validObsIds| && b < |validObsIds| && c < |validObsIds|
      ensures !Better(total, a, a)
      ensures Better(total, a, b) && Better(total, b, c) ==> Better(total, a, c)
      ensures Tied(total, a, b) && Tied(total, b, c) ==> Tied(total, a, c)
    {
    }

    /** Breaking ties by time only breaks ties. */
    lemma TieBreakRefines(total: nat, a: nat, b: nat)
      requires Covers(total) && times.Some? && a < |validObsIds| && b < |validObsIds|
      ensures this.(times := None).Better(total, a, b) ==> Better(total, a, b)
      ensures Better(total, a, b) <==>
                this.(times := None).Better(total, a, b)
                || (this.(times := None).Tied(total, a, b) && Time(total, a) > Time(total, b))
    {
    }

    // The first best member among the first n of a group
    function BestOf(total: nat, group: seq<nat>, n: nat): (best: nat)
      requires Covers(total) && 0 < n <= |group| && forall k :: 0 <= k < |group| ==> group[k] < |validObsIds|
      ensures best in group[..n] && best < |validObsIds|
    {
      if n == 1 then group[0] else
        var best := BestOf(total, group, n - 1);
        if Better(total, group[n - 1], best) then group[n - 1] else best
    }

    /** No member of the group is better than the one chosen, and it is better than all before it: it is the first of
        the best. */
    lemma {:induction false} BestIsBest(total: nat, group: seq<nat>, n: nat) returns (b: nat)
      requires Covers(total) && 0 < n <= |group| && forall i :: 0 <= i < |group| ==> group[i] < |validObsIds|
      ensures b < n && group[b] == BestOf(total, group, n)
      ensures forall i :: 0 <= i < n ==> !Better(total, group[i], group[b])
      ensures forall i :: 0 <= i < b ==> Better(total, group[b], group[i])
    {
      b := 0;
      if n == 1 {
        StrictWeakOrder(total, group[0], group[0], group[0]);
      } else {
        b := BestIsBest(total, group, n - 1);
        var last := n - 1;
        forall i | 0 <= i < n
          ensures Better(total, group[last], group[b]) ==> !Better(total, group[i], group[last])
          ensures Better(total, group[last], group[b]) && i < last ==> Better(total, group[last], group[i])
        {
          StrictWeakOrder(total, group[i], group[last], group[b]);
          StrictWeakOrder(total, group[last], group[b], group[i]);
          if i < last && Tied(total, group[b], group[i]) { StrictWeakOrder(total, group[last], group[i], group[b]); }
        }
        if Better(total, group[last], group[b]) { b := last; }
      }
    }
  }

  // ---------------------------------------------------------------------------
  // Bins

  // The groups are exactly the bins with several members; bins[v] is the bin of valid observation v.
  ghost predicate MultiElementGroups(bins: seq<int>, groups: seq<seq<nat>>) {
    && (forall g :: 0 <= g < |groups| ==> |groups[g]| >= 2 && Distinct(groups[g]))
    && (forall g, k :: 0 <= g < |groups| && 0 <= k < |groups[g]| ==> groups[g][k] < |bins|)
    && (forall g, v: nat, w: nat :: 0 <= g < |groups| && v in groups[g] && w < |bins| ==>
          (w in groups[g] <==> bins[w] == bins[v]))
    && (forall g, h, v: nat :: 0 <= g < |groups| && 0 <= h < |groups| && v in groups[g] && v in groups[h] ==> g == h)
    && forall v: nat, w: nat :: v < |bins| && w < |bins| && v != w && bins[v] == bins[w] ==> InSome(groups, v)
  }

  ghost predicate InSome(groups: seq<seq<nat>>, v: nat) {
    exists g :: 0 <= g < |groups| && v in groups[g]
  }

  // v is in one of the first n groups without being its best member.
  ghost predicate Beaten(c: Criteria, total: nat, groups: seq<seq<nat>>, n: nat, v: nat)
    requires c.Covers(total) && n <= |groups|
    requires forall g, k :: 0 <= g < |groups| && 0 <= k < |groups[g]| ==> groups[g][k] < |c.validObsIds|
  {
    exists g :: 0 <= g < n && v in groups[g] && v != c.BestOf(total, groups[g], |groups[g]|)
  }

  ghost predicate IsThinning(c: Criteria, total: nat, groups: seq<seq<nat>>, n: nat, thinned: seq<bool>)
    requires c.Covers(total) && n <= |groups|
    requires forall g, k :: 0 <= g < |groups| && 0 <= k < |groups[g]| ==> groups[g][k] < |c.validObsIds|
  {
    && |thinned| == total
    && (forall v: nat :: v < |c.validObsIds| ==> (thinned[c.validObsIds[v]] <==> Beaten(c, total, groups, n, v)))
    && forall id :: 0 <= id < total && thinned[id] ==> id in c.validObsIds
  }

  predicate Survives(c: Criteria, thinned: seq<bool>, v: nat)
    requires v < |c.validObsIds| && c.validObsIds[v] < |thinned|
  {
    !thinned[c.validObsIds[v]]
  }

  // w has the largest priority of the bin of v, if there are priorities; among those with that priority the least
  // distance; and, if times are given, among those at that distance the latest time.
  ghost predicate Preferred(c: Criteria, total: nat, bins: seq<int>, v: nat, w: nat)
    requires c.Covers(total) && w < |bins| == |c.validObsIds| && v < |bins|
  {
    forall x: nat :: x < |bins| && bins[x] == bins[v] ==>
      var idX, idW := c.validObsIds[x], c.validObsIds[w];
      && (c.priorities.Some? ==> c.priorities.value[idX] <= c.priorities.value[idW])
      && (c.priorities.None? || c.priorities.value[idX] == c.priorities.value[idW] ==>
            && c.distances[w] <= c.distances[x]
            && (c.distances[x] == c.distances[w] && c.times.Some? ==> c.times.value[idX] <= c.times.value[idW]))
  }

  // w is the one observation of the bin of v that survives, and the one preferred.
  ghost predicate KeptFor(c: Criteria, total: nat, bins: seq<int>, thinned: seq<bool>, v: nat, w: nat)
    requires c.Covers(total) && v < |bins| == |c.validObsIds| && |thinned| == total
  {
    && w < |bins| && bins[w] == bins[v] && Preferred(c, total, bins, v, w)
    && forall x: nat :: x < |bins| && bins[x] == bins[v] ==> (Survives(c, thinned, x) <==> x == w)
  }

  ghost predicate OneKept(c: Criteria, total: nat, bins: seq<int>, thinned: seq<bool>, v: nat)
    requires c.Covers(total) && v < |bins| == |c.validObsIds| && |thinned| == total
  {
    exists w: nat :: KeptFor(c, total, bins, thinned, v, w)
  }

  method IdentifyThinnedObservations(c: Criteria, total: nat, groups: seq<seq<nat>>, ghost bins: seq<int>)
    returns (isThinned: seq<bool>)
    requires c.Covers(total) && Distinct(c.validObsIds) && |bins| == |c.validObsIds|
    requires MultiElementGroups(bins, groups)
    ensures IsThinning(c, total, groups, |groups|, isThinned)
    ensures forall v: nat :: v < |bins| ==> OneKept(c, total, bins, isThinned, v)
  {
    isThinned := seq(total, _ => false);
    for g := 0 to |groups|
      invariant IsThinning(c, total, groups, g, isThinned)
    {
      var group := groups[g];
      var best := MinElement(c, total, group);
      ghost var before := isThinned;
      for k := 0 to |group|
        invariant |isThinned| == total
        invariant forall v: nat :: v < |c.validObsIds| ==>
                    (isThinned[c.validObsIds[v]] <==> before[c.validObsIds[v]] || (v in group[..k] && v != best))
        invariant forall id :: 0 <= id < total && isThinned[id] ==> id in c.validObsIds
      {
        assert group[..k + 1] == group[..k] + [group[k]];
        if group[k] != best {
          isThinned := isThinned[c.validObsIds[group[k]] := true];
        }
      }
      assert group[..|group|] == group;
      GroupThinned(c, total, groups, g, before, isThinned);
    }
    forall v: nat | v < |bins| ensures OneKept(c, total, bins, isThinned, v) {
      var w := OneSurvivorPerBin(c, total, bins, groups, isThinned, v);
      assert KeptFor(c, total, bins, isThinned, v, w);
    }
  }

  lemma GroupThinned(c: Criteria, total: nat, groups: seq<seq<nat>>, g: nat, before: seq<bool>, after: seq<bool>)
    requires c.Covers(total) && g < |groups| && |after| == total
    requires forall h, k :: 0 <= h < |groups| && 0 <= k < |groups[h]| ==> groups[h][k] < |c.validObsIds|
    requires |groups[g]| > 0 && IsThinning(c, total, groups, g, before)
    requires forall v: nat :: v < |c.validObsIds| ==>
               (after[c.validObsIds[v]] <==>
                before[c.validObsIds[v]] || (v in groups[g] && v != c.BestOf(total, groups[g], |groups[g]|)))
    requires forall id :: 0 <= id < total && after[id] ==> id in c.validObsIds
    ensures IsThinning(c, total, groups, g + 1, after)
  {
    forall v: nat | v < |c.validObsIds|
      ensures Beaten(c, total, groups, g + 1, v) <==>
              Beaten(c, total, groups, g, v) || (v in groups[g] && v != c.BestOf(total, groups[g], |groups[g]|))
    {
    }
  }

  method MinElement(c: Criteria, total: nat, group: seq<nat>) returns (best: nat)
    requires c.Covers(total) && |group| > 0 && forall k :: 0 <= k < |group| ==> group[k] < |c.validObsIds|
    ensures best == c.BestOf(total, group, |group|)
  {
    best := group[0];
    for k := 1 to |group|
      invariant best == c.BestOf(total, group, k)
    {
      if c.Better(total, group[k], best) { best := group[k]; }
    }
  }

  ghost predicate IsThinnedBy(c: Criteria, total: nat, bins: seq<int>, groups: seq<seq<nat>>, thinned: seq<bool>) {
    && c.Covers(total) && Distinct(c.validObsIds) && |bins| == |c.validObsIds|
    && MultiElementGroups(bins, groups) && IsThinning(c, total, groups, |groups|, thinned)
  }

  /** Exactly one observation of every bin survives, the one preferred by priority, distance and time. */
  lemma OneSurvivorPerBin(c: Criteria, total: nat, bins: seq<int>, groups: seq<seq<nat>>, thinned: seq<bool>, v: nat)
    returns (w: nat)
    requires IsThinnedBy(c, total, bins, groups, thinned) && v < |bins|
    ensures w < |bins| && bins[w] == bins[v] && Survives(c, thinned, w)
    ensures forall x: nat :: x < |bins| && bins[x] == bins[v] && Survives(c, thinned, x) ==> x == w
    ensures forall x: nat :: x < |bins| && bins[x] == bins[v] ==> !c.Better(total, x, w)
    ensures Preferred(c, total, bins, v, w)
  {
    if InSome(groups, v) {
      var g :| 0 <= g < |groups| && v in groups[g];
      var group := groups[g];
      w := c.BestOf(total, group, |group|);
      assert group[..|group|] == group && w in group;
      var b := c.BestIsBest(total, group, |group|);
      forall x: nat | x < |bins| && bins[x] == bins[v]
        ensures !c.Better(total, x, w) && (x != w ==> Beaten(c, total, groups, |groups|, x))
      {
        assert x in group;
        var k :| 0 <= k < |group| && group[k] == x;
      }
      assert !Beaten(c, total, groups, |groups|, w);
    } else {
      w := v;
      assert !Beaten(c, total, groups, |groups|, v);
      forall x: nat | x < |bins| && bins[x] == bins[v] ensures x == v {
      }
      c.StrictWeakOrder(total, v, v, v);
    }
  }

  // The sole observation of a bin is never thinned.
  lemma SingletonSurvives(c: Criteria, total: nat, bins: seq<int>, groups: seq<seq<nat>>, thinned: seq<bool>, v: nat)
    requires IsThinnedBy(c, total, bins, groups, thinned) && v < |bins|
    requires forall x: nat :: x < |bins| && bins[x] == bins[v] ==> x == v
    ensures Survives(c, thinned, v)
  {
    var w := OneSurvivorPerBin(c, total, bins, groups, thinned, v);
  }

  lemma SurvivorsDiffer(c: Criteria, total: nat, bins: seq<int>, groups: seq<seq<nat>>, thinned: seq<bool>, v: nat,
                        x: nat)
    requires IsThinnedBy(c, total, bins, groups, thinned) && v < |bins| && x < |bins|
    requires Survives(c, thinned, v) && Survives(c, thinned, x) && v != x
    ensures bins[v] != bins[x]
  {
    var w := OneSurvivorPerBin(c, total, bins, groups, thinned, v);
  }

  /** Thinning the survivors again thins nothing: no bin has two of them left, so there is no group to thin. */
  lemma ThinningIsIdempotent(c: Criteria, total: nat, bins: seq<int>, groups: seq<seq<nat>>, thinned: seq<bool>,
                             survivors: seq<nat>, bins': seq<int>, groups': seq<seq<nat>>)
    requires IsThinnedBy(c, total, bins, groups, thinned)
    requires Distinct(survivors) && forall i :: 0 <= i < |survivors| ==>
               survivors[i] < |bins| && Survives(c, thinned, survivors[i])
    requires |bins'| == |survivors| && forall i :: 0 <= i < |bins'| ==> bins'[i] == bins[survivors[i]]
    requires MultiElementGroups(bins', groups')
    ensures groups' == []
  {
    if groups' != [] {
      var i, j := groups'[0][0], groups'[0][1];
      assert i in groups'[0] && j in groups'[0] && i != j;
      SurvivorsDiffer(c, total, bins, groups, thinned, survivors[i], survivors[j]);
    }
  }

  lemma {:induction false} ImageSize(s: set<nat>, bins: seq<int>)
    requires forall v :: v in s ==> v < |bins|
    requires forall v, w :: v in s && w in s && bins[v] == bins[w] ==> v == w
    ensures |set v | v in s :: bins[v]| == |s|
    decreases s
  {
    var image := set v | v in s :: bins[v];
    if s == {} {
      assert image == {};
    } else {
      var x :| x in s;
      var rest := set v | v in s - {x} :: bins[v];
      ImageSize(s - {x}, bins);
      assert image == rest + {bins[x]};
      assert bins[x] !in rest;
    }
  }

  /** There are as many survivors as occupied bins. */
  lemma SurvivorsAreOccupiedBins(c: Criteria, total: nat, bins: seq<int>, groups: seq<seq<nat>>, thinned: seq<bool>)
    requires IsThinnedBy(c, total, bins, groups, thinned)
    ensures |set v: nat | v < |bins| && Survives(c, thinned, v)| == |set v: nat | v < |bins| :: bins[v]|
  {
    var s := set v: nat | v < |bins| && Survives(c, thinned, v);
    forall v, w | v in s && w in s && bins[v] == bins[w] ensures v == w {
      var u := OneSurvivorPerBin(c, total, bins, groups, thinned, v);
    }
    ImageSize(s, bins);
    forall v: nat | v < |bins| ensures bins[v] in set x | x in s :: bins[x] {
      var w := OneSurvivorPerBin(c, total, bins, groups, thinned, v);
      assert w in s;
    }
    assert (set x | x in s :: bins[x]) == (set v: nat | v < |bins| :: bins[v]);
  }
}
