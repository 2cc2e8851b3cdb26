/**
 Gaussian thinning by the median: of the observations of a bin the one whose value is closest to the median is to
 survive. It does exactly when none of the members up to it has a missing value.
 */
module MedianThinning {
  import opened Distinctness
  import opened GaussianThinning
  import opened Missing
  import opened Sorting

  // ---------------------------------------------------------------------------
  // Selection of the median

  predicate AtMost(x: real, y: real) { x <= y }

  lemma RealOrder()
    ensures TotalOrder(AtMost)
  {
  }

  function SortedReals(vals: seq<real>): (s: seq<real>)
    ensures |s| == |vals|
    ensures forall i, j :: 0 <= i < j < |s| ==> s[i] <= s[j]
    ensures forall x :: x in s <==> x in vals
  {
    RealOrder();
    SortedOccurrences(AtMost, vals, x => true);
    var s := Sorted(AtMost, vals);
    assert forall i, j :: 0 <= i < j < |s| ==> s[i] <= s[j] by {
      forall i, j | 0 <= i < j < |s| ensures s[i] <= s[j] {
        assert AtMost(s[i], s[j]);
      }
    }
    s
  }

  lemma SortedRealsOccurrences(vals: seq<real>, p: real -> bool)
    ensures Occurrences(SortedReals(vals), p) == Occurrences(vals, p)
  {
    RealOrder();
    SortedOccurrences(AtMost, vals, p);
  }

  function MedianOf(vals: seq<real>): (m: real)
    requires |vals| > 0
  {
    var s := SortedReals(vals);
    0.5 * (s[(|s| - 1) / 2] + s[|s| / 2])
  }

  function Gap(x: real, m: real): (d: real) { if x < m then m - x else x - m }

  // No value is closer to the median than that at position k.
  ghost predicate NoneCloser(vals: seq<real>, k: nat) {
    && k < |vals|
    && forall i :: 0 <= i < |vals| ==> Gap(vals[k], MedianOf(vals)) <= Gap(vals[i], MedianOf(vals))
  }

  // The first position of a value closest to the median
  ghost predicate ClosestToMedian(vals: seq<real>, k: nat) {
    && NoneCloser(vals, k)
    && forall i :: 0 <= i < k ==> Gap(vals[k], MedianOf(vals)) < Gap(vals[i], MedianOf(vals))
  }

  method FindClosestToMedian(vals: seq<real>) returns (k: nat)
    requires |vals| > 0
    ensures ClosestToMedian(vals, k)
  {
    var m := MedianOf(vals);
    k := 0;
    for i := 1 to |vals|
      invariant k < i
      invariant forall j :: 0 <= j < i ==> Gap(vals[k], m) <= Gap(vals[j], m)
      invariant forall j :: 0 <= j < k ==> Gap(vals[k], m) < Gap(vals[j], m)
    {
      if Gap(vals[i], m) < Gap(vals[k], m) { k := i; }
    }
  }

  lemma SplitOccurrences<T>(a: seq<T>, b: seq<T>, p: T -> bool)
    ensures Occurrences(a + b, p) == Occurrences(a, p) + Occurrences(b, p)
  {
    if a == [] {
      assert a + b == b;
    } else {
      assert (a + b)[1..] == a[1..] + b;
      SplitOccurrences(a[1..], b, p);
    }
  }

  lemma {:induction false} AllOccur<T>(a: seq<T>, p: T -> bool)
    requires forall i :: 0 <= i < |a| ==> p(a[i])
    ensures Occurrences(a, p) == |a|
  {
    if a != [] { AllOccur(a[1..], p); }
  }

  function NoMoreThan(v: real): (p: real -> bool) { (x: real) => x <= v }

  function EqualTo(v: real): (p: real -> bool) { (x: real) => x == v }

  function NoLessThan(v: real): (p: real -> bool) { (x: real) => x >= v }

  // A middle order statistic: at least half of the values are at most as large, and at least half at least as large.
  predicate IsMiddle(vals: seq<real>, v: real) {
    && 2 * Occurrences(vals, NoMoreThan(v)) >= |vals|
    && 2 * Occurrences(vals, NoLessThan(v)) >= |vals|
  }

  /** The middle order statistics are exactly the values that none is closer to the median than. */
  lemma ClosestIsMiddle(vals: seq<real>, k: nat)
    requires k < |vals|
    ensures NoneCloser(vals, k) <==> IsMiddle(vals, vals[k])
  {
    var s, v := SortedReals(vals), vals[k];
    SortedRealsOccurrences(vals, NoMoreThan(v));
    SortedRealsOccurrences(vals, NoLessThan(v));
    var lo, hi := (|s| - 1) / 2, |s| / 2;
    if NoneCloser(vals, k) {
      MiddleValue(vals, k, s, lo, hi);
      LowerHalf(s, lo, v);
      UpperHalf(s, hi, v);
    }
    if IsMiddle(vals, v) {
      if v < s[lo] { FewBelow(s, lo, v); }
      if v > s[hi] { FewAbove(s, hi, v); }
      NoneInside(vals, k, s, lo, hi);
    }
  }

  lemma LowerHalf(s: seq<real>, lo: nat, v: real)
    requires lo < |s| && s[lo] <= v && forall i, j :: 0 <= i < j < |s| ==> s[i] <= s[j]
    ensures Occurrences(s, NoMoreThan(v)) >= lo + 1
  {
    assert s == s[..lo + 1] + s[lo + 1..];
    SplitOccurrences(s[..lo + 1], s[lo + 1..], NoMoreThan(v));
    AllOccur(s[..lo + 1], NoMoreThan(v));
  }

  lemma UpperHalf(s: seq<real>, hi: nat, v: real)
    requires hi < |s| && v <= s[hi] && forall i, j :: 0 <= i < j < |s| ==> s[i] <= s[j]
    ensures Occurrences(s, NoLessThan(v)) >= |s| - hi
  {
    assert s == s[..hi] + s[hi..];
    SplitOccurrences(s[..hi], s[hi..], NoLessThan(v));
    AllOccur(s[hi..], NoLessThan(v));
  }

  lemma FewBelow(s: seq<real>, lo: nat, v: real)
    requires lo < |s| && v < s[lo] && forall i, j :: 0 <= i < j < |s| ==> s[i] <= s[j]
    ensures Occurrences(s, NoMoreThan(v)) <= lo
  {
    var below, rest := s[..lo], s[lo..];
    assert s == below + rest;
    SplitOccurrences(below, rest, NoMoreThan(v));
    NoneOccur(rest, NoMoreThan(v));
  }

  lemma FewAbove(s: seq<real>, hi: nat, v: real)
    requires hi < |s| && s[hi] < v && forall i, j :: 0 <= i < j < |s| ==> s[i] <= s[j]
    ensures Occurrences(s, NoLessThan(v)) <= |s| - hi - 1
  {
    var rest, above := s[..hi + 1], s[hi + 1..];
    assert s == rest + above;
    SplitOccurrences(rest, above, NoLessThan(v));
    NoneOccur(rest, NoLessThan(v));
  }

  lemma {:induction false} NoneOccur<T>(a: seq<T>, p: T -> bool)
    requires forall i :: 0 <= i < |a| ==> !p(a[i])
    ensures Occurrences(a, p) == 0
  {
    if a != [] { NoneOccur(a[1..], p); }
  }

  lemma MiddleValue(vals: seq<real>, k: nat, s: seq<real>, lo: nat, hi: nat)
    requires NoneCloser(vals, k) && s == SortedReals(vals)
    requires lo == (|vals| - 1) / 2 && hi == |vals| / 2
    ensures s[lo] <= vals[k] <= s[hi]
    ensures vals[k] == s[lo] || vals[k] == s[hi]
  {
    var m, v := MedianOf(vals), vals[k];
    assert m == 0.5 * (s[lo] + s[hi]);
    assert s[lo] in vals && v in s;
    var i :| 0 <= i < |vals| && vals[i] == s[lo];
    assert Gap(v, m) <= Gap(s[lo], m);
    var p :| 0 <= p < |s| && s[p] == v;
    assert p <= lo ==> v <= s[lo];
    assert p >= hi ==> s[hi] <= v;
  }

  // No value lies strictly between the two middle ones of the sorted values, so none is closer to their mean.
  lemma NoneInside(vals: seq<real>, k: nat, s: seq<real>, lo: nat, hi: nat)
    requires k < |vals| && s == SortedReals(vals)
    requires lo == (|vals| - 1) / 2 && hi == |vals| / 2 && s[lo] <= vals[k] <= s[hi]
    ensures NoneCloser(vals, k)
  {
    var m := MedianOf(vals);
    assert m == 0.5 * (s[lo] + s[hi]);
    forall i | 0 <= i < |vals| ensures Gap(vals[k], m) <= Gap(vals[i], m) {
      assert vals[i] in s && vals[k] in s;
      var p :| 0 <= p < |s| && s[p] == vals[i];
      assert p <= lo ==> s[p] <= s[lo];
      assert p >= hi ==> s[hi] <= s[p];
    }
  }

  /** Of an even number of values, the last is never the first one closest to the median. */
  lemma EvenNotLast(vals: seq<real>, k: nat)
    requires |vals| % 2 == 0 && ClosestToMedian(vals, k)
    ensures k < |vals| - 1
  {
    var s, n := SortedReals(vals), |vals|;
    var lo, hi := (n - 1) / 2, n / 2;
    MiddleValue(vals, k, s, lo, hi);
    if k == n - 1 && s[lo] != s[hi] {
      TwoMiddles(vals, k, s, lo, hi);
    } else if k == n - 1 {
      var v := vals[k];
      var same := EqualTo(v);
      SortedRealsOccurrences(vals, same);
      TwiceInside(s, lo, v);
      assert vals == vals[..k] + [v];
      SplitOccurrences(vals[..k], [v], same);
      NoneOccur(vals[..k], same);
    }
  }

  lemma TwiceInside(s: seq<real>, lo: nat, v: real)
    requires lo + 1 < |s| && s[lo] == s[lo + 1] == v
    ensures Occurrences(s, EqualTo(v)) >= 2
  {
    assert s == s[..lo] + (s[lo..lo + 2] + s[lo + 2..]);
    SplitOccurrences(s[..lo], s[lo..lo + 2] + s[lo + 2..], EqualTo(v));
    SplitOccurrences(s[lo..lo + 2], s[lo + 2..], EqualTo(v));
    AllOccur(s[lo..lo + 2], EqualTo(v));
  }

  // Two different middle values are equally close, so the first one closest precedes one of them.
  lemma TwoMiddles(vals: seq<real>, k: nat, s: seq<real>, lo: nat, hi: nat)
    requires ClosestToMedian(vals, k) && s == SortedReals(vals)
    requires lo == (|vals| - 1) / 2 && hi == |vals| / 2 && s[lo] != s[hi]
    ensures k < |vals| - 1
  {
    var m := MedianOf(vals);
    assert m == 0.5 * (s[lo] + s[hi]);
    assert s[lo] in vals && s[hi] in vals;
    var i :| 0 <= i < |vals| && vals[i] == s[lo];
    var j :| 0 <= j < |vals| && vals[j] == s[hi];
    MiddleValue(vals, k, s, lo, hi);
    assert Gap(vals[k], m) == Gap(vals[i], m) == Gap(vals[j], m);
  }

  // ---------------------------------------------------------------------------
  // Thinning to the median

  // Observed values are by observation; group members are valid indices.
  datatype Values = Values(validObsIds: seq<nat>, obs: seq<Datum>) {
    predicate Holds(v: nat) { v < |validObsIds| && validObsIds[v] < |obs| }

    ghost predicate HoldsAll(group: seq<nat>) {
      forall k :: 0 <= k < |group| ==> Holds(group[k])
    }

    function At(v: nat): (d: Datum)
      requires Holds(v)
    {
      obs[validObsIds[v]]
    }

    // The values of a group that are not missing, in order
    function Present(group: seq<nat>): (vals: seq<real>)
      requires HoldsAll(group)
      ensures |vals| <= |group|
    {
      if group == [] then [] else
        var last := At(group[|group| - 1]);
        Present(group[..|group| - 1]) + (if last.Missing? then [] else [last.v])
    }

    // The position, among the values of a group, of its k-th member's
    function PlaceOf(group: seq<nat>, k: nat): (q: nat)
      requires HoldsAll(group) && k < |group| && At(group[k]).Value?
      ensures q < |Present(group)| && q <= k && Present(group)[q] == At(group[k]).v
    {
      var n := |group| - 1;
      if k < n then PlaceOf(group[..n], k) else |Present(group[..n])|
    }

    /** It is the member's own position exactly when no member before it is missing. */
    lemma {:induction false} PlaceIsPosition(group: seq<nat>, k: nat)
      requires HoldsAll(group) && k < |group| && At(group[k]).Value?
      ensures PlaceOf(group, k) == k <==> forall j :: 0 <= j < k ==> At(group[j]).Value?
    {
      var n := |group| - 1;
      if k < n {
        PlaceIsPosition(group[..n], k);
        assert forall j :: 0 <= j < k ==> group[..n][j] == group[j];
      } else {
        PresentAll(group[..n]);
        assert forall j :: 0 <= j < k ==> group[..n][j] == group[j];
      }
    }

    lemma {:induction false} PresentAll(group: seq<nat>)
      requires HoldsAll(group)
      ensures |Present(group)| == |group| <==> forall j :: 0 <= j < |group| ==> At(group[j]).Value?
    {
      if group != [] {
        var init := group[..|group| - 1];
        PresentAll(init);
        forall j | 0 <= j < |init| ensures init[j] == group[j] {
        }
      }
    }
  }

  // A group with enough values keeps the member at the position of the value closest to the median - a position
  // counted among the values that are not missing, but applied to the whole group. Other groups keep the default.
  ghost predicate MedianOutcome(vs: Values, group: seq<nat>, minNumObsPerBin: int, thinned: seq<bool>)
    requires vs.HoldsAll(group) && |thinned| == |vs.obs|
  {
    var vals := vs.Present(group);
    if |vals| >= minNumObsPerBin then
      exists k :: ClosestToMedian(vals, k) && forall i :: 0 <= i < |group| ==>
          (thinned[vs.validObsIds[group[i]]] <==> i != k)
    else
      forall i :: 0 <= i < |group| ==> (thinned[vs.validObsIds[group[i]]] <==> minNumObsPerBin >= 2)
  }

  ghost predicate MedianSettings(vs: Values, bins: seq<int>, groups: seq<seq<nat>>) {
    && Distinct(vs.validObsIds) && |bins| == |vs.validObsIds|
    && (forall v :: 0 <= v < |vs.validObsIds| ==> vs.validObsIds[v] < |vs.obs|)
    && MultiElementGroups(bins, groups)
  }

  // With a minimum count below 1 the code takes the median even of no values.
  ghost predicate Countable(vs: Values, groups: seq<seq<nat>>, minNumObsPerBin: int) {
    forall g :: 0 <= g < |groups| && vs.HoldsAll(groups[g]) ==> minNumObsPerBin >= 1 || vs.Present(groups[g]) != []
  }

  ghost predicate IdIn(vs: Values, group: seq<nat>, id: int)
    requires vs.HoldsAll(group)
  {
    exists k :: 0 <= k < |group| && vs.validObsIds[group[k]] == id
  }

  ghost predicate DefaultElsewhere(vs: Values, groups: seq<seq<nat>>, n: nat, minNumObsPerBin: int, thinned: seq<bool>)
    requires |thinned| == |vs.obs| && n <= |groups|
    requires forall g :: 0 <= g < |groups| ==> vs.HoldsAll(groups[g])
  {
    forall id :: 0 <= id < |thinned| && (forall g :: 0 <= g < n ==> !IdIn(vs, groups[g], id)) ==>
      (thinned[id] <==> minNumObsPerBin >= 2)
  }

  method IdentifyThinnedObservationsMedian(vs: Values, groups: seq<seq<nat>>, minNumObsPerBin: int,
                                           ghost bins: seq<int>)
    returns (isThinned: seq<bool>)
    requires MedianSettings(vs, bins, groups) && Countable(vs, groups, minNumObsPerBin)
    ensures |isThinned| == |vs.obs|
    ensures forall g :: 0 <= g < |groups| ==>
              vs.HoldsAll(groups[g]) && MedianOutcome(vs, groups[g], minNumObsPerBin, isThinned)
    ensures DefaultElsewhere(vs, groups, |groups|, minNumObsPerBin, isThinned)
  {
    isThinned := seq(|vs.obs|, _ => true);
    if minNumObsPerBin < 2 {
      isThinned := seq(|vs.obs|, _ => false);
    }
    GroupsHeld(vs, bins, groups);
    for g := 0 to |groups|
      invariant ThinnedSoFar(vs, groups, g, minNumObsPerBin, isThinned)
    {
      isThinned := ThinNextGroup(vs, groups, g, minNumObsPerBin, isThinned, bins);
    }
  }

  // The first n groups are thinned; all else has its default.
  ghost predicate ThinnedSoFar(vs: Values, groups: seq<seq<nat>>, n: nat, minNumObsPerBin: int, thinned: seq<bool>) {
    && |thinned| == |vs.obs| && n <= |groups|
    && AllHeld(vs, groups)
    && MedianOutcomes(vs, groups, n, minNumObsPerBin, thinned)
    && DefaultElsewhere(vs, groups, n, minNumObsPerBin, thinned)
  }

  ghost predicate AllHeld(vs: Values, groups: seq<seq<nat>>) {
    forall g :: 0 <= g < |groups| ==> vs.HoldsAll(groups[g])
  }

  ghost predicate MedianOutcomes(vs: Values, groups: seq<seq<nat>>, n: nat, minNumObsPerBin: int, thinned: seq<bool>)
    requires AllHeld(vs, groups) && |thinned| == |vs.obs| && n <= |groups|
  {
    forall g :: 0 <= g < n ==> MedianOutcome(vs, groups[g], minNumObsPerBin, thinned)
  }

  lemma OneMoreOutcome(vs: Values, groups: seq<seq<nat>>, n: nat, minNumObsPerBin: int, thinned: seq<bool>)
    requires AllHeld(vs, groups) && |thinned| == |vs.obs| && n < |groups|
    requires MedianOutcomes(vs, groups, n, minNumObsPerBin, thinned)
    requires MedianOutcome(vs, groups[n], minNumObsPerBin, thinned)
    ensures MedianOutcomes(vs, groups, n + 1, minNumObsPerBin, thinned)
  {
  }

  lemma GroupsHeld(vs: Values, bins: seq<int>, groups: seq<seq<nat>>)
    requires MedianSettings(vs, bins, groups)
    ensures forall g :: 0 <= g < |groups| ==> vs.HoldsAll(groups[g])
  {
  }

  method ThinNextGroup(vs: Values, groups: seq<seq<nat>>, g: nat, minNumObsPerBin: int, before: seq<bool>,
                       ghost bins: seq<int>)
    returns (isThinned: seq<bool>)
    requires MedianSettings(vs, bins, groups) && g < |groups| && Countable(vs, groups, minNumObsPerBin)
    requires ThinnedSoFar(vs, groups, g, minNumObsPerBin, before)
    ensures ThinnedSoFar(vs, groups, g + 1, minNumObsPerBin, isThinned)
  {
    StillDefault(vs, groups, bins, g, minNumObsPerBin, before);
    isThinned := ThinGroup(vs, groups[g], minNumObsPerBin, before);
    GroupIsThinned(vs, groups, bins, g, minNumObsPerBin, before, isThinned);
  }

  lemma GroupIsThinned(vs: Values, groups: seq<seq<nat>>, bins: seq<int>, g: nat, minNumObsPerBin: int,
                       before: seq<bool>, after: seq<bool>)
    requires MedianSettings(vs, bins, groups) && g < |groups|
    requires ThinnedSoFar(vs, groups, g, minNumObsPerBin, before) && OnlyGroupChanged(vs, groups[g], before, after)
    requires MedianOutcome(vs, groups[g], minNumObsPerBin, after)
    ensures ThinnedSoFar(vs, groups, g + 1, minNumObsPerBin, after)
  {
    OtherGroupsKept(vs, groups, bins, g, minNumObsPerBin, before, after);
    OneMoreOutcome(vs, groups, g, minNumObsPerBin, after);
  }

  // Other members' ids are outside the group's.
  ghost predicate OnlyGroupChanged(vs: Values, group: seq<nat>, before: seq<bool>, after: seq<bool>)
    requires vs.HoldsAll(group)
  {
    && |after| == |before|
    && forall id :: 0 <= id < |before| && !IdIn(vs, group, id) ==> after[id] == before[id]
  }

  method ThinGroup(vs: Values, group: seq<nat>, minNumObsPerBin: int, before: seq<bool>) returns (isThinned: seq<bool>)
    requires vs.HoldsAll(group) && |before| == |vs.obs| && Distinct(vs.validObsIds) && Distinct(group)
    requires minNumObsPerBin >= 1 || vs.Present(group) != []
    requires forall k :: 0 <= k < |group| ==> (before[vs.validObsIds[group[k]]] <==> minNumObsPerBin >= 2)
    ensures OnlyGroupChanged(vs, group, before, isThinned)
    ensures MedianOutcome(vs, group, minNumObsPerBin, isThinned)
  {
    isThinned := before;
    var obsgroup := [];
    for k := 0 to |group|
      invariant obsgroup == vs.Present(group[..k])
    {
      assert group[..k + 1][..k] == group[..k];
      if vs.At(group[k]) != Missing { obsgroup := obsgroup + [vs.At(group[k]).v]; }
    }
    assert group[..|group|] == group;
    if |obsgroup| >= minNumObsPerBin {
      var best := FindClosestToMedian(obsgroup);
      for k := 0 to |group|
        invariant |isThinned| == |before|
        invariant forall i :: 0 <= i < k ==> (isThinned[vs.validObsIds[group[i]]] <==> i != best)
        invariant OnlyGroupChanged(vs, group, before, isThinned)
      {
        isThinned := isThinned[vs.validObsIds[group[k]] := vs.validObsIds[group[k]] != vs.validObsIds[group[best]]];
      }
    }
  }

  lemma OtherGroupsKept(vs: Values, groups: seq<seq<nat>>, bins: seq<int>, g: nat, minNumObsPerBin: int,
                        before: seq<bool>, after: seq<bool>)
    requires MedianSettings(vs, bins, groups) && g < |groups| && |before| == |vs.obs|
    requires AllHeld(vs, groups) && MedianOutcomes(vs, groups, g, minNumObsPerBin, before)
    requires DefaultElsewhere(vs, groups, g, minNumObsPerBin, before)
    requires OnlyGroupChanged(vs, groups[g], before, after)
    ensures MedianOutcomes(vs, groups, g, minNumObsPerBin, after)
    ensures DefaultElsewhere(vs, groups, g + 1, minNumObsPerBin, after)
  {
    forall h | 0 <= h < g ensures MedianOutcome(vs, groups[h], minNumObsPerBin, after) {
      forall k | 0 <= k < |groups[h]|
        ensures after[vs.validObsIds[groups[h][k]]] == before[vs.validObsIds[groups[h][k]]]
      {
        DifferentIds(vs, groups, bins, h, g, k);
      }
      SameOutcome(vs, groups[h], minNumObsPerBin, before, after);
    }
    forall id | 0 <= id < |after| && forall h :: 0 <= h < g + 1 ==> !IdIn(vs, groups[h], id)
      ensures after[id] <==> minNumObsPerBin >= 2
    {
      assert !IdIn(vs, groups[g], id);
    }
  }

  lemma SameOutcome(vs: Values, group: seq<nat>, minNumObsPerBin: int, before: seq<bool>, after: seq<bool>)
    requires vs.HoldsAll(group) && |before| == |after| == |vs.obs| && MedianOutcome(vs, group, minNumObsPerBin, before)
    requires forall k :: 0 <= k < |group| ==> after[vs.validObsIds[group[k]]] == before[vs.validObsIds[group[k]]]
    ensures MedianOutcome(vs, group, minNumObsPerBin, after)
  {
  }

  // The members of a group not yet thinned have the default flag.
  lemma StillDefault(vs: Values, groups: seq<seq<nat>>, bins: seq<int>, g: nat, minNumObsPerBin: int,
                     thinned: seq<bool>)
    requires MedianSettings(vs, bins, groups) && g < |groups| && |thinned| == |vs.obs|
    requires forall h :: 0 <= h < |groups| ==> vs.HoldsAll(groups[h])
    requires DefaultElsewhere(vs, groups, g, minNumObsPerBin, thinned)
    ensures forall k :: 0 <= k < |groups[g]| ==> (thinned[vs.validObsIds[groups[g][k]]] <==> minNumObsPerBin >= 2)
  {
    forall k | 0 <= k < |groups[g]| ensures thinned[vs.validObsIds[groups[g][k]]] <==> minNumObsPerBin >= 2 {
      forall h | 0 <= h < g ensures !IdIn(vs, groups[h], vs.validObsIds[groups[g][k]]) {
        DifferentIds(vs, groups, bins, g, h, k);
      }
    }
  }

  lemma DifferentIds(vs: Values, groups: seq<seq<nat>>, bins: seq<int>, h: nat, g: nat, k: nat)
    requires MedianSettings(vs, bins, groups) && h < |groups| && g < |groups| && h != g && k < |groups[h]|
    requires vs.HoldsAll(groups[g])
    ensures !IdIn(vs, groups[g], vs.validObsIds[groups[h][k]])
  {
    forall i | 0 <= i < |groups[g]| ensures groups[g][i] != groups[h][k] {
      assert groups[g][i] in groups[g] && groups[h][k] in groups[h];
    }
  }

  // Exactly the k-th member of the group survives.
  ghost predicate OnlyKept(vs: Values, group: seq<nat>, thinned: seq<bool>, k: nat)
    requires vs.HoldsAll(group) && |thinned| == |vs.obs|
  {
    k < |group| && forall i :: 0 <= i < |group| ==> (thinned[vs.validObsIds[group[i]]] <==> i != k)
  }

  // The surviving members have values, and these are middle order statistics of those of the group.
  ghost predicate KeepsMiddle(vs: Values, group: seq<nat>, thinned: seq<bool>)
    requires vs.HoldsAll(group) && |thinned| == |vs.obs|
  {
    forall i :: 0 <= i < |group| && !thinned[vs.validObsIds[group[i]]] ==>
      vs.At(group[i]).Value? && IsMiddle(vs.Present(group), vs.At(group[i]).v)
  }

  ghost predicate PresentUpTo(vs: Values, group: seq<nat>, n: int)
    requires vs.HoldsAll(group) && n <= |group|
  {
    forall j :: 0 <= j < n ==> vs.At(group[j]).Value?
  }

  /** Without missing values, and with enough members, exactly one member survives and its value is a middle
      order statistic of the bin. */
  lemma MedianSurvives(vs: Values, group: seq<nat>, minNumObsPerBin: int, thinned: seq<bool>) returns (k: nat)
    requires vs.HoldsAll(group) && |thinned| == |vs.obs| && group != [] && |group| >= minNumObsPerBin
    requires PresentUpTo(vs, group, |group|)
    requires MedianOutcome(vs, group, minNumObsPerBin, thinned)
    ensures OnlyKept(vs, group, thinned, k) && KeepsMiddle(vs, group, thinned)
    ensures |vs.Present(group)| == |group|
  {
    vs.PresentAll(group);
    k :| ClosestToMedian(vs.Present(group), k) && OnlyKept(vs, group, thinned, k);
    SurvivorIsMiddleIff(vs, group, minNumObsPerBin, thinned, k);
  }

  /** The survivor has a value, and that is a middle order statistic of the bin, exactly when no member up to it has
      a missing value. */
  lemma SurvivorIsMiddleIff(vs: Values, group: seq<nat>, minNumObsPerBin: int, thinned: seq<bool>, k: nat)
    requires vs.HoldsAll(group) && |thinned| == |vs.obs| && |vs.Present(group)| >= minNumObsPerBin
    requires MedianOutcome(vs, group, minNumObsPerBin, thinned) && OnlyKept(vs, group, thinned, k)
    ensures KeepsMiddle(vs, group, thinned) <==> PresentUpTo(vs, group, k + 1)
  {
    var vals := vs.Present(group);
    assert ClosestToMedian(vals, k) by {
      var k' :| ClosestToMedian(vals, k') && forall i :: 0 <= i < |group| ==>
                  (thinned[vs.validObsIds[group[i]]] <==> i != k');
      assert k' == k;
    }
    if vs.At(group[k]).Value? {
      var q := vs.PlaceOf(group, k);
      ClosestIsMiddle(vals, q);
      if q == k { vs.PlaceIsPosition(group, k); }
    }
    if PresentUpTo(vs, group, k + 1) { vs.PlaceIsPosition(group, k); }
  }

  // ---------------------------------------------------------------------------
  // Which missing members do no harm, whatever the values

  // The same group, with other values in the same places
  ghost predicate SameMask(vs: Values, ws: Values, group: seq<nat>)
    requires vs.HoldsAll(group)
  {
    && ws.validObsIds == vs.validObsIds && |ws.obs| == |vs.obs|
    && forall i :: 0 <= i < |group| ==> (ws.At(group[i]).Value? <==> vs.At(group[i]).Value?)
  }

  // Whatever the values are, the survivor is a middle one of them.
  ghost predicate AlwaysKeepsMiddle(vs: Values, group: seq<nat>, minNumObsPerBin: int)
    requires vs.HoldsAll(group)
  {
    forall ws: Values, thinned: seq<bool> ::
      SameMask(vs, ws, group) && |thinned| == |ws.obs| && MedianOutcome(ws, group, minNumObsPerBin, thinned) ==>
        KeepsMiddle(ws, group, thinned)
  }

  // Up to which member a group of n values must be without missing ones
  function NeededPrefix(n: nat): (m: int) { if n % 2 == 1 then n else n - 1 }

  /** Thinning keeps a middle value for all values that the members of a bin may have exactly when, of n members with
      a value, the first n members are among them if n is odd, and the first n - 1 if n is even. */
  lemma AlwaysKeepsMiddleIff(vs: Values, group: seq<nat>, minNumObsPerBin: int)
    requires vs.HoldsAll(group) && Distinct(vs.validObsIds) && Distinct(group)
    requires vs.Present(group) != [] && |vs.Present(group)| >= minNumObsPerBin
    ensures AlwaysKeepsMiddle(vs, group, minNumObsPerBin) <==> PresentUpTo(vs, group, NeededPrefix(|vs.Present(group)|))
  {
    var n := |vs.Present(group)|;
    if PresentUpTo(vs, group, NeededPrefix(n)) {
      forall ws: Values, thinned: seq<bool>
        | SameMask(vs, ws, group) && |thinned| == |ws.obs| && MedianOutcome(ws, group, minNumObsPerBin, thinned)
        ensures KeepsMiddle(ws, group, thinned)
      {
        PrefixSuffices(vs, ws, group, minNumObsPerBin, thinned);
      }
    }
    if AlwaysKeepsMiddle(vs, group, minNumObsPerBin) {
      PrefixNeeded(vs, group, minNumObsPerBin);
    }
  }

  lemma {:induction false} MaskCounts(vs: Values, ws: Values, group: seq<nat>)
    requires vs.HoldsAll(group) && ws.HoldsAll(group)
    requires forall i :: 0 <= i < |group| ==> (ws.At(group[i]).Value? <==> vs.At(group[i]).Value?)
    ensures |ws.Present(group)| == |vs.Present(group)|
  {
    if group != [] { MaskCounts(vs, ws, group[..|group| - 1]); }
  }

  lemma PrefixSuffices(vs: Values, ws: Values, group: seq<nat>, minNumObsPerBin: int, thinned: seq<bool>)
    requires vs.HoldsAll(group) && vs.Present(group) != [] && |vs.Present(group)| >= minNumObsPerBin
    requires PresentUpTo(vs, group, NeededPrefix(|vs.Present(group)|)) && SameMask(vs, ws, group)
    requires |thinned| == |ws.obs| && MedianOutcome(ws, group, minNumObsPerBin, thinned)
    ensures KeepsMiddle(ws, group, thinned)
  {
    MaskCounts(vs, ws, group);
    var vals := ws.Present(group);
    var k :| ClosestToMedian(vals, k) && OnlyKept(ws, group, thinned, k);
    if |vals| % 2 == 0 { EvenNotLast(vals, k); }
    SurvivorIsMiddleIff(ws, group, minNumObsPerBin, thinned, k);
  }

  lemma PrefixNeeded(vs: Values, group: seq<nat>, minNumObsPerBin: int)
    requires vs.HoldsAll(group) && Distinct(vs.validObsIds) && Distinct(group)
    requires vs.Present(group) != [] && |vs.Present(group)| >= minNumObsPerBin
    requires AlwaysKeepsMiddle(vs, group, minNumObsPerBin)
    ensures PresentUpTo(vs, group, NeededPrefix(|vs.Present(group)|))
  {
    var n := |vs.Present(group)|;
    var k := NeededPrefix(n) - 1;
    LateMedian(n);
    var ws := Assign(vs, group, WithLateMedian(n));
    var thinned := seq(|ws.obs|, id requires 0 <= id < |ws.obs| => id != ws.validObsIds[group[k]]);
    assert OnlyKept(ws, group, thinned, k);
    assert MedianOutcome(ws, group, minNumObsPerBin, thinned);
    SurvivorIsMiddleIff(ws, group, minNumObsPerBin, thinned, k);
  }

  // Values whose first one closest to the median is the last but for an equally close one
  function WithLateMedian(n: nat): (vals: seq<real>)
    ensures |vals| == n
  {
    if n < 2 then seq(n, _ => 0.0)
    else if n == 2 then [-1.0, 1.0]
    else [-2.0, 2.0] + WithLateMedian(n - 2)
  }

  lemma LateMedian(n: nat)
    requires n > 0
    ensures ClosestToMedian(WithLateMedian(n), NeededPrefix(n) - 1)
  {
    var vals, k := WithLateMedian(n), NeededPrefix(n) - 1;
    LateCounts(n);
    ClosestIsMiddle(vals, k);
    forall i | 0 <= i < k ensures Gap(vals[k], MedianOf(vals)) < Gap(vals[i], MedianOf(vals)) {
      ClosestIsMiddle(vals, i);
    }
  }

  // The middle value is at position k, and there is none before.
  ghost predicate Late(vals: seq<real>, k: nat, v: real) {
    && k < |vals| && vals[k] == v && -2.0 < v < 2.0 && IsMiddle(vals, v)
    && (forall i :: 0 <= i < k ==> vals[i] == -2.0 || vals[i] == 2.0)
    && 2 * Occurrences(vals, NoMoreThan(-2.0)) < |vals| && 2 * Occurrences(vals, NoLessThan(2.0)) < |vals|
  }

  lemma {:induction false} LateCounts(n: nat)
    requires n > 0
    ensures Late(WithLateMedian(n), NeededPrefix(n) - 1, if n % 2 == 1 then 0.0 else -1.0)
  {
    if n == 1 {
      LateOne();
    } else if n == 2 {
      LateTwo();
    } else {
      LateCounts(n - 2);
      StillLate(WithLateMedian(n - 2), NeededPrefix(n - 2) - 1, if n % 2 == 1 then 0.0 else -1.0);
    }
  }

  lemma LateOne()
    ensures Late(WithLateMedian(1), 0, 0.0)
  {
    assert WithLateMedian(1) == [0.0];
  }

  lemma LateTwo()
    ensures Late(WithLateMedian(2), 0, -1.0)
  {
    var vals := [-1.0, 1.0];
    forall p: real -> bool ensures Occurrences(vals, p) == (if p(-1.0) then 1 else 0) + (if p(1.0) then 1 else 0) {
      assert vals[1..] == [1.0] && vals[1..][1..] == [];
    }
    assert !NoMoreThan(-2.0)(-1.0) && !NoLessThan(2.0)(1.0);
  }

  lemma StillLate(rest: seq<real>, k: nat, v: real)
    requires Late(rest, k, v)
    ensures Late([-2.0, 2.0] + rest, k + 2, v)
  {
    TwoMore(rest, NoMoreThan(v));
    TwoMore(rest, NoLessThan(v));
    TwoMore(rest, NoMoreThan(-2.0));
    TwoMore(rest, NoLessThan(2.0));
  }

  lemma TwoMore(rest: seq<real>, p: real -> bool)
    ensures Occurrences([-2.0, 2.0] + rest, p)
            == (if p(-2.0) then 1 else 0) + (if p(2.0) then 1 else 0) + Occurrences(rest, p)
  {
    assert ([-2.0, 2.0] + rest)[1..] == [2.0] + rest;
    assert ([2.0] + rest)[1..] == rest;
  }

  // Other values for the members of the group, and for no others
  ghost predicate Reassigned(vs: Values, ws: Values, group: seq<nat>, vals: seq<real>)
    requires vs.HoldsAll(group)
  {
    && SameMask(vs, ws, group) && ws.Present(group) == vals
    && forall v: nat :: vs.Holds(v) && v !in group ==> ws.At(v) == vs.At(v)
  }

  // Gives the members of the group that have values the given ones.
  lemma {:induction false} Assign(vs: Values, group: seq<nat>, vals: seq<real>) returns (ws: Values)
    requires vs.HoldsAll(group) && Distinct(vs.validObsIds) && Distinct(group) && |vals| == |vs.Present(group)|
    ensures Reassigned(vs, ws, group, vals)
  {
    if group == [] {
      ws := vs;
    } else {
      var init, last := group[..|group| - 1], group[|group| - 1];
      PresentLast(vs, init, last, group);
      if vs.At(last).Missing? {
        ws := Assign(vs, init, vals);
        AssignedMissing(vs, ws, init, last, vals, group);
      } else {
        var head, val := vals[..|vals| - 1], vals[|vals| - 1];
        var us := Assign(vs, init, head);
        ws := AssignLast(vs, us, init, last, head, val, group, vals);
      }
    }
  }

  lemma PresentLast(vs: Values, init: seq<nat>, last: nat, group: seq<nat>)
    requires vs.HoldsAll(group) && group != [] && init == group[..|group| - 1] && last == group[|group| - 1]
    requires Distinct(group)
    ensures vs.HoldsAll(init) && Distinct(init) && vs.Holds(last) && last !in init && group == init + [last]
    ensures |vs.Present(group)| == |vs.Present(init)| + if vs.At(last).Missing? then 0 else 1
  {
  }

  lemma AssignedMissing(vs: Values, ws: Values, init: seq<nat>, last: nat, vals: seq<real>, group: seq<nat>)
    requires vs.HoldsAll(group) && vs.HoldsAll(init) && vs.Holds(last) && last !in init && vs.At(last).Missing?
    requires group == init + [last] && Reassigned(vs, ws, init, vals)
    ensures Reassigned(vs, ws, group, vals)
  {
    assert group[..|init|] == init;
    assert ws.At(last) == vs.At(last);
  }

  lemma AssignLast(vs: Values, us: Values, init: seq<nat>, last: nat, head: seq<real>, val: real, group: seq<nat>,
                   vals: seq<real>) returns (ws: Values)
    requires vs.HoldsAll(group) && vs.HoldsAll(init) && vs.Holds(last) && last !in init && vs.At(last).Value?
    requires group == init + [last] && vals == head + [val]
    requires Distinct(vs.validObsIds) && Reassigned(vs, us, init, head)
    ensures Reassigned(vs, ws, group, vals)
  {
    ws := us.(obs := us.obs[vs.validObsIds[last] := Value(val)]);
    SameValues(us, ws, init);
    assert group[..|init|] == init;
    assert ws.At(last) == Value(val);
  }

  lemma {:induction false} SameValues(vs: Values, ws: Values, group: seq<nat>)
    requires vs.HoldsAll(group) && ws.HoldsAll(group)
    requires forall i :: 0 <= i < |group| ==> ws.At(group[i]) == vs.At(group[i])
    ensures ws.Present(group) == vs.Present(group)
  {
    if group != [] { SameValues(vs, ws, group[..|group| - 1]); }
  }

  /** Where it is not, the survivor may even have no value: of a missing and a present one, the missing one stays. */
  lemma MissingSurvives(vs: Values, group: seq<nat>, thinned: seq<bool>)
    requires vs.HoldsAll(group) && |thinned| == |vs.obs| && |group| == 2
    requires vs.At(group[0]).Missing? && vs.At(group[1]).Value?
    requires MedianOutcome(vs, group, 1, thinned)
    ensures !thinned[vs.validObsIds[group[0]]] && thinned[vs.validObsIds[group[1]]]
  {
    assert group[..1] == [group[0]] && group[..1][..0] == [];
    assert vs.Present(group[..1]) == [];
    assert vs.Present(group) == [vs.At(group[1]).v];
  }
}
