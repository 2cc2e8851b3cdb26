/** What can be said of the pairs found from the data alone: how they are made up, and how many an observation has. */
module FoundPairs {
  import opened BuddySweep
  import opened BuddyCollectors
  import opened BuddySearch
  import opened Distinctness
  import opened PairLists

  function CountOf(ps: seq<Pair>, f: Pair -> bool): (n: nat)
    ensures n <= |ps|
  {
    if ps == [] then 0 else CountOf(ps[..|ps| - 1], f) + (if f(ps[|ps| - 1]) then 1 else 0)
  }

  // The pairs an observation looked for; those of them with another of its station, and with one of band b
  function LookedFor(a: nat): (f: Pair -> bool) { (p: Pair) => p.obsIdA == a }

  function OfStation(geometry: Geometry, a: nat): (f: Pair -> bool) {
    (p: Pair) => && p.obsIdA == a && a < |geometry.stationIds| && p.obsIdB < |geometry.stationIds|
                 && geometry.stationIds[p.obsIdB] == geometry.stationIds[a]
  }

  ghost function OfBand(s: Search, a: nat, b: nat): (f: Pair -> bool)
    requires s.zones.Valid()
  {
    (p: Pair) => && p.obsIdA == a && p.obsIdB < |s.geometry.latitudes|
                 && s.zones.Band(s.geometry.latitudes[p.obsIdB]) == b
  }

  lemma {:induction false} CountConcat(ps: seq<Pair>, qs: seq<Pair>, f: Pair -> bool)
    ensures CountOf(ps + qs, f) == CountOf(ps, f) + CountOf(qs, f)
  {
    if qs == [] {
      assert ps + qs == ps;
    } else {
      var n := |qs| - 1;
      assert (ps + qs)[..|ps + qs| - 1] == ps + qs[..n];
      CountConcat(ps, qs[..n], f);
    }
  }

  lemma {:induction false} CountNone(ps: seq<Pair>, f: Pair -> bool)
    requires forall k :: 0 <= k < |ps| ==> !f(ps[k])
    ensures CountOf(ps, f) == 0
  {
    if ps != [] { CountNone(ps[..|ps| - 1], f); }
  }

  // f picks only from the list of a.
  ghost predicate PicksFrom(lists: seq<seq<Pair>>, owners: seq<nat>, a: nat, f: Pair -> bool, bound: int) {
    && |lists| == |owners| && bound >= 0
    && forall i :: 0 <= i < |lists| ==> CountOf(lists[i], f) <= if owners[i] == a then bound else 0
  }

  lemma {:induction false} OneList(lists: seq<seq<Pair>>, owners: seq<nat>, a: nat, f: Pair -> bool, bound: int)
    requires PicksFrom(lists, owners, a, f, bound) && Distinct(owners)
    ensures CountOf(Concat(lists), f) <= if a in owners then bound else 0
  {
    if lists != [] {
      var n := |lists| - 1;
      assert owners == owners[..n] + [owners[n]];
      assert owners[n] !in owners[..n];
      OneList(lists[..n], owners[..n], a, f, bound);
      CountConcat(Concat(lists[..n]), lists[n], f);
    }
  }

  lemma OneLooked(s: Search, a: nat, f: Pair -> bool, bound: int)
    requires s.Valid() && bound >= 0 && forall p :: f(p) ==> p.obsIdA == a
    requires forall i {:trigger s.PairsOf(i)} :: 0 <= i < |s.order| && s.order[i] == a ==>
               CountOf(s.PairsOf(i), f) <= bound
    ensures CountOf(s.AllPairs(|s.order|), f) <= bound
  {
    var lists := s.PairLists(|s.order|);
    forall i | 0 <= i < |lists| ensures CountOf(lists[i], f) <= if s.order[i] == a then bound else 0 {
      if s.order[i] != a { CountNone(s.PairsOf(i), f); }
    }
    OneList(lists, s.order, a, f, bound);
    s.AllPairsConcat(|s.order|);
  }

  lemma {:induction false} SameStationCount(q: Question, bs: seq<nat>)
    requires q.HasAll(bs)
    ensures CountOf(q.PairsWith(bs), OfStation(q.geometry, q.obsIdA)) <= q.SameCount(bs)
  {
    if bs != [] {
      var n := |bs| - 1;
      SameStationCount(q, bs[..n]);
      assert q.PairsWith(bs)[..n] == q.PairsWith(bs[..n]);
    }
  }

  lemma {:induction false} BandCount(s: Search, q: Question, bs: seq<nat>, b: nat)
    requires s.Valid() && q.HasAll(bs) && q.geometry == s.geometry
    ensures CountOf(q.PairsWith(bs), OfBand(s, q.obsIdA, b)) <= s.FromBand(bs, b)
  {
    if bs != [] {
      var n := |bs| - 1;
      BandCount(s, q, bs[..n], b);
      assert q.PairsWith(bs)[..n] == q.PairsWith(bs[..n]);
    }
  }

  // Of the pairs ps observation a looked for no more than the limits allow: altogether, with others of its station, and
  // with those of band b.
  ghost predicate WithinLimits(s: Search, ps: seq<Pair>, a: nat, b: nat)
    requires s.zones.Valid()
  {
    && CountOf(ps, LookedFor(a)) <= s.limits.maxTotal
    && CountOf(ps, OfStation(s.geometry, a)) <= s.limits.maxWithSameStationId
    && CountOf(ps, OfBand(s, a, b)) <= s.limits.maxFromSingleBand
  }

  lemma OwnWithinLimits(s: Search, i: nat, b: nat)
    requires s.Valid() && i < |s.order| && b < s.zones.numZonalBands
    ensures WithinLimits(s, s.PairsOf(i), s.order[i], b)
  {
    s.BuddiesKeepLimits(i);
    s.BandLimitKept(i, b);
    SameStationCount(s.Asked(i), s.Buddies(i));
    BandCount(s, s.Asked(i), s.Buddies(i), b);
  }

  /** Nobody has looked for more pairs than the limits allow. */
  lemma FoundWithinLimits(s: Search, a: nat, b: nat)
    requires s.Valid() && b < s.zones.numZonalBands
    ensures WithinLimits(s, s.AllPairs(|s.order|), a, b)
  {
    forall i {:trigger s.PairsOf(i)} | 0 <= i < |s.order| && s.order[i] == a
      ensures WithinLimits(s, s.PairsOf(i), a, b)
    {
      OwnWithinLimits(s, i, b);
    }
    OneLooked(s, a, LookedFor(a), s.limits.maxTotal);
    OneLooked(s, a, OfStation(s.geometry, a), s.limits.maxWithSameStationId);
    OneLooked(s, a, OfBand(s, a, b), s.limits.maxFromSingleBand);
  }

  // p is made up from the data of its members, which are at similar latitudes and within the search radius.
  ghost predicate MadeUp(s: Search, p: Pair) {
    && s.geometry.Has(p.obsIdA) && s.geometry.Has(p.obsIdB) && p.obsIdA != p.obsIdB
    && (p.distanceInKm, p.rotationAInRad, p.rotationBInRad) == s.geometry.locate(p.obsIdA, p.obsIdB)
    && p.distanceInKm <= s.limits.searchRadius
    && s.geometry.latitudes[p.obsIdA] - s.geometry.latitudes[p.obsIdB] <= s.limits.maxLatDifference
    && s.geometry.latitudes[p.obsIdB] - s.geometry.latitudes[p.obsIdA] <= s.limits.maxLatDifference
  }

  lemma FoundIsMadeUp(s: Search, p: Pair)
    requires s.Valid() && p in s.AllPairs(|s.order|)
    ensures MadeUp(s, p) && p.obsIdA in s.order && p.obsIdB in s.order
  {
    s.NotWithItself(|s.order|, p);
    s.PairsCome(|s.order|, p);
    var i :| 0 <= i < |s.order| && s.PairOf(i, p);
    assert p.obsIdA == s.order[i];
  }
}
