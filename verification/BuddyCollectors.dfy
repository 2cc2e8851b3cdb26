/**
 The two collectors that choose the buddies of one observation from a stream of candidates: V2, and the
 legacy V1, which counts candidates from the same station before it knows whether they are close enough.
 */
module BuddyCollectors {
  import opened BuddySweep

  datatype Limits = Limits(maxTotal: int, maxFromSingleBand: int, maxWithSameStationId: int,
                           searchRadius: real, maxLatDifference: real)

  // Positions and stations; locate gives distance and the two rotation angles of a pair (great-circle geometry)
  datatype Geometry = Geometry(latitudes: seq<real>, stationIds: seq<int>, locate: (nat, nat) -> (real, real, real)) {
    predicate Has(obsId: nat) {
      obsId < |latitudes| && obsId < |stationIds|
    }
  }

  function Abs(x: real): (r: real) { if x < 0.0 then -x else x }

  // What a collector asks about a candidate for observation obsIdA; legacy tells V1 from V2.
  datatype Question = Question(limits: Limits, geometry: Geometry, obsIdA: nat, legacy: bool) {
    predicate Has(b: nat) { geometry.Has(obsIdA) && geometry.Has(b) }

    predicate SameStation(b: nat)
      requires Has(b)
    {
      geometry.stationIds[obsIdA] == geometry.stationIds[b]
    }

    predicate SimilarLatitude(b: nat)
      requires Has(b)
    {
      Abs(geometry.latitudes[obsIdA] - geometry.latitudes[b]) <= limits.maxLatDifference
    }

    predicate InRadius(b: nat) {
      geometry.locate(obsIdA, b).0 <= limits.searchRadius
    }

    predicate Genuine(b: nat)
      requires Has(b)
    {
      SimilarLatitude(b) && InRadius(b)
    }

    function PairWith(b: nat): (p: Pair) {
      var d := geometry.locate(obsIdA, b);
      Pair(obsIdA, b, d.0, d.1, d.2)
    }

    ghost predicate HasAll(cs: seq<nat>) {
      geometry.Has(obsIdA) && forall i :: 0 <= i < |cs| ==> geometry.Has(cs[i])
    }

    // -------------------------------------------------------------------------
    // Which candidates each collector selects, from the whole stream

    function SameCount(cs: seq<nat>): (n: nat)
      requires HasAll(cs)
    {
      if cs == [] then 0 else SameCount(cs[..|cs| - 1]) + (if SameStation(cs[|cs| - 1]) then 1 else 0)
    }

    function GenuineSameCount(cs: seq<nat>): (n: nat)
      requires HasAll(cs)
    {
      if cs == [] then 0
      else GenuineSameCount(cs[..|cs| - 1]) + (if SameStation(cs[|cs| - 1]) && Genuine(cs[|cs| - 1]) then 1 else 0)
    }

    // V2 takes every genuine candidate, except those of the same station after the cap was reached by genuine ones.
    predicate V2Selects(cs: seq<nat>, i: nat)
      requires HasAll(cs) && i < |cs|
    {
      Genuine(cs[i]) && (SameStation(cs[i]) ==> GenuineSameCount(cs[..i]) < limits.maxWithSameStationId)
    }

    // V1 takes every candidate at a similar latitude, except those of the same station once any have reached the cap.
    predicate V1Selects(cs: seq<nat>, i: nat)
      requires HasAll(cs) && i < |cs|
    {
      SimilarLatitude(cs[i]) && (SameStation(cs[i]) ==> SameCount(cs[..i]) < limits.maxWithSameStationId)
    }

    function V2List(cs: seq<nat>): (r: seq<nat>)
      requires HasAll(cs)
    {
      if cs == [] then [] else
        V2List(cs[..|cs| - 1]) + (if V2Selects(cs, |cs| - 1) then [cs[|cs| - 1]] else [])
    }

    function V1List(cs: seq<nat>): (r: seq<nat>)
      requires HasAll(cs)
    {
      if cs == [] then [] else
        V1List(cs[..|cs| - 1]) + (if V1Selects(cs, |cs| - 1) then [cs[|cs| - 1]] else [])
    }

    function PairsWith(bs: seq<nat>): (ps: seq<Pair>) {
      seq(|bs|, i requires 0 <= i < |bs| => PairWith(bs[i]))
    }

    // V1 drops the candidates outside the search radius only when it hands over its list.
    function WithinRadius(bs: seq<nat>): (r: seq<nat>) {
      if bs == [] then [] else WithinRadius(bs[..|bs| - 1]) + (if InRadius(bs[|bs| - 1]) then [bs[|bs| - 1]] else [])
    }

    // What the counters of the collector count, and what it hands over
    function Held(cs: seq<nat>): (r: seq<nat>)
      requires HasAll(cs)
    {
      if legacy then V1List(cs) else V2List(cs)
    }

    function Collected(cs: seq<nat>): (r: seq<nat>)
      requires HasAll(cs)
    {
      if legacy then WithinRadius(V1List(cs)) else V2List(cs)
    }

    lemma {:induction false} GenuineAreFewer(cs: seq<nat>)
      requires HasAll(cs)
      ensures GenuineSameCount(cs) <= SameCount(cs) <= |cs|
    {
      if cs != [] { GenuineAreFewer(cs[..|cs| - 1]); }
    }

    /** Fed the same candidates, V1 ends up with a subsequence of the buddies of V2. */
    lemma {:induction false} V1SubsequenceOfV2(cs: seq<nat>)
      requires HasAll(cs)
      ensures Subsequence(WithinRadius(V1List(cs)), V2List(cs))
    {
      if cs != [] {
        var n := |cs| - 1;
        V1SubsequenceOfV2(cs[..n]);
        HandedOverStep(cs, WithinRadius(V1List(cs[..n])), V2List(cs[..n]), cs[n]);
      }
    }

    // What V1 hands over grows only when what V2 does grows.
    lemma HandedOverStep(cs: seq<nat>, r1: seq<nat>, r2: seq<nat>, x: nat)
      requires HasAll(cs) && cs != [] && x == cs[|cs| - 1]
      requires r1 == WithinRadius(V1List(cs[..|cs| - 1])) && r2 == V2List(cs[..|cs| - 1]) && Subsequence(r1, r2)
      ensures Subsequence(WithinRadius(V1List(cs)), V2List(cs))
    {
      var n := |cs| - 1;
      GenuineAreFewer(cs[..n]);
      var l1 := V1List(cs[..n]);
      WithinRadiusAppend(l1, x);
      assert V1List(cs) == if V1Selects(cs, n) then l1 + [x] else l1;
      if V1Selects(cs, n) && InRadius(x) {
        SubsequenceGrows(r1, r2, r1 + [x], V2List(cs), x);
      } else {
        SubsequenceGrows(r1, r2, r1, V2List(cs), x);
      }
    }

    lemma WithinRadiusAppend(bs: seq<nat>, x: nat)
      ensures WithinRadius(bs + [x]) == if InRadius(x) then WithinRadius(bs) + [x] else WithinRadius(bs)
    {
      assert (bs + [x])[..|bs|] == bs;
    }

    // The number of buddies of the same station that V2 holds
    lemma {:induction false} V2SameCount(cs: seq<nat>)
      requires HasAll(cs) && limits.maxWithSameStationId >= 0
      ensures HasAll(V2List(cs))
      ensures SameCount(V2List(cs)) == Capped(GenuineSameCount(cs))
    {
      if cs != [] {
        var n := |cs| - 1;
        V2SameCount(cs[..n]);
        if V2Selects(cs, n) {
          V2SameCountSelected(cs, V2List(cs[..n]), V2List(cs));
        } else {
          V2SameCountRejected(cs, V2List(cs[..n]), V2List(cs));
        }
      }
    }

    function Capped(n: nat): (m: int) {
      if n <= limits.maxWithSameStationId then n else limits.maxWithSameStationId
    }

    lemma V2SameCountSelected(cs: seq<nat>, r: seq<nat>, r': seq<nat>)
      requires HasAll(cs) && cs != [] && V2Selects(cs, |cs| - 1) && HasAll(r)
      requires r' == r + [cs[|cs| - 1]] && SameCount(r) == Capped(GenuineSameCount(cs[..|cs| - 1]))
      ensures HasAll(r') && SameCount(r') == Capped(GenuineSameCount(cs))
    {
      SameCountAppend(r, cs[|cs| - 1]);
    }

    lemma V2SameCountRejected(cs: seq<nat>, r: seq<nat>, r': seq<nat>)
      requires HasAll(cs) && cs != [] && !V2Selects(cs, |cs| - 1) && HasAll(r)
      requires r' == r && SameCount(r) == Capped(GenuineSameCount(cs[..|cs| - 1]))
      ensures HasAll(r') && SameCount(r') == Capped(GenuineSameCount(cs))
    {
    }

    lemma SameCountAppend(r: seq<nat>, b: nat)
      requires HasAll(r) && Has(b)
      ensures HasAll(r + [b]) && SameCount(r + [b]) == SameCount(r) + (if SameStation(b) then 1 else 0)
    {
      assert (r + [b])[..|r|] == r;
    }

    // V2 decides about one more candidate from the buddies it holds.
    lemma V2Extend(cs: seq<nat>, b: nat)
      requires HasAll(cs) && Has(b) && limits.maxWithSameStationId >= 0
      ensures HasAll(cs + [b]) && HasAll(V2List(cs)) && HasAll(V2List(cs + [b]))
      ensures SameCount(V2List(cs)) <= limits.maxWithSameStationId
      ensures V2List(cs + [b])
           == if Genuine(b) && (SameStation(b) ==> SameCount(V2List(cs)) < limits.maxWithSameStationId)
              then V2List(cs) + [b] else V2List(cs)
      ensures V2List(cs + [b]) == V2List(cs) + [b] ==>
                SameCount(V2List(cs + [b])) == SameCount(V2List(cs)) + (if SameStation(b) then 1 else 0)
    {
      V2SameCount(cs);
      V2Append(cs, b, cs + [b]);
      SameCountAppend(V2List(cs), b);
    }

    lemma V2Append(cs: seq<nat>, b: nat, cs': seq<nat>)
      requires HasAll(cs) && Has(b) && HasAll(cs') && cs' == cs + [b]
      ensures V2List(cs')
           == if Genuine(b) && (SameStation(b) ==> GenuineSameCount(cs) < limits.maxWithSameStationId)
              then V2List(cs) + [b] else V2List(cs)
    {
      assert cs'[..|cs|] == cs;
    }

    // The list and the same-station count V1 has after a stream of candidates
    ghost predicate V1Holds(cs: seq<nat>, list: seq<nat>, same: int) {
      && limits.maxWithSameStationId >= 0
      && HasAll(cs) && list == V1List(cs) && same == Capped(SameCount(cs))
    }

    lemma V1HoldsNext(cs: seq<nat>, list: seq<nat>, same: int, b: nat, list': seq<nat>, same': int)
      requires V1Holds(cs, list, same) && Has(b)
      requires if SameStation(b) && same >= limits.maxWithSameStationId then list' == list && same' == same
               else list' == (if SimilarLatitude(b) then list + [b] else list)
                    && same' == same + (if SameStation(b) then 1 else 0)
      ensures V1Holds(cs + [b], list', same')
    {
      V1Append(cs, b, cs + [b]);
      SameCountAppend(cs, b);
    }

    lemma V1Append(cs: seq<nat>, b: nat, cs': seq<nat>)
      requires HasAll(cs) && Has(b) && HasAll(cs') && cs' == cs + [b]
      ensures V1List(cs')
           == if SimilarLatitude(b) && (SameStation(b) ==> SameCount(cs) < limits.maxWithSameStationId)
              then V1List(cs) + [b] else V1List(cs)
    {
      assert cs'[..|cs|] == cs;
    }

    // The pairs and the same-station count V2 has after a stream of candidates
    ghost predicate V2Holds(cs: seq<nat>, pairs: seq<Pair>, same: int) {
      && limits.maxWithSameStationId >= 0
      && HasAll(cs) && HasAll(V2List(cs))
      && pairs == PairsWith(V2List(cs))
      && same == SameCount(V2List(cs)) <= limits.maxWithSameStationId
    }

    lemma V2HoldsNext(cs: seq<nat>, pairs: seq<Pair>, same: int, b: nat, pairs': seq<Pair>, same': int)
      requires V2Holds(cs, pairs, same) && Has(b)
      requires if Genuine(b) && (SameStation(b) ==> same != limits.maxWithSameStationId)
               then pairs' == pairs + [PairWith(b)] && same' == same + (if SameStation(b) then 1 else 0)
               else pairs' == pairs && same' == same
      ensures V2Holds(cs + [b], pairs', same')
    {
      V2Extend(cs, b);
      PairsWithAppend(V2List(cs), b);
    }

    lemma PairsWithAppend(bs: seq<nat>, b: nat)
      ensures PairsWith(bs + [b]) == PairsWith(bs) + [PairWith(b)]
    {
    }

    /** Every buddy V2 holds is genuine. */
    lemma {:induction false} V2Genuine(cs: seq<nat>, i: nat)
      requires HasAll(cs) && i < |V2List(cs)|
      ensures Has(V2List(cs)[i]) && Genuine(V2List(cs)[i])
    {
      var n := |cs| - 1;
      if i < |V2List(cs[..n])| { V2Genuine(cs[..n], i); }
    }
  }

  // ---------------------------------------------------------------------------

  // a can be obtained from b by leaving out elements.
  predicate Subsequence<T(==)>(a: seq<T>, b: seq<T>) {
    if a == [] then true
    else if b == [] then false
    else (a[|a| - 1] == b[|b| - 1] && Subsequence(a[..|a| - 1], b[..|b| - 1])) || Subsequence(a, b[..|b| - 1])
  }

  lemma SubsequenceRight<T>(a: seq<T>, b: seq<T>, x: T)
    requires Subsequence(a, b)
    ensures Subsequence(a, b + [x])
  {
    assert (b + [x])[..|b|] == b;
  }

  lemma SubsequenceBoth<T>(a: seq<T>, b: seq<T>, x: T)
    requires Subsequence(a, b)
    ensures Subsequence(a + [x], b + [x])
  {
    assert (a + [x])[..|a|] == a && (b + [x])[..|b|] == b;
  }

  lemma SubsequenceGrows<T>(a: seq<T>, b: seq<T>, a': seq<T>, b': seq<T>, x: T)
    requires Subsequence(a, b) && (b' == b + [x] || b' == b)
    requires a' == a || (a' == a + [x] && b' == b + [x])
    ensures Subsequence(a', b')
  {
    SubsequenceBoth(a, b, x);
    SubsequenceRight(a, b, x);
  }

  // ---------------------------------------------------------------------------
  // The collectors

  class BuddyCollectorV2 {
    const limits: Limits
    const geometry: Geometry
    var obsIdA: nat
    var numBuddiesInCurrentBand: int
    var numBuddiesWithSameStationId: int
    var totalNumBuddies: int
    var buddyPairs: seq<Pair>
    ghost var history: seq<nat>   // candidates examined since the last reset
    ghost var bandStart: nat      // number of buddies held when the current band started

    ghost function Asked(): (q: Question)
      reads this
    {
      Question(limits, geometry, obsIdA, false)
    }

    // Each counter is a function of the list, and the list is a function of the stream.
    ghost predicate Valid()
      reads this
    {
      && Asked().V2Holds(history, buddyPairs, numBuddiesWithSameStationId)
      && totalNumBuddies == |buddyPairs|
      && bandStart <= |buddyPairs| && numBuddiesInCurrentBand == |buddyPairs| - bandStart
    }

    constructor (limits: Limits, geometry: Geometry)
      ensures this.limits == limits && this.geometry == geometry
    {
      this.limits, this.geometry := limits, geometry;
      obsIdA, numBuddiesInCurrentBand, numBuddiesWithSameStationId, totalNumBuddies := 0, 0, 0, 0;
      buddyPairs, history, bandStart := [], [], 0;
    }

    method Reset(obsIdA: nat)
      requires limits.maxWithSameStationId >= 0 && geometry.Has(obsIdA)
      modifies this
      ensures Valid() && this.obsIdA == obsIdA && history == [] && bandStart == 0
    {
      this.obsIdA := obsIdA;
      numBuddiesInCurrentBand, numBuddiesWithSameStationId, totalNumBuddies := 0, 0, 0;
      buddyPairs, history, bandStart := [], [], 0;
    }

    method StartProcessingNextBand()
      requires Valid()
      modifies this
      ensures Valid() && obsIdA == old(obsIdA) && history == old(history) && bandStart == |buddyPairs|
    {
      numBuddiesInCurrentBand := 0;
      bandStart := |buddyPairs|;
    }

    method ExaminePotentialBuddy(obsIdB: nat)
      requires Valid() && geometry.Has(obsIdB)
      modifies this
      ensures Valid() && obsIdA == old(obsIdA) && history == old(history) + [obsIdB] && bandStart == old(bandStart)
      ensures old(buddyPairs) <= buddyPairs && |buddyPairs| <= |old(buddyPairs)| + 1
    {
      ghost var q, before, pairs, same := Asked(), history, buddyPairs, numBuddiesWithSameStationId;
      history := history + [obsIdB];
      var sameStationId := geometry.stationIds[obsIdA] == geometry.stationIds[obsIdB];
      if sameStationId && numBuddiesWithSameStationId == limits.maxWithSameStationId {
        q.V2HoldsNext(before, pairs, same, obsIdB, pairs, same);
        return;
      }
      if Abs(geometry.latitudes[obsIdA] - geometry.latitudes[obsIdB]) <= limits.maxLatDifference {
        var d := geometry.locate(obsIdA, obsIdB);
        if d.0 <= limits.searchRadius {
          buddyPairs := buddyPairs + [Pair(obsIdA, obsIdB, d.0, d.1, d.2)];
          totalNumBuddies := totalNumBuddies + 1;
          numBuddiesInCurrentBand := numBuddiesInCurrentBand + 1;
          if sameStationId {
            numBuddiesWithSameStationId := numBuddiesWithSameStationId + 1;
          }
        }
      }
      q.V2HoldsNext(before, pairs, same, obsIdB, buddyPairs, numBuddiesWithSameStationId);
    }

    // The precondition is the assertion in the code.
    method FoundEnoughBuddies() returns (r: bool)
      requires Valid() && totalNumBuddies <= limits.maxTotal
      ensures r <==> |buddyPairs| == limits.maxTotal
    {
      r := totalNumBuddies == limits.maxTotal;
    }

    method FoundEnoughBuddiesInCurrentBand() returns (r: bool)
      requires Valid() && numBuddiesInCurrentBand <= limits.maxFromSingleBand
      ensures r <==> |buddyPairs| - bandStart == limits.maxFromSingleBand
    {
      r := numBuddiesInCurrentBand == limits.maxFromSingleBand;
    }

    method AppendBuddyPairsTo(pairs: seq<Pair>) returns (pairs': seq<Pair>)
      requires Valid()
      ensures pairs' == pairs + Asked().PairsWith(Asked().V2List(history))
    {
      pairs' := pairs + buddyPairs;
    }
  }

  class BuddyCollectorV1 {
    const limits: Limits
    const geometry: Geometry
    var obsIdA: nat
    var numBuddiesInCurrentBand: int
    var numBuddiesWithSameStationId: int
    var totalNumBuddies: int
    var potentialBuddies: seq<nat>
    ghost var history: seq<nat>
    ghost var bandStart: nat

    ghost function Asked(): (q: Question)
      reads this
    {
      Question(limits, geometry, obsIdA, true)
    }

    ghost predicate Valid()
      reads this
    {
      && Asked().V1Holds(history, potentialBuddies, numBuddiesWithSameStationId)
      && totalNumBuddies == |potentialBuddies|
      && bandStart <= |potentialBuddies| && numBuddiesInCurrentBand == |potentialBuddies| - bandStart
    }

    constructor (limits: Limits, geometry: Geometry)
      ensures this.limits == limits && this.geometry == geometry
    {
      this.limits, this.geometry := limits, geometry;
      obsIdA, numBuddiesInCurrentBand, numBuddiesWithSameStationId, totalNumBuddies := 0, 0, 0, 0;
      potentialBuddies, history, bandStart := [], [], 0;
    }

    method Reset(obsIdA: nat)
      requires limits.maxWithSameStationId >= 0 && geometry.Has(obsIdA)
      modifies this
      ensures Valid() && this.obsIdA == obsIdA && history == [] && bandStart == 0
    {
      this.obsIdA := obsIdA;
      numBuddiesInCurrentBand, numBuddiesWithSameStationId, totalNumBuddies := 0, 0, 0;
      potentialBuddies, history, bandStart := [], [], 0;
    }

    method StartProcessingNextBand()
      requires Valid()
      modifies this
      ensures Valid() && obsIdA == old(obsIdA) && history == old(history) && bandStart == |potentialBuddies|
    {
      numBuddiesInCurrentBand := 0;
      bandStart := |potentialBuddies|;
    }

    method ExaminePotentialBuddy(obsIdB: nat)
      requires Valid() && geometry.Has(obsIdB)
      modifies this
      ensures Valid() && obsIdA == old(obsIdA) && history == old(history) + [obsIdB] && bandStart == old(bandStart)
    {
      ghost var q, before, list, same := Asked(), history, potentialBuddies, numBuddiesWithSameStationId;
      history := history + [obsIdB];
      if geometry.stationIds[obsIdA] == geometry.stationIds[obsIdB] {
        if numBuddiesWithSameStationId >= limits.maxWithSameStationId {
          q.V1HoldsNext(before, list, same, obsIdB, list, same);
          return;
        }
        numBuddiesWithSameStationId := numBuddiesWithSameStationId + 1;
      }
      if Abs(geometry.latitudes[obsIdA] - geometry.latitudes[obsIdB]) <= limits.maxLatDifference {
        potentialBuddies := potentialBuddies + [obsIdB];
        numBuddiesInCurrentBand := numBuddiesInCurrentBand + 1;
        totalNumBuddies := totalNumBuddies + 1;
      }
      q.V1HoldsNext(before, list, same, obsIdB, potentialBuddies, numBuddiesWithSameStationId);
    }

    method FoundEnoughBuddies() returns (r: bool)
      requires Valid() && totalNumBuddies <= limits.maxTotal
      ensures r <==> |potentialBuddies| == limits.maxTotal
    {
      r := totalNumBuddies == limits.maxTotal;
    }

    method FoundEnoughBuddiesInCurrentBand() returns (r: bool)
      requires Valid() && numBuddiesInCurrentBand <= limits.maxFromSingleBand
      ensures r <==> |potentialBuddies| - bandStart == limits.maxFromSingleBand
    {
      r := numBuddiesInCurrentBand == limits.maxFromSingleBand;
    }

    method AppendBuddyPairsTo(pairs: seq<Pair>) returns (pairs': seq<Pair>)
      requires Valid()
      ensures pairs' == pairs + Asked().PairsWith(Asked().WithinRadius(Asked().V1List(history)))
    {
      ghost var q := Asked();
      pairs' := pairs;
      for k := 0 to |potentialBuddies|
        invariant pairs' == pairs + q.PairsWith(q.WithinRadius(potentialBuddies[..k]))
      {
        assert potentialBuddies[..k + 1][..k] == potentialBuddies[..k];
        var d := geometry.locate(obsIdA, potentialBuddies[k]);
        if d.0 <= limits.searchRadius {
          pairs' := pairs' + [Pair(obsIdA, potentialBuddies[k], d.0, d.1, d.2)];
        }
      }
      assert potentialBuddies[..|potentialBuddies|] == potentialBuddies;
    }
  }

  /** Either collector, behind the interface that the search uses. */
  datatype Collector = Legacy(v1: BuddyCollectorV1) | Corrected(v2: BuddyCollectorV2) {
    ghost function Footprint(): (objects: set<object>) {
      if Legacy? then {v1} else {v2}
    }

    ghost function Asked(): (q: Question)
      reads Footprint()
    {
      if Legacy? then v1.Asked() else v2.Asked()
    }

    ghost predicate Valid()
      reads Footprint()
    {
      if Legacy? then v1.Valid() else v2.Valid()
    }

    ghost function History(): (cs: seq<nat>)
      reads Footprint()
    {
      if Legacy? then v1.history else v2.history
    }

    ghost function BandStart(): (n: nat)
      reads Footprint()
    {
      if Legacy? then v1.bandStart else v2.bandStart
    }

    ghost predicate Serves(limits: Limits, geometry: Geometry, legacy: bool) {
      && Legacy? == legacy
      && (Legacy? ==> v1.limits == limits && v1.geometry == geometry)
      && (Corrected? ==> v2.limits == limits && v2.geometry == geometry)
    }

    method Reset(obsIdA: nat, ghost q: Question)
      requires q.obsIdA == obsIdA && q.HasAll([]) && q.limits.maxWithSameStationId >= 0
      requires Serves(q.limits, q.geometry, q.legacy)
      modifies Footprint()
      ensures Valid() && Asked() == q && History() == [] && BandStart() == 0
    {
      match this
      case Legacy(v1) => v1.Reset(obsIdA);
      case Corrected(v2) => v2.Reset(obsIdA);
    }

    method StartProcessingNextBand()
      requires Valid()
      modifies Footprint()
      ensures Valid() && Asked() == old(Asked()) && History() == old(History())
      ensures Asked().HasAll(History()) && BandStart() == |Asked().Held(History())|
    {
      match this
      case Legacy(v1) => v1.StartProcessingNextBand();
      case Corrected(v2) => v2.StartProcessingNextBand();
    }

    method ExaminePotentialBuddy(obsIdB: nat)
      requires Valid() && Asked().Has(obsIdB)
      modifies Footprint()
      ensures Valid() && Asked() == old(Asked()) && BandStart() == old(BandStart())
      ensures History() == old(History()) + [obsIdB]
    {
      match this
      case Legacy(v1) => v1.ExaminePotentialBuddy(obsIdB);
      case Corrected(v2) => v2.ExaminePotentialBuddy(obsIdB);
    }

    method FoundEnoughBuddies() returns (r: bool)
      requires Valid() && Asked().HasAll(History()) && |Asked().Held(History())| <= Asked().limits.maxTotal
      ensures r <==> |Asked().Held(History())| == Asked().limits.maxTotal
    {
      match this
      case Legacy(v1) => r := v1.FoundEnoughBuddies();
      case Corrected(v2) => r := v2.FoundEnoughBuddies();
    }

    method FoundEnoughBuddiesInCurrentBand() returns (r: bool)
      requires Valid() && Asked().HasAll(History())
      requires |Asked().Held(History())| - BandStart() <= Asked().limits.maxFromSingleBand
      ensures r <==> |Asked().Held(History())| - BandStart() == Asked().limits.maxFromSingleBand
    {
      match this
      case Legacy(v1) => r := v1.FoundEnoughBuddiesInCurrentBand();
      case Corrected(v2) => r := v2.FoundEnoughBuddiesInCurrentBand();
    }

    method AppendBuddyPairsTo(pairs: seq<Pair>) returns (pairs': seq<Pair>)
      requires Valid()
      ensures Asked().HasAll(History()) && pairs' == pairs + Asked().PairsWith(Asked().Collected(History()))
    {
      match this
      case Legacy(v1) => pairs' := v1.AppendBuddyPairsTo(pairs);
      case Corrected(v2) => pairs' := v2.AppendBuddyPairsTo(pairs);
    }
  }

  method MakeBuddyCollector(limits: Limits, geometry: Geometry, useLegacyBuddyCollector: bool) returns (c: Collector)
    ensures c.Serves(limits, geometry, useLegacyBuddyCollector) && fresh(c.Footprint())
  {
    if useLegacyBuddyCollector {
      var v1 := new BuddyCollectorV1(limits, geometry);
      c := Legacy(v1);
    } else {
      var v2 := new BuddyCollectorV2(limits, geometry);
      c := Corrected(v2);
    }
  }
}
