/**
 The pairs the search for buddies ends up with: what each observation feeds to its collector, band by band, until
 the collector has enough.
 */
module BuddySearch {
  import opened BuddySweep
  import opened BuddyCollectors
  import opened BuddyFeed
  import opened RunFacts
  import opened LegacyCollector
  import opened Distinctness
  import opened LongitudeSearch
  import opened ZonalBands
  import opened PairLists

  // order lists the observations by band and longitude; band b holds positions bandLbounds[b] .. bandLbounds[b + 1].
  datatype Search = Search(zones: Zones, limits: Limits, legacy: bool, geometry: Geometry, sky: Sky, order: seq<nat>,
                           bandLbounds: seq<nat>) {

    ghost predicate Valid() {
      && zones.Valid() && sky.Valid() && |sky.lon| == |order|
      && limits.maxTotal >= 1 && limits.maxFromSingleBand >= 1 && limits.maxWithSameStationId >= 0
      && (forall k :: 0 <= k < |order| ==> geometry.Has(order[k]))
      && Distinct(order)
      && |bandLbounds| == zones.numZonalBands + 1
      && (forall b, c :: BoundsAscend(b, c))
      && (forall b :: 0 <= b < |bandLbounds| ==> bandLbounds[b] <= |order|)
      && (forall k {:trigger InBand(k, sky.band[k])} :: 0 <= k < |order| ==> InBand(k, sky.band[k]))
      && (forall k {:trigger zones.Band(geometry.latitudes[order[k]])} :: 0 <= k < |order| ==>
           sky.band[k] == zones.Band(geometry.latitudes[order[k]]))
    }

    predicate BoundsAscend(b: int, c: int) {
      0 <= b <= c < |bandLbounds| ==> bandLbounds[b] <= bandLbounds[c]
    }

    predicate InBand(k: nat, b: nat) {
      b + 1 < |bandLbounds| && bandLbounds[b] <= k < bandLbounds[b + 1]
    }

    lemma OneBand(k: nat, b: nat)
      requires Valid() && k < |order| && InBand(k, b)
      ensures b == sky.band[k]
    {
      assert InBand(k, sky.band[k]);
      assert BoundsAscend(b + 1, sky.band[k]) && BoundsAscend(sky.band[k] + 1, b);
    }

    function Asked(i: nat): (q: Question)
      requires i < |order|
    {
      Question(limits, geometry, order[i], legacy)
    }

    ghost predicate Reached(i: nat, b: nat, j: int)
      requires Valid() && i < |order|
    {
      0 <= j < |order| && sky.band[j] == b && sky.InReach(i, j)
    }

    // The positions of band b that position i examines, in order
    ghost function Positions(i: nat, b: nat): (js: seq<nat>)
      requires Valid() && i < |order| && b < zones.numZonalBands
      ensures Distinct(js) && forall j :: j in js <==> Reached(i, b, j)
    {
      var lo, hi := bandLbounds[b], bandLbounds[b + 1];
      assert BoundsAscend(b, b + 1);
      PositionsFacts(i, b, lo, hi, sky.Candidates(i, lo, hi));
      sky.Candidates(i, lo, hi)
    }

    lemma PositionsFacts(i: nat, b: nat, lo: nat, hi: nat, js: seq<nat>)
      requires Valid() && i < |order| && b < zones.numZonalBands && lo == bandLbounds[b] && hi == bandLbounds[b + 1]
      requires lo <= hi <= |order| && js == sky.Candidates(i, lo, hi)
      ensures Distinct(js) && forall j :: j in js <==> Reached(i, b, j)
    {
      sky.CandidatesIff(i, lo, hi);
      forall j ensures j in js <==> Reached(i, b, j) {
        if 0 <= j < |order| { BandRange(j, b, lo, hi); }
      }
    }

    lemma BandRange(j: nat, b: nat, lo: nat, hi: nat)
      requires Valid() && j < |order| && b < zones.numZonalBands && lo == bandLbounds[b] && hi == bandLbounds[b + 1]
      ensures lo <= j < hi <==> sky.band[j] == b
    {
      assert InBand(j, sky.band[j]);
      if lo <= j < hi { OneBand(j, b); }
    }

    // What position i feeds its collector from band b, in order
    ghost function Stream(i: nat, b: nat): (cs: seq<nat>)
      requires Valid() && i < |order| && b < zones.numZonalBands
      ensures Asked(i).HasAll(cs)
    {
      InRangeOf(Positions(i, b), |order|);
      Gathered(order, Positions(i, b))
    }

    ghost predicate Searched(i: nat, b: nat)
      requires Valid() && i < |order|
    {
      zones.Searches(geometry.latitudes[order[i]], b)
    }

    // The bands from b on that are searched, each with what it feeds
    ghost function Streams(i: nat, b: nat): (bands: seq<seq<nat>>)
      requires Valid() && i < |order|
      ensures Askable(Asked(i), bands)
      decreases zones.numZonalBands - b
    {
      if b >= zones.numZonalBands then []
      else if Searched(i, b) then [Stream(i, b)] + Streams(i, b + 1)
      else Streams(i, b + 1)
    }

    ghost function Examined(i: nat): (h: seq<nat>)
      requires Valid() && i < |order|
      ensures Asked(i).HasAll(h)
    {
      Run(Asked(i), [], Streams(i, 0))
    }

    ghost function Buddies(i: nat): (bs: seq<nat>)
      requires Valid() && i < |order|
    {
      Asked(i).Collected(Examined(i))
    }

    // The pairs found for the observation at position i, and for those at the first n positions
    ghost function PairsOf(i: nat): (ps: seq<Pair>)
      requires Valid() && i < |order|
    {
      Asked(i).PairsWith(Buddies(i))
    }

    ghost function AllPairs(n: nat): (ps: seq<Pair>)
      requires Valid() && n <= |order|
    {
      if n == 0 then [] else AllPairs(n - 1) + PairsOf(n - 1)
    }

    ghost function PairLists(n: nat): (lists: seq<seq<Pair>>)
      requires Valid() && n <= |order|
      ensures |lists| == n && forall i :: 0 <= i < n ==> lists[i] == PairsOf(i)
    {
      seq(n, (i: nat) requires i < n => PairsOf(i))
    }

    lemma {:induction false} AllPairsConcat(n: nat)
      requires Valid() && n <= |order|
      ensures AllPairs(n) == Concat(PairLists(n))
    {
      if n > 0 {
        AllPairsConcat(n - 1);
        assert PairLists(n)[..n - 1] == PairLists(n - 1);
      }
    }

    // Position i examines position j, unless it has enough buddies before.
    ghost predicate Examines(i: nat, j: nat)
      requires Valid() && i < |order| && j < |order|
    {
      Searched(i, sky.band[j]) && sky.InReach(i, j)
    }

    lemma ExaminesOneWay(i: nat, j: nat)
      requires Valid() && i < |order| && j < |order| && Examines(i, j)
      ensures i != j && !Examines(j, i)
    {
      if sky.band[i] == sky.band[j] { sky.ReachOneWay(i, j); }
    }

    // -------------------------------------------------------------------------
    // What is fed: the observations in reach, each once

    // x is an observation of a band from b on that position i examines.
    ghost predicate InSight(i: nat, b: nat, x: nat)
      requires Valid() && i < |order|
    {
      exists j :: 0 <= j < |order| && order[j] == x && sky.band[j] >= b && Examines(i, j)
    }

    lemma StreamAt(i: nat, b: nat, x: nat)
      requires Valid() && i < |order| && b < zones.numZonalBands
      ensures x in Stream(i, b) <==> exists j :: Reached(i, b, j) && order[j] == x
    {
      InRangeOf(Positions(i, b), |order|);
      GatheredIff(order, Positions(i, b), x);
    }

    lemma StreamDistinct(i: nat, b: nat)
      requires Valid() && i < |order| && b < zones.numZonalBands
      ensures Distinct(Stream(i, b))
    {
      InRangeOf(Positions(i, b), |order|);
      GatheredDistinct(order, Positions(i, b));
    }

    lemma BandOf(j: nat)
      requires Valid() && j < |order|
      ensures sky.band[j] < zones.numZonalBands && sky.band[j] == zones.Band(geometry.latitudes[order[j]])
    {
      assert InBand(j, sky.band[j]);
    }

    lemma {:induction false} StreamsHold(i: nat, b: nat, x: nat)
      requires Valid() && i < |order|
      ensures x in Flatten(Streams(i, b)) <==> InSight(i, b, x)
      decreases zones.numZonalBands - b
    {
      if b >= zones.numZonalBands {
        forall j | 0 <= j < |order| ensures sky.band[j] < b { BandOf(j); }
      } else {
        StreamsHold(i, b + 1, x);
        StreamAt(i, b, x);
        FlattenFirst(Stream(i, b), Streams(i, b + 1));
        if j :| Reached(i, b, j) && order[j] == x && Searched(i, b) { assert Examines(i, j); }
        if j :| 0 <= j < |order| && order[j] == x && sky.band[j] == b && Examines(i, j) { assert Reached(i, b, j); }
      }
    }

    lemma {:induction false} StreamsDistinct(i: nat, b: nat)
      requires Valid() && i < |order|
      ensures Distinct(Flatten(Streams(i, b)))
      decreases zones.numZonalBands - b
    {
      if b < zones.numZonalBands {
        StreamsDistinct(i, b + 1);
        if Searched(i, b) {
          StreamDistinct(i, b);
          forall x | x in Stream(i, b) ensures x !in Flatten(Streams(i, b + 1)) {
            StreamAt(i, b, x);
            StreamsHold(i, b + 1, x);
          }
          FlattenFirst(Stream(i, b), Streams(i, b + 1));
          DistinctConcat(Stream(i, b), Flatten(Streams(i, b + 1)));
        }
      }
    }

    // Where band c is among the streams
    lemma {:induction false} StreamIndex(i: nat, b: nat, c: nat) returns (m: nat)
      requires Valid() && i < |order| && b <= c < zones.numZonalBands && Searched(i, c)
      ensures m < |Streams(i, b)| && Streams(i, b)[m] == Stream(i, c)
      decreases c - b
    {
      if b == c {
        m := 0;
      } else {
        m := StreamIndex(i, b + 1, c);
        if Searched(i, b) { m := m + 1; }
      }
    }

    // -------------------------------------------------------------------------
    // How many come from a band

    ghost predicate IsOfBand(x: nat, b: nat)
      requires Valid()
    {
      x < |geometry.latitudes| && zones.Band(geometry.latitudes[x]) == b
    }

    ghost function FromBand(bs: seq<nat>, b: nat): (n: nat)
      requires Valid()
      ensures n <= |bs|
    {
      if bs == [] then 0 else FromBand(bs[..|bs| - 1], b) + (if IsOfBand(bs[|bs| - 1], b) then 1 else 0)
    }

    // An observation in sight is of band b exactly if the stream of that band holds it.
    lemma InSightOfBand(i: nat, x: nat, b: nat)
      requires Valid() && i < |order| && InSight(i, 0, x) && b < zones.numZonalBands
      ensures IsOfBand(x, b) ==> Searched(i, b) && x in Stream(i, b)
      ensures x in Stream(i, b) ==> IsOfBand(x, b)
    {
      var j :| 0 <= j < |order| && order[j] == x && Examines(i, j);
      BandOf(j);
      StreamAt(i, b, x);
      if IsOfBand(x, b) { assert Reached(i, b, j); }
      if x in Stream(i, b) {
        var k :| Reached(i, b, k) && order[k] == x;
        BandOf(k);
      }
    }

    lemma {:induction false} FromBandAmong(i: nat, bs: seq<nat>, b: nat)
      requires Valid() && i < |order| && b < zones.numZonalBands && forall k :: 0 <= k < |bs| ==> InSight(i, 0, bs[k])
      ensures FromBand(bs, b) == if Searched(i, b) then Among(bs, Stream(i, b)) else 0
    {
      if bs != [] {
        FromBandAmong(i, bs[..|bs| - 1], b);
        InSightOfBand(i, bs[|bs| - 1], b);
      }
    }

    // -------------------------------------------------------------------------
    // The buddies of one observation

    // b is a buddy the observation at position i may have.
    ghost predicate Eligible(i: nat, b: nat)
      requires Valid() && i < |order|
    {
      exists j :: 0 <= j < |order| && order[j] == b && Examines(i, j) && Asked(i).Genuine(order[j])
    }

    // What its collector counts against the limits
    ghost function Counted(i: nat): (bs: seq<nat>)
      requires Valid() && i < |order|
    {
      Asked(i).Held(Examined(i))
    }

    lemma ExaminedInOrder(i: nat)
      requires Valid() && i < |order|
      ensures Subsequence(Counted(i), Flatten(Streams(i, 0))) && Subsequence(Buddies(i), Counted(i))
      ensures Subsequence(Buddies(i), Flatten(Streams(i, 0)))
    {
      var q, h, cs := Asked(i), Examined(i), Flatten(Streams(i, 0));
      RunInOrder(q, [], Streams(i, 0));
      assert [] + cs == cs;
      HeldInOrder(q, h);
      SubsequenceTransitive(q.Held(h), h, cs);
      CollectedOfHeld(q, h);
      SubsequenceTransitive(q.Collected(h), q.Held(h), cs);
    }

    lemma CountedInSight(i: nat)
      requires Valid() && i < |order|
      ensures Distinct(Buddies(i)) && Distinct(Counted(i))
      ensures forall k :: 0 <= k < |Counted(i)| ==> InSight(i, 0, Counted(i)[k])
    {
      var cs := Flatten(Streams(i, 0));
      ExaminedInOrder(i);
      StreamsDistinct(i, 0);
      SubsequenceDistinct(Counted(i), cs);
      SubsequenceDistinct(Buddies(i), cs);
      SubsequenceElements(Counted(i), cs);
      forall k | 0 <= k < |Counted(i)| ensures InSight(i, 0, Counted(i)[k]) {
        assert Counted(i)[k] in cs;
        StreamsHold(i, 0, Counted(i)[k]);
      }
    }

    lemma BuddyEligible(i: nat, b: nat)
      requires Valid() && i < |order| && b in Buddies(i)
      ensures Eligible(i, b)
    {
      var q, h := Asked(i), Examined(i);
      ExaminedInOrder(i);
      SubsequenceElements(Buddies(i), Flatten(Streams(i, 0)));
      StreamsHold(i, 0, b);
      CollectedIff(q, h, b);
    }

    /** Each buddy is eligible and counts once, and there are no more of them, altogether or from one station, than
        the limits allow. */
    lemma BuddiesKeepLimits(i: nat)
      requires Valid() && i < |order|
      ensures |Buddies(i)| <= |Counted(i)| <= limits.maxTotal
      ensures Asked(i).HasAll(Buddies(i)) && Asked(i).SameCount(Buddies(i)) <= limits.maxWithSameStationId
      ensures Distinct(Buddies(i)) && forall k :: 0 <= k < |Buddies(i)| ==> Eligible(i, Buddies(i)[k])
    {
      CountedInSight(i);
      ExaminedInOrder(i);
      SubsequenceLength(Buddies(i), Counted(i));
      RunTotal(Asked(i), [], Streams(i, 0));
      CollectedSameCount(Asked(i), Examined(i));
      forall k | 0 <= k < |Buddies(i)| ensures Eligible(i, Buddies(i)[k]) { BuddyEligible(i, Buddies(i)[k]); }
    }

    /** An observation has no more buddies from one band than the limit allows. */
    lemma BandLimitKept(i: nat, b: nat)
      requires Valid() && i < |order| && b < zones.numZonalBands
      ensures FromBand(Buddies(i), b) <= FromBand(Counted(i), b) <= limits.maxFromSingleBand
    {
      CountedInSight(i);
      ExaminedInOrder(i);
      SubsequenceElements(Buddies(i), Counted(i));
      forall k | 0 <= k < |Buddies(i)| ensures InSight(i, 0, Buddies(i)[k]) {
        assert Buddies(i)[k] in Counted(i);
        var l :| 0 <= l < |Counted(i)| && Counted(i)[l] == Buddies(i)[k];
      }
      FromBandAmong(i, Buddies(i), b);
      FromBandAmong(i, Counted(i), b);
      if Searched(i, b) {
        AmongSubsequence(Buddies(i), Counted(i), Stream(i, b));
        StreamsDistinct(i, 0);
        FlattenDisjoint(Streams(i, 0));
        var m := StreamIndex(i, 0, b);
        RunBandLimit(Asked(i), [], Streams(i, 0), m);
      }
    }

    // A limit that may have cost observation x its place: the total, that of its band, or that of its station
    ghost predicate MetLimit(i: nat, x: nat)
      requires Valid() && i < |order|
    {
      && geometry.Has(x) && Asked(i).HasAll(Asked(i).V2List(Examined(i)))
      && (|| |Counted(i)| == limits.maxTotal
          || FromBand(Counted(i), zones.Band(geometry.latitudes[x])) == limits.maxFromSingleBand
          || (Asked(i).SameStation(x) && AllowanceUsed(Asked(i), Examined(i))))
    }

    /** An observation has every eligible buddy, unless it met a limit that applies to this very buddy. */
    lemma BuddiesComplete(i: nat, x: nat)
      requires Valid() && i < |order| && Eligible(i, x)
      ensures x in Buddies(i) || MetLimit(i, x)
    {
      var q := Asked(i);
      var j :| 0 <= j < |order| && order[j] == x && Examines(i, j) && q.Genuine(order[j]);
      var b := sky.band[j];
      BandOf(j);
      assert Reached(i, b, j);
      StreamAt(i, b, x);
      var m := StreamIndex(i, 0, b);
      RunComplete(q, [], Streams(i, 0), m, x);
      CountedInSight(i);
      FromBandAmong(i, Counted(i), b);
      BandLimitKept(i, b);
    }

    /** With the corrected collector the limits are met by buddies alone: what it counts are the buddies. */
    lemma MetLimitByBuddies(i: nat, x: nat)
      requires Valid() && i < |order| && !legacy && MetLimit(i, x)
      ensures Asked(i).HasAll(Buddies(i))
      ensures || |Buddies(i)| == limits.maxTotal
              || FromBand(Buddies(i), zones.Band(geometry.latitudes[x])) == limits.maxFromSingleBand
              || (Asked(i).SameStation(x) && Asked(i).SameCount(Buddies(i)) == limits.maxWithSameStationId)
    {
      BuddiesKeepLimits(i);
    }

    // -------------------------------------------------------------------------
    // The legacy collector in the same search

    lemma SameValid(s: Search)
      requires Valid() && s == this.(legacy := s.legacy)
      ensures s.Valid()
    {
      forall b, c ensures s.BoundsAscend(b, c) { assert BoundsAscend(b, c); }
      forall k | 0 <= k < |order| ensures s.InBand(k, sky.band[k]) { assert InBand(k, sky.band[k]); }
    }

    lemma {:induction false} SameStreams(s: Search, i: nat, b: nat)
      requires Valid() && s == this.(legacy := s.legacy) && i < |order|
      ensures s.Valid() && s.Streams(i, b) == Streams(i, b)
      decreases zones.numZonalBands - b
    {
      SameValid(s);
      if b < zones.numZonalBands {
        SameStreams(s, i, b + 1);
        assert s.Stream(i, b) == Stream(i, b);
      }
    }

    // -------------------------------------------------------------------------
    // All pairs

    ghost predicate PairOf(i: nat, p: Pair)
      requires Valid() && i < |order|
    {
      Eligible(i, p.obsIdB) && p == Asked(i).PairWith(p.obsIdB)
    }

    lemma PairsOfEligible(i: nat, p: Pair)
      requires Valid() && i < |order| && p in PairsOf(i)
      ensures PairOf(i, p)
    {
      var bs := Buddies(i);
      var k :| 0 <= k < |bs| && PairsOf(i)[k] == p;
      BuddyEligible(i, bs[k]);
    }

    lemma PairsCome(n: nat, p: Pair)
      requires Valid() && n <= |order| && p in AllPairs(n)
      ensures exists i :: 0 <= i < n && PairOf(i, p)
    {
      AllPairsConcat(n);
      ConcatElement(PairLists(n), p);
      var i :| 0 <= i < n && p in PairLists(n)[i];
      PairsOfEligible(i, p);
    }

    lemma BuddyPaired(i: nat, b: nat)
      requires Valid() && i < |order| && b in Buddies(i)
      ensures Asked(i).PairWith(b) in AllPairs(|order|)
    {
      var bs := Buddies(i);
      var k :| 0 <= k < |bs| && bs[k] == b;
      assert PairsOf(i)[k] == Asked(i).PairWith(b);
      AllPairsConcat(|order|);
      ConcatContains(PairLists(|order|), i, Asked(i).PairWith(b));
    }

    lemma PairsDiffer(i: nat, i': nat, p: Pair, p': Pair)
      requires Valid() && i < |order| && i' < |order| && i != i' && PairOf(i, p) && PairOf(i', p')
      ensures !SameObservations(p, p')
    {
      var j :| 0 <= j < |order| && order[j] == p.obsIdB && Examines(i, j) && Asked(i).Genuine(order[j]);
      var j' :| 0 <= j' < |order| && order[j'] == p'.obsIdB && Examines(i', j') && Asked(i').Genuine(order[j']);
      ExaminesOneWay(i, j);
    }

    lemma PairsSwapDiffers(i: nat, p: Pair, p': Pair)
      requires Valid() && i < |order| && PairOf(i, p) && PairOf(i, p')
      ensures !(p.obsIdA == p'.obsIdB && p.obsIdB == p'.obsIdA)
    {
      var j :| 0 <= j < |order| && order[j] == p.obsIdB && Examines(i, j) && Asked(i).Genuine(order[j]);
      ExaminesOneWay(i, j);
    }

    lemma OwnPairsDiffer(i: nat)
      requires Valid() && i < |order|
      ensures NoRepeat(PairsOf(i))
    {
      var bs, ps := Buddies(i), PairsOf(i);
      CountedInSight(i);
      forall k, l | 0 <= k < l < |ps| ensures !SameObservations(ps[k], ps[l]) {
        assert ps[k] in ps && ps[l] in ps && bs[k] != bs[l];
        PairsOfEligible(i, ps[k]);
        PairsOfEligible(i, ps[l]);
        PairsSwapDiffers(i, ps[k], ps[l]);
      }
    }

    /** No two observations are paired twice, either way round. */
    lemma NoPairTwice(n: nat)
      requires Valid() && n <= |order|
      ensures NoRepeat(AllPairs(n))
    {
      var lists := PairLists(n);
      forall i | 0 <= i < n ensures NoRepeat(lists[i]) { OwnPairsDiffer(i); }
      forall i, j | 0 <= i < j < n ensures NoneShared(lists[i], lists[j]) {
        forall p, p' | p in PairsOf(i) && p' in PairsOf(j) ensures !SameObservations(p, p') {
          PairsOfEligible(i, p);
          PairsOfEligible(j, p');
          PairsDiffer(i, j, p, p');
        }
      }
      ConcatNoRepeat(lists);
      AllPairsConcat(n);
    }

    lemma NotWithItself(n: nat, p: Pair)
      requires Valid() && n <= |order| && p in AllPairs(n)
      ensures p.obsIdA != p.obsIdB
    {
      PairsCome(n, p);
      var i :| 0 <= i < n && PairOf(i, p);
      PairsSwapDiffers(i, p, p);
    }

    ghost predicate Paired(i: nat, j: nat)
      requires Valid() && i < |order| && j < |order|
    {
      Asked(i).PairWith(order[j]) in AllPairs(|order|) || Asked(j).PairWith(order[i]) in AllPairs(|order|)
    }

    // A pair comes from one that examines the other.
    lemma PairedExamines(i: nat, j: nat)
      requires Valid() && i < |order| && j < |order| && Asked(i).PairWith(order[j]) in AllPairs(|order|)
      ensures Examines(i, j)
    {
      var p := Asked(i).PairWith(order[j]);
      PairsCome(|order|, p);
      var l :| 0 <= l < |order| && PairOf(l, p);
      PairOfExamines(i, j, l, p);
    }

    lemma PairOfExamines(i: nat, j: nat, l: nat, p: Pair)
      requires Valid() && i < |order| && j < |order| && l < |order| && PairOf(l, p) && p == Asked(i).PairWith(order[j])
      ensures Examines(i, j)
    {
      assert order[l] == order[i];
      var k :| 0 <= k < |order| && order[k] == p.obsIdB && Examines(l, k) && Asked(l).Genuine(order[k]);
      assert order[k] == order[j];
    }

    ghost predicate OnEarth()
      requires zones.Valid()
    {
      && sky.OnGlobe() && limits.maxLatDifference == zones.SearchDLat()
      && forall k :: 0 <= k < |order| ==> geometry.Has(order[k]) && -90.0 <= geometry.latitudes[order[k]] <= 90.0
    }

    // In a band, two observations hide from each other across the date line.
    ghost predicate Hidden(i: nat, j: nat)
      requires sky.Valid() && i < |sky.lon| && j < |sky.lon|
    {
      sky.band[i] == sky.band[j] && 180.0 <= sky.width[i] < sky.lon[j] - sky.lon[i]
    }

    /** Any two observations within the search radius and the range of longitudes are paired, wherever the date line
        runs, unless they are hidden from each other or the one that examines the other met a limit. */
    lemma BuddiesArePaired(i: nat, j: nat)
      requires Valid() && i < j < |order| && OnEarth() && zones.WideEnough()
      requires Asked(i).Genuine(order[j]) && Asked(j).Genuine(order[i]) && sky.Apart(i, j) < sky.width[i]
      ensures Paired(i, j) || Hidden(i, j) || (Examines(i, j) && MetLimit(i, order[j]))
              || (Examines(j, i) && MetLimit(j, order[i]))
    {
      BandsInOrder(i, j);
      zones.SearchesBuddies(geometry.latitudes[order[i]], geometry.latitudes[order[j]]);
      if sky.band[i] == sky.band[j] {
        zones.SearchesBuddies(geometry.latitudes[order[j]], geometry.latitudes[order[i]]);
        sky.ReachWithinBand(i, j);
      } else {
        sky.ReachAcrossBands(i, j);
      }
      if Examines(i, j) {
        ExaminedIsPaired(i, j);
      } else if Examines(j, i) {
        ExaminedIsPaired(j, i);
      }
    }

    lemma ExaminedIsPaired(i: nat, j: nat)
      requires Valid() && i < |order| && j < |order| && Examines(i, j) && Asked(i).Genuine(order[j])
      ensures Asked(i).PairWith(order[j]) in AllPairs(|order|) || MetLimit(i, order[j])
    {
      assert Eligible(i, order[j]);
      BuddiesComplete(i, order[j]);
      if order[j] in Buddies(i) { BuddyPaired(i, order[j]); }
    }

    /** Hidden observations are never paired, however close they are. */
    lemma HiddenAreNotPaired(i: nat, j: nat)
      requires Valid() && sky.OnGlobe() && i < j < |order| && Hidden(i, j)
      ensures !Paired(i, j)
    {
      sky.HiddenInBand(i, j);
      if Asked(i).PairWith(order[j]) in AllPairs(|order|) { PairedExamines(i, j); }
      if Asked(j).PairWith(order[i]) in AllPairs(|order|) { PairedExamines(j, i); }
    }

    /** Neither are those farther apart in longitude than the range of the first reaches. */
    lemma BeyondRangeAreNotPaired(i: nat, j: nat)
      requires Valid() && sky.OnGlobe() && i < j < |order| && sky.width[i] < sky.Apart(i, j)
      ensures !Paired(i, j)
    {
      BandsInOrder(i, j);
      if sky.band[i] == sky.band[j] {
        sky.ReachWithinBand(i, j);
      } else {
        sky.ReachAcrossBands(i, j);
        BandOf(j);
      }
      if Asked(i).PairWith(order[j]) in AllPairs(|order|) { PairedExamines(i, j); }
      if Asked(j).PairWith(order[i]) in AllPairs(|order|) { PairedExamines(j, i); }
    }

    lemma BandsInOrder(i: nat, j: nat)
      requires Valid() && i < j < |order|
      ensures sky.band[i] <= sky.band[j]
    {
      assert InBand(i, sky.band[i]) && InBand(j, sky.band[j]);
      assert BoundsAscend(sky.band[j] + 1, sky.band[i]);
    }
  }

  // ---------------------------------------------------------------------------

  lemma FlattenFirst(first: seq<nat>, rest: seq<seq<nat>>)
    ensures Flatten([first] + rest) == first + Flatten(rest)
  {
    assert ([first] + rest)[1..] == rest;
  }

  lemma {:induction false} FlattenElements(bands: seq<seq<nat>>, b: nat, x: nat)
    requires b < |bands| && x in bands[b]
    ensures x in Flatten(bands)
    decreases |bands|
  {
    if b > 0 {
      assert bands[1..][b - 1] == bands[b];
      FlattenElements(bands[1..], b - 1, x);
    }
  }

  lemma {:induction false} FlattenDisjoint(bands: seq<seq<nat>>)
    requires Distinct(Flatten(bands))
    ensures Disjoint(bands)
    decreases |bands|
  {
    if bands != [] {
      var rest := bands[1..];
      DistinctParts(bands[0], Flatten(rest));
      FlattenDisjoint(rest);
      forall b, c, x: nat | 0 <= b < c < |bands| && x in bands[b] ensures x !in bands[c] {
        assert bands[c] == rest[c - 1];
        if b == 0 {
          if x in bands[c] { FlattenElements(rest, c - 1, x); }
        } else {
          assert bands[b] == rest[b - 1];
        }
      }
    }
  }

  lemma DistinctParts(s: seq<nat>, t: seq<nat>)
    requires Distinct(s + t)
    ensures Distinct(s) && Distinct(t) && forall x :: x in s ==> x !in t
  {
    forall k, l | 0 <= k < l < |t| ensures t[k] != t[l] { assert (s + t)[|s| + k] != (s + t)[|s| + l]; }
    forall k, l | 0 <= k < l < |s| ensures s[k] != s[l] { assert (s + t)[k] != (s + t)[l]; }
    forall k, l | 0 <= k < |s| && 0 <= l < |t| ensures s[k] != t[l] { assert (s + t)[k] != (s + t)[|s| + l]; }
  }

  lemma {:induction false} SubsequenceDistinct<T>(a: seq<T>, s: seq<T>)
    requires Subsequence(a, s) && Distinct(s)
    ensures Distinct(a)
  {
    if a != [] {
      var a', s' := a[..|a| - 1], s[..|s| - 1];
      assert Distinct(s');
      if Subsequence(a, s') {
        SubsequenceDistinct(a, s');
      } else {
        SubsequenceDistinct(a', s');
        SubsequenceElements(a', s');
        assert a[|a| - 1] !in s';
        assert a == a' + [a[|a| - 1]];
      }
    }
  }

  lemma {:induction false} SubsequenceLength<T>(a: seq<T>, b: seq<T>)
    requires Subsequence(a, b)
    ensures |a| <= |b|
  {
    if a != [] {
      if Subsequence(a, b[..|b| - 1]) {
        SubsequenceLength(a, b[..|b| - 1]);
      } else {
        SubsequenceLength(a[..|a| - 1], b[..|b| - 1]);
      }
    }
  }

  lemma CollectedOfHeld(q: Question, cs: seq<nat>)
    requires q.HasAll(cs)
    ensures Subsequence(q.Collected(cs), q.Held(cs))
  {
    if q.legacy {
      WithinRadiusInOrder(q, q.V1List(cs));
    } else {
      SubsequenceSelf(q.V2List(cs));
    }
  }

  // What is handed over respects the limit on buddies of the same station.
  lemma CollectedSameCount(q: Question, cs: seq<nat>)
    requires q.HasAll(cs) && q.limits.maxWithSameStationId >= 0
    ensures q.HasAll(q.Collected(cs)) && q.SameCount(q.Collected(cs)) <= q.limits.maxWithSameStationId
  {
    q.V2SameCount(cs);
    if q.legacy {
      V1SameCount(q, cs);
      RadiusSameCount(q, q.V1List(cs));
    }
  }

  lemma {:induction false} V1SameCount(q: Question, cs: seq<nat>)
    requires q.HasAll(cs) && q.limits.maxWithSameStationId >= 0
    ensures q.HasAll(q.V1List(cs)) && q.SameCount(q.V1List(cs)) <= q.Capped(q.SameCount(cs))
  {
    if cs != [] {
      var n := |cs| - 1;
      var v := q.V1List(cs[..n]);
      V1SameCount(q, cs[..n]);
      q.SameCountAppend(v, cs[n]);
      assert q.V1List(cs) == if q.V1Selects(cs, n) then v + [cs[n]] else v;
    }
  }

  lemma {:induction false} RadiusSameCount(q: Question, bs: seq<nat>)
    requires q.HasAll(bs)
    ensures q.HasAll(q.WithinRadius(bs)) && q.SameCount(q.WithinRadius(bs)) <= q.SameCount(bs)
  {
    if bs != [] {
      var n := |bs| - 1;
      var v := q.WithinRadius(bs[..n]);
      RadiusSameCount(q, bs[..n]);
      q.SameCountAppend(v, bs[n]);
      assert q.WithinRadius(bs) == if q.InRadius(bs[n]) then v + [bs[n]] else v;
    }
  }

  function Gathered(order: seq<nat>, js: seq<nat>): (ids: seq<nat>)
    requires forall k :: 0 <= k < |js| ==> js[k] < |order|
    ensures |ids| == |js| && forall k :: 0 <= k < |js| ==> ids[k] == order[js[k]]
  {
    seq(|js|, (k: nat) requires k < |js| => order[js[k]])
  }

  lemma InRangeOf(js: seq<nat>, n: nat)
    requires forall j :: j in js ==> j < n
    ensures forall k :: 0 <= k < |js| ==> js[k] < n
  {
    forall k | 0 <= k < |js| ensures js[k] < n { assert js[k] in js; }
  }

  lemma GatheredIff(order: seq<nat>, js: seq<nat>, x: nat)
    requires forall k :: 0 <= k < |js| ==> js[k] < |order|
    ensures x in Gathered(order, js) <==> exists j :: 0 <= j < |order| && order[j] == x && j in js
  {
    if j :| 0 <= j < |order| && order[j] == x && j in js {
      var k :| 0 <= k < |js| && js[k] == j;
      assert Gathered(order, js)[k] == x;
    }
    if x in Gathered(order, js) {
      var k :| 0 <= k < |js| && Gathered(order, js)[k] == x;
      assert js[k] in js;
    }
  }

  lemma GatheredDistinct(order: seq<nat>, js: seq<nat>)
    requires (forall k :: 0 <= k < |js| ==> js[k] < |order|) && Distinct(order) && Distinct(js)
    ensures Distinct(Gathered(order, js))
  {
    forall k, l | 0 <= k < l < |js| ensures order[js[k]] != order[js[l]] {
      assert js[k] != js[l];
    }
  }
}
