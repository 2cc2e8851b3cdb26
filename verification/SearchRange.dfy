/** Whether the range of longitudes searched finds the observations within the search radius. */
module SearchRange {
  import opened BuddySweep
  import opened BuddyCollectors
  import opened BuddyFeed
  import opened LongitudeSearch
  import opened ZonalBands
  import opened BuddySearch
  import opened BuddyPairFinder
  import opened Distinctness
  import opened HiddenPair

  // Both lie within the search radius of each other, and within it along a meridian.
  ghost predicate WithinRadius(s: Search, a: nat, b: nat)
    requires s.zones.Valid()
  {
    && s.geometry.Has(a) && s.geometry.Has(b)
    && s.zones.earth.meanRadius * Abs(s.geometry.latitudes[a] - s.geometry.latitudes[b])
       <= s.zones.earth.rad2deg * s.zones.searchRadius
    && s.geometry.locate(a, b).0 <= s.zones.searchRadius && s.geometry.locate(b, a).0 <= s.zones.searchRadius
  }

  lemma RadiusIsGenuine(s: Search, i: nat, j: nat)
    requires s.Valid() && s.OnEarth() && s.limits.searchRadius == s.zones.searchRadius
    requires i < |s.order| && j < |s.order| && WithinRadius(s, s.order[i], s.order[j])
    ensures s.Asked(i).Genuine(s.order[j]) && s.Asked(j).Genuine(s.order[i])
  {
    s.zones.SimilarIff(s.geometry.latitudes[s.order[i]], s.geometry.latitudes[s.order[j]]);
  }

  // The distance along a parallel between two meridians is less than the search radius, and the parallel no nearer a
  // pole than the limit of band a.
  ghost predicate NearAlongParallel(zones: Zones, a: nat, latitude: real, apart: real)
    requires zones.Valid()
  {
    && apart * zones.Parallel(latitude) < zones.earth.rad2deg * zones.searchRadius
    && Abs(latitude) <= Abs(zones.PolewardLimit(a))
  }

  lemma WithinRange(zones: Zones, a: nat, latitude: real, apart: real)
    requires zones.Valid() && zones.CosineFalls() && a < zones.numZonalBands && apart <= 180.0
    requires NearAlongParallel(zones, a, latitude, apart)
    ensures apart < zones.HalfWidth(a)
  {
    var h, p := zones.HalfWidth(a), zones.Parallel(latitude);
    zones.RangeCovers(a, latitude);
    if h != 360.0 {
      Product(h - apart, p);
      assert (h - apart) * p == h * p - apart * p;
    }
  }

  /** Two observations within the search radius, also if it is measured along the parallel of the first, are paired,
      wherever the date line runs, unless the first lies beyond the limit of its band, or they are hidden from each
      other, or the one that examines the other met a limit. */
  lemma BuddiesAlongParallel(s: Search, longitudes: seq<real>, i: nat, j: nat)
    requires s.Valid() && s.OnEarth() && SkyMatches(s, longitudes) && s.limits.searchRadius == s.zones.searchRadius
    requires s.zones.WideEnough() && s.zones.CosineFalls()
    requires i < j < |s.order| && WithinRadius(s, s.order[i], s.order[j])
    requires var latitude := s.geometry.latitudes[s.order[i]];
             NearAlongParallel(s.zones, s.zones.Band(latitude), latitude, s.sky.Apart(i, j))
    ensures s.Paired(i, j) || s.Hidden(i, j) || (s.Examines(i, j) && s.MetLimit(i, s.order[j]))
            || (s.Examines(j, i) && s.MetLimit(j, s.order[i]))
  {
    LongitudeInRange(s, longitudes, i, j);
    RadiusIsGenuine(s, i, j);
    s.BuddiesArePaired(i, j);
  }

  lemma LongitudeInRange(s: Search, longitudes: seq<real>, i: nat, j: nat)
    requires s.Valid() && s.OnEarth() && SkyMatches(s, longitudes) && s.zones.CosineFalls() && i < j < |s.order|
    requires var latitude := s.geometry.latitudes[s.order[i]];
             NearAlongParallel(s.zones, s.zones.Band(latitude), latitude, s.sky.Apart(i, j))
    ensures s.sky.Apart(i, j) < s.sky.width[i]
  {
    var latitude := s.geometry.latitudes[s.order[i]];
    s.BandOf(i);
    assert s.sky.width[i] == s.zones.HalfWidth(s.sky.band[i]);
    WithinRange(s.zones, s.zones.Band(latitude), latitude, s.sky.Apart(i, j));
  }

  // ---------------------------------------------------------------------------
  // The distance between two observations is shorter than along their parallel, so the range may miss some.

  // As the narrow bands of HiddenPair, with a search radius of 100 km
  function ShortRange(): (zones: Zones) { NarrowBands().(searchRadius := 100.0) }

  lemma RangeNearPole()
    ensures ShortRange().Valid() && ShortRange().BandWidth() == 1.0 && ShortRange().Band(88.999) == 1
    ensures 51.0 < ShortRange().HalfWidth(1) < 52.0 && ShortRange().SearchDLat() >= 0.0
  {
  }

  // At 88.999 degrees north, where meridians 53 degrees apart are 99.4 km apart, but 103 km along the parallel
  function OutOfRange(legacy: bool): (s: Search)
    requires ShortRange().Valid()
  {
    var zones := ShortRange();
    var h := zones.HalfWidth(1);
    Search(zones, Limits(15, 10, 5, 100.0, zones.SearchDLat()), legacy,
           Geometry([88.999, 88.999], [1, 2], (a: nat, b: nat) => (99.4, 0.0, 0.0)),
           Sky([0.0, 53.0], [1, 1], [h, h]), [0, 1], seq(181, (b: nat) => if b <= 1 then 0 else 2))
  }

  // Two observations within the search radius, at longitudes farther apart than the range
  ghost predicate OutOfReach(s: Search, longitudes: seq<real>) {
    && s.Valid() && s.OnEarth() && SkyMatches(s, longitudes)
    && |s.order| == 2 && WithinRadius(s, s.order[0], s.order[1]) && s.sky.width[0] < s.sky.Apart(0, 1)
  }

  lemma IsOutOfReach(legacy: bool)
    ensures ShortRange().Valid() && OutOfReach(OutOfRange(legacy), [0.0, 53.0])
  {
    RangeNearPole();
    var s := OutOfRange(legacy);
    assert s.sky.Valid();
    forall b, c ensures s.BoundsAscend(b, c) {}
  }

  lemma OutOfReachNotPaired(s: Search, longitudes: seq<real>)
    requires OutOfReach(s, longitudes)
    ensures !s.Paired(0, 1)
  {
    s.BeyondRangeAreNotPaired(0, 1);
  }

  /** With either collector: both lie within the radius, no limit is near, and yet they are not paired. */
  lemma NotPairedOutOfRange(legacy: bool)
    ensures ShortRange().Valid() && OutOfReach(OutOfRange(legacy), [0.0, 53.0])
    ensures !OutOfRange(legacy).Paired(0, 1)
  {
    IsOutOfReach(legacy);
    OutOfReachNotPaired(OutOfRange(legacy), [0.0, 53.0]);
  }
}
