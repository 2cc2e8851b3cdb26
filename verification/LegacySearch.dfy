/**
 With which settings the search finds, by the legacy collector, a subsequence of the buddies it finds by the corrected
 one, whatever the observations.
 */
module LegacySearch {
  import opened BuddySweep
  import opened BuddyCollectors
  import opened BuddyFeed
  import opened RunFacts
  import opened LegacyCollector
  import opened LongitudeSearch
  import opened ZonalBands
  import opened BuddySearch
  import opened BuddyPairFinder
  import opened Distinctness

  // The limits of a search with these zones: both take the same search radius. Of the cosine it is known that the
  // parallel at the pole is next to nothing.
  ghost predicate Settings(zones: Zones, limits: Limits) {
    && zones.Valid() && Usable(limits) && limits.maxWithSameStationId >= 0
    && zones.Parallel(90.0) <= 10.0
    && limits.searchRadius == zones.searchRadius && limits.maxLatDifference == zones.SearchDLat()
  }

  function HalfCircumference(zones: Zones): (d: real)
    requires zones.Valid()
  {
    zones.earth.meanRadius * 180.0 / zones.earth.rad2deg
  }

  // At the same longitude of a band those further north come first.
  ghost predicate NorthFirst(s: Search)
    requires s.Valid()
  {
    forall k, l :: 0 <= k < l < |s.order| && s.sky.band[k] == s.sky.band[l] && s.sky.lon[k] == s.sky.lon[l] ==>
      s.geometry.latitudes[s.order[k]] >= s.geometry.latitudes[s.order[l]]
  }

  // A search with these settings among observations on the globe, none farther apart than the antipodes
  ghost predicate Conforms(s: Search, longitudes: seq<real>, zones: Zones, limits: Limits) {
    && s.Valid() && s.zones == zones && s.limits == limits && s.OnEarth() && SkyMatches(s, longitudes) && NorthFirst(s)
    && forall a: nat, b: nat {:trigger s.geometry.locate(a, b)} ::
         s.geometry.Has(a) && s.geometry.Has(b) ==> s.geometry.locate(a, b).0 <= HalfCircumference(zones)
  }

  // The observation at position i gets by the legacy collector a subsequence of what it gets by the corrected one.
  ghost predicate AgreesAt(s: Search, i: nat)
    requires s.Valid() && i < |s.order|
  {
    s.SameValid(s.(legacy := true));
    s.SameValid(s.(legacy := false));
    Subsequence(s.(legacy := true).Buddies(i), s.(legacy := false).Buddies(i))
  }

  ghost predicate AlwaysAgrees(zones: Zones, limits: Limits) {
    forall s: Search, longitudes: seq<real>, i: nat {:trigger Conforms(s, longitudes, zones, limits), AgreesAt(s, i)} ::
      Conforms(s, longitudes, zones, limits) && i < |s.order| ==> AgreesAt(s, i)
  }

  /** Of one observation it holds exactly if the legacy collector takes nothing the corrected one stopped before or had
      no allowance left for. */
  lemma AgreesByStreams(s: Search, i: nat)
    requires s.Valid() && i < |s.order|
    ensures AgreesAt(s, i) <==> Agree(s.Asked(i), s.Streams(i, 0))
    ensures AgreesAt(s, i) <==> NothingMissed(s.Asked(i), s.Streams(i, 0))
  {
    s.SameStreams(s.(legacy := true), i, 0);
    s.SameStreams(s.(legacy := false), i, 0);
    s.StreamsDistinct(i, 0);
    StoppedV1SubsequenceIff(s.Asked(i), s.Streams(i, 0));
  }

  /** It does in every search with these settings exactly if they allow no buddy of the observation's own station, or
      the search radius reaches from pole to pole. */
  lemma LegacyAgreesIff(zones: Zones, limits: Limits)
    requires Settings(zones, limits)
    ensures AlwaysAgrees(zones, limits) <==> limits.maxWithSameStationId == 0 || zones.SearchDLat() >= 180.0
  {
    if limits.maxWithSameStationId == 0 || zones.SearchDLat() >= 180.0 {
      forall s: Search, longitudes: seq<real>, i: nat | Conforms(s, longitudes, zones, limits) && i < |s.order|
        ensures AgreesAt(s, i)
      {
        AgreesByStreams(s, i);
        if limits.maxWithSameStationId == 0 {
          WithoutAllowanceAgree(s.Asked(i), s.Streams(i, 0));
        } else {
          FarReachAgrees(s, longitudes, i);
        }
      }
    } else {
      var s, longitudes := LegacyNotSubsequence(zones, limits);
    }
  }

  // ---------------------------------------------------------------------------
  // A radius from pole to pole: every candidate passes both tests.

  lemma FarReachAgrees(s: Search, longitudes: seq<real>, i: nat)
    requires Conforms(s, longitudes, s.zones, s.limits) && Settings(s.zones, s.limits) && s.zones.SearchDLat() >= 180.0
    requires i < |s.order|
    ensures Agree(s.Asked(i), s.Streams(i, 0))
  {
    RadiusReaches(s.zones);
    StreamsGenuine(s, i, 0);
    GenuineAgree(s.Asked(i), s.Streams(i, 0));
  }

  lemma RadiusReaches(zones: Zones)
    requires zones.Valid() && zones.SearchDLat() >= 180.0
    ensures HalfCircumference(zones) <= zones.searchRadius
  {
    var r, d := zones.earth.meanRadius, zones.earth.rad2deg;
    var sd, half, radius := zones.SearchDLat(), HalfCircumference(zones), zones.searchRadius;
    assert sd * r == d * radius;
    assert half * d == r * 180.0;
    Product(sd - 180.0, r);
    assert (sd - 180.0) * r == d * radius - half * d == (radius - half) * d;
    Product(radius - half, d);
  }

  lemma {:induction false} StreamsGenuine(s: Search, i: nat, b: nat)
    requires s.Valid() && s.OnEarth() && i < |s.order| && s.zones.SearchDLat() >= 180.0
    requires s.limits.searchRadius >= HalfCircumference(s.zones)
    requires forall a: nat, b: nat {:trigger s.geometry.locate(a, b)} ::
               s.geometry.Has(a) && s.geometry.Has(b) ==> s.geometry.locate(a, b).0 <= HalfCircumference(s.zones)
    ensures forall c :: 0 <= c < |s.Streams(i, b)| ==> AllGenuine(s.Asked(i), s.Streams(i, b)[c])
    decreases s.zones.numZonalBands - b
  {
    if b < s.zones.numZonalBands {
      StreamsGenuine(s, i, b + 1);
      var q, cs := s.Asked(i), s.Stream(i, b);
      forall k | 0 <= k < |cs| ensures q.Genuine(cs[k]) {
        s.StreamAt(i, b, cs[k]);
        var j :| s.Reached(i, b, j) && s.order[j] == cs[k];
        assert s.geometry.locate(s.order[i], cs[k]).0 <= HalfCircumference(s.zones);
      }
    }
  }

  // ---------------------------------------------------------------------------
  // Otherwise there is a search in which the observation at the pole spends its legacy allowance on observations just
  // outside the radius, in the zonal band that the radius ends in, and then collects more of another station.

  // The latitudes of a band, by their distance from the first
  lemma BandIff(zones: Zones, lat: real, b: nat)
    requires zones.Valid()
    ensures zones.Band(lat) == b <==>
            (b == 0 || b as real * zones.BandWidth() <= 89.999 - lat)
              && 89.999 - lat < (b as real + 1.0) * zones.BandWidth()
  {
    var w := zones.BandWidth();
    var x := (89.999 - lat) / w;
    FloorIff(x, b);
    RangeScaled(x, b as real, w, 89.999 - lat);
  }

  lemma FloorIff(x: real, b: nat)
    ensures (if x < 0.0 then 0 else x.Floor) == b <==> (b == 0 || b as real <= x) && x < b as real + 1.0
  {
  }

  lemma RangeScaled(x: real, n: real, w: real, far: real)
    requires w > 0.0 && x * w == far
    ensures n <= x <==> n * w <= far
    ensures x < n + 1.0 <==> far < (n + 1.0) * w
  {
    Scaled(n, x, w, n * w, far);
    Scaled(n + 1.0, x, w, (n + 1.0) * w, far);
  }

  lemma Scaled(x: real, y: real, w: real, xw: real, yw: real)
    requires w > 0.0 && xw == x * w && yw == y * w
    ensures x <= y <==> xw <= yw
  {
    var d := y - x;
    assert d * w == yw - xw;
    Product(d, w);
  }

  // A latitude just outside the radius around the north pole, in the same band as the last one inside
  lemma JustOutside(zones: Zones) returns (lat: real)
    requires zones.Valid() && zones.SearchDLat() < 180.0
    ensures -90.0 <= lat < 90.0 - zones.SearchDLat()
    ensures zones.Band(lat) == zones.Band(90.0 - zones.SearchDLat())
  {
    var sd := zones.SearchDLat();
    var b := zones.Band(90.0 - sd);
    BandIff(zones, 90.0 - sd, b);
    var room := (b as real + 1.0) * zones.BandWidth() - (sd - 0.001);
    var step := 0.5 * (if room <= 180.0 - sd then room else 180.0 - sd);
    lat := 90.0 - sd - step;
    BandIff(zones, lat, b);
  }

  // From the pole that band is searched.
  lemma PoleSearches(zones: Zones)
    requires zones.Valid() && zones.SearchDLat() < 180.0
    ensures zones.Band(90.0) == 0 && zones.Band(90.0 - zones.SearchDLat()) < zones.numZonalBands
    ensures zones.Searches(90.0, zones.Band(90.0 - zones.SearchDLat()))
  {
    var w, sd := zones.BandWidth(), zones.SearchDLat();
    var line, b := 90.0 - sd, zones.Band(90.0 - sd);
    BandIff(zones, 90.0, 0);
    BandIff(zones, line, b);
    zones.BandExists(line);
    zones.LastBandReaches(90.0, line);
    assert b as real * w <= sd;
    assert zones.MidLat(b) == 90.0 - b as real * w - 0.5 * w by {
      assert w * (b as real + 0.5) == b as real * w + 0.5 * w;
    }
  }

  // From west to east: observation 0 at the pole, 1 to s of its station just outside the radius, s + 1 of its station
  // and the others, of another one, at the very end of it. Distances are those from the pole.
  function Polar(zones: Zones, limits: Limits, outside: real): (s: Search)
    requires Settings(zones, limits)
  {
    var m: nat, n: nat := limits.maxWithSameStationId, limits.maxWithSameStationId + 2 + Enough(limits);
    var line := 90.0 - zones.SearchDLat();
    var b := zones.Band(line);
    var latitudes := seq(n, (k: nat) => if k == 0 then 90.0 else if k <= m then outside else line);
    Search(zones, limits, false,
           Geometry(latitudes, seq(n, (k: nat) => if k <= m + 1 then 7 else 8),
                    (k: nat, l: nat) => (if k < n && l < n then ArcLength(zones, latitudes[k], latitudes[l]) else 0.0,
                                         0.0, 0.0)),
           Sky(seq(n, (k: nat) => k as real / n as real), seq(n, (k: nat) => if k == 0 then 0 else b),
               seq(n, (k: nat) => zones.HalfWidth(if k == 0 then 0 else b))),
           seq(n, (k: nat) => k),
           seq(zones.numZonalBands + 1, (c: nat) => (if c > 0 then 1 else 0) + (if c > b then n - 1 else 0)))
  }

  // Along a meridian, as all are at the pole
  function ArcLength(zones: Zones, latA: real, latB: real): (d: real)
    requires zones.Valid()
  {
    zones.earth.meanRadius * Abs(latA - latB) / zones.earth.rad2deg
  }

  // What is needed of such a search
  ghost predicate IsPolar(s: Search, m: nat, t: nat, b: nat, n: nat) {
    && s.Valid() && s.limits.maxWithSameStationId == m >= 1 && t == Enough(s.limits) && n == m + 2 + t == |s.order|
    && (forall k :: 0 <= k < n ==>
          s.order[k] == k && 0.0 <= s.sky.lon[k] <= 1.0 && s.sky.band[k] == if k == 0 then 0 else b)
    && s.sky.lon[0] == 0.0 && s.sky.width[0] == 360.0 && b < s.zones.numZonalBands && s.Searched(0, b)
    && (forall c {:trigger s.bandLbounds[c]} :: 0 <= c <= s.zones.numZonalBands ==>
          s.bandLbounds[c] == (if c > 0 then 1 else 0) + if c > b then n - 1 else 0)
    && IsWasteful(s.Asked(0).(legacy := true), m, t) && IsWasteful(s.Asked(0).(legacy := false), m, t)
  }

  /** With any other settings there is such a search in which the legacy collector hands over an observation that the
      corrected one stops before. */
  lemma LegacyNotSubsequence(zones: Zones, limits: Limits) returns (s: Search, longitudes: seq<real>)
    requires Settings(zones, limits) && limits.maxWithSameStationId >= 1 && zones.SearchDLat() < 180.0
    ensures Conforms(s, longitudes, zones, limits) && |s.order| > 0 && !AgreesAt(s, 0)
  {
    var outside := JustOutside(zones);
    s := Polar(zones, limits, outside);
    longitudes := s.sky.lon;
    PolarConforms(zones, limits, outside, s);
    var m: nat, t: nat := limits.maxWithSameStationId, Enough(limits);
    PolarDisagrees(s, m, t, zones.Band(90.0 - zones.SearchDLat()), m + 2 + t);
  }

  lemma AlongMeridian(zones: Zones, latA: real, latB: real)
    requires zones.Valid() && -90.0 <= latA <= 90.0 && -90.0 <= latB <= 90.0
    ensures ArcLength(zones, latA, latB) <= HalfCircumference(zones)
    ensures Abs(latA - latB) == zones.SearchDLat() ==> ArcLength(zones, latA, latB) == zones.searchRadius
  {
    var r, d, gap := zones.earth.meanRadius, zones.earth.rad2deg, Abs(latA - latB);
    var arc, half := ArcLength(zones, latA, latB), HalfCircumference(zones);
    var sd, radius := zones.SearchDLat(), zones.searchRadius;
    assert arc * d == r * gap && half * d == r * 180.0 && sd * r == d * radius;
    Product(180.0 - gap, r);
    assert (half - arc) * d == (180.0 - gap) * r;
    Product(half - arc, d);
    if gap == sd {
      assert (arc - radius) * d == 0.0;
      Product(arc - radius, d);
      Product(radius - arc, d);
    }
  }

  lemma PolarConforms(zones: Zones, limits: Limits, outside: real, s: Search)
    requires Settings(zones, limits) && limits.maxWithSameStationId >= 1 && zones.SearchDLat() < 180.0
    requires -90.0 <= outside < 90.0 - zones.SearchDLat()
    requires zones.Band(outside) == zones.Band(90.0 - zones.SearchDLat()) && s == Polar(zones, limits, outside)
    ensures Conforms(s, s.sky.lon, zones, limits)
    ensures IsPolar(s, limits.maxWithSameStationId, Enough(limits), zones.Band(90.0 - zones.SearchDLat()), |s.order|)
  {
    PoleSearches(zones);
    WidthAtPole(zones);
    PolarValid(zones, limits, outside, s);
    PolarOnEarth(zones, limits, outside, s);
    PolarWasteful(zones, limits, outside, s, true);
    PolarWasteful(zones, limits, outside, s, false);
  }

  lemma PolarOnEarth(zones: Zones, limits: Limits, outside: real, s: Search)
    requires Settings(zones, limits) && limits.maxWithSameStationId >= 1 && zones.SearchDLat() < 180.0
    requires -90.0 <= outside < 90.0 - zones.SearchDLat() && s == Polar(zones, limits, outside)
    requires s.Valid() && forall k, l :: 0 <= k < l < |s.order| ==> 0.0 <= s.sky.lon[k] < s.sky.lon[l] <= 1.0
    ensures Conforms(s, s.sky.lon, zones, limits)
  {
    forall a: nat, b: nat | s.geometry.Has(a) && s.geometry.Has(b)
      ensures s.geometry.locate(a, b).0 <= HalfCircumference(zones)
    {
      AlongMeridian(zones, s.geometry.latitudes[a], s.geometry.latitudes[b]);
    }
    assert s.sky.OnGlobe() by {
      forall k | 0 <= k < |s.sky.lon| ensures 0.0 <= s.sky.lon[k] <= 1.0 {
        if k == 0 { assert s.sky.lon[0] < s.sky.lon[1]; } else { assert s.sky.lon[0] < s.sky.lon[k]; }
      }
    }
  }

  lemma PolarValid(zones: Zones, limits: Limits, outside: real, s: Search)
    requires Settings(zones, limits) && limits.maxWithSameStationId >= 1 && zones.SearchDLat() < 180.0
    requires -90.0 <= outside < 90.0 - zones.SearchDLat()
    requires zones.Band(outside) == zones.Band(90.0 - zones.SearchDLat()) && s == Polar(zones, limits, outside)
    requires zones.Band(90.0) == 0 && zones.Band(90.0 - zones.SearchDLat()) < zones.numZonalBands
    ensures s.Valid() && forall k, l :: 0 <= k < l < |s.order| ==> 0.0 <= s.sky.lon[k] < s.sky.lon[l] <= 1.0
  {
    var b := zones.Band(90.0 - zones.SearchDLat());
    PolarBounds(s.bandLbounds, b, |s.order|);
    PolarSky(zones, s.sky, b, |s.order|);
    forall c, d ensures s.BoundsAscend(c, d) { assert Ascend(s.bandLbounds, c, d); }
    forall k | 0 <= k < |s.order| ensures s.InBand(k, s.sky.band[k]) {
      if k == 0 { assert s.sky.band[k] == 0; } else { assert s.sky.band[k] == b; }
    }
    assert Distinct(s.order);
  }

  lemma PolarSky(zones: Zones, sky: Sky, b: nat, n: nat)
    requires zones.Valid() && |sky.lon| == |sky.band| == |sky.width| == n
    requires forall k :: 0 <= k < n ==>
               sky.lon[k] == k as real / n as real && sky.width[k] == zones.HalfWidth(sky.band[k])
    ensures sky.Valid() && forall k, l :: 0 <= k < l < n ==> 0.0 <= sky.lon[k] < sky.lon[l] <= 1.0
  {
    forall k, l | 0 <= k < l < n ensures 0.0 <= sky.lon[k] < sky.lon[l] <= 1.0 {
      Eastward(k, l, n, sky.lon[k], sky.lon[l]);
    }
    forall k, l ensures sky.Sorted(k, l) {
    }
  }

  lemma Eastward(k: nat, l: nat, n: nat, x: real, y: real)
    requires k < l < n && x == k as real / n as real && y == l as real / n as real
    ensures 0.0 <= x < y <= 1.0
  {
    var r := n as real;
    assert x * r == k as real && y * r == l as real;
    Product(x, r);
    assert (y - x) * r == (l - k) as real;
    Product(y - x, r);
    assert (1.0 - y) * r == (n - l) as real;
    Product(1.0 - y, r);
  }

  lemma WidthAtPole(zones: Zones)
    requires zones.Valid() && zones.Parallel(90.0) <= 10.0
    ensures zones.HalfWidth(0) == 360.0
  {
    FirstBandEnds(zones);
  }

  lemma FirstBandEnds(zones: Zones)
    requires zones.Valid()
    ensures Abs(zones.MidLat(0)) + zones.BandWidth() * 0.5 == 90.0
  {
    var w := zones.BandWidth();
    assert w <= 180.0 by { Product(zones.numZonalBands as real - 1.0, w); }
    assert zones.MidLat(0) == 90.0 - 0.5 * w;
  }

  predicate Ascend(bounds: seq<nat>, c: int, d: int) {
    0 <= c <= d < |bounds| ==> bounds[c] <= bounds[d]
  }

  lemma PolarBounds(bounds: seq<nat>, b: nat, n: nat)
    requires n > 0 && b + 1 < |bounds|
    requires bounds == seq(|bounds|, (c: nat) => (if c > 0 then 1 else 0) + (if c > b then n - 1 else 0))
    ensures forall c, d :: Ascend(bounds, c, d)
    ensures forall c :: 0 <= c < |bounds| ==> bounds[c] <= n
    ensures bounds[0] == 0 && bounds[1] >= 1 && bounds[b] <= 1 && bounds[b + 1] == n
  {
  }

  lemma PolarWasteful(zones: Zones, limits: Limits, outside: real, s: Search, legacy: bool)
    requires Settings(zones, limits) && limits.maxWithSameStationId >= 1
    requires -90.0 <= outside < 90.0 - zones.SearchDLat() && s == Polar(zones, limits, outside)
    ensures IsWasteful(s.Asked(0).(legacy := legacy), limits.maxWithSameStationId, Enough(limits))
  {
    var q := s.Asked(0).(legacy := legacy);
    var m := limits.maxWithSameStationId;
    forall k: nat | 1 <= k <= m + 1 + Enough(limits)
      ensures q.Has(k) && (q.SameStation(k) <==> k <= m + 1) && (q.SimilarLatitude(k) <==> k > m)
              && (k > m ==> q.InRadius(k))
    {
      AlongMeridian(zones, 90.0, s.geometry.latitudes[k]);
    }
  }

  // ---------------------------------------------------------------------------
  // What the observation at the pole feeds its collector: the one band, in order

  lemma {:induction false} PicksAll(mask: seq<bool>, lo: nat, hi: nat)
    requires lo <= hi <= |mask| && forall j :: lo <= j < hi ==> mask[j]
    ensures |Picks(mask, lo, hi)| == hi - lo && forall k :: 0 <= k < hi - lo ==> Picks(mask, lo, hi)[k] == lo + k
    decreases hi - lo
  {
    if lo < hi {
      PicksAll(mask, lo + 1, hi);
      assert Picks(mask, lo, hi) == [lo] + Picks(mask, lo + 1, hi);
    }
  }

  // With the whole circle searched the loop around the observation looks at everything else, and no other at anything.
  lemma PolarMasks(sky: Sky, b: nat, lo: nat, hi: nat)
    requires sky.Valid() && |sky.lon| > 0 && lo <= hi <= |sky.lon| && sky.lon[0] == 0.0 && sky.width[0] == 360.0
    requires forall k :: 0 <= k < |sky.lon| ==> 0.0 <= sky.lon[k] <= 1.0 && sky.band[k] == if k == 0 then 0 else b
    ensures forall j :: lo <= j < hi ==> sky.Mask(Around, 0)[j] == (j > 0)
    ensures sky.Candidates(0, lo, hi) == Picks(sky.Mask(Around, 0), lo, hi)
  {
    var around, east, west := sky.Mask(Around, 0), sky.Mask(PastEast, 0), sky.Mask(PastWest, 0);
    forall j | lo <= j < hi ensures around[j] == (j > 0) && !east[j] && !west[j] {
    }
    PicksNone(east, lo, hi);
    PicksNone(west, lo, hi);
  }

  lemma AfterFirst(mask: seq<bool>, lo: nat, hi: nat)
    requires lo <= hi <= |mask| && forall j :: lo <= j < hi ==> mask[j] == (j > 0)
    ensures hi <= 1 ==> Picks(mask, lo, hi) == []
    ensures lo <= 1 < hi ==> Picks(mask, lo, hi) == Upto(hi - 1)
  {
    if hi <= 1 {
      PicksNone(mask, lo, hi);
    } else if lo <= 1 {
      PicksSkip(mask, lo, 1, hi);
      PicksAll(mask, 1, hi);
      assert Picks(mask, 1, hi) == Upto(hi - 1);
    }
  }

  lemma PolarPositions(s: Search, m: nat, t: nat, b: nat, n: nat, c: nat)
    requires IsPolar(s, m, t, b, n) && c < s.zones.numZonalBands
    ensures s.Positions(0, c) == if c == b then Upto(n - 1) else []
  {
    var lo, hi := s.bandLbounds[c], s.bandLbounds[c + 1];
    assert s.BoundsAscend(c, c + 1);
    PolarMasks(s.sky, b, lo, hi);
    AfterFirst(s.sky.Mask(Around, 0), lo, hi);
    if c > b { PicksNone(s.sky.Mask(Around, 0), lo, hi); }
  }

  lemma PolarStream(s: Search, m: nat, t: nat, b: nat, n: nat, c: nat)
    requires IsPolar(s, m, t, b, n) && c < s.zones.numZonalBands
    ensures s.Stream(0, c) == if c == b then Upto(n - 1) else []
  {
    PolarPositions(s, m, t, b, n, c);
  }

  // One of the bands feeds cs, the others nothing.
  ghost predicate OnlyAt(bands: seq<seq<nat>>, k: nat, cs: seq<nat>) {
    k < |bands| && forall l :: 0 <= l < |bands| ==> bands[l] == if l == k then cs else []
  }

  // The lists of f that are on, from c to n - 1
  function Chosen(f: nat -> seq<nat>, on: nat -> bool, c: nat, n: nat): (bands: seq<seq<nat>>)
    decreases n - c
  {
    if c >= n then [] else (if on(c) then [f(c)] else []) + Chosen(f, on, c + 1, n)
  }

  lemma {:induction false} ChosenOnly(f: nat -> seq<nat>, on: nat -> bool, c: nat, n: nat, b: nat, cs: seq<nat>)
    returns (k: nat)
    requires forall d: nat :: d < n ==> f(d) == if d == b then cs else []
    requires b < n && on(b)
    ensures c <= b ==> OnlyAt(Chosen(f, on, c, n), k, cs)
    ensures c > b ==> forall l :: 0 <= l < |Chosen(f, on, c, n)| ==> Chosen(f, on, c, n)[l] == []
    decreases n - c
  {
    k := 0;
    if c < n {
      k := ChosenOnly(f, on, c + 1, n, b, cs);
      if c == b { k := 0; } else if on(c) { k := k + 1; }
    }
  }

  lemma {:induction false} StreamsChosen(s: Search, f: nat -> seq<nat>, on: nat -> bool, c: nat, n: nat)
    requires s.Valid() && |s.order| > 0 && n == s.zones.numZonalBands
    requires forall d: nat :: d < n ==> f(d) == s.Stream(0, d) && on(d) == s.Searched(0, d)
    ensures s.Streams(0, c) == Chosen(f, on, c, n)
    decreases n - c
  {
    if c < n {
      StreamsChosen(s, f, on, c + 1, n);
      assert f(c) == s.Stream(0, c) && on(c) == s.Searched(0, c);
    }
  }

  lemma StreamsOnly(s: Search, m: nat, t: nat, b: nat, n: nat) returns (k: nat)
    requires IsPolar(s, m, t, b, n)
    ensures OnlyAt(s.Streams(0, 0), k, Upto(n - 1))
  {
    var bands := s.zones.numZonalBands;
    ghost var f := (d: nat) => if d < bands then s.Stream(0, d) else [];
    ghost var on := (d: nat) => d < bands && s.Searched(0, d);
    forall d: nat | d < bands ensures f(d) == if d == b then Upto(n - 1) else [] { PolarStream(s, m, t, b, n, d); }
    k := ChosenOnly(f, on, 0, bands, b, Upto(n - 1));
    StreamsChosen(s, f, on, 0, bands);
  }

  lemma {:induction false} RunEmpty(q: Question, h: seq<nat>, bands: seq<seq<nat>>)
    requires q.HasAll(h) && Askable(q, bands) && forall l :: 0 <= l < |bands| ==> bands[l] == []
    ensures Run(q, h, bands) == h
    decreases |bands|
  {
    if bands != [] { RunEmpty(q, h, bands[1..]); }
  }

  // A collector fed by one band alone examines what it would of that band.
  lemma {:induction false} RunOnly(q: Question, bands: seq<seq<nat>>, k: nat, cs: seq<nat>)
    requires q.HasAll([]) && q.HasAll(cs) && Askable(q, bands) && OnlyAt(bands, k, cs) && Usable(q.limits)
    ensures Run(q, [], bands) == Feed(q, [], 0, cs)
    decreases |bands|
  {
    if k == 0 {
      RunEmpty(q, Feed(q, [], 0, cs), bands[1..]);
    } else {
      RunOnly(q, bands[1..], k - 1, cs);
    }
  }

  lemma LastHandedOver(q: Question, m: nat, t: nat, bands: seq<seq<nat>>, k: nat, last: nat)
    requires IsWasteful(q, m, t) && Usable(q.limits) && Enough(q.limits) == t && last == m + 1 + t
    requires Askable(q, bands) && OnlyAt(bands, k, Upto(last))
    ensures last in q.Collected(Run(q, [], bands)) <==> q.legacy
  {
    WastefulFeed(q, m, t, last);
    RunOnly(q, bands, k, Upto(last));
  }

  lemma WastefulDisagree(q: Question, m: nat, t: nat, bands: seq<seq<nat>>, k: nat, last: nat)
    requires IsWasteful(q.(legacy := true), m, t) && IsWasteful(q.(legacy := false), m, t)
    requires Usable(q.limits) && Enough(q.limits) == t && last == m + 1 + t
    requires Askable(q, bands) && OnlyAt(bands, k, Upto(last))
    ensures q.HasAll([]) && !Agree(q, bands)
  {
    LastHandedOver(q.(legacy := true), m, t, bands, k, last);
    LastHandedOver(q.(legacy := false), m, t, bands, k, last);
    Disagree(q, bands, last);
  }

  lemma PolarDisagrees(s: Search, m: nat, t: nat, b: nat, n: nat)
    requires IsPolar(s, m, t, b, n)
    ensures !AgreesAt(s, 0)
  {
    var k := StreamsOnly(s, m, t, b, n);
    WastefulDisagree(s.Asked(0), m, t, s.Streams(0, 0), k, n - 1);
    AgreesByStreams(s, 0);
  }

  lemma Disagree(q: Question, bands: seq<seq<nat>>, x: nat)
    requires q.HasAll([]) && Askable(q, bands) && x in Handed(q, true, bands) && x !in Handed(q, false, bands)
    ensures !Agree(q, bands)
  {
    var a, b := Handed(q, true, bands), Handed(q, false, bands);
    if Subsequence(a, b) { SubsequenceElements(a, b); }
  }
}
