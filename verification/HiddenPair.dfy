/** Two observations less than three kilometres apart that the search does not pair: an instance of the hidden ones. */
module HiddenPair {
  import opened BuddySweep
  import opened BuddyCollectors
  import opened LongitudeSearch
  import opened ZonalBands
  import opened BuddySearch
  import opened BuddyPairFinder
  import opened Distinctness

  // 180 bands of one degree and a search radius of 400 km; the cosine is asked only for 89 degrees.
  function NarrowBands(): (zones: Zones) {
    Zones(Earth(6371.0, 57.3, 0.01745, (x: real) => 0.0175), 180, 400.0)
  }

  lemma HalfWidthNearPole()
    ensures NarrowBands().Valid() && NarrowBands().BandWidth() == 1.0 && NarrowBands().Band(88.5) == 1
    ensures 180.0 <= NarrowBands().HalfWidth(1) < 359.0 && NarrowBands().SearchDLat() >= 0.0
  {
  }

  // On either side of the date line, at 88.5 degrees north
  function Across(legacy: bool): (s: Search)
    requires NarrowBands().Valid()
  {
    var zones := NarrowBands();
    var h := zones.HalfWidth(1);
    Search(zones, Limits(15, 10, 5, 400.0, zones.SearchDLat()), legacy,
           Geometry([88.5, 88.5], [1, 2], (a: nat, b: nat) => (2.9, 0.0, 0.0)),
           Sky([-180.0, 179.0], [1, 1], [h, h]), [0, 1], seq(181, (b: nat) => if b <= 1 then 0 else 2))
  }

  /** With either collector: both lie within the radius and the range of longitudes of each other, no limit is near, and
      yet they are not paired. */
  lemma NotPairedAcrossDateLine(legacy: bool)
    ensures NarrowBands().Valid()
    ensures var s := Across(legacy);
            && s.Valid() && SkyMatches(s, [-180.0, 179.0]) && s.Asked(0).Genuine(1) && s.Asked(1).Genuine(0)
            && s.sky.Has(0, 1) && s.sky.Apart(0, 1) == 1.0 < s.sky.width[0]
            && !s.sky.InReach(0, 1) && !s.sky.InReach(1, 0) && !s.Paired(0, 1)
  {
    HalfWidthNearPole();
    var s := Across(legacy);
    assert s.sky.Valid();
    forall b, c ensures s.BoundsAscend(b, c) {}
    s.sky.HiddenInBand(0, 1);
    s.HiddenAreNotPaired(0, 1);
  }
}
