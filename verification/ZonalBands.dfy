/** The zonal bands the observations are sorted into, and the bands and longitudes searched for buddies. */
module ZonalBands {
  import opened BuddyCollectors

  // Constants and the cosine come from outside.
  datatype Earth = Earth(meanRadius: real, rad2deg: real, deg2rad: real, cos: real -> real)

  // The zonal bands, from north to south
  datatype Zones = Zones(earth: Earth, numZonalBands: nat, searchRadius: real) {
    ghost predicate Valid() {
      earth.meanRadius > 0.0 && earth.rad2deg > 0.0 && numZonalBands > 0 && searchRadius >= 0.0
    }

    function BandWidth(): (w: real)
      requires Valid()
      ensures w > 0.0 && w * numZonalBands as real == 180.0
    {
      180.0 / numZonalBands as real
    }

    // The cast to an integer rounds towards zero.
    function Band(latitude: real): (b: nat)
      requires Valid()
    {
      var x := (89.999 - latitude) / BandWidth();
      if x < 0.0 then 0 else x.Floor
    }

    function MidLat(b: nat): (l: real)
      requires Valid()
    {
      90.0 - BandWidth() * (b as real + 0.5)
    }

    function SearchDLat(): (d: real)
      requires Valid()
      ensures d >= 0.0
    {
      earth.rad2deg * searchRadius / earth.meanRadius
    }

    function LastBand(a: nat): (b: int)
      requires Valid()
      ensures b < numZonalBands
    {
      var numSearchBands := (SearchDLat() / BandWidth()).Floor + 1;
      if a + numSearchBands < numZonalBands - 1 then a + numSearchBands else numZonalBands - 1
    }

    // The radius of the parallel at a latitude, in kilometres
    function Parallel(latitude: real): (r: real) {
      earth.meanRadius * earth.cos(latitude * earth.deg2rad)
    }

    // Half the range of longitudes in which an observation of band a looks for buddies
    function HalfWidth(a: nat): (h: real)
      requires Valid()
      ensures h >= 0.0
    {
      var rad := Parallel(Abs(MidLat(a)) + BandWidth() * 0.5);
      if rad <= 10.0 then 360.0 else earth.rad2deg * searchRadius / rad
    }

    // Whether a latitude is close enough to the middle of band b
    predicate Near(latitude: real, b: nat)
      requires Valid()
    {
      Abs(latitude - MidLat(b)) <= SearchDLat() + 0.5 * BandWidth()
    }

    predicate Searches(latitude: real, b: nat)
      requires Valid()
    {
      Band(latitude) <= b <= LastBand(Band(latitude)) && Near(latitude, b)
    }

    // Every latitude has its band: 89.999 degrees lie far enough from the south pole.
    lemma BandExists(latitude: real)
      requires Valid() && latitude >= -90.0
      ensures Band(latitude) < numZonalBands
    {
      var w, n := BandWidth(), numZonalBands as real;
      var x := (89.999 - latitude) / w;
      assert x * w == 89.999 - latitude;
      Product(x - n, w);
      assert (x - n) * w == x * w - n * w;
    }

    // The latitudes of a band, which starts a thousandth of a degree below its nominal limit
    lemma BandLimits(latitude: real)
      requires Valid() && -90.0 <= latitude <= 90.0
      ensures var mid, half := MidLat(Band(latitude)), 0.5 * BandWidth();
              mid - half - 0.001 < latitude
                && (latitude <= mid + half - 0.001 || (Band(latitude) == 0 && latitude <= mid + half))
    {
      var w, b := BandWidth(), Band(latitude);
      var x := (89.999 - latitude) / w;
      assert x * w == 89.999 - latitude;
      assert MidLat(b) == 90.0 - w * b as real - 0.5 * w by { assert w * (b as real + 0.5) == w * b as real + 0.5 * w; }
      if x < 0.0 {
        assert w * b as real == 0.0;
      } else {
        assert b as real <= x < b as real + 1.0;
        Product(x - b as real, w);
        Product(b as real + 1.0 - x, w);
        var p, q := w * b as real, x * w;
        assert (x - b as real) * w == q - p;
        assert (b as real + 1.0 - x) * w == p + w - q;
        assert 0.0 <= q - p < w && latitude == 89.999 - q && MidLat(b) == 90.0 - p - 0.5 * w;
      }
    }

    // Latitudes within the search radius of each other lie in bands that are searched.
    lemma LastBandReaches(latA: real, latB: real)
      requires Valid() && -90.0 <= latA <= 90.0 && -90.0 <= latB <= 90.0
      requires latA - latB <= SearchDLat()
      ensures Band(latB) <= LastBand(Band(latA))
    {
      var w, a, b, sd := BandWidth(), Band(latA), Band(latB), SearchDLat();
      BandExists(latB);
      var gap, x := b as real - a as real - 1.0, sd / w;
      assert x * w == sd;
      BandsApart(latA, latB);
      Product(x - gap, w);
      assert (x - gap) * w == sd - gap * w;
      if a < b { assert b - a - 1 <= x.Floor; }
    }

    // And it is no later than needed: that many band widths exceed the search latitude, one fewer do not.
    lemma LastBandTight(a: nat)
      requires Valid() && a < numZonalBands
      ensures a <= LastBand(a)
      ensures LastBand(a) == numZonalBands - 1
              || SearchDLat() < (LastBand(a) - a) as real * BandWidth() <= SearchDLat() + BandWidth()
    {
      var w, sd := BandWidth(), SearchDLat();
      var x := sd / w;
      assert x * w == sd;
      Product(x, w);
      if LastBand(a) < numZonalBands - 1 {
        var k := (LastBand(a) - a) as real;
        Product(k - x, w);
        Product(x + 1.0 - k, w);
        assert (k - x) * w == k * w - sd;
        assert (x + 1.0 - k) * w == sd + w - k * w;
      }
    }

    lemma BandsApart(latA: real, latB: real)
      requires Valid() && -90.0 <= latA <= 90.0 && -90.0 <= latB <= 90.0
      ensures Band(latB) > 0 ==> (Band(latB) as real - Band(latA) as real - 1.0) * BandWidth() < latA - latB
    {
      var w, a, b := BandWidth(), Band(latA) as real, Band(latB) as real;
      BandLimits(latA);
      BandLimits(latB);
      assert MidLat(Band(latA)) == 90.0 - w * a - 0.5 * w by { assert w * (a + 0.5) == w * a + 0.5 * w; }
      assert MidLat(Band(latB)) == 90.0 - w * b - 0.5 * w by { assert w * (b + 0.5) == w * b + 0.5 * w; }
      assert (b - a - 1.0) * w == w * b - w * a - w;
    }

    // By a thousandth of a degree the bands lie below their nominal limits.
    predicate WideEnough()
      requires Valid()
    {
      numZonalBands == 1 || 0.001 <= SearchDLat()
    }

    // Latitudes, the first in a band no further south than the second's, that are within the search radius
    ghost predicate MayMeet(latA: real, latB: real)
      requires Valid()
    {
      && -90.0 <= latA <= 90.0 && -90.0 <= latB <= 90.0
      && Abs(latA - latB) <= SearchDLat() && Band(latA) <= Band(latB)
    }

    /** The tests on bands keep every latitude within the search radius. */
    lemma SearchesBuddies(latA: real, latB: real)
      requires Valid() && MayMeet(latA, latB) && WideEnough()
      ensures Searches(latA, Band(latB))
    {
      LastBandReaches(latA, latB);
      if 0.001 <= SearchDLat() {
        NearBuddy(latA, latB);
      } else {
        BandExists(latB);
        assert Band(latB) == 0 && BandWidth() == 180.0;
      }
    }

    /** They do for all latitudes exactly if there is a single band, or the radius is a thousandth of a degree or
        more. */
    lemma SearchesBuddiesIff()
      requires Valid()
      ensures (forall latA, latB {:trigger MayMeet(latA, latB)} :: MayMeet(latA, latB) ==> Searches(latA, Band(latB)))
         <==> WideEnough()
    {
      if WideEnough() {
        forall latA, latB | MayMeet(latA, latB) ensures Searches(latA, Band(latB)) { SearchesBuddies(latA, latB); }
      } else {
        var lat := NotNearOwnBand();
        assert MayMeet(lat, lat);
      }
    }

    // Within a thousandth of a degree below the nominal limit of the first band
    lemma NotNearOwnBand() returns (lat: real)
      requires Valid() && !WideEnough()
      ensures MayMeet(lat, lat) && !Searches(lat, Band(lat))
    {
      var w := BandWidth();
      assert w <= 90.0 by { Product(numZonalBands as real - 2.0, w); }
      var gap := 0.5 * (SearchDLat() + 0.001);
      lat := 90.0 - w - gap;
      var x := (89.999 - lat) / w;
      assert x * w == w + gap - 0.001;
      Product(1.0 - x, w);
      assert (1.0 - x) * w == w - x * w;
      assert Band(lat) == 0;
      assert MidLat(0) == 90.0 - 0.5 * w;
    }

    // Latitudes are similar exactly if they are within the search radius along a meridian.
    lemma SimilarIff(latA: real, latB: real)
      requires Valid()
      ensures Abs(latA - latB) <= SearchDLat() <==> earth.meanRadius * Abs(latA - latB) <= earth.rad2deg * searchRadius
    {
      var d, sd := Abs(latA - latB), SearchDLat();
      assert sd * earth.meanRadius == earth.rad2deg * searchRadius;
      Product(sd - d, earth.meanRadius);
      assert (sd - d) * earth.meanRadius == sd * earth.meanRadius - d * earth.meanRadius;
    }

    // Bands are numbered from north to south.
    lemma BandsDescend(latA: real, latB: real)
      requires Valid() && latA >= latB
      ensures Band(latA) <= Band(latB)
    {
      var w := BandWidth();
      var x, y := (89.999 - latA) / w, (89.999 - latB) / w;
      assert x * w == 89.999 - latA && y * w == 89.999 - latB;
      Product(y - x, w);
      assert (y - x) * w == y * w - x * w;
    }

    // -------------------------------------------------------------------------
    // What the range of longitudes covers

    // The cosine is even, and does not grow from the equator to the poles.
    ghost predicate CosineFalls() {
      && earth.deg2rad >= 0.0
      && (forall x, y :: y == -x ==> earth.cos(x) == earth.cos(y))
      && forall x, y :: 0.0 <= x <= y <= 90.0 * earth.deg2rad ==> earth.cos(x) >= earth.cos(y)
    }

    // It even falls all the way.
    ghost predicate CosineFallsStrictly() {
      && earth.deg2rad > 0.0 && CosineFalls()
      && forall x, y :: 0.0 <= x < y <= 90.0 * earth.deg2rad ==> earth.cos(x) > earth.cos(y)
    }

    lemma ParallelShrinks(p: real, q: real)
      requires Valid() && CosineFalls() && Abs(p) <= Abs(q) <= 90.0
      ensures Parallel(p) >= Parallel(q)
      ensures CosineFallsStrictly() && Abs(p) < Abs(q) ==> Parallel(p) > Parallel(q)
    {
      var c, c' := Cosines(p, q);
      ScaledByRadius(c, c', earth.meanRadius, Parallel(p), Parallel(q));
    }

    lemma Cosines(p: real, q: real) returns (c: real, c': real)
      requires CosineFalls() && Abs(p) <= Abs(q) <= 90.0
      ensures c >= c' && (CosineFallsStrictly() && Abs(p) < Abs(q) ==> c > c')
      ensures Parallel(p) == earth.meanRadius * c && Parallel(q) == earth.meanRadius * c'
    {
      var x, y := Abs(p) * earth.deg2rad, Abs(q) * earth.deg2rad;
      ScaledOrder(Abs(p), Abs(q), earth.deg2rad, x, y);
      c, c' := earth.cos(x), earth.cos(y);
      ParallelOfSize(p, x, c);
      ParallelOfSize(q, y, c');
      CosinesOrdered(x, y);
    }

    lemma CosinesOrdered(x: real, y: real)
      requires CosineFalls() && 0.0 <= x <= y <= 90.0 * earth.deg2rad
      ensures earth.cos(x) >= earth.cos(y) && (CosineFallsStrictly() && x < y ==> earth.cos(x) > earth.cos(y))
    {
    }

    lemma ParallelOfSize(p: real, x: real, c: real)
      requires CosineFalls() && x == Abs(p) * earth.deg2rad && c == earth.cos(x)
      ensures Parallel(p) == earth.meanRadius * c
    {
      var y := p * earth.deg2rad;
      assert y == x || y == -x by {
        if p < 0.0 { Negated(p, earth.deg2rad); }
      }
      assert earth.cos(y) == c;
    }

    // The limit of band b that is nearer a pole
    function PolewardLimit(b: nat): (l: real)
      requires Valid()
      ensures Abs(l - MidLat(b)) == 0.5 * BandWidth() && Abs(l) == Abs(MidLat(b)) + 0.5 * BandWidth()
    {
      if MidLat(b) >= 0.0 then MidLat(b) + 0.5 * BandWidth() else MidLat(b) - 0.5 * BandWidth()
    }

    lemma OnGlobe(b: nat)
      requires Valid() && b < numZonalBands
      ensures Abs(PolewardLimit(b)) <= 90.0
    {
      var w, n := BandWidth(), numZonalBands as real;
      var y := b as real + 0.5;
      Product(y - 0.5, w);
      Product(n - 0.5 - y, w);
      assert (y - 0.5) * w == w * y - 0.5 * w;
      assert (n - 0.5 - y) * w == n * w - 0.5 * w - w * y;
    }

    // Half the range of longitudes is half the globe or more, or no shorter, along the parallel of a latitude, than the
    // search radius.
    predicate Covers(a: nat, latitude: real)
      requires Valid()
    {
      HalfWidth(a) >= 180.0 || HalfWidth(a) * Parallel(latitude) >= earth.rad2deg * searchRadius
    }

    /** The range just covers the search radius along the limit nearer a pole, if that is not next to the pole. */
    lemma RangeAtLimit(a: nat)
      requires Valid() && CosineFalls() && a < numZonalBands
      ensures if Parallel(PolewardLimit(a)) <= 10.0 then HalfWidth(a) == 360.0
              else HalfWidth(a) * Parallel(PolewardLimit(a)) == earth.rad2deg * searchRadius
    {
      var edge, l := Abs(MidLat(a)) + BandWidth() * 0.5, PolewardLimit(a);
      assert edge == Abs(l) && edge == Abs(edge);
      OnGlobe(a);
      ParallelShrinks(edge, l);
      ParallelShrinks(l, edge);
    }

    /** It covers it along every parallel of the band that is no nearer a pole than this limit. */
    lemma RangeCovers(a: nat, latitude: real)
      requires Valid() && CosineFalls() && a < numZonalBands && Abs(latitude) <= Abs(PolewardLimit(a))
      ensures HalfWidth(a) == 360.0 || HalfWidth(a) * Parallel(latitude) >= earth.rad2deg * searchRadius
      ensures HalfWidth(a) != 360.0 ==> Parallel(latitude) > 10.0
    {
      var p, q, h := Parallel(latitude), Parallel(PolewardLimit(a)), HalfWidth(a);
      RangeAtLimit(a);
      OnGlobe(a);
      ParallelShrinks(latitude, PolewardLimit(a));
      if h > 0.0 { Product(p - q, h); }
      assert (p - q) * h == h * p - h * q;
    }

    // Along those nearer a pole it does not.
    lemma RangeEnds(a: nat, latitude: real)
      requires Valid() && CosineFallsStrictly() && searchRadius > 0.0 && a < numZonalBands && HalfWidth(a) < 180.0
      requires Abs(PolewardLimit(a)) < Abs(latitude) <= 90.0
      ensures !Covers(a, latitude)
    {
      var p, q, h := Parallel(latitude), Parallel(PolewardLimit(a)), HalfWidth(a);
      RangeAtLimit(a);
      ParallelShrinks(PolewardLimit(a), latitude);
      PositiveFactor(h, q, earth.rad2deg, searchRadius);
      ShorterBeyond(h, p, q, h * p, h * q);
    }

    // The range of the band of every latitude covers the search radius along its parallel.
    ghost predicate AlwaysCovers()
      requires Valid()
    {
      forall latitude :: -90.0 <= latitude <= 90.0 ==> Covers(Band(latitude), latitude)
    }

    /** Because bands lie a thousandth of a degree below their nominal limits, there are southern latitudes beyond the
        limit of their band: the range covers all latitudes exactly if there are no more than two bands. */
    lemma AlwaysCoversIff()
      requires Valid() && CosineFallsStrictly() && searchRadius > 0.0
      requires Parallel(45.0) > 10.0 && earth.rad2deg * searchRadius < 180.0 * Parallel(45.0)
      ensures AlwaysCovers() <==> numZonalBands <= 2
    {
      if numZonalBands <= 2 {
        forall latitude | -90.0 <= latitude <= 90.0 ensures Covers(Band(latitude), latitude) {
          BandExists(latitude);
          RangeCovers(Band(latitude), latitude);
        }
      } else {
        var latitude := BeyondLimit();
        RangeBelowHalf(Band(latitude));
        RangeEnds(Band(latitude), latitude);
      }
    }

    lemma RangeBelowHalf(a: nat)
      requires Valid() && CosineFalls() && a < numZonalBands && Abs(PolewardLimit(a)) <= 45.0
      requires Parallel(45.0) > 10.0 && earth.rad2deg * searchRadius < 180.0 * Parallel(45.0)
      ensures HalfWidth(a) < 180.0
    {
      var q, h := Parallel(PolewardLimit(a)), HalfWidth(a);
      RangeAtLimit(a);
      ParallelShrinks(PolewardLimit(a), 45.0);
      Product(180.0 - h, q);
      assert (180.0 - h) * q == 180.0 * q - h * q;
    }

    // In the band at the equator, or the one just south of it
    lemma BeyondLimit() returns (latitude: real)
      requires Valid() && numZonalBands >= 3
      ensures -90.0 <= latitude <= 90.0 && Band(latitude) < numZonalBands
      ensures Abs(PolewardLimit(Band(latitude))) < Abs(latitude) && Abs(PolewardLimit(Band(latitude))) <= 45.0
    {
      var w := BandWidth();
      var b := MiddleBand();
      var short := if w < 0.001 then w / 2.0 else 0.0005;
      latitude := MidLat(b) - 0.5 * w - 0.001 + short;
      BandAbove(latitude, b, short);
    }

    lemma MiddleBand() returns (b: nat)
      requires Valid() && numZonalBands >= 3
      ensures b < numZonalBands && -0.5 * BandWidth() <= MidLat(b) <= 0.0 && BandWidth() <= 60.0
      ensures 0.5 * BandWidth() - MidLat(b) <= 45.0
    {
      b := numZonalBands / 2;
      MiddleLatitude(BandWidth(), b as real, if numZonalBands % 2 == 1 then 0.5 else 0.0);
    }

    lemma MiddleLatitude(w: real, b: real, odd: real)
      requires w > 0.0 && b >= 1.0 && (odd == 0.5 || (odd == 0.0 && b >= 2.0)) && w * (2.0 * (b + odd)) == 180.0
      ensures 90.0 - w * (b + 0.5) == (odd - 0.5) * w && w <= 60.0 && (odd == 0.0 ==> w <= 45.0)
    {
      var n := 2.0 * (b + odd);
      assert w * (b + 0.5) == w * (b + odd) + (0.5 - odd) * w;
      if odd == 0.5 {
        Product(n - 3.0, w);
        assert (n - 3.0) * w == w * n - 3.0 * w;
      } else {
        Product(n - 4.0, w);
        assert (n - 4.0) * w == w * n - 4.0 * w;
      }
    }

    lemma BandAbove(latitude: real, b: nat, short: real)
      requires Valid() && 0.0 < short < 0.001 && short <= BandWidth()
      requires latitude == MidLat(b) - 0.5 * BandWidth() - 0.001 + short
      ensures Band(latitude) == b
    {
      var w := BandWidth();
      var x := (89.999 - latitude) / w;
      assert x * w == 89.999 - latitude == w * (b as real + 1.0) - short;
      Product(b as real + 1.0 - x, w);
      Product(x - b as real, w);
      assert (b as real + 1.0 - x) * w == short;
      assert (x - b as real) * w == w - short;
    }

    lemma NearBuddy(latA: real, latB: real)
      requires Valid() && -90.0 <= latA <= 90.0 && -90.0 <= latB <= 90.0
      requires Abs(latA - latB) <= SearchDLat() && 0.001 <= SearchDLat() && Band(latA) <= Band(latB)
      ensures Near(latA, Band(latB))
    {
      var w, a, b := BandWidth(), Band(latA) as real, Band(latB) as real;
      BandLimits(latA);
      BandLimits(latB);
      Product(b - a, w);
      assert (b - a) * w == w * (b + 0.5) - w * (a + 0.5);
    }
  }

  lemma Product(x: real, w: real)
    requires w > 0.0
    ensures x * w >= 0.0 <==> x >= 0.0
    ensures x * w > 0.0 <==> x > 0.0
  {
  }

  lemma ScaledOrder(p: real, q: real, d: real, x: real, y: real)
    requires 0.0 <= p <= q <= 90.0 && d >= 0.0 && x == p * d && y == q * d
    ensures 0.0 <= x <= y <= 90.0 * d && (p < q && d > 0.0 ==> x < y)
  {
    if d > 0.0 {
      var k, n := q - p, 90.0 - q;
      assert k * d == y - x && n * d == 90.0 * d - y;
      Product(p, d);
      Product(k, d);
      Product(n, d);
      assert p < q ==> k * d > 0.0;
    } else {
      assert d == 0.0 && x == 0.0 && y == 0.0;
    }
  }

  lemma ShorterBeyond(h: real, p: real, q: real, hp: real, hq: real)
    requires h > 0.0 && p < q && hp == h * p && hq == h * q
    ensures hp < hq
  {
    var d := q - p;
    var hd := d * h;
    assert hd > 0.0 by { Product(d, h); }
    assert hq - hp == hd;
  }

  lemma PositiveFactor(h: real, q: real, r: real, s: real)
    requires h >= 0.0 && h * q == r * s && r > 0.0 && s > 0.0
    ensures h > 0.0
  {
    Product(r, s);
    assert r * s > 0.0;
  }

  lemma Negated(p: real, d: real)
    ensures -p * d == -(p * d)
  {
  }

  lemma ScaledByRadius(x: real, y: real, r: real, rx: real, ry: real)
    requires r > 0.0 && rx == r * x && ry == r * y
    ensures (x >= y ==> rx >= ry) && (x > y ==> rx > ry)
  {
    Product(x - y, r);
    assert (x - y) * r == rx - ry;
  }
}
