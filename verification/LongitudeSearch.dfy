/**
 Which observations each observation looks at when buddies are searched for. They are sorted by zonal band and then
 longitude; each looks after itself in its own band and anywhere in the bands to its south, across the date line too.
 */
module LongitudeSearch {
  import opened Distinctness

  // The three loops over a band: longitudes around the observation, then those wrapped past +180 and past -180
  datatype Part = Around | PastEast | PastWest

  // For each position in the sorting order: longitude, zonal band, and half the range of longitudes searched
  datatype Sky = Sky(lon: seq<real>, band: seq<nat>, width: seq<real>) {

    ghost predicate Valid() {
      && |lon| == |band| == |width|
      && (forall k :: 0 <= k < |width| ==> width[k] >= 0.0)
      && forall k, l :: Sorted(k, l)
    }

    predicate Sorted(k: int, l: int)
      requires |lon| == |band| == |width|
    {
      0 <= k < l < |lon| && band[k] == band[l] ==> lon[k] <= lon[l] && width[k] == width[l]
    }

    predicate Has(i: nat, j: nat) { i < |lon| && j < |lon| && |lon| == |band| == |width| }

    // Whether the loop looks at position j on behalf of position i
    predicate Wanted(part: Part, i: nat, j: nat)
      requires Has(i, j)
    {
      var minLon, maxLon := lon[i] - width[i], lon[i] + width[i];
      match part
      case Around => (band[i] == band[j] ==> i < j) && minLon <= lon[j] <= maxLon
      case PastEast =>
        maxLon > 180.0 && (band[i] != band[j] || width[i] < 180.0) && lon[j] <= maxLon - 360.0 && lon[j] < minLon
      case PastWest => minLon < -180.0 && band[i] != band[j] && lon[j] >= minLon + 360.0 && lon[j] > maxLon
    }

    predicate InReach(i: nat, j: nat)
      requires Has(i, j)
    {
      Wanted(Around, i, j) || Wanted(PastEast, i, j) || Wanted(PastWest, i, j)
    }

    // In a band the search looks only after the observation, or at least half the globe's width before it.
    lemma ReachInBand(i: nat, j: nat)
      requires Valid() && Has(i, j) && band[i] == band[j]
      ensures InReach(i, j) <==>
        (i < j && lon[j] - lon[i] <= width[i])
        || (j < i && width[i] < 180.0 && lon[i] + width[i] > 180.0 && 360.0 - (lon[i] - lon[j]) <= width[i])
    {
      assert Sorted(i, j) && Sorted(j, i);
    }

    /** Of two observations of a band at most one reaches the other, and none reaches itself. */
    lemma ReachOneWay(i: nat, j: nat)
      requires Valid() && Has(i, j) && band[i] == band[j] && InReach(i, j)
      ensures i != j && !InReach(j, i)
    {
      ReachInBand(i, j);
      ReachInBand(j, i);
      assert Sorted(i, j) && Sorted(j, i);
    }

    // No position is looked at by two of the loops.
    lemma WantedOnce(i: nat, j: nat)
      requires Has(i, j) && width[i] >= 0.0
      ensures !(Wanted(Around, i, j) && Wanted(PastEast, i, j))
      ensures !(Wanted(Around, i, j) && Wanted(PastWest, i, j))
      ensures !(Wanted(PastEast, i, j) && Wanted(PastWest, i, j))
    {
    }

    // -------------------------------------------------------------------------
    // How much of the globe the search covers

    // The smaller of the two angles between meridians
    function Apart(i: nat, j: nat): (d: real)
      requires Has(i, j)
    {
      var d := if lon[i] <= lon[j] then lon[j] - lon[i] else lon[i] - lon[j];
      if d <= 180.0 then d else 360.0 - d
    }

    predicate OnGlobe() {
      forall k :: 0 <= k < |lon| ==> -180.0 <= lon[k] <= 180.0
    }

    /** Across bands the search covers the longitudes up to the half width on either side, date line or not; only
        at that very distance may the date line cut one off. */
    lemma ReachAcrossBands(i: nat, j: nat)
      requires Valid() && OnGlobe() && Has(i, j) && band[i] != band[j]
      ensures Apart(i, j) < width[i] ==> InReach(i, j)
      ensures InReach(i, j) ==> Apart(i, j) <= width[i]
    {
    }

    /** Within a band one of the two covers the other, except that a half width of 180 or more, if it is less than
        their distance the long way round, hides those close across the date line. */
    lemma ReachWithinBand(i: nat, j: nat)
      requires Valid() && OnGlobe() && i < j && Has(i, j) && band[i] == band[j]
      ensures InReach(i, j) || InReach(j, i) ==> Apart(i, j) <= width[i]
      ensures Apart(i, j) < width[i] ==>
                (InReach(i, j) || InReach(j, i) <==> !(180.0 <= width[i] < lon[j] - lon[i]))
    {
      ReachInBand(i, j);
      ReachInBand(j, i);
      assert Sorted(i, j);
    }

    // Whoever is farther away the long way round than such a half width is hidden.
    lemma HiddenInBand(i: nat, j: nat)
      requires Valid() && OnGlobe() && i < j && Has(i, j) && band[i] == band[j] && 180.0 <= width[i] < lon[j] - lon[i]
      ensures !InReach(i, j) && !InReach(j, i)
    {
      ReachInBand(i, j);
      ReachInBand(j, i);
      assert Sorted(i, j);
    }

    // -------------------------------------------------------------------------
    // The order in which they are examined

    function Mask(part: Part, i: nat): (mask: seq<bool>)
      requires Has(i, i)
      ensures |mask| == |lon|
      ensures forall j {:trigger mask[j]} :: 0 <= j < |lon| ==> mask[j] == Wanted(part, i, j)
    {
      seq(|lon|, (j: nat) requires j < |lon| => Wanted(part, i, j))
    }

    // The positions lo .. hi - 1 that i examines, in order
    function Candidates(i: nat, lo: nat, hi: nat): (js: seq<nat>)
      requires Has(i, i) && lo <= hi <= |lon|
    {
      Picks(Mask(Around, i), lo, hi) + Picks(Mask(PastEast, i), lo, hi) + PicksDown(Mask(PastWest, i), lo, hi)
    }

    lemma CandidatesIff(i: nat, lo: nat, hi: nat)
      requires Valid() && Has(i, i) && lo <= hi <= |lon|
      ensures forall j :: j in Candidates(i, lo, hi) <==> lo <= j < hi && InReach(i, j)
      ensures Distinct(Candidates(i, lo, hi))
    {
      var a, b, c := Mask(Around, i), Mask(PastEast, i), Mask(PastWest, i);
      var u, v, w := Picks(a, lo, hi), Picks(b, lo, hi), PicksDown(c, lo, hi);
      PicksIff(a, lo, hi);
      PicksIff(b, lo, hi);
      PicksDownIff(c, lo, hi);
      forall j | lo <= j < hi ensures !(a[j] && b[j]) && !(a[j] && c[j]) && !(b[j] && c[j]) {
        WantedOnce(i, j);
      }
      DistinctConcat(u, v);
      DistinctConcat(u + v, w);
    }
  }

  // ---------------------------------------------------------------------------
  // Picking the positions of a range that are marked, upward or downward

  function Picks(mask: seq<bool>, lo: nat, hi: nat): (js: seq<nat>)
    requires lo <= hi <= |mask|
    decreases hi - lo
  {
    if lo == hi then [] else (if mask[lo] then [lo] else []) + Picks(mask, lo + 1, hi)
  }

  function PicksDown(mask: seq<bool>, lo: nat, hi: nat): (js: seq<nat>)
    requires lo <= hi <= |mask|
  {
    if lo == hi then [] else (if mask[hi - 1] then [hi - 1] else []) + PicksDown(mask, lo, hi - 1)
  }

  lemma {:induction false} PicksIff(mask: seq<bool>, lo: nat, hi: nat)
    requires lo <= hi <= |mask|
    ensures forall j :: j in Picks(mask, lo, hi) <==> lo <= j < hi && mask[j]
    ensures Distinct(Picks(mask, lo, hi))
    decreases hi - lo
  {
    if lo < hi {
      PicksIff(mask, lo + 1, hi);
      var first, rest := if mask[lo] then [lo] else [], Picks(mask, lo + 1, hi);
      PrependIff(mask[lo], lo, rest);
      DistinctConcat(first, rest);
    }
  }

  lemma {:induction false} PicksDownIff(mask: seq<bool>, lo: nat, hi: nat)
    requires lo <= hi <= |mask|
    ensures forall j :: j in PicksDown(mask, lo, hi) <==> lo <= j < hi && mask[j]
    ensures Distinct(PicksDown(mask, lo, hi))
  {
    if lo < hi {
      PicksDownIff(mask, lo, hi - 1);
      var first, rest := if mask[hi - 1] then [hi - 1] else [], PicksDown(mask, lo, hi - 1);
      PrependIff(mask[hi - 1], hi - 1, rest);
      DistinctConcat(first, rest);
    }
  }

  lemma PrependIff(on: bool, x: nat, rest: seq<nat>)
    ensures forall j :: j in (if on then [x] else []) + rest <==> (on && j == x) || j in rest
  {
  }

  lemma {:induction false} PicksSkip(mask: seq<bool>, lo: nat, mid: nat, hi: nat)
    requires lo <= mid <= hi <= |mask| && forall j :: lo <= j < mid ==> !mask[j]
    ensures Picks(mask, lo, hi) == Picks(mask, mid, hi)
    decreases mid - lo
  {
    if lo < mid { PicksSkip(mask, lo + 1, mid, hi); }
  }

  lemma {:induction false} PicksNone(mask: seq<bool>, lo: nat, hi: nat)
    requires lo <= hi <= |mask| && forall j :: lo <= j < hi ==> !mask[j]
    ensures Picks(mask, lo, hi) == PicksDown(mask, lo, hi) == []
    decreases hi - lo
  {
    PicksIff(mask, lo, hi);
    PicksDownIff(mask, lo, hi);
    if Picks(mask, lo, hi) != [] { assert Picks(mask, lo, hi)[0] in Picks(mask, lo, hi); }
    if PicksDown(mask, lo, hi) != [] { assert PicksDown(mask, lo, hi)[0] in PicksDown(mask, lo, hi); }
  }
}
