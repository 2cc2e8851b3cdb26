/** The search for buddies as it runs: it sorts the observations, then walks over the bands with one collector. */
module BuddyPairFinder {
  import opened BuddySweep
  import opened BuddyCollectors
  import opened BuddyFeed
  import opened Distinctness
  import opened LongitudeSearch
  import opened ZonalBands
  import opened BuddySearch
  import opened FoundPairs
  import opened PairLists

  // Positions of observations a collector can be asked about
  ghost predicate Fits(q: Question, order: seq<nat>, js: seq<nat>) {
    (forall k :: 0 <= k < |js| ==> js[k] < |order|) && q.HasAll(Gathered(order, js))
  }

  // A stretch of one band: the observations at positions lo .. hi - 1, by ascending longitude
  ghost predicate Row(q: Question, order: seq<nat>, longitudes: seq<real>, lo: nat, hi: nat) {
    && lo <= hi <= |order| && q.HasAll([])
    && (forall j :: lo <= j < hi ==> q.geometry.Has(order[j]) && order[j] < |longitudes|)
    && (forall j, k :: lo <= j <= k < hi ==> longitudes[order[j]] <= longitudes[order[k]])
  }

  // What a collector that has examined h has examined when it is done with the positions js
  ghost function FeedAt(q: Question, order: seq<nat>, h: seq<nat>, start: nat, js: seq<nat>): (h': seq<nat>)
    ensures q.HasAll(h) ==> q.HasAll(h')
  {
    if q.HasAll(h) && Fits(q, order, js) then Feed(q, h, start, Gathered(order, js)) else h
  }

  lemma FeedAtStep(q: Question, order: seq<nat>, h: seq<nat>, start: nat, on: bool, j: nat, rest: seq<nat>,
                   js: seq<nat>)
    requires j < |order| && q.HasAll(h) && Fits(q, order, rest) && q.geometry.Has(order[j])
    requires js == (if on then [j] else []) + rest
    ensures Fits(q, order, js) && q.HasAll(h + [order[j]])
    ensures FeedAt(q, order, h, start, js)
            == if !on then FeedAt(q, order, h, start, rest)
               else if Full(q, h + [order[j]], start) then h + [order[j]]
               else FeedAt(q, order, h + [order[j]], start, rest)
  {
    if on {
      assert js[0] == j && js[1..] == rest;
      assert Gathered(order, js)[1..] == Gathered(order, rest);
    } else {
      assert js == rest;
    }
  }

  lemma FedNothing(q: Question, order: seq<nat>, h: seq<nat>, start: nat)
    requires q.HasAll(h)
    ensures Fits(q, order, []) && FeedAt(q, order, h, start, []) == h
  {
  }

  lemma PicksFine(q: Question, order: seq<nat>, longitudes: seq<real>, mask: seq<bool>, lo: nat, hi: nat)
    requires Row(q, order, longitudes, lo, hi) && |mask| == |order|
    ensures Fits(q, order, Picks(mask, lo, hi))
    ensures Fits(q, order, PicksDown(mask, lo, hi))
  {
    PicksIff(mask, lo, hi);
    PicksDownIff(mask, lo, hi);
    var u, v := Picks(mask, lo, hi), PicksDown(mask, lo, hi);
    forall k | 0 <= k < |u| ensures lo <= u[k] < hi { assert u[k] in u; }
    forall k | 0 <= k < |v| ensures lo <= v[k] < hi { assert v[k] in v; }
  }

  // One position further up, or down
  lemma UpStep(q: Question, order: seq<nat>, longitudes: seq<real>, mask: seq<bool>, h: seq<nat>, start: nat, pos: nat,
               hi: nat)
    requires Row(q, order, longitudes, pos, hi) && |mask| == |order| && q.HasAll(h) && pos < hi
    requires Fits(q, order, Picks(mask, pos, hi))
    ensures Fits(q, order, Picks(mask, pos + 1, hi))
    ensures q.HasAll(h + [order[pos]])
    ensures FeedAt(q, order, h, start, Picks(mask, pos, hi))
            == if !mask[pos] then FeedAt(q, order, h, start, Picks(mask, pos + 1, hi))
               else if Full(q, h + [order[pos]], start) then h + [order[pos]]
               else FeedAt(q, order, h + [order[pos]], start, Picks(mask, pos + 1, hi))
  {
    PicksFine(q, order, longitudes, mask, pos + 1, hi);
    FeedAtStep(q, order, h, start, mask[pos], pos, Picks(mask, pos + 1, hi), Picks(mask, pos, hi));
  }

  lemma DownStep(q: Question, order: seq<nat>, longitudes: seq<real>, mask: seq<bool>, h: seq<nat>, start: nat, lo: nat,
                 pos: nat)
    requires Row(q, order, longitudes, lo, pos + 1) && lo <= pos && |mask| == |order| && q.HasAll(h)
    requires Fits(q, order, PicksDown(mask, lo, pos + 1))
    ensures Fits(q, order, PicksDown(mask, lo, pos))
    ensures q.HasAll(h + [order[pos]])
    ensures FeedAt(q, order, h, start, PicksDown(mask, lo, pos + 1))
            == if !mask[pos] then FeedAt(q, order, h, start, PicksDown(mask, lo, pos))
               else if Full(q, h + [order[pos]], start) then h + [order[pos]]
               else FeedAt(q, order, h + [order[pos]], start, PicksDown(mask, lo, pos))
  {
    PicksFine(q, order, longitudes, mask, lo, pos);
    FeedAtStep(q, order, h, start, mask[pos], pos, PicksDown(mask, lo, pos), PicksDown(mask, lo, pos + 1));
  }

  // ---------------------------------------------------------------------------

  // The collector serves q and has examined h; full when the search must leave the band, enough when it must leave
  // the observation.
  ghost predicate InState(q: Question, c: Collector, start: nat, h: seq<nat>, full: bool, enough: bool)
    reads c.Footprint()
  {
    && c.Valid() && c.Asked() == q && c.BandStart() == start && c.History() == h && q.HasAll(h)
    && (full <==> Full(q, h, start)) && (enough <==> |q.Held(h)| == q.limits.maxTotal)
    && (!full ==> Room(q, h, start))
  }

  // Examines one observation on the way to goal, which next is what remains to be reached after it.
  method Examine(c: Collector, obsIdB: nat, ghost q: Question, ghost start: nat, ghost h: seq<nat>,
                 ghost goal: seq<nat>, ghost next: seq<nat>)
    returns (full: bool, enough: bool)
    requires InState(q, c, start, h, false, false) && q.geometry.Has(obsIdB) && Reaches(q, h, obsIdB, start, goal, next)
    modifies c.Footprint()
    ensures full ==> InState(q, c, start, goal, full, enough)
    ensures !full ==> !enough && goal == next && InState(q, c, start, h + [obsIdB], false, false)
  {
    HeldGrows(q, h, obsIdB);
    c.ExaminePotentialBuddy(obsIdB);
    enough := c.FoundEnoughBuddies();
    var enoughInBand := c.FoundEnoughBuddiesInCurrentBand();
    full := enough || enoughInBand;
  }

  // Having examined x after h, the collector has reached its goal if it is full, and is on its way to next if not.
  ghost predicate Reaches(q: Question, h: seq<nat>, x: nat, start: nat, goal: seq<nat>, next: seq<nat>) {
    q.HasAll(h + [x]) && goal == if Full(q, h + [x], start) then h + [x] else next
  }

  // fed(h, pos) is what a collector that has examined h has examined at the end of a loop that stands at pos.
  ghost predicate FedUp(q: Question, order: seq<nat>, start: nat, mask: seq<bool>, hi: nat,
                        fed: (seq<nat>, nat) -> seq<nat>)
    requires hi <= |mask|
  {
    forall h: seq<nat>, pos: nat {:trigger FeedAt(q, order, h, start, Picks(mask, pos, hi))} :: pos <= hi ==>
      fed(h, pos) == FeedAt(q, order, h, start, Picks(mask, pos, hi))
  }

  ghost predicate FedDown(q: Question, order: seq<nat>, start: nat, mask: seq<bool>, lo: nat,
                          fed: (seq<nat>, nat) -> seq<nat>) {
    forall h: seq<nat>, pos: nat {:trigger FeedAt(q, order, h, start, PicksDown(mask, lo, pos))} ::
        lo <= pos <= |mask| ==>
      fed(h, pos) == FeedAt(q, order, h, start, PicksDown(mask, lo, pos))
  }

  lemma FeedUp(q: Question, order: seq<nat>, start: nat, mask: seq<bool>, hi: nat)
    returns (fed: (seq<nat>, nat) -> seq<nat>)
    requires hi <= |mask|
    ensures FedUp(q, order, start, mask, hi, fed)
  {
    fed := (h: seq<nat>, pos: nat) => if pos <= hi then FeedAt(q, order, h, start, Picks(mask, pos, hi)) else h;
  }

  lemma FeedDown(q: Question, order: seq<nat>, start: nat, mask: seq<bool>, lo: nat)
    returns (fed: (seq<nat>, nat) -> seq<nat>)
    ensures FedDown(q, order, start, mask, lo, fed)
  {
    fed := (h: seq<nat>, pos: nat) => if lo <= pos <= |mask|
                                      then FeedAt(q, order, h, start, PicksDown(mask, lo, pos)) else h;
  }

  // What each loop over positions lo .. hi - 1 needs to know: mask marks the positions in its range of longitudes.
  ghost predicate MarksAround(q: Question, order: seq<nat>, longitudes: seq<real>, mask: seq<bool>, lo: nat, hi: nat,
                              minLon: real, maxLon: real)
  {
    && Row(q, order, longitudes, lo, hi) && |mask| == |order|
    && forall j :: lo <= j < hi ==> (mask[j] <==> minLon <= longitudes[order[j]] <= maxLon)
  }

  ghost predicate MarksPastEast(q: Question, order: seq<nat>, longitudes: seq<real>, mask: seq<bool>, lo: nat, hi: nat,
                                minLon: real, wrappedMaxLon: real)
  {
    && Row(q, order, longitudes, lo, hi) && |mask| == |order|
    && forall j :: lo <= j < hi ==>
         (mask[j] <==> longitudes[order[j]] <= wrappedMaxLon && longitudes[order[j]] < minLon)
  }

  ghost predicate MarksPastWest(q: Question, order: seq<nat>, longitudes: seq<real>, mask: seq<bool>, lo: nat, hi: nat,
                                maxLon: real, wrappedMinLon: real)
  {
    && Row(q, order, longitudes, lo, hi) && |mask| == |order|
    && forall j :: lo <= j < hi ==>
         (mask[j] <==> longitudes[order[j]] >= wrappedMinLon && longitudes[order[j]] > maxLon)
  }

  lemma RowPart(q: Question, order: seq<nat>, longitudes: seq<real>, lo: nat, mid: nat, hi: nat)
    requires Row(q, order, longitudes, lo, hi) && lo <= mid <= hi
    ensures Row(q, order, longitudes, lo, mid) && Row(q, order, longitudes, mid, hi)
  {
  }

  // A loop that stands at pos examines that position, skips it, or has nothing left to examine.
  lemma TakeUp(q: Question, order: seq<nat>, longitudes: seq<real>, mask: seq<bool>, h: seq<nat>, start: nat,
               pos: nat, hi: nat, fed: (seq<nat>, nat) -> seq<nat>)
    requires Row(q, order, longitudes, pos, hi) && |mask| == |order| && q.HasAll(h) && pos < hi && mask[pos]
    requires FedUp(q, order, start, mask, hi, fed)
    ensures Reaches(q, h, order[pos], start, fed(h, pos), fed(h + [order[pos]], pos + 1))
  {
    PicksFine(q, order, longitudes, mask, pos, hi);
    UpStep(q, order, longitudes, mask, h, start, pos, hi);
    assert FeedAt(q, order, h, start, Picks(mask, pos, hi)) == fed(h, pos);
    assert FeedAt(q, order, h + [order[pos]], start, Picks(mask, pos + 1, hi)) == fed(h + [order[pos]], pos + 1);
  }

  lemma SkipUp(q: Question, order: seq<nat>, longitudes: seq<real>, mask: seq<bool>, h: seq<nat>, start: nat,
               pos: nat, hi: nat, fed: (seq<nat>, nat) -> seq<nat>)
    requires Row(q, order, longitudes, pos, hi) && |mask| == |order| && q.HasAll(h) && pos < hi && !mask[pos]
    requires FedUp(q, order, start, mask, hi, fed)
    ensures fed(h, pos) == fed(h, pos + 1)
  {
    PicksFine(q, order, longitudes, mask, pos, hi);
    UpStep(q, order, longitudes, mask, h, start, pos, hi);
    assert FeedAt(q, order, h, start, Picks(mask, pos, hi)) == fed(h, pos);
    assert FeedAt(q, order, h, start, Picks(mask, pos + 1, hi)) == fed(h, pos + 1);
  }

  lemma StopUp(q: Question, order: seq<nat>, mask: seq<bool>, h: seq<nat>, start: nat, pos: nat, hi: nat,
               fed: (seq<nat>, nat) -> seq<nat>)
    requires pos <= hi <= |mask| && q.HasAll(h) && forall j :: pos <= j < hi ==> !mask[j]
    requires FedUp(q, order, start, mask, hi, fed)
    ensures fed(h, pos) == h
  {
    PicksNone(mask, pos, hi);
    FedNothing(q, order, h, start);
    assert FeedAt(q, order, h, start, Picks(mask, pos, hi)) == fed(h, pos);
  }

  lemma TakeDown(q: Question, order: seq<nat>, longitudes: seq<real>, mask: seq<bool>, h: seq<nat>, start: nat,
                 lo: nat, pos: nat, fed: (seq<nat>, nat) -> seq<nat>)
    requires Row(q, order, longitudes, lo, pos + 1) && |mask| == |order| && q.HasAll(h) && lo <= pos && mask[pos]
    requires FedDown(q, order, start, mask, lo, fed)
    ensures Reaches(q, h, order[pos], start, fed(h, pos + 1), fed(h + [order[pos]], pos))
  {
    PicksFine(q, order, longitudes, mask, lo, pos + 1);
    DownStep(q, order, longitudes, mask, h, start, lo, pos);
    assert FeedAt(q, order, h, start, PicksDown(mask, lo, pos + 1)) == fed(h, pos + 1);
    assert FeedAt(q, order, h + [order[pos]], start, PicksDown(mask, lo, pos)) == fed(h + [order[pos]], pos);
  }

  lemma StopDown(q: Question, order: seq<nat>, mask: seq<bool>, h: seq<nat>, start: nat, lo: nat, pos: nat,
                 fed: (seq<nat>, nat) -> seq<nat>)
    requires lo <= pos <= |mask| && q.HasAll(h) && forall j :: lo <= j < pos ==> !mask[j]
    requires FedDown(q, order, start, mask, lo, fed)
    ensures fed(h, pos) == h
  {
    PicksNone(mask, lo, pos);
    FedNothing(q, order, h, start);
    assert FeedAt(q, order, h, start, PicksDown(mask, lo, pos)) == fed(h, pos);
  }

  // The next position of a loop: skip it, stop, or examine it.
  lemma AroundNext(q: Question, order: seq<nat>, longitudes: seq<real>, mask: seq<bool>, h: seq<nat>, start: nat,
                   lo: nat, pos: nat, hi: nat, minLon: real, maxLon: real, fed: (seq<nat>, nat) -> seq<nat>)
    requires MarksAround(q, order, longitudes, mask, lo, hi, minLon, maxLon) && lo <= pos < hi && q.HasAll(h)
    requires FedUp(q, order, start, mask, hi, fed)
    ensures q.geometry.Has(order[pos]) && order[pos] < |longitudes|
    ensures longitudes[order[pos]] < minLon ==> fed(h, pos) == fed(h, pos + 1)
    ensures longitudes[order[pos]] > maxLon && minLon <= longitudes[order[pos]] ==> fed(h, pos) == h
    ensures minLon <= longitudes[order[pos]] <= maxLon ==>
              Reaches(q, h, order[pos], start, fed(h, pos), fed(h + [order[pos]], pos + 1))
  {
    RowPart(q, order, longitudes, lo, pos, hi);
    if longitudes[order[pos]] < minLon {
      SkipUp(q, order, longitudes, mask, h, start, pos, hi, fed);
    } else if longitudes[order[pos]] > maxLon {
      StopUp(q, order, mask, h, start, pos, hi, fed);
    } else {
      TakeUp(q, order, longitudes, mask, h, start, pos, hi, fed);
    }
  }

  lemma PastEastNext(q: Question, order: seq<nat>, longitudes: seq<real>, mask: seq<bool>, h: seq<nat>, start: nat,
                     lo: nat, pos: nat, hi: nat, minLon: real, wrappedMaxLon: real, fed: (seq<nat>, nat) -> seq<nat>)
    requires MarksPastEast(q, order, longitudes, mask, lo, hi, minLon, wrappedMaxLon) && lo <= pos < hi && q.HasAll(h)
    requires FedUp(q, order, start, mask, hi, fed)
    ensures q.geometry.Has(order[pos]) && order[pos] < |longitudes|
    ensures if longitudes[order[pos]] > wrappedMaxLon || longitudes[order[pos]] >= minLon then fed(h, pos) == h
            else Reaches(q, h, order[pos], start, fed(h, pos), fed(h + [order[pos]], pos + 1))
  {
    RowPart(q, order, longitudes, lo, pos, hi);
    if longitudes[order[pos]] > wrappedMaxLon || longitudes[order[pos]] >= minLon {
      StopUp(q, order, mask, h, start, pos, hi, fed);
    } else {
      TakeUp(q, order, longitudes, mask, h, start, pos, hi, fed);
    }
  }

  lemma PastWestNext(q: Question, order: seq<nat>, longitudes: seq<real>, mask: seq<bool>, h: seq<nat>, start: nat,
                     lo: nat, pos: nat, hi: nat, maxLon: real, wrappedMinLon: real, fed: (seq<nat>, nat) -> seq<nat>)
    requires MarksPastWest(q, order, longitudes, mask, lo, hi, maxLon, wrappedMinLon) && lo <= pos < hi && q.HasAll(h)
    requires FedDown(q, order, start, mask, lo, fed)
    ensures q.geometry.Has(order[pos]) && order[pos] < |longitudes|
    ensures if longitudes[order[pos]] < wrappedMinLon || longitudes[order[pos]] <= maxLon then fed(h, pos + 1) == h
            else Reaches(q, h, order[pos], start, fed(h, pos + 1), fed(h + [order[pos]], pos))
  {
    RowPart(q, order, longitudes, lo, pos + 1, hi);
    if longitudes[order[pos]] < wrappedMinLon || longitudes[order[pos]] <= maxLon {
      StopDown(q, order, mask, h, start, lo, pos + 1, fed);
    } else {
      TakeDown(q, order, longitudes, mask, h, start, lo, pos, fed);
    }
  }

  // A loop at its end feeds no more.
  lemma LoopEnds(q: Question, order: seq<nat>, start: nat, mask: seq<bool>, end: nat, h: seq<nat>,
                 fed: (seq<nat>, nat) -> seq<nat>)
    requires end <= |mask| && q.HasAll(h)
    requires FedUp(q, order, start, mask, end, fed) || FedDown(q, order, start, mask, end, fed)
    ensures fed(h, end) == h
  {
    FedNothing(q, order, h, start);
    assert FeedAt(q, order, h, start, Picks(mask, end, end)) == FeedAt(q, order, h, start, PicksDown(mask, end, end))
           == h;
  }

  // Up to position pos: found tells if some observation was in range, and first' is the first of them.
  ghost predicate FirstSoFar(order: seq<nat>, longitudes: seq<real>, begin: nat, pos: nat, bandEnd: nat, first: nat,
                             first': nat, found: bool, minLon: real)
  {
    && begin <= pos <= bandEnd <= |order| && (forall j :: begin <= j < bandEnd ==> order[j] < |longitudes|)
    && if found then begin <= first' < bandEnd && forall j :: begin <= j < first' ==> longitudes[order[j]] < minLon
       else first' == first && forall j :: begin <= j < pos ==> longitudes[order[j]] < minLon
  }

  // First loop over a band: longitudes minLonToCheck .. maxLonToCheck, from position begin on
  method ExamineAround(c: Collector, order: seq<nat>, longitudes: seq<real>, begin: nat, bandEnd: nat, first: nat,
                       minLonToCheck: real, maxLonToCheck: real, ghost q: Question, ghost mask: seq<bool>,
                       ghost start: nat, ghost h0: seq<nat>, ghost fed: (seq<nat>, nat) -> seq<nat>)
    returns (full: bool, enough: bool, first': nat)
    requires InState(q, c, start, h0, false, false)
    requires MarksAround(q, order, longitudes, mask, begin, bandEnd, minLonToCheck, maxLonToCheck)
    requires FedUp(q, order, start, mask, bandEnd, fed)
    modifies c.Footprint()
    ensures InState(q, c, start, fed(h0, begin), full, enough)
    ensures FirstSoFar(order, longitudes, begin, begin, bandEnd, first, first', first' != first, minLonToCheck)
  {
    full, enough, first' := false, false, first;
    var firstObsInSearchRangeFound := false;
    ghost var h := h0;
    for pos := begin to bandEnd
      invariant !full && !enough && InState(q, c, start, h, false, false) && fed(h, pos) == fed(h0, begin)
      invariant FirstSoFar(order, longitudes, begin, pos, bandEnd, first, first', firstObsInSearchRangeFound,
                           minLonToCheck)
    {
      AroundNext(q, order, longitudes, mask, h, start, begin, pos, bandEnd, minLonToCheck, maxLonToCheck, fed);
      if longitudes[order[pos]] < minLonToCheck { continue; }
      if longitudes[order[pos]] > maxLonToCheck { return; }
      if !firstObsInSearchRangeFound {
        first', firstObsInSearchRangeFound := pos, true;
      }
      full, enough := Examine(c, order[pos], q, start, h, fed(h0, begin), fed(h + [order[pos]], pos + 1));
      h := h + [order[pos]];
      if full { return; }
    }
    LoopEnds(q, order, start, mask, bandEnd, h, fed);
  }

  // Second loop: longitudes from -180 to wrappedMaxLonToCheck
  method ExaminePastEast(c: Collector, order: seq<nat>, longitudes: seq<real>, bandBegin: nat, bandEnd: nat,
                         minLonToCheck: real, wrappedMaxLonToCheck: real, ghost q: Question, ghost mask: seq<bool>,
                         ghost start: nat, ghost h0: seq<nat>, ghost fed: (seq<nat>, nat) -> seq<nat>)
    returns (full: bool, enough: bool)
    requires InState(q, c, start, h0, false, false)
    requires MarksPastEast(q, order, longitudes, mask, bandBegin, bandEnd, minLonToCheck, wrappedMaxLonToCheck)
    requires FedUp(q, order, start, mask, bandEnd, fed)
    modifies c.Footprint()
    ensures InState(q, c, start, fed(h0, bandBegin), full, enough)
  {
    full, enough := false, false;
    ghost var h := h0;
    for pos := bandBegin to bandEnd
      invariant !full && !enough && InState(q, c, start, h, false, false) && fed(h, pos) == fed(h0, bandBegin)
    {
      PastEastNext(q, order, longitudes, mask, h, start, bandBegin, pos, bandEnd, minLonToCheck, wrappedMaxLonToCheck,
                   fed);
      if longitudes[order[pos]] > wrappedMaxLonToCheck || longitudes[order[pos]] >= minLonToCheck { return; }
      full, enough := Examine(c, order[pos], q, start, h, fed(h0, bandBegin), fed(h + [order[pos]], pos + 1));
      h := h + [order[pos]];
      if full { return; }
    }
    LoopEnds(q, order, start, mask, bandEnd, h, fed);
  }

  // Third loop: longitudes from 180 back to wrappedMinLonToCheck
  method ExaminePastWest(c: Collector, order: seq<nat>, longitudes: seq<real>, bandBegin: nat, bandEnd: nat,
                         maxLonToCheck: real, wrappedMinLonToCheck: real, ghost q: Question, ghost mask: seq<bool>,
                         ghost start: nat, ghost h0: seq<nat>, ghost fed: (seq<nat>, nat) -> seq<nat>)
    returns (full: bool, enough: bool)
    requires InState(q, c, start, h0, false, false)
    requires MarksPastWest(q, order, longitudes, mask, bandBegin, bandEnd, maxLonToCheck, wrappedMinLonToCheck)
    requires FedDown(q, order, start, mask, bandBegin, fed)
    modifies c.Footprint()
    ensures InState(q, c, start, fed(h0, bandEnd), full, enough)
  {
    full, enough := false, false;
    ghost var h := h0;
    for pos := bandEnd downto bandBegin
      invariant !full && !enough && InState(q, c, start, h, false, false) && fed(h, pos) == fed(h0, bandEnd)
    {
      PastWestNext(q, order, longitudes, mask, h, start, bandBegin, pos, bandEnd, maxLonToCheck, wrappedMinLonToCheck,
                   fed);
      if longitudes[order[pos]] < wrappedMinLonToCheck || longitudes[order[pos]] <= maxLonToCheck { return; }
      full, enough := Examine(c, order[pos], q, start, h, fed(h0, bandEnd), fed(h + [order[pos]], pos));
      h := h + [order[pos]];
      if full { return; }
    }
    LoopEnds(q, order, start, mask, bandBegin, h, fed);
  }

  // ---------------------------------------------------------------------------
  // From the plan of the whole search to its loops

  // Position of the first observation of a band that can be in range of the current one or a later one
  ghost predicate FirstToCheck(s: Search, i: nat, b: nat, first: nat)
    requires s.Valid() && i < |s.order| && b < s.zones.numZonalBands
  {
    && s.bandLbounds[b] <= first <= s.bandLbounds[b + 1]
    && (b != s.sky.band[i] ==> forall j :: s.bandLbounds[b] <= j < first ==>
          s.sky.lon[j] < s.sky.lon[i] - s.sky.width[i])
  }

  // What is too far west of one observation is too far west of the next.
  lemma FirstToCheckNext(s: Search, i: nat, b: nat, first: nat)
    requires s.Valid() && i + 1 < |s.order| && s.sky.band[i] == s.sky.band[i + 1] && b < s.zones.numZonalBands
    requires FirstToCheck(s, i, b, first)
    ensures FirstToCheck(s, i + 1, b, first)
  {
    assert s.sky.Sorted(i, i + 1);
  }

  lemma LonAscends(s: Search, b: nat, j: nat, k: nat)
    requires s.Valid() && b < s.zones.numZonalBands && s.bandLbounds[b] <= j <= k < s.bandLbounds[b + 1]
    ensures s.sky.band[j] == s.sky.band[k] == b && s.sky.lon[j] <= s.sky.lon[k]
  {
    s.BandRange(j, b, s.bandLbounds[b], s.bandLbounds[b + 1]);
    s.BandRange(k, b, s.bandLbounds[b], s.bandLbounds[b + 1]);
    assert s.sky.Sorted(j, k);
  }

  ghost predicate SkyMatches(s: Search, longitudes: seq<real>)
    requires s.Valid()
  {
    && (forall k :: 0 <= k < |s.order| ==> s.order[k] < |longitudes| && s.sky.lon[k] == longitudes[s.order[k]])
    && (forall k {:trigger s.zones.HalfWidth(s.sky.band[k])} :: 0 <= k < |s.order| ==>
         s.sky.width[k] == s.zones.HalfWidth(s.sky.band[k]))
  }

  lemma RowOfBand(s: Search, i: nat, b: nat, longitudes: seq<real>, lo: nat, hi: nat)
    requires s.Valid() && SkyMatches(s, longitudes) && i < |s.order| && b < s.zones.numZonalBands
    requires s.bandLbounds[b] <= lo <= hi == s.bandLbounds[b + 1]
    ensures Row(s.Asked(i), s.order, longitudes, lo, hi)
  {
    forall j, k | lo <= j <= k < hi ensures longitudes[s.order[j]] <= longitudes[s.order[k]] {
      LonAscends(s, b, j, k);
    }
  }

  // What the three loops look for in band b; a loop whose guard fails would find nothing.
  lemma MasksOfBand(s: Search, i: nat, b: nat, j: nat, minLon: real, maxLon: real)
    requires s.Valid() && i < |s.order| && b < s.zones.numZonalBands && s.bandLbounds[b] <= j < s.bandLbounds[b + 1]
    requires minLon == s.sky.lon[i] - s.sky.width[i] && maxLon == s.sky.lon[i] + s.sky.width[i]
    ensures var lon, a := s.sky.lon[j], s.sky.band[i];
            && (s.sky.Mask(Around, i)[j] <==> (a == b ==> i < j) && minLon <= lon <= maxLon)
            && (s.sky.Mask(PastEast, i)[j] <==>
                 maxLon > 180.0 && (a != b || s.sky.width[i] < 180.0) && lon <= maxLon - 360.0 && lon < minLon)
            && (s.sky.Mask(PastWest, i)[j] <==> minLon < -180.0 && a != b && lon >= minLon + 360.0 && lon > maxLon)
  {
    LonAscends(s, b, j, j);
    assert s.sky.Mask(Around, i)[j] == s.sky.Wanted(Around, i, j);
    assert s.sky.Mask(PastEast, i)[j] == s.sky.Wanted(PastEast, i, j);
    assert s.sky.Mask(PastWest, i)[j] == s.sky.Wanted(PastWest, i, j);
  }

  // Starting where the last observation found its first in range loses nothing.
  lemma AroundBegins(s: Search, i: nat, b: nat, first: nat)
    requires s.Valid() && i < |s.order| && b < s.zones.numZonalBands && FirstToCheck(s, i, b, first)
    ensures var lo, hi, mask := s.bandLbounds[b], s.bandLbounds[b + 1], s.sky.Mask(Around, i);
            var begin := if b == s.sky.band[i] then i + 1 else first;
            lo <= begin <= hi && Picks(mask, lo, hi) == Picks(mask, begin, hi)
  {
    var lo, hi, mask := s.bandLbounds[b], s.bandLbounds[b + 1], s.sky.Mask(Around, i);
    s.BandRange(i, b, lo, hi);
    var begin := if b == s.sky.band[i] then i + 1 else first;
    forall j | lo <= j < begin ensures !mask[j] {
      MasksOfBand(s, i, b, j, s.sky.lon[i] - s.sky.width[i], s.sky.lon[i] + s.sky.width[i]);
    }
    PicksSkip(mask, lo, begin, hi);
  }

  lemma FirstFound(s: Search, i: nat, b: nat, first: nat, first': nat)
    requires s.Valid() && i < |s.order| && b < s.zones.numZonalBands && FirstToCheck(s, i, b, first)
    requires var begin := if b == s.sky.band[i] then i + 1 else first;
             first' == first || (begin <= first' < s.bandLbounds[b + 1] &&
                                 forall j :: begin <= j < first' ==> s.sky.lon[j] < s.sky.lon[i] - s.sky.width[i])
    ensures FirstToCheck(s, i, b, first')
  {
    s.BandRange(i, b, s.bandLbounds[b], s.bandLbounds[b + 1]);
  }

  lemma {:induction false} FeedConcat(q: Question, h: seq<nat>, start: nat, a: seq<nat>, b: seq<nat>)
    requires q.HasAll(h) && q.HasAll(a) && q.HasAll(b) && Room(q, h, start)
    ensures Feed(q, h, start, a + b)
            == if Full(q, Feed(q, h, start, a), start) then Feed(q, h, start, a)
               else Feed(q, Feed(q, h, start, a), start, b)
    decreases |a|
  {
    if a == [] {
      assert a + b == b;
    } else {
      var h1 := h + [a[0]];
      HeldGrows(q, h, a[0]);
      assert (a + b)[1..] == a[1..] + b;
      if !Full(q, h1, start) { FeedConcat(q, h1, start, a[1..], b); }
    }
  }

  lemma FitsConcat(q: Question, order: seq<nat>, a: seq<nat>, b: seq<nat>)
    requires Fits(q, order, a) && Fits(q, order, b)
    ensures Fits(q, order, a + b) && Gathered(order, a + b) == Gathered(order, a) + Gathered(order, b)
  {
  }

  // Feeding the three parts one after the other, each as long as the collector is not full, feeds them all.
  lemma FeedParts(q: Question, order: seq<nat>, h: seq<nat>, start: nat, u: seq<nat>, v: seq<nat>, w: seq<nat>)
    requires q.HasAll(h) && Fits(q, order, u) && Fits(q, order, v) && Fits(q, order, w) && Room(q, h, start)
    ensures Fits(q, order, u + v + w)
    ensures var h1 := FeedAt(q, order, h, start, u);
            var h2 := FeedAt(q, order, h1, start, v);
            FeedAt(q, order, h, start, u + v + w)
            == if Full(q, h1, start) then h1 else if Full(q, h2, start) then h2 else FeedAt(q, order, h2, start, w)
  {
    var a, b, c := Gathered(order, u), Gathered(order, v), Gathered(order, w);
    FitsConcat(q, order, u, v);
    FitsConcat(q, order, u + v, w);
    FeedConcat(q, h, start, a, b);
    FeedConcat(q, h, start, a + b, c);
  }

  class BuddyPairFinder {
    const zones: Zones
    const limits: Limits
    const useLegacyBuddyCollector: bool
    const geometry: Geometry
    const longitudes: seq<real>

    constructor (zones: Zones, limits: Limits, useLegacyBuddyCollector: bool, geometry: Geometry, longitudes: seq<real>)
      ensures this.zones == zones && this.limits == limits && this.useLegacyBuddyCollector == useLegacyBuddyCollector
      ensures this.geometry == geometry && this.longitudes == longitudes
    {
      this.zones, this.limits, this.useLegacyBuddyCollector := zones, limits, useLegacyBuddyCollector;
      this.geometry, this.longitudes := geometry, longitudes;
    }

    // s is the plan of a search by this finder.
    ghost predicate Serves(s: Search) {
      && s.Valid() && s.zones == zones && s.limits == limits && s.legacy == useLegacyBuddyCollector
      && s.geometry == geometry && SkyMatches(s, longitudes)
    }

    // One band on behalf of one observation; enough if the search for its buddies is over
    method ExamineBand(c: Collector, order: seq<nat>, bandBegin: nat, bandEnd: nat, i: nat, a: nat, b: nat,
                       first: nat, lonSearchRangeHalfWidth: real, ghost s: Search, ghost start: nat, ghost h0: seq<nat>)
      returns (full: bool, enough: bool, first': nat)
      requires Serves(s) && order == s.order && i < |order| && a == s.sky.band[i] <= b < zones.numZonalBands
      requires bandBegin == s.bandLbounds[b] && bandEnd == s.bandLbounds[b + 1] && FirstToCheck(s, i, b, first)
      requires lonSearchRangeHalfWidth == s.sky.width[i] && InState(s.Asked(i), c, start, h0, false, false)
      modifies c.Footprint()
      ensures InState(s.Asked(i), c, start, Feed(s.Asked(i), h0, start, s.Stream(i, b)), full, enough)
      ensures FirstToCheck(s, i, b, first')
    {
      ghost var q, around, east, west := s.Asked(i), s.sky.Mask(Around, i), s.sky.Mask(PastEast, i),
                                         s.sky.Mask(PastWest, i);
      var begin := if a == b then i + 1 else first;
      var minLonToCheck, maxLonToCheck := longitudes[order[i]] - lonSearchRangeHalfWidth,
                                          longitudes[order[i]] + lonSearchRangeHalfWidth;
      AroundBegins(s, i, b, first);
      AroundOfBand(s, i, b, begin, longitudes, minLonToCheck, maxLonToCheck);
      assert s.BoundsAscend(b, b + 1);
      PastEastOfBand(s, i, b, longitudes, minLonToCheck, maxLonToCheck);
      PastWestOfBand(s, i, b, longitudes, minLonToCheck, maxLonToCheck);
      ghost var u, v, w := Picks(around, begin, bandEnd), Picks(east, bandBegin, bandEnd),
                           PicksDown(west, bandBegin, bandEnd);
      FeedParts(q, order, h0, start, u, v, w);
      StreamOfBand(s, i, b, u, v, w);
      ghost var fedU := FeedUp(q, order, start, around, bandEnd);
      ghost var fedV := FeedUp(q, order, start, east, bandEnd);
      ghost var fedW := FeedDown(q, order, start, west, bandBegin);
      ghost var h1 := FeedAt(q, order, h0, start, u);
      ghost var h2 := FeedAt(q, order, h1, start, v);
      full, enough, first' := ExamineAround(c, order, longitudes, begin, bandEnd, first, minLonToCheck, maxLonToCheck,
                                            q, around, start, h0, fedU);
      FirstFound(s, i, b, first, first');
      if full { return; }
      if maxLonToCheck > 180.0 && (a != b || lonSearchRangeHalfWidth < 180.0) {
        full, enough := ExaminePastEast(c, order, longitudes, bandBegin, bandEnd, minLonToCheck, maxLonToCheck - 360.0,
                                        q, east, start, h1, fedV);
        if full { return; }
      }
      if minLonToCheck < -180.0 && a != b {
        full, enough := ExaminePastWest(c, order, longitudes, bandBegin, bandEnd, maxLonToCheck, minLonToCheck + 360.0,
                                        q, west, start, h2, fedW);
      }
    }

    // One band, unless the observation is too far from it; enough if the search for its buddies is over
    method VisitBand(c: Collector, order: seq<nat>, bandLbounds: seq<nat>, i: nat, a: nat, b: nat,
                     firsts: seq<nat>, lonSearchRangeHalfWidth: real, ghost s: Search, ghost h: seq<nat>)
      returns (enough: bool, firsts': seq<nat>, ghost h': seq<nat>)
      requires Serves(s) && order == s.order && bandLbounds == s.bandLbounds && i < |order| && a == s.sky.band[i]
      requires lonSearchRangeHalfWidth == s.sky.width[i] && a <= b <= zones.LastBand(a)
      requires Underway(s, i, b, h, c) && FirstsToCheck(s, i, firsts)
      modifies c.Footprint()
      ensures FirstsToCheck(s, i, firsts')
      ensures enough ==> c.Valid() && c.Asked() == s.Asked(i) && c.History() == s.Examined(i)
      ensures !enough ==> Underway(s, i, b + 1, h', c)
    {
      enough, firsts', h' := false, firsts, h;
      ExaminedStep(s, i, b, h);
      if zones.Near(geometry.latitudes[order[i]], b) {
        ghost var q, start := s.Asked(i), |s.Asked(i).Held(h)|;
        h' := Feed(q, h, start, s.Stream(i, b));
        var full, first;
        full, enough, first :=
          ExamineBand(c, order, bandLbounds[b], bandLbounds[b + 1], i, a, b, firsts[b], lonSearchRangeHalfWidth, s,
                      start, h);
        firsts' := firsts[b := first];
        if !enough { StartNextBand(c, q, start, h', full); }
      }
    }

    // All bands that may hold buddies of one observation
    method ExamineBands(c: Collector, order: seq<nat>, bandLbounds: seq<nat>, i: nat, a: nat,
                        firsts: seq<nat>, lonSearchRangeHalfWidth: real, ghost s: Search)
      returns (firsts': seq<nat>)
      requires Serves(s) && order == s.order && bandLbounds == s.bandLbounds && i < |order| && a == s.sky.band[i]
      requires lonSearchRangeHalfWidth == s.sky.width[i] && FirstsToCheck(s, i, firsts)
      requires InState(s.Asked(i), c, 0, [], false, false)
      modifies c.Footprint()
      ensures c.Valid() && c.Asked() == s.Asked(i) && c.History() == s.Examined(i)
      ensures FirstsToCheck(s, i, firsts')
    {
      firsts' := firsts;
      ghost var h: seq<nat> := [];
      SearchBegins(s, i, c);
      var b, enough, lastBandToSearch := a, false, zones.LastBand(a);
      while b <= lastBandToSearch
        invariant a <= b <= lastBandToSearch + 1 && FirstsToCheck(s, i, firsts') && Underway(s, i, b, h, c)
        invariant !enough
      {
        enough, firsts', h := VisitBand(c, order, bandLbounds, i, a, b, firsts', lonSearchRangeHalfWidth, s, h);
        if enough { break; }
        b := b + 1;
      }
      if !enough { SearchEnds(s, i, b, h, c); }
    }

    // The collector and the plan fit this finder.
    ghost predicate Follows(s: Search, order: seq<nat>, bandLbounds: seq<nat>, c: Collector) {
      Serves(s) && order == s.order && bandLbounds == s.bandLbounds
        && c.Serves(limits, geometry, useLegacyBuddyCollector)
    }

    // All bands and observations in turn
    method PairObservations(order: seq<nat>, bandLbounds: seq<nat>, ghost s: Search) returns (pairs: seq<Pair>)
      requires Serves(s) && order == s.order && bandLbounds == s.bandLbounds
      ensures pairs == s.AllPairs(|order|)
    {
      var c := MakeBuddyCollector(limits, geometry, useLegacyBuddyCollector);
      ghost var goal := (n: nat) => if n <= |s.order| then s.AllPairs(n) else [];
      BoundsCover(s);
      pairs := PairBands(c, order, bandLbounds, s, goal);
    }

    method PairBands(c: Collector, order: seq<nat>, bandLbounds: seq<nat>, ghost s: Search,
                     ghost goal: nat -> seq<Pair>)
      returns (pairs: seq<Pair>)
      requires Follows(s, order, bandLbounds, c) && IsGoal(s, goal) && goal(bandLbounds[0]) == []
      modifies c.Footprint()
      ensures pairs == goal(bandLbounds[zones.numZonalBands])
    {
      pairs := [];
      for jBandA := 0 to zones.numZonalBands
        invariant pairs == goal(bandLbounds[jBandA])
      {
        pairs := PairBand(c, order, bandLbounds, jBandA, pairs, s, goal);
      }
    }

    // All observations of one band
    method PairBand(c: Collector, order: seq<nat>, bandLbounds: seq<nat>, jBandA: nat, pairs: seq<Pair>,
                    ghost s: Search, ghost goal: nat -> seq<Pair>)
      returns (pairs': seq<Pair>)
      requires Follows(s, order, bandLbounds, c) && IsGoal(s, goal) && jBandA < zones.numZonalBands
      requires pairs == goal(bandLbounds[jBandA])
      modifies c.Footprint()
      ensures pairs' == goal(bandLbounds[jBandA + 1])
    {
      pairs' := pairs;
      var lonSearchRangeHalfWidth := zones.HalfWidth(jBandA);
      var firstObsToCheckInBands := bandLbounds[..zones.numZonalBands];
      FirstsToCheckStart(s, jBandA);
      assert s.BoundsAscend(jBandA, jBandA + 1);
      var i, bandEnd := bandLbounds[jBandA], bandLbounds[jBandA + 1];
      while i < bandEnd
        invariant i <= bandEnd && Turn(s, i, jBandA, bandEnd, firstObsToCheckInBands) && pairs' == goal(i)
      {
        firstObsToCheckInBands, pairs' :=
          PairObservation(c, order, bandLbounds, i, jBandA, bandEnd, firstObsToCheckInBands, lonSearchRangeHalfWidth,
                          pairs', s, goal);
        i := i + 1;
      }
    }

    // One observation
    method PairObservation(c: Collector, order: seq<nat>, bandLbounds: seq<nat>, i: nat, a: nat, ghost bandEnd: nat,
                           firsts: seq<nat>, lonSearchRangeHalfWidth: real, pairs: seq<Pair>, ghost s: Search,
                           ghost goal: nat -> seq<Pair>)
      returns (firsts': seq<nat>, pairs': seq<Pair>)
      requires Follows(s, order, bandLbounds, c) && IsGoal(s, goal) && a < zones.numZonalBands
      requires lonSearchRangeHalfWidth == zones.HalfWidth(a)
      requires i < bandEnd && Turn(s, i, a, bandEnd, firsts) && pairs == goal(i)
      modifies c.Footprint()
      ensures Turn(s, i + 1, a, bandEnd, firsts') && pairs' == goal(i + 1)
    {
      assert s.InBand(i, a);
      c.Reset(order[i], s.Asked(i));
      firsts' := ExamineBands(c, order, bandLbounds, i, a, firsts, lonSearchRangeHalfWidth, s);
      pairs' := c.AppendBuddyPairsTo(pairs);
      assert s.AllPairs(i + 1) == s.AllPairs(i) + s.PairsOf(i);
      FirstsToCheckNext(s, i, firsts');
    }

    // The plan the sorting makes: positions take their bands, longitudes and search ranges from the observations.
    ghost function Plan(order: seq<nat>, bandLbounds: seq<nat>): (s: Search)
      requires zones.Valid() && Known(order)
    {
      Search(zones, limits, useLegacyBuddyCollector, geometry, SkyOf(order), order, bandLbounds)
    }

    ghost predicate Known(ids: seq<nat>) {
      forall k :: 0 <= k < |ids| ==>
          geometry.Has(ids[k]) && ids[k] < |longitudes| && -90.0 <= geometry.latitudes[ids[k]] <= 90.0
    }

    ghost function SkyOf(order: seq<nat>): (sky: Sky)
      requires zones.Valid() && Known(order)
    {
      Sky(seq(|order|, (k: nat) requires k < |order| && Known(order) => longitudes[order[k]]),
          seq(|order|, (k: nat) requires k < |order| && Known(order) => zones.Band(geometry.latitudes[order[k]])),
          seq(|order|, (k: nat) requires k < |order| && Known(order) =>
              zones.HalfWidth(zones.Band(geometry.latitudes[order[k]]))))
    }

    // The order in which the splitter presents the observations: grouped by band, by longitude within a band
    ghost predicate Presents(visit: seq<nat>, validObsIds: seq<nat>)
      requires zones.Valid() && Known(validObsIds)
    {
      && |visit| == |validObsIds| && Distinct(visit) && (forall k :: 0 <= k < |visit| ==> visit[k] < |validObsIds|)
      && forall k, l :: 0 <= k < l < |visit| ==>
           var a, b := validObsIds[visit[k]], validObsIds[visit[l]];
           || zones.Band(geometry.latitudes[a]) < zones.Band(geometry.latitudes[b])
           || (zones.Band(geometry.latitudes[a]) == zones.Band(geometry.latitudes[b]) && longitudes[a] <= longitudes[b])
    }

    ghost predicate SensibleLimits() {
      limits.maxTotal >= 1 && limits.maxFromSingleBand >= 1 && limits.maxWithSameStationId >= 0
    }

    /** Sorts the valid observations into the plan of a search: the same observations, by band and longitude, and
        bounds that are those of the bands. */
    method SortObservations(validObsIds: seq<nat>, visit: seq<nat>) returns (order: seq<nat>, bandLbounds: seq<nat>)
      requires zones.Valid() && SensibleLimits() && Known(validObsIds) && Distinct(validObsIds)
      requires Presents(visit, validObsIds)
      ensures Known(order) && Serves(Plan(order, bandLbounds))
      ensures forall x :: x in order <==> x in validObsIds
    {
      var bandIndices := [];
      for k := 0 to |validObsIds|
        invariant |bandIndices| == k
        invariant forall l :: 0 <= l < k ==> bandIndices[l] == zones.Band(geometry.latitudes[validObsIds[l]])
      {
        bandIndices := bandIndices + [zones.Band(geometry.latitudes[validObsIds[k]])];
      }
      ghost var bands := seq(|visit|, (k: nat) requires k < |visit| && Presents(visit, validObsIds)
                             && |bandIndices| == |visit| => bandIndices[visit[k]]);
      BandsFine(visit, validObsIds, bands);
      order, bandLbounds := FillBounds(validObsIds, bandIndices, visit, zones.numZonalBands, bands);
      PlanServes(visit, validObsIds, order, bandLbounds, bands);
      SameObservationsSorted(visit, validObsIds, order);
    }

    lemma BandsFine(visit: seq<nat>, validObsIds: seq<nat>, bands: seq<nat>)
      requires zones.Valid() && Known(validObsIds) && Presents(visit, validObsIds) && |bands| == |visit|
      requires forall k :: 0 <= k < |visit| ==> bands[k] == zones.Band(geometry.latitudes[validObsIds[visit[k]]])
      ensures forall k :: 0 <= k < |bands| ==> bands[k] < zones.numZonalBands
      ensures forall k, l :: 0 <= k < l < |bands| ==> bands[k] <= bands[l]
    {
      forall k | 0 <= k < |bands| ensures bands[k] < zones.numZonalBands {
        zones.BandExists(geometry.latitudes[validObsIds[visit[k]]]);
      }
    }

    lemma PlanServes(visit: seq<nat>, validObsIds: seq<nat>, order: seq<nat>, bandLbounds: seq<nat>, bands: seq<nat>)
      requires zones.Valid() && SensibleLimits() && Known(validObsIds) && Distinct(validObsIds)
               && Presents(visit, validObsIds)
      requires |order| == |visit| == |bands| && forall k :: 0 <= k < |visit| ==> order[k] == validObsIds[visit[k]]
      requires forall k :: 0 <= k < |visit| ==>
                 bands[k] == zones.Band(geometry.latitudes[validObsIds[visit[k]]]) < zones.numZonalBands
      requires |bandLbounds| == zones.numZonalBands + 1
      requires forall b, l :: 0 <= b <= zones.numZonalBands && 0 <= l < |bands| ==>
                 (bandLbounds[b] <= l <==> b <= bands[l])
      requires forall b :: 0 <= b <= zones.numZonalBands ==> bandLbounds[b] <= |bands|
      ensures Known(order) && Serves(Plan(order, bandLbounds))
    {
      var s := Plan(order, bandLbounds);
      assert s.sky.band == bands;
      SkyValid(visit, validObsIds, order);
      BoundsAscend(bands, bandLbounds);
      forall k | 0 <= k < |order| ensures s.InBand(k, s.sky.band[k]) {
        assert bandLbounds[bands[k]] <= k && !(bandLbounds[bands[k] + 1] <= k);
      }
      forall k, l | 0 <= k < l < |order| ensures order[k] != order[l] {
        assert visit[k] != visit[l];
        if visit[k] < visit[l] { assert validObsIds[visit[k]] != validObsIds[visit[l]]; }
      }
    }

    lemma SkyValid(visit: seq<nat>, validObsIds: seq<nat>, order: seq<nat>)
      requires zones.Valid() && Known(validObsIds) && Presents(visit, validObsIds)
      requires |order| == |visit| && forall k :: 0 <= k < |visit| ==> order[k] == validObsIds[visit[k]]
      ensures Known(order) && SkyOf(order).Valid()
    {
      var sky := SkyOf(order);
      forall k, l | 0 <= k < l < |order| && sky.band[k] == sky.band[l]
        ensures sky.lon[k] <= sky.lon[l] && sky.width[k] == sky.width[l]
      {
        assert order[k] == validObsIds[visit[k]] && order[l] == validObsIds[visit[l]];
      }
    }

    lemma SameObservationsSorted(visit: seq<nat>, validObsIds: seq<nat>, order: seq<nat>)
      requires zones.Valid() && Known(validObsIds) && Presents(visit, validObsIds)
      requires |order| == |visit| && forall k :: 0 <= k < |visit| ==> order[k] == validObsIds[visit[k]]
      ensures forall x :: x in order <==> x in validObsIds
    {
      forall x | x in validObsIds ensures x in order {
        var v :| 0 <= v < |validObsIds| && validObsIds[v] == x;
        PermutationCovers(visit, v);
        var k :| 0 <= k < |visit| && visit[k] == v;
        assert order[k] == x;
      }
    }

    /** Finds the buddy pairs of the valid observations: each pair two of them, and no two of them twice. */
    method FindBuddyPairs(validObsIds: seq<nat>, visit: seq<nat>) returns (pairs: seq<Pair>, ghost s: Search)
      requires zones.Valid() && SensibleLimits() && Known(validObsIds) && Distinct(validObsIds)
      requires Presents(visit, validObsIds)
      ensures Serves(s) && pairs == s.AllPairs(|s.order|) && forall x :: x in s.order <==> x in validObsIds
      ensures forall k :: 0 <= k < |pairs| ==>
                pairs[k].obsIdA in validObsIds && pairs[k].obsIdB in validObsIds && pairs[k].obsIdA != pairs[k].obsIdB
      ensures forall k :: 0 <= k < |pairs| ==>
                pairs[k].distanceInKm == geometry.locate(pairs[k].obsIdA, pairs[k].obsIdB).0 <= limits.searchRadius
      ensures forall k :: 0 <= k < |pairs| ==> MadeUp(s, pairs[k])
      ensures forall a: nat, b: nat :: b < zones.numZonalBands ==> WithinLimits(s, pairs, a, b)
      ensures NoRepeat(pairs)
    {
      var order, bandLbounds := SortObservations(validObsIds, visit);
      s := Plan(order, bandLbounds);
      pairs := PairObservations(order, bandLbounds, s);
      AllPairsFine(s, pairs);
      AllPairsWithinLimits(s, pairs);
    }
  }

  lemma AllPairsWithinLimits(s: Search, pairs: seq<Pair>)
    requires s.Valid() && pairs == s.AllPairs(|s.order|)
    ensures forall a: nat, b: nat :: b < s.zones.numZonalBands ==> WithinLimits(s, pairs, a, b)
  {
    forall a: nat, b: nat | b < s.zones.numZonalBands ensures WithinLimits(s, pairs, a, b) {
      FoundWithinLimits(s, a, b);
    }
  }

  lemma AllPairsFine(s: Search, pairs: seq<Pair>)
    requires s.Valid() && pairs == s.AllPairs(|s.order|)
    ensures forall k :: 0 <= k < |pairs| ==>
              MadeUp(s, pairs[k]) && pairs[k].obsIdA in s.order && pairs[k].obsIdB in s.order
    ensures NoRepeat(pairs)
  {
    forall k | 0 <= k < |pairs|
      ensures MadeUp(s, pairs[k]) && pairs[k].obsIdA in s.order && pairs[k].obsIdB in s.order
    {
      FoundIsMadeUp(s, pairs[k]);
    }
    s.NoPairTwice(|s.order|);
  }

  lemma BoundsAscend(bands: seq<nat>, bandLbounds: seq<nat>)
    requires forall b, l :: 0 <= b < |bandLbounds| && 0 <= l < |bands| ==> (bandLbounds[b] <= l <==> b <= bands[l])
    requires forall b :: 0 <= b < |bandLbounds| ==> bandLbounds[b] <= |bands|
    ensures forall b, c :: 0 <= b <= c < |bandLbounds| ==> bandLbounds[b] <= bandLbounds[c]
  {
    forall b, c | 0 <= b <= c < |bandLbounds| ensures bandLbounds[b] <= bandLbounds[c] {
      var l := bandLbounds[c];
      assert l < |bands| ==> c <= bands[l];
    }
  }

  // The bands of the observations seen so far, and where the bands begin
  ghost predicate BoundsSoFar(bands: seq<nat>, bandLbounds: seq<nat>, current: int) {
    && -1 <= current < |bandLbounds| - 1
    && (forall b :: 0 <= b <= current ==> bandLbounds[b] <= |bands|)
    && (forall b, l :: 0 <= b <= current && 0 <= l < |bands| ==> (bandLbounds[b] <= l <==> b <= bands[l]))
    && (forall l :: 0 <= l < |bands| ==> bands[l] <= current)
  }

  // Bands lo .. hi - 1 begin at pos.
  method BeginBands(bandLbounds: seq<nat>, lo: nat, hi: nat, pos: nat) returns (bandLbounds': seq<nat>)
    requires lo <= hi <= |bandLbounds|
    ensures |bandLbounds'| == |bandLbounds|
    ensures forall b :: 0 <= b < |bandLbounds| ==> bandLbounds'[b] == if lo <= b < hi then pos else bandLbounds[b]
  {
    bandLbounds' := bandLbounds;
    for band := lo to hi
      invariant |bandLbounds'| == |bandLbounds|
      invariant forall b :: 0 <= b < |bandLbounds| ==> bandLbounds'[b] == if lo <= b < band then pos else bandLbounds[b]
    {
      bandLbounds' := bandLbounds'[band := pos];
    }
  }

  // Orders ids as visit says; bandLbounds[b] is where the observations of band b and those after it begin.
  method FillBounds(validObsIds: seq<nat>, bandIndices: seq<nat>, visit: seq<nat>, numZonalBands: nat,
                    ghost bands: seq<nat>)
    returns (order: seq<nat>, bandLbounds: seq<nat>)
    requires |validObsIds| == |bandIndices| == |visit| == |bands|
    requires forall k :: 0 <= k < |visit| ==> visit[k] < |visit| && bands[k] == bandIndices[visit[k]] < numZonalBands
    requires forall k, l :: 0 <= k < l < |bands| ==> bands[k] <= bands[l]
    ensures |order| == |visit| && forall k :: 0 <= k < |visit| ==> order[k] == validObsIds[visit[k]]
    ensures |bandLbounds| == numZonalBands + 1
    ensures forall b, l :: 0 <= b <= numZonalBands && 0 <= l < |bands| ==> (bandLbounds[b] <= l <==> b <= bands[l])
    ensures forall b :: 0 <= b <= numZonalBands ==> bandLbounds[b] <= |bands|
  {
    order, bandLbounds := [], seq(numZonalBands + 1, _ => 0);
    var currentBandIndex: int := -1;
    for k := 0 to |visit|
      invariant |order| == k && forall l :: 0 <= l < k ==> order[l] == validObsIds[visit[l]]
      invariant |bandLbounds| == numZonalBands + 1
      invariant BoundsSoFar(bands[..k], bandLbounds, currentBandIndex)
      invariant currentBandIndex == if k == 0 then -1 else bands[k - 1]
    {
      bandLbounds := BeginBands(bandLbounds, currentBandIndex + 1, bandIndices[visit[k]] + 1, |order|);
      currentBandIndex := bandIndices[visit[k]];
      order := order + [validObsIds[visit[k]]];
    }
    assert bands[..|bands|] == bands;
    bandLbounds := BeginBands(bandLbounds, currentBandIndex + 1, |bandLbounds|, |validObsIds|);
  }

  // If position i is in band a, the search from it may begin at firsts.
  ghost predicate InBandNext(s: Search, i: nat, a: nat, firsts: seq<nat>) {
    s.Valid() && (s.InBand(i, a) ==> i < |s.order| && s.sky.band[i] == a && FirstsToCheck(s, i, firsts))
  }

  // It is position i's turn, of those of band a, which end at bandEnd.
  ghost predicate Turn(s: Search, i: nat, a: nat, bandEnd: nat, firsts: seq<nat>) {
    && InBandNext(s, i, a, firsts)
    && a + 1 < |s.bandLbounds| && s.bandLbounds[a] <= i && bandEnd == s.bandLbounds[a + 1]
  }

  // goal(n) are the pairs of the first n observations.
  ghost predicate IsGoal(s: Search, goal: nat -> seq<Pair>)
    requires s.Valid()
  {
    forall n: nat {:trigger s.AllPairs(n)} :: n <= |s.order| ==> goal(n) == s.AllPairs(n)
  }

  lemma FirstsToCheckNext(s: Search, i: nat, firsts: seq<nat>)
    requires s.Valid() && i < |s.order| && FirstsToCheck(s, i, firsts)
    ensures InBandNext(s, i + 1, s.sky.band[i], firsts)
  {
    var a := s.sky.band[i];
    if s.InBand(i + 1, a) {
      s.OneBand(i + 1, a);
      forall b | 0 <= b < |firsts| ensures FirstToCheck(s, i + 1, b, firsts[b]) {
        FirstToCheckNext(s, i, b, firsts[b]);
      }
    }
  }

  lemma FirstsToCheckStart(s: Search, a: nat)
    requires s.Valid() && a < s.zones.numZonalBands
    ensures InBandNext(s, s.bandLbounds[a], a, s.bandLbounds[..s.zones.numZonalBands])
  {
    var i := s.bandLbounds[a];
    if s.InBand(i, a) {
      s.OneBand(i, a);
      forall b | 0 <= b < s.zones.numZonalBands ensures FirstToCheck(s, i, b, s.bandLbounds[b]) {
        assert s.BoundsAscend(b, b + 1);
      }
    }
  }

  lemma BoundsCover(s: Search)
    requires s.Valid()
    ensures s.bandLbounds[0] == 0 && s.bandLbounds[s.zones.numZonalBands] == |s.order|
  {
    if |s.order| > 0 {
      assert s.InBand(0, s.sky.band[0]);
      assert s.InBand(|s.order| - 1, s.sky.band[|s.order| - 1]);
      assert s.BoundsAscend(0, s.sky.band[0]);
      assert s.BoundsAscend(s.sky.band[|s.order| - 1] + 1, s.zones.numZonalBands);
    }
  }

  method StartNextBand(c: Collector, ghost q: Question, ghost start: nat, ghost h: seq<nat>, ghost full: bool)
    requires InState(q, c, start, h, full, false) && |q.Held(h)| <= q.limits.maxTotal && q.limits.maxFromSingleBand >= 1
    modifies c.Footprint()
    ensures InState(q, c, |q.Held(h)|, h, false, false)
  {
    c.StartProcessingNextBand();
  }

  lemma ExaminedStep(s: Search, i: nat, b: nat, h: seq<nat>)
    requires s.Valid() && i < |s.order| && s.Asked(i).HasAll(h) && s.sky.band[i] <= b <= s.zones.LastBand(s.sky.band[i])
    requires |s.Asked(i).Held(h)| < s.limits.maxTotal
    ensures s.zones.Near(s.geometry.latitudes[s.order[i]], b) <==> s.Searched(i, b)
    ensures var q := s.Asked(i);
            var h1 := Feed(q, h, |q.Held(h)|, s.Stream(i, b));
            && |q.Held(h1)| <= s.limits.maxTotal
            && Run(q, h, s.Streams(i, b))
               == if !s.Searched(i, b) then Run(q, h, s.Streams(i, b + 1))
                  else if |q.Held(h1)| == s.limits.maxTotal then h1 else Run(q, h1, s.Streams(i, b + 1))
  {
    BandBounds(s, i);
    FeedFacts(s.Asked(i), h, |s.Asked(i).Held(h)|, s.Stream(i, b));
    if s.Searched(i, b) { assert s.Streams(i, b)[1..] == s.Streams(i, b + 1); }
  }

  // No band before the observation's own is searched, and none after the last.
  lemma {:induction false} FirstStreams(s: Search, i: nat, b: nat)
    requires s.Valid() && i < |s.order| && b <= s.sky.band[i]
    ensures s.Streams(i, b) == s.Streams(i, s.sky.band[i])
    decreases s.sky.band[i] - b
  {
    BandBounds(s, i);
    if b < s.sky.band[i] { FirstStreams(s, i, b + 1); }
  }

  lemma {:induction false} LastStreams(s: Search, i: nat, b: nat)
    requires s.Valid() && i < |s.order| && b > s.zones.LastBand(s.sky.band[i])
    ensures s.Streams(i, b) == []
    decreases s.zones.numZonalBands - b
  {
    BandBounds(s, i);
    if b < s.zones.numZonalBands { LastStreams(s, i, b + 1); }
  }

  // The collector has examined h, and what it will have examined after the bands from b on is all it has to.
  ghost predicate Underway(s: Search, i: nat, b: nat, h: seq<nat>, c: Collector)
    reads c.Footprint()
  {
    && s.Valid() && i < |s.order| && s.Asked(i).HasAll(h)
    && InState(s.Asked(i), c, |s.Asked(i).Held(h)|, h, false, false)
    && Run(s.Asked(i), h, s.Streams(i, b)) == s.Examined(i)
  }

  lemma SearchBegins(s: Search, i: nat, c: Collector)
    requires s.Valid() && i < |s.order| && InState(s.Asked(i), c, 0, [], false, false)
    ensures Underway(s, i, s.sky.band[i], [], c) && s.sky.band[i] <= s.zones.LastBand(s.sky.band[i]) + 1
  {
    BandBounds(s, i);
    FirstStreams(s, i, 0);
  }

  lemma SearchEnds(s: Search, i: nat, b: nat, h: seq<nat>, c: Collector)
    requires Underway(s, i, b, h, c) && b > s.zones.LastBand(s.sky.band[i])
    ensures c.Valid() && c.Asked() == s.Asked(i) && c.History() == s.Examined(i)
  {
    LastStreams(s, i, b);
  }

  ghost predicate FirstsToCheck(s: Search, i: nat, firsts: seq<nat>)
    requires s.Valid() && i < |s.order|
  {
    |firsts| == s.zones.numZonalBands && forall b :: 0 <= b < |firsts| ==> FirstToCheck(s, i, b, firsts[b])
  }

  lemma BandBounds(s: Search, i: nat)
    requires s.Valid() && i < |s.order|
    ensures s.sky.band[i] < s.zones.numZonalBands && s.sky.band[i] == s.zones.Band(s.geometry.latitudes[s.order[i]])
  {
    assert s.InBand(i, s.sky.band[i]);
  }

  // What the loops need to know holds for the bands of the plan.
  lemma AroundOfBand(s: Search, i: nat, b: nat, begin: nat, longitudes: seq<real>, minLon: real, maxLon: real)
    requires s.Valid() && SkyMatches(s, longitudes) && i < |s.order| && b < s.zones.numZonalBands
    requires minLon == s.sky.lon[i] - s.sky.width[i] && maxLon == s.sky.lon[i] + s.sky.width[i]
    requires s.bandLbounds[b] <= begin <= s.bandLbounds[b + 1] && (s.sky.band[i] == b ==> i < begin)
    ensures MarksAround(s.Asked(i), s.order, longitudes, s.sky.Mask(Around, i), begin, s.bandLbounds[b + 1], minLon,
                        maxLon)
    ensures Fits(s.Asked(i), s.order, Picks(s.sky.Mask(Around, i), begin, s.bandLbounds[b + 1]))
  {
    var hi, mask := s.bandLbounds[b + 1], s.sky.Mask(Around, i);
    RowOfBand(s, i, b, longitudes, begin, hi);
    PicksFine(s.Asked(i), s.order, longitudes, mask, begin, hi);
    forall j | begin <= j < hi ensures mask[j] <==> minLon <= longitudes[s.order[j]] <= maxLon {
      MasksOfBand(s, i, b, j, minLon, maxLon);
    }
  }

  lemma PastEastOfBand(s: Search, i: nat, b: nat, longitudes: seq<real>, minLon: real, maxLon: real)
    requires s.Valid() && SkyMatches(s, longitudes) && i < |s.order| && b < s.zones.numZonalBands
             && s.BoundsAscend(b, b + 1)
    requires minLon == s.sky.lon[i] - s.sky.width[i] && maxLon == s.sky.lon[i] + s.sky.width[i]
    ensures var mask, lo, hi := s.sky.Mask(PastEast, i), s.bandLbounds[b], s.bandLbounds[b + 1];
            && Fits(s.Asked(i), s.order, Picks(mask, lo, hi))
            && if maxLon > 180.0 && (s.sky.band[i] != b || s.sky.width[i] < 180.0)
               then MarksPastEast(s.Asked(i), s.order, longitudes, mask, lo, hi, minLon, maxLon - 360.0)
               else Picks(mask, lo, hi) == []
  {
    var lo, hi, mask := s.bandLbounds[b], s.bandLbounds[b + 1], s.sky.Mask(PastEast, i);
    RowOfBand(s, i, b, longitudes, lo, hi);
    PicksFine(s.Asked(i), s.order, longitudes, mask, lo, hi);
    forall j | lo <= j < hi
      ensures mask[j] <==> maxLon > 180.0 && (s.sky.band[i] != b || s.sky.width[i] < 180.0)
                           && longitudes[s.order[j]] <= maxLon - 360.0 && longitudes[s.order[j]] < minLon
    {
      MasksOfBand(s, i, b, j, minLon, maxLon);
    }
    if !(maxLon > 180.0 && (s.sky.band[i] != b || s.sky.width[i] < 180.0)) { PicksNone(mask, lo, hi); }
  }

  lemma PastWestOfBand(s: Search, i: nat, b: nat, longitudes: seq<real>, minLon: real, maxLon: real)
    requires s.Valid() && SkyMatches(s, longitudes) && i < |s.order| && b < s.zones.numZonalBands
             && s.BoundsAscend(b, b + 1)
    requires minLon == s.sky.lon[i] - s.sky.width[i] && maxLon == s.sky.lon[i] + s.sky.width[i]
    ensures var mask, lo, hi := s.sky.Mask(PastWest, i), s.bandLbounds[b], s.bandLbounds[b + 1];
            && Fits(s.Asked(i), s.order, PicksDown(mask, lo, hi))
            && if minLon < -180.0 && s.sky.band[i] != b
               then MarksPastWest(s.Asked(i), s.order, longitudes, mask, lo, hi, maxLon, minLon + 360.0)
               else PicksDown(mask, lo, hi) == []
  {
    var lo, hi, mask := s.bandLbounds[b], s.bandLbounds[b + 1], s.sky.Mask(PastWest, i);
    RowOfBand(s, i, b, longitudes, lo, hi);
    PicksFine(s.Asked(i), s.order, longitudes, mask, lo, hi);
    forall j | lo <= j < hi
      ensures mask[j] <==> minLon < -180.0 && s.sky.band[i] != b
                           && longitudes[s.order[j]] >= minLon + 360.0 && longitudes[s.order[j]] > maxLon
    {
      MasksOfBand(s, i, b, j, minLon, maxLon);
    }
    if !(minLon < -180.0 && s.sky.band[i] != b) { PicksNone(mask, lo, hi); }
  }

  lemma StreamOfBand(s: Search, i: nat, b: nat, u: seq<nat>, v: seq<nat>, w: seq<nat>)
    requires s.Valid() && i < |s.order| && b < s.zones.numZonalBands && s.BoundsAscend(b, b + 1)
    requires u == Picks(s.sky.Mask(Around, i), s.bandLbounds[b], s.bandLbounds[b + 1])
    requires v == Picks(s.sky.Mask(PastEast, i), s.bandLbounds[b], s.bandLbounds[b + 1])
    requires w == PicksDown(s.sky.Mask(PastWest, i), s.bandLbounds[b], s.bandLbounds[b + 1])
    requires Fits(s.Asked(i), s.order, u + v + w)
    ensures s.Stream(i, b) == Gathered(s.order, u + v + w)
  {
  }
}
