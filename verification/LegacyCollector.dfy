/** When the legacy collector hands over a subsequence of the corrected one's list, and a band for which it does not. */
module LegacyCollector {
  import opened BuddySweep
  import opened BuddyCollectors
  import opened BuddyFeed
  import opened Distinctness

  // ---------------------------------------------------------------------------
  // Without an allowance for the station of observation A both collectors are plain filters.

  lemma {:induction false} ListsOfConcat(q: Question, h: seq<nat>, p: seq<nat>)
    requires q.HasAll(h) && q.HasAll(p) && q.limits.maxWithSameStationId <= 0
    ensures q.HasAll(h + p)
    ensures q.V1List(h + p) == q.V1List(h) + q.V1List(p) && q.V2List(h + p) == q.V2List(h) + q.V2List(p)
  {
    if p == [] {
      assert h + p == h;
    } else {
      var p', x := p[..|p| - 1], p[|p| - 1];
      ListsOfConcat(q, h, p');
      assert (h + p)[..|h + p| - 1] == h + p';
    }
  }

  lemma {:induction false} RadiusOfConcat(q: Question, a: seq<nat>, b: seq<nat>)
    ensures q.WithinRadius(a + b) == q.WithinRadius(a) + q.WithinRadius(b)
  {
    if b == [] {
      assert a + b == a;
    } else {
      RadiusOfConcat(q, a, b[..|b| - 1]);
      assert (a + b)[..|a + b| - 1] == a + b[..|b| - 1];
    }
  }

  lemma {:induction false} SameFilter(q: Question, p: seq<nat>)
    requires q.HasAll(p) && q.limits.maxWithSameStationId <= 0
    ensures q.WithinRadius(q.V1List(p)) == q.V2List(p) && |q.V2List(p)| <= |q.V1List(p)|
  {
    if p != [] {
      var n := |p| - 1;
      var v := q.V1List(p[..n]);
      SameFilter(q, p[..n]);
      assert q.V1List(p) == if q.V1Selects(p, n) then v + [p[n]] else v;
      q.WithinRadiusAppend(v, p[n]);
    }
  }

  // V2, having examined h2, is not ahead of V1, having examined h1, and has all that V1 would hand over.
  ghost predicate Behind(q: Question, h1: seq<nat>, h2: seq<nat>)
    requires q.HasAll(h1) && q.HasAll(h2)
  {
    |q.V2List(h2)| <= |q.V1List(h1)| && Subsequence(q.WithinRadius(q.V1List(h1)), q.V2List(h2))
  }

  lemma FullCounts(q: Question, legacy: bool, h: seq<nat>, start: nat)
    requires q.HasAll(h)
    ensures var n := if legacy then |q.V1List(h)| else |q.V2List(h)|;
            Full(q.(legacy := legacy), h, start) <==> n == q.limits.maxTotal || n - start == q.limits.maxFromSingleBand
  {
    SameLists(q, q.(legacy := legacy), h);
  }

  lemma RoomCounts(q: Question, legacy: bool, h: seq<nat>, start: nat)
    requires q.HasAll(h)
    ensures var n := if legacy then |q.V1List(h)| else |q.V2List(h)|;
            Room(q.(legacy := legacy), h, start) <==>
              start <= n < q.limits.maxTotal && n - start < q.limits.maxFromSingleBand
  {
    SameLists(q, q.(legacy := legacy), h);
  }

  // What both count when a band began, and how they stand in it
  ghost predicate Abreast(q: Question, h1: seq<nat>, s1: nat, h2: seq<nat>, s2: nat)
    requires q.HasAll(h1) && q.HasAll(h2)
  {
    && Room(q.(legacy := true), h1, s1) && Room(q.(legacy := false), h2, s2)
    && |q.V2List(h2)| <= |q.V1List(h1)| && |q.V2List(h2)| - s2 <= |q.V1List(h1)| - s1
  }

  // In a band V1 stops no later than V2.
  lemma {:induction false} FeedBoth(q: Question, h1: seq<nat>, s1: nat, h2: seq<nat>, s2: nat, cs: seq<nat>)
    returns (n1: nat, n2: nat)
    requires q.HasAll(h1) && q.HasAll(h2) && q.HasAll(cs) && q.limits.maxWithSameStationId <= 0
    requires Abreast(q, h1, s1, h2, s2)
    ensures n1 <= n2 <= |cs|
    ensures Feed(q.(legacy := true), h1, s1, cs) == h1 + cs[..n1]
    ensures Feed(q.(legacy := false), h2, s2, cs) == h2 + cs[..n2]
    ensures n1 < n2 ==> Full(q.(legacy := true), h1 + cs[..n1], s1)
    decreases |cs|
  {
    var q1, q2 := q.(legacy := true), q.(legacy := false);
    if cs == [] {
      n1, n2 := 0, 0;
      assert h1 + cs[..0] == h1 && h2 + cs[..0] == h2;
    } else {
      OneStep(q, h1, s1, h2, s2, cs[0]);
      if Full(q1, h1 + [cs[0]], s1) {
        n1 := 1;
        n2 := FeedNonEmpty(q2, h2, s2, cs);
        StretchOne(q1, h1, s1, cs);
      } else {
        var m1, m2 := FeedBoth(q, h1 + [cs[0]], s1, h2 + [cs[0]], s2, cs[1..]);
        n1, n2 := m1 + 1, m2 + 1;
        StretchNext(q1, h1, s1, cs, m1);
        StretchNext(q2, h2, s2, cs, m2);
      }
    }
  }

  lemma StretchOne(q: Question, h: seq<nat>, start: nat, cs: seq<nat>)
    requires q.HasAll(h) && q.HasAll(cs) && cs != [] && q.HasAll(h + [cs[0]]) && Full(q, h + [cs[0]], start)
    ensures Feed(q, h, start, cs) == h + cs[..1] == h + [cs[0]]
  {
    assert cs[..1] == [cs[0]];
  }

  lemma StretchNext(q: Question, h: seq<nat>, start: nat, cs: seq<nat>, m: nat)
    requires q.HasAll(h) && q.HasAll(cs) && m < |cs| && q.HasAll(h + [cs[0]]) && !Full(q, h + [cs[0]], start)
    requires Feed(q, h + [cs[0]], start, cs[1..]) == h + [cs[0]] + cs[1..][..m]
    ensures Feed(q, h, start, cs) == h + cs[..m + 1] == h + [cs[0]] + cs[1..][..m]
  {
    FirstOfStretch(h, cs, m);
  }

  lemma FeedNonEmpty(q: Question, h: seq<nat>, start: nat, cs: seq<nat>) returns (n: nat)
    requires q.HasAll(h) && q.HasAll(cs) && cs != []
    ensures 1 <= n <= |cs| && Feed(q, h, start, cs) == h + cs[..n]
  {
    if Full(q, h + [cs[0]], start) {
      n := 1;
      assert cs[..1] == [cs[0]];
    } else {
      var m := FeedPrefix(q, h + [cs[0]], start, cs[1..]);
      n := m + 1;
      FirstOfStretch(h, cs, m);
    }
  }

  lemma OneStep(q: Question, h1: seq<nat>, s1: nat, h2: seq<nat>, s2: nat, c: nat)
    requires q.HasAll(h1) && q.HasAll(h2) && q.Has(c) && q.limits.maxWithSameStationId <= 0
             && Abreast(q, h1, s1, h2, s2)
    ensures q.HasAll(h1 + [c]) && q.HasAll(h2 + [c])
    ensures Full(q.(legacy := false), h2 + [c], s2) ==> Full(q.(legacy := true), h1 + [c], s1)
    ensures !Full(q.(legacy := true), h1 + [c], s1) ==> Abreast(q, h1 + [c], s1, h2 + [c], s2)
  {
    var l1, l2 := q.V1List([c]), q.V2List([c]);
    SameFilter(q, [c]);
    ListsOfConcat(q, h1, [c]);
    ListsOfConcat(q, h2, [c]);
    assert [c][..0] == [];
    assert |l1| <= 1;
    FullCounts(q, true, h1 + [c], s1);
    FullCounts(q, false, h2 + [c], s2);
    RoomCounts(q, true, h1, s1);
    RoomCounts(q, false, h2, s2);
    RoomCounts(q, true, h1 + [c], s1);
    RoomCounts(q, false, h2 + [c], s2);
  }

  lemma BehindConcat(q: Question, h1: seq<nat>, p1: seq<nat>, h2: seq<nat>, p2: seq<nat>)
    requires q.HasAll(h1) && q.HasAll(h2) && q.HasAll(p2) && p1 <= p2 && q.limits.maxWithSameStationId <= 0
    requires Behind(q, h1, h2)
    ensures q.HasAll(h1 + p1) && q.HasAll(h2 + p2)
    ensures Subsequence(q.WithinRadius(q.V1List(h1 + p1)), q.V2List(h2 + p2))
    ensures p1 == p2 ==> |q.V2List(h2 + p2)| <= |q.V1List(h1 + p1)|
  {
    var d := p2[|p1|..];
    assert p1 + d == p2;
    ListsOfConcat(q, h1, p1);
    ListsOfConcat(q, h2, p2);
    ListsOfConcat(q, p1, d);
    RadiusOfConcat(q, q.V1List(h1), q.V1List(p1));
    SameFilter(q, p1);
    PrefixIsSubsequence(q.V2List(p1), q.V2List(p2));
    SubsequenceConcat(q.WithinRadius(q.V1List(h1)), q.V2List(h2), q.V2List(p1), q.V2List(p2));
  }

  predicate Usable(limits: Limits) {
    limits.maxTotal >= 1 && limits.maxFromSingleBand >= 1
  }

  // How many candidates either collector counts
  function Counted(q: Question, legacy: bool, h: seq<nat>): (n: nat)
    requires q.HasAll(h)
  {
    if legacy then |q.V1List(h)| else |q.V2List(h)|
  }

  lemma FeedCounts(q: Question, legacy: bool, h: seq<nat>, start: nat, cs: seq<nat>, g: seq<nat>)
    requires q.HasAll(h) && q.HasAll(cs) && Usable(q.limits) && Counted(q, legacy, h) < q.limits.maxTotal
    requires start == Counted(q, legacy, h) && g == Feed(q.(legacy := legacy), h, start, cs)
    ensures q.HasAll(g) && Counted(q, legacy, g) <= q.limits.maxTotal
    ensures Counted(q, legacy, g) - start <= q.limits.maxFromSingleBand
    ensures |q.(legacy := legacy).Held(h)| == start && Room(q.(legacy := legacy), h, start)
    ensures Full(q.(legacy := legacy), g, start) <==>
              Counted(q, legacy, g) == q.limits.maxTotal || Counted(q, legacy, g) - start == q.limits.maxFromSingleBand
  {
    var q' := q.(legacy := legacy);
    SameLists(q, q', h);
    FeedFacts(q', h, start, cs);
    SameLists(q, q', g);
  }

  // After a band V2 is still not ahead, as V1 leaves it early only with all it may have.
  lemma BandBoth(q: Question, h1: seq<nat>, h2: seq<nat>, cs: seq<nat>, g1: seq<nat>, g2: seq<nat>)
    requires q.HasAll(h1) && q.HasAll(h2) && q.HasAll(cs) && q.limits.maxWithSameStationId <= 0 && Usable(q.limits)
    requires Behind(q, h1, h2) && |q.V1List(h1)| < q.limits.maxTotal
    requires g1 == Feed(q.(legacy := true), h1, |q.V1List(h1)|, cs)
    requires g2 == Feed(q.(legacy := false), h2, |q.V2List(h2)|, cs)
    ensures q.HasAll(g1) && q.HasAll(g2) && Behind(q, g1, g2)
    ensures Counted(q, true, g1) <= q.limits.maxTotal && Counted(q, false, g2) <= q.limits.maxTotal
  {
    var s1, s2 := |q.V1List(h1)|, |q.V2List(h2)|;
    FeedCounts(q, true, h1, s1, cs, g1);
    FeedCounts(q, false, h2, s2, cs, g2);
    var p1, p2 := BandStretches(q, h1, s1, h2, s2, cs, g1, g2);
    BandBehind(q, h1, s1, h2, s2, p1, p2, g1, g2);
  }

  lemma BandStretches(q: Question, h1: seq<nat>, s1: nat, h2: seq<nat>, s2: nat, cs: seq<nat>, g1: seq<nat>,
                      g2: seq<nat>)
    returns (p1: seq<nat>, p2: seq<nat>)
    requires q.HasAll(h1) && q.HasAll(h2) && q.HasAll(cs) && q.limits.maxWithSameStationId <= 0
    requires Abreast(q, h1, s1, h2, s2)
    requires g1 == Feed(q.(legacy := true), h1, s1, cs) && g2 == Feed(q.(legacy := false), h2, s2, cs)
    ensures p1 <= p2 && q.HasAll(p2) && g1 == h1 + p1 && g2 == h2 + p2
    ensures |p1| < |p2| ==> Full(q.(legacy := true), g1, s1)
  {
    var n1, n2 := FeedBoth(q, h1, s1, h2, s2, cs);
    p1, p2 := cs[..n1], cs[..n2];
  }

  lemma BandBehind(q: Question, h1: seq<nat>, s1: nat, h2: seq<nat>, s2: nat, p1: seq<nat>, p2: seq<nat>,
                   g1: seq<nat>, g2: seq<nat>)
    requires q.HasAll(h1) && q.HasAll(h2) && q.HasAll(p2) && p1 <= p2 && q.limits.maxWithSameStationId <= 0
    requires Behind(q, h1, h2) && g1 == h1 + p1 && g2 == h2 + p2 && q.HasAll(g1) && q.HasAll(g2)
    requires s2 <= s1 && Counted(q, false, g2) <= q.limits.maxTotal
    requires Counted(q, false, g2) - s2 <= q.limits.maxFromSingleBand
    requires |p1| < |p2| ==>
               Counted(q, true, g1) == q.limits.maxTotal || Counted(q, true, g1) - s1 == q.limits.maxFromSingleBand
    ensures Behind(q, g1, g2)
  {
    BehindConcat(q, h1, p1, h2, p2);
    assert |p1| == |p2| ==> p1 == p2;
  }

  lemma {:induction false} RunGrows(q: Question, h: seq<nat>, bands: seq<seq<nat>>)
    requires q.HasAll(h) && Askable(q, bands) && Usable(q.limits) && |q.Held(h)| < q.limits.maxTotal
    ensures q.Held(h) <= q.Held(Run(q, h, bands))
    decreases |bands|
  {
    if bands != [] {
      var h1 := Feed(q, h, |q.Held(h)|, bands[0]);
      FeedFacts(q, h, |q.Held(h)|, bands[0]);
      if |q.Held(h1)| < q.limits.maxTotal { RunGrows(q, h1, bands[1..]); }
    }
  }

  lemma {:induction false} RunBoth(q: Question, h1: seq<nat>, h2: seq<nat>, bands: seq<seq<nat>>)
    requires q.HasAll(h1) && q.HasAll(h2) && Askable(q, bands) && q.limits.maxWithSameStationId <= 0 && Usable(q.limits)
    requires Behind(q, h1, h2) && |q.V1List(h1)| < q.limits.maxTotal
    ensures var r1, r2 := Run(q.(legacy := true), h1, bands), Run(q.(legacy := false), h2, bands);
            q.HasAll(r1) && q.HasAll(r2) && Subsequence(q.WithinRadius(q.V1List(r1)), q.V2List(r2))
    decreases |bands|
  {
    if bands != [] {
      var q1, q2 := q.(legacy := true), q.(legacy := false);
      SameLists(q, q1, h1);
      SameLists(q, q2, h2);
      var g1, g2 := Feed(q1, h1, |q.V1List(h1)|, bands[0]), Feed(q2, h2, |q.V2List(h2)|, bands[0]);
      BandBoth(q, h1, h2, bands[0], g1, g2);
      SameLists(q, q1, g1);
      SameLists(q, q2, g2);
      if |q.V1List(g1)| < q.limits.maxTotal {
        RunBoth(q, g1, g2, bands[1..]);
      } else if |q.V2List(g2)| < q.limits.maxTotal {
        RunGrows(q2, g2, bands[1..]);
        var r := Run(q2, g2, bands[1..]);
        SameLists(q, q2, r);
        PrefixIsSubsequence(q.V2List(g2), q.V2List(r));
        SubsequenceTransitive(q.WithinRadius(q.V1List(g1)), q.V2List(g2), q.V2List(r));
      }
    }
  }

  // The two collectors' buddies, whatever they are fed
  ghost predicate Agree(q: Question, bands: seq<seq<nat>>)
    requires q.HasAll([]) && Askable(q, bands)
  {
    Subsequence(Handed(q, true, bands), Handed(q, false, bands))
  }

  lemma WithoutAllowanceAgree(q: Question, bands: seq<seq<nat>>)
    requires q.HasAll([]) && Askable(q, bands) && q.limits.maxWithSameStationId <= 0 && Usable(q.limits)
    ensures Agree(q, bands)
  {
    RunBoth(q, [], [], bands);
    var q1, q2, r1, r2 := q.(legacy := true), q.(legacy := false), Fed(q, true, bands), Fed(q, false, bands);
    SameLists(q, q1, r1);
    SameRadius(q, q1, q.V1List(r1));
    SameLists(q, q2, r2);
  }

  // ---------------------------------------------------------------------------
  // With an allowance the legacy collector can spend it on distant observations. Observation 0 looks for buddies in a
  // band that holds, in this order, s distant ones of its station, a close one of it, and close ones of another.

  function Upto(n: nat): (cs: seq<nat>)
    ensures |cs| == n
  {
    seq(n, (k: nat) => k + 1)
  }

  lemma UptoNext(n: nat)
    ensures Upto(n + 1) == Upto(n) + [n + 1] && Upto(n + 1)[..n] == Upto(n) && Upto(n + 1)[n] == n + 1
  {
  }

  ghost predicate IsWasteful(q: Question, s: nat, t: nat) {
    && q.HasAll([]) && q.limits.maxWithSameStationId == s >= 1
    && forall n: nat {:trigger q.Has(n)} :: 1 <= n <= s + 1 + t ==>
         q.Has(n) && (q.SameStation(n) <==> n <= s + 1) && (q.SimilarLatitude(n) <==> n > s)
           && (n > s ==> q.InRadius(n))
  }

  lemma {:induction false} WastefulCounts(q: Question, s: nat, t: nat, n: nat)
    requires IsWasteful(q, s, t) && n <= s + 1 + t
    ensures q.HasAll(Upto(n)) && q.SameCount(Upto(n)) == (if n <= s + 1 then n else s + 1)
    ensures q.GenuineSameCount(Upto(n)) == (if n <= s then 0 else 1)
  {
    if n > 0 {
      WastefulCounts(q, s, t, n - 1);
      UptoNext(n - 1);
      assert q.Has(n) && (q.SameStation(n) <==> n <= s + 1) && (q.Genuine(n) <==> n > s);
      OneMoreCounts(q, Upto(n - 1), n, Upto(n));
    }
  }

  lemma OneMoreCounts(q: Question, cs: seq<nat>, c: nat, cs': seq<nat>)
    requires q.HasAll(cs) && q.Has(c) && cs' == cs + [c]
    ensures q.HasAll(cs') && q.SameCount(cs') == q.SameCount(cs) + (if q.SameStation(c) then 1 else 0)
    ensures q.GenuineSameCount(cs') == q.GenuineSameCount(cs) + (if q.SameStation(c) && q.Genuine(c) then 1 else 0)
  {
    assert cs'[..|cs|] == cs;
  }

  // Of the first n candidates the legacy collector takes those of the other station, the corrected one the close ones.
  lemma WastefulSelects(q: Question, s: nat, t: nat, n: nat)
    requires IsWasteful(q, s, t) && n < s + 1 + t
    ensures q.HasAll(Upto(n + 1)) && (n >= s ==> q.InRadius(n + 1))
    ensures (q.V1Selects(Upto(n + 1), n) <==> n > s) && (q.V2Selects(Upto(n + 1), n) <==> n >= s)
  {
    WastefulCounts(q, s, t, n);
    UptoNext(n);
    assert q.Has(n + 1);
  }

  lemma {:induction false} WastefulHeld(q: Question, s: nat, t: nat, n: nat)
    requires IsWasteful(q, s, t) && n <= s + 1 + t
    ensures q.HasAll(Upto(n))
    ensures |q.Held(Upto(n))| == if q.legacy then (if n <= s + 1 then 0 else n - s - 1) else if n <= s then 0 else n - s
  {
    if n > 0 {
      WastefulHeld(q, s, t, n - 1);
      WastefulStep(q, s, t, n - 1, Upto(n - 1), Upto(n));
    }
  }

  lemma WastefulStep(q: Question, s: nat, t: nat, n: nat, cs: seq<nat>, cs': seq<nat>)
    requires IsWasteful(q, s, t) && n < s + 1 + t && cs == Upto(n) && cs' == Upto(n + 1) && q.HasAll(cs)
    ensures q.HasAll(cs') && |q.Held(cs')| == |q.Held(cs)| + if n > s || (n == s && !q.legacy) then 1 else 0
  {
    WastefulSelects(q, s, t, n);
    UptoNext(n);
    HeldStep(q, cs, n + 1, cs');
  }

  lemma HeldStep(q: Question, cs: seq<nat>, c: nat, cs': seq<nat>)
    requires q.HasAll(cs) && q.HasAll(cs') && cs' == cs + [c]
    ensures var selects := if q.legacy then q.V1Selects(cs', |cs|) else q.V2Selects(cs', |cs|);
            |q.Held(cs')| == |q.Held(cs)| + if selects then 1 else 0
  {
    assert cs'[..|cs|] == cs;
  }

  // How many close candidates of the other station fill either limit
  function Enough(limits: Limits): (t: int) {
    if limits.maxTotal <= limits.maxFromSingleBand then limits.maxTotal else limits.maxFromSingleBand
  }

  // A collector is first full after so many candidates.
  ghost predicate StopsAt(q: Question, stop: nat, last: nat) {
    && stop <= last && (forall k: nat {:trigger Upto(k)} :: k <= last ==> q.HasAll(Upto(k)))
    && forall k: nat {:trigger Upto(k)} :: 0 < k <= stop ==> (Full(q, Upto(k), 0) <==> k == stop)
  }

  lemma {:induction false} FeedUpto(q: Question, n: nat, stop: nat, last: nat, rest: seq<nat>)
    requires StopsAt(q, stop, last) && n < stop && Upto(last) == Upto(n) + rest
    ensures q.HasAll(rest) && q.HasAll(Upto(n)) && Feed(q, Upto(n), 0, rest) == Upto(stop)
    decreases stop - n
  {
    HasRest(q, n, last, rest);
    UptoRest(n, last, rest);
    FeedNext(q, Upto(n), 0, rest, Upto(n + 1));
    if n + 1 < stop { FeedUpto(q, n + 1, stop, last, rest[1..]); }
  }

  lemma UptoRest(n: nat, last: nat, rest: seq<nat>)
    requires n < last && Upto(last) == Upto(n) + rest
    ensures rest != [] && Upto(n + 1) == Upto(n) + [rest[0]] && Upto(last) == Upto(n + 1) + rest[1..]
  {
    UptoNext(n);
    assert |rest| == last - n;
    assert rest[0] == Upto(last)[n] == n + 1;
    assert rest == [rest[0]] + rest[1..];
  }

  lemma FeedNext(q: Question, h: seq<nat>, start: nat, cs: seq<nat>, h1: seq<nat>)
    requires q.HasAll(h) && q.HasAll(cs) && cs != [] && h1 == h + [cs[0]] && q.HasAll(h1)
    ensures Feed(q, h, start, cs) == if Full(q, h1, start) then h1 else Feed(q, h1, start, cs[1..])
  {
  }

  lemma HasRest(q: Question, n: nat, last: nat, rest: seq<nat>)
    requires n <= last && q.HasAll(Upto(last)) && Upto(last) == Upto(n) + rest
    ensures q.HasAll(rest) && q.HasAll(Upto(n))
  {
    forall k | 0 <= k < |rest| ensures q.geometry.Has(rest[k]) { assert rest[k] == Upto(last)[n + k]; }
    forall k | 0 <= k < n ensures q.geometry.Has(Upto(n)[k]) { assert Upto(n)[k] == Upto(last)[k]; }
  }

  // The legacy collector examines the last candidate and takes it, the corrected one stops before it.
  lemma WastefulFeed(q: Question, s: nat, t: nat, last: nat)
    requires IsWasteful(q, s, t) && Enough(q.limits) == t >= 1 && last == s + 1 + t
    ensures q.HasAll(Upto(last)) && (last in q.Collected(Feed(q, [], 0, Upto(last))) <==> q.legacy)
  {
    var stop := if q.legacy then last else last - 1;
    WastefulStops(q, s, t, stop, last);
    assert Upto(0) == [];
    FeedUpto(q, 0, stop, last, Upto(last));
    WastefulCollected(q, s, t, stop, last, Upto(stop));
  }

  lemma WastefulStops(q: Question, s: nat, t: nat, stop: nat, last: nat)
    requires IsWasteful(q, s, t) && Enough(q.limits) == t >= 1 && last == s + 1 + t
    requires stop == if q.legacy then last else last - 1
    ensures StopsAt(q, stop, last)
  {
    forall k: nat | k <= last
      ensures q.HasAll(Upto(k)) && (0 < k <= stop ==> (Full(q, Upto(k), 0) <==> k == stop))
    {
      WastefulHeld(q, s, t, k);
    }
  }

  lemma WastefulCollected(q: Question, s: nat, t: nat, stop: nat, last: nat, h: seq<nat>)
    requires IsWasteful(q, s, t) && t >= 1 && last == s + 1 + t && h == Upto(stop)
    requires stop == if q.legacy then last else last - 1
    ensures q.HasAll(h) && (last in q.Collected(h) <==> q.legacy)
  {
    WastefulCounts(q, s, t, stop);
    if q.legacy {
      WastefulSelects(q, s, t, last - 1);
      UptoNext(last - 1);
      assert Takes(q, h, last - 1);
      CollectedIff(q, h, last);
    } else {
      CollectedInOrder(q, h);
      SubsequenceElements(q.Collected(h), h);
    }
  }

  // ---------------------------------------------------------------------------
  // Of candidates that pass both tests neither collector wastes anything.

  ghost predicate AllGenuine(q: Question, cs: seq<nat>)
    requires q.HasAll(cs)
  {
    forall k :: 0 <= k < |cs| ==> q.Genuine(cs[k])
  }

  lemma {:induction false} GenuineLists(q: Question, cs: seq<nat>)
    requires q.HasAll(cs) && AllGenuine(q, cs)
    ensures q.GenuineSameCount(cs) == q.SameCount(cs)
    ensures q.WithinRadius(q.V1List(cs)) == q.V1List(cs) == q.V2List(cs)
  {
    if cs != [] {
      var cs', x := cs[..|cs| - 1], cs[|cs| - 1];
      GenuineLists(q, cs');
      assert cs == cs' + [x];
      OneMoreCounts(q, cs', x, cs);
      q.V1Append(cs', x, cs);
      q.V2Append(cs', x, cs);
      q.WithinRadiusAppend(q.V1List(cs'), x);
    }
  }

  lemma GenuineFull(q: Question, h: seq<nat>, start: nat)
    requires q.HasAll(h) && AllGenuine(q, h)
    ensures Full(q.(legacy := true), h, start) <==> Full(q.(legacy := false), h, start)
    ensures q.(legacy := true).Held(h) == q.(legacy := false).Held(h)
  {
    GenuineLists(q, h);
    SameLists(q, q.(legacy := true), h);
    SameLists(q, q.(legacy := false), h);
  }

  lemma {:induction false} GenuineFeed(q: Question, h: seq<nat>, start: nat, cs: seq<nat>)
    requires q.HasAll(h) && q.HasAll(cs) && AllGenuine(q, h) && AllGenuine(q, cs)
    ensures Feed(q.(legacy := true), h, start, cs) == Feed(q.(legacy := false), h, start, cs)
    ensures AllGenuine(q, Feed(q.(legacy := true), h, start, cs))
    decreases |cs|
  {
    if cs != [] {
      GenuineFull(q, h + [cs[0]], start);
      if !Full(q.(legacy := true), h + [cs[0]], start) { GenuineFeed(q, h + [cs[0]], start, cs[1..]); }
    }
  }

  lemma {:induction false} GenuineRun(q: Question, h: seq<nat>, bands: seq<seq<nat>>)
    requires q.HasAll(h) && Askable(q, bands) && AllGenuine(q, h)
    requires forall b :: 0 <= b < |bands| ==> AllGenuine(q, bands[b])
    ensures Run(q.(legacy := true), h, bands) == Run(q.(legacy := false), h, bands)
    ensures AllGenuine(q, Run(q.(legacy := true), h, bands))
    decreases |bands|
  {
    if bands != [] {
      GenuineFull(q, h, 0);
      var start := |q.(legacy := true).Held(h)|;
      GenuineFeed(q, h, start, bands[0]);
      var h1 := Feed(q.(legacy := true), h, start, bands[0]);
      GenuineFull(q, h1, 0);
      if |q.(legacy := true).Held(h1)| != q.limits.maxTotal { GenuineRun(q, h1, bands[1..]); }
    }
  }

  lemma GenuineAgree(q: Question, bands: seq<seq<nat>>)
    requires q.HasAll([]) && Askable(q, bands) && forall b :: 0 <= b < |bands| ==> AllGenuine(q, bands[b])
    ensures Handed(q, true, bands) == Handed(q, false, bands) && Agree(q, bands)
  {
    GenuineRun(q, [], bands);
    var h := Fed(q, true, bands);
    GenuineLists(q, h);
    SameLists(q, q.(legacy := true), h);
    SameRadius(q, q.(legacy := true), q.V1List(h));
    SameLists(q, q.(legacy := false), h);
    SubsequenceSelf(Handed(q, true, bands));
  }
}
