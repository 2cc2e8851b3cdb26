/**
 Feeding a collector, band by band, until it has enough; and how the legacy collector fares against the corrected
 one when each is fed until it has enough itself.
 */
module BuddyFeed {
  import opened BuddySweep
  import opened BuddyCollectors
  import opened Distinctness

  // ---------------------------------------------------------------------------
  // Feeding a collector that has examined h, and counted start buddies when the band began

  predicate Full(q: Question, h: seq<nat>, start: nat)
    requires q.HasAll(h)
  {
    |q.Held(h)| == q.limits.maxTotal || |q.Held(h)| - start == q.limits.maxFromSingleBand
  }

  // It examines candidates until there are no more or it is full.
  function Feed(q: Question, h: seq<nat>, start: nat, cs: seq<nat>): (h': seq<nat>)
    requires q.HasAll(h) && q.HasAll(cs)
    ensures q.HasAll(h')
    decreases |cs|
  {
    if cs == [] then h
    else if Full(q, h + [cs[0]], start) then h + [cs[0]]
    else Feed(q, h + [cs[0]], start, cs[1..])
  }

  ghost predicate Room(q: Question, h: seq<nat>, start: nat)
    requires q.HasAll(h)
  {
    start <= |q.Held(h)| < q.limits.maxTotal && |q.Held(h)| - start < q.limits.maxFromSingleBand
  }

  lemma HeldGrows(q: Question, h: seq<nat>, c: nat)
    requires q.HasAll(h) && q.Has(c)
    ensures q.HasAll(h + [c]) && q.Held(h) <= q.Held(h + [c]) && |q.Held(h + [c])| <= |q.Held(h)| + 1
  {
    assert (h + [c])[..|h|] == h;
  }

  // It examines an initial stretch of the candidates.
  lemma {:induction false} FeedPrefix(q: Question, h: seq<nat>, start: nat, cs: seq<nat>) returns (n: nat)
    requires q.HasAll(h) && q.HasAll(cs)
    ensures n <= |cs| && Feed(q, h, start, cs) == h + cs[..n]
    decreases |cs|
  {
    if cs == [] {
      n := 0;
      assert h + cs[..0] == h;
    } else {
      n := 1;
      assert cs[..1] == [cs[0]];
      if !Full(q, h + [cs[0]], start) {
        var m := FeedPrefix(q, h + [cs[0]], start, cs[1..]);
        n := m + 1;
        assert h + cs[..n] == h + [cs[0]] + cs[1..][..m];
      }
    }
  }

  // Of the candidates cs after h those of h' were examined: all of them unless it is full now, and the limits are kept.
  ghost predicate FedWithinLimits(q: Question, h: seq<nat>, start: nat, cs: seq<nat>, h': seq<nat>)
    requires q.HasAll(h)
  {
    && q.HasAll(h') && q.Held(h) <= q.Held(h')
    && |q.Held(h')| <= q.limits.maxTotal && |q.Held(h')| - start <= q.limits.maxFromSingleBand
    && (h' == h + cs || Full(q, h', start))
  }

  // It stops early only when it is full, and never holds more than it may.
  lemma {:induction false} FeedFacts(q: Question, h: seq<nat>, start: nat, cs: seq<nat>)
    requires q.HasAll(h) && q.HasAll(cs) && Room(q, h, start)
    ensures FedWithinLimits(q, h, start, cs, Feed(q, h, start, cs))
    decreases |cs|
  {
    if cs == [] {
      assert h + cs == h;
    } else {
      HeldGrows(q, h, cs[0]);
      if !Full(q, h + [cs[0]], start) {
        FeedFacts(q, h + [cs[0]], start, cs[1..]);
        FeedStep(q, h, start, cs, h + [cs[0]], Feed(q, h, start, cs));
      }
    }
  }

  lemma FeedStep(q: Question, h: seq<nat>, start: nat, cs: seq<nat>, h1: seq<nat>, h': seq<nat>)
    requires q.HasAll(h) && cs != [] && h1 == h + [cs[0]] && q.HasAll(h1) && q.Held(h) <= q.Held(h1)
    requires FedWithinLimits(q, h1, start, cs[1..], h')
    ensures FedWithinLimits(q, h, start, cs, h')
  {
    assert h + cs == h1 + cs[1..];
  }

  // All bands in turn; the search is over as soon as the collector has its total.
  function Run(q: Question, h: seq<nat>, bands: seq<seq<nat>>): (h': seq<nat>)
    requires q.HasAll(h) && Askable(q, bands)
    ensures q.HasAll(h')
    decreases |bands|
  {
    if bands == [] then h
    else
      var h1 := Feed(q, h, |q.Held(h)|, bands[0]);
      if |q.Held(h1)| == q.limits.maxTotal then h1 else Run(q, h1, bands[1..])
  }

  ghost predicate Askable(q: Question, bands: seq<seq<nat>>) {
    forall b :: 0 <= b < |bands| ==> q.HasAll(bands[b])
  }

  function Flatten(bands: seq<seq<nat>>): (cs: seq<nat>)
    decreases |bands|
  {
    if bands == [] then [] else bands[0] + Flatten(bands[1..])
  }

  // ---------------------------------------------------------------------------
  // Subsequences

  lemma {:induction false} SubsequenceSelf<T>(a: seq<T>)
    ensures Subsequence(a, a)
  {
    if a != [] { SubsequenceSelf(a[..|a| - 1]); }
  }

  lemma {:induction false} SubsequenceElements<T>(a: seq<T>, b: seq<T>)
    requires Subsequence(a, b)
    ensures forall x :: x in a ==> x in b
  {
    if a != [] {
      var a', b' := a[..|a| - 1], b[..|b| - 1];
      if Subsequence(a, b') {
        SubsequenceElements(a, b');
      } else {
        SubsequenceElements(a', b');
        assert a == a' + [a[|a| - 1]];
      }
    }
  }

  lemma {:induction false} SubsequenceConcat<T>(a: seq<T>, b: seq<T>, c: seq<T>, d: seq<T>)
    requires Subsequence(a, b) && Subsequence(c, d)
    ensures Subsequence(a + c, b + d)
    decreases |d|
  {
    if d == [] {
      assert a + c == a && b + d == b;
    } else {
      var z, d' := d[|d| - 1], d[..|d| - 1];
      assert b + d == (b + d') + [z];
      if Subsequence(c, d') {
        SubsequenceConcat(a, b, c, d');
        SubsequenceRight(a + c, b + d', z);
      } else {
        var c' := c[..|c| - 1];
        SubsequenceConcat(a, b, c', d');
        SubsequenceBoth(a + c', b + d', z);
        assert a + c == (a + c') + [z];
      }
    }
  }

  lemma {:induction false} SubsequenceTransitive<T>(a: seq<T>, b: seq<T>, c: seq<T>)
    requires Subsequence(a, b) && Subsequence(b, c)
    ensures Subsequence(a, c)
    decreases |c|
  {
    if a != [] {
      var b', c' := b[..|b| - 1], c[..|c| - 1];
      if Subsequence(b, c') {
        SubsequenceTransitive(a, b, c');
      } else if Subsequence(a, b') {
        SubsequenceTransitive(a, b', c');
      } else {
        SubsequenceTransitive(a[..|a| - 1], b', c');
      }
    }
  }

  lemma PrefixIsSubsequence<T>(p: seq<T>, s: seq<T>)
    requires p <= s
    ensures Subsequence(p, s)
  {
    SubsequenceSelf(p);
    SubsequenceConcat(p, p, [], s[|p|..]);
    assert p + [] == p && p + s[|p|..] == s;
  }

  // Of two subsequences of a sequence without repetition the one with fewer elements is a subsequence of the other.
  lemma {:induction false} SubsequenceByElements<T>(a: seq<T>, b: seq<T>, s: seq<T>)
    requires Subsequence(a, s) && Subsequence(b, s) && Distinct(s) && forall x :: x in a ==> x in b
    ensures Subsequence(a, b)
    decreases |s|
  {
    if a != [] {
      var s', z := s[..|s| - 1], s[|s| - 1];
      assert Distinct(s') && z !in s';
      assert s == s' + [z];
      DropLast(a, s', z);
      DropLast(b, s', z);
      var a', b' := Without(a, z), Without(b, z);
      WithoutElements(a, b, s', z);
      SubsequenceByElements(a', b', s');
      if z in a {
        SubsequenceBoth(a', b', z);
      } else if z in b {
        SubsequenceRight(a', b', z);
      }
    }
  }

  // s without its last element, if that is all there is of z
  function Without<T(==)>(s: seq<T>, z: T): (r: seq<T>) {
    if z in s then s[..|s| - 1] else s
  }

  lemma WithoutElements<T>(a: seq<T>, b: seq<T>, s': seq<T>, z: T)
    requires (forall x :: x in a ==> x in b) && z !in s'
    requires Subsequence(Without(a, z), s') && (z in b ==> b == b[..|b| - 1] + [z])
    ensures forall x :: x in Without(a, z) ==> x in Without(b, z)
  {
    SubsequenceElements(Without(a, z), s');
  }

  // A subsequence of s' + [z] ends in z or does without it.
  lemma DropLast<T>(a: seq<T>, s': seq<T>, z: T)
    requires Subsequence(a, s' + [z]) && z !in s'
    ensures Subsequence(Without(a, z), s') && (z in a ==> a == a[..|a| - 1] + [z])
  {
    assert (s' + [z])[..|s'|] == s';
    if a != [] && Subsequence(a, s') {
      SubsequenceElements(a, s');
    }
  }

  // ---------------------------------------------------------------------------
  // What is examined, and what is handed over, comes in the order of the stream.

  lemma {:induction false} RunInOrder(q: Question, h: seq<nat>, bands: seq<seq<nat>>)
    requires q.HasAll(h) && Askable(q, bands)
    ensures Subsequence(Run(q, h, bands), h + Flatten(bands))
    decreases |bands|
  {
    if bands == [] {
      assert h + Flatten(bands) == h;
      SubsequenceSelf(h);
    } else {
      var rest := Flatten(bands[1..]);
      var h1 := Feed(q, h, |q.Held(h)|, bands[0]);
      FedInOrder(q, h, bands[0]);
      assert h + Flatten(bands) == h + bands[0] + rest;
      if |q.Held(h1)| == q.limits.maxTotal {
        StretchInOrder(h1, h + bands[0], [], rest);
        assert h1 + [] == h1;
      } else {
        RunInOrder(q, h1, bands[1..]);
        StretchInOrder(h1, h + bands[0], rest, rest);
        SubsequenceTransitive(Run(q, h1, bands[1..]), h1 + rest, h + bands[0] + rest);
      }
    }
  }

  lemma FedInOrder(q: Question, h: seq<nat>, cs: seq<nat>)
    requires q.HasAll(h) && q.HasAll(cs)
    ensures Subsequence(Feed(q, h, |q.Held(h)|, cs), h + cs)
  {
    var n := FeedPrefix(q, h, |q.Held(h)|, cs);
    SubsequenceSelf(h);
    PrefixIsSubsequence(cs[..n], cs);
    SubsequenceConcat(h, h, cs[..n], cs);
  }

  lemma StretchInOrder(a: seq<nat>, b: seq<nat>, c: seq<nat>, d: seq<nat>)
    requires Subsequence(a, b) && (c == [] || c == d)
    ensures Subsequence(a + c, b + d)
  {
    SubsequenceSelf(d);
    SubsequenceConcat(a, b, c, d);
  }

  lemma {:induction false} WithinRadiusInOrder(q: Question, bs: seq<nat>)
    ensures Subsequence(q.WithinRadius(bs), bs)
  {
    if bs != [] {
      var b', x := bs[..|bs| - 1], bs[|bs| - 1];
      WithinRadiusInOrder(q, b');
      assert bs == b' + [x];
      SubsequenceGrows(q.WithinRadius(b'), b', q.WithinRadius(bs), bs, x);
    }
  }

  lemma {:induction false} HeldInOrder(q: Question, cs: seq<nat>)
    requires q.HasAll(cs)
    ensures Subsequence(q.Held(cs), cs)
  {
    if cs != [] {
      var c', x := cs[..|cs| - 1], cs[|cs| - 1];
      HeldInOrder(q, c');
      assert cs == c' + [x];
      SubsequenceGrows(q.Held(c'), c', q.Held(cs), cs, x);
    }
  }

  lemma CollectedInOrder(q: Question, cs: seq<nat>)
    requires q.HasAll(cs)
    ensures Subsequence(q.Collected(cs), cs)
  {
    HeldInOrder(q, cs);
    if q.legacy {
      WithinRadiusInOrder(q, q.V1List(cs));
      SubsequenceTransitive(q.Collected(cs), q.V1List(cs), cs);
    }
  }

  // The collector takes the candidate at position i, and keeps it.
  predicate Takes(q: Question, cs: seq<nat>, i: nat)
    requires q.HasAll(cs) && i < |cs|
  {
    if q.legacy then q.V1Selects(cs, i) && q.InRadius(cs[i]) else q.V2Selects(cs, i)
  }

  lemma {:induction false} CollectedIff(q: Question, cs: seq<nat>, x: nat)
    requires q.HasAll(cs)
    ensures x in q.Collected(cs) <==> exists i :: 0 <= i < |cs| && cs[i] == x && Takes(q, cs, i)
  {
    if cs != [] {
      var n := |cs| - 1;
      CollectedIff(q, cs[..n], x);
      CollectedStep(q, cs);
      forall i | 0 <= i < n ensures Takes(q, cs[..n], i) == Takes(q, cs, i) {
        assert cs[..n][..i] == cs[..i];
      }
      if x in q.Collected(cs[..n]) {
        var i :| 0 <= i < n && cs[..n][i] == x && Takes(q, cs[..n], i);
        assert Takes(q, cs, i);
      }
    }
  }

  lemma CollectedStep(q: Question, cs: seq<nat>)
    requires q.HasAll(cs) && cs != []
    ensures var n := |cs| - 1;
            q.Collected(cs) == q.Collected(cs[..n]) + if Takes(q, cs, n) then [cs[n]] else []
  {
    var n := |cs| - 1;
    if q.legacy {
      var v := q.V1List(cs[..n]);
      assert q.V1List(cs) == if q.V1Selects(cs, n) then v + [cs[n]] else v;
      q.WithinRadiusAppend(v, cs[n]);
    }
  }

  // ---------------------------------------------------------------------------
  // The two collectors, each fed the same bands until it has enough itself

  function Fed(q: Question, legacy: bool, bands: seq<seq<nat>>): (cs: seq<nat>)
    requires q.HasAll([]) && Askable(q, bands)
    ensures q.HasAll(cs)
  {
    Run(q.(legacy := legacy), [], bands)
  }

  function Handed(q: Question, legacy: bool, bands: seq<seq<nat>>): (bs: seq<nat>)
    requires q.HasAll([]) && Askable(q, bands)
  {
    q.(legacy := legacy).Collected(Fed(q, legacy, bands))
  }

  // All that the legacy collector hands over the corrected one has examined and taken.
  ghost predicate NothingMissed(q: Question, bands: seq<seq<nat>>)
    requires q.HasAll([]) && Askable(q, bands)
  {
    var h1, h2 := Fed(q, true, bands), Fed(q, false, bands);
    forall k {:trigger h1[k]} :: 0 <= k < |h1| && Takes(q.(legacy := true), h1, k) ==>
      exists l :: 0 <= l < |h2| && h2[l] == h1[k] && Takes(q.(legacy := false), h2, l)
  }

  /** Each stopping when it has enough, in a band or altogether, the legacy collector's buddies are a subsequence of the
      corrected one's exactly if it takes nothing the corrected one stopped before or had no allowance left for. */
  lemma StoppedV1SubsequenceIff(q: Question, bands: seq<seq<nat>>)
    requires q.HasAll([]) && Askable(q, bands) && Distinct(Flatten(bands))
    ensures Subsequence(Handed(q, true, bands), Handed(q, false, bands)) <==> NothingMissed(q, bands)
  {
    var q1, q2, h1, h2 := q.(legacy := true), q.(legacy := false), Fed(q, true, bands), Fed(q, false, bands);
    var a, b := q1.Collected(h1), q2.Collected(h2);
    HandedInOrder(q, true, bands);
    HandedInOrder(q, false, bands);
    if Subsequence(a, b) {
      SubsequenceElements(a, b);
      forall k | 0 <= k < |h1| && Takes(q1, h1, k)
        ensures exists l :: 0 <= l < |h2| && h2[l] == h1[k] && Takes(q2, h2, l)
      {
        CollectedIff(q1, h1, h1[k]);
        CollectedIff(q2, h2, h1[k]);
      }
    }
    if NothingMissed(q, bands) {
      forall x | x in a ensures x in b {
        CollectedIff(q1, h1, x);
        CollectedIff(q2, h2, x);
      }
      SubsequenceByElements(a, b, Flatten(bands));
    }
  }

  lemma HandedInOrder(q: Question, legacy: bool, bands: seq<seq<nat>>)
    requires q.HasAll([]) && Askable(q, bands)
    ensures Subsequence(Handed(q, legacy, bands), Flatten(bands))
  {
    var q', h := q.(legacy := legacy), Fed(q, legacy, bands);
    RunInOrder(q', [], bands);
    assert [] + Flatten(bands) == Flatten(bands);
    CollectedInOrder(q', h);
    SubsequenceTransitive(q'.Collected(h), h, Flatten(bands));
  }

  // In a single band each examines an initial stretch of cs.
  lemma FedOneBand(q: Question, legacy: bool, cs: seq<nat>, bands: seq<seq<nat>>) returns (n: nat)
    requires q.HasAll(cs) && bands == [cs]
    ensures Askable(q, bands) && n <= |cs| && Fed(q, legacy, bands) == cs[..n]
  {
    var q' := q.(legacy := legacy);
    n := FeedPrefix(q', [], |q'.Held([])|, cs);
    var h := Feed(q', [], |q'.Held([])|, cs);
    assert h == cs[..n];
    assert bands[1..] == [];
    RunNone(q', h, bands[1..]);
  }

  lemma RunNone(q: Question, h: seq<nat>, bands: seq<seq<nat>>)
    requires q.HasAll(h) && bands == []
    ensures Askable(q, bands) && Run(q, h, bands) == h
  {
  }

  // What a collector takes of the first n candidates
  lemma TakesOfPrefix(q: Question, cs: seq<nat>, n: nat, k: nat)
    requires q.HasAll(cs) && k < n <= |cs|
    ensures Takes(q, cs[..n], k) == Takes(q, cs, k)
  {
    assert cs[..n][..k] == cs[..k];
  }

  // What the legacy collector takes the corrected one takes too, having seen the same.
  lemma TakenByBoth(q: Question, cs: seq<nat>, k: nat)
    requires q.HasAll(cs) && k < |cs| && Takes(q.(legacy := true), cs, k)
    ensures Takes(q.(legacy := false), cs, k)
  {
    q.GenuineAreFewer(cs[..k]);
    SameLists(q, q.(legacy := true), cs[..k]);
    SameLists(q, q.(legacy := false), cs[..k]);
  }

  // Before the k-th candidate of a single band the collector still counts less than either limit.
  ghost predicate RoomBefore(q: Question, cs: seq<nat>, k: nat)
    requires q.HasAll(cs) && k <= |cs|
  {
    Room(q, cs[..k], 0)
  }

  // For each candidate that the legacy collector would take while it has room the corrected one would have room, too.
  ghost predicate KeepsPace(q: Question, cs: seq<nat>)
    requires q.HasAll(cs)
  {
    forall k :: 0 <= k < |cs| && Takes(q.(legacy := true), cs, k) ==>
      (RoomBefore(q.(legacy := true), cs, k) ==> RoomBefore(q.(legacy := false), cs, k))
  }

  /** In a single band this can be read off the candidates. */
  lemma StoppedInOneBandIff(q: Question, cs: seq<nat>, bands: seq<seq<nat>>)
    requires q.HasAll(cs) && Distinct(cs) && bands == [cs] && q.limits.maxTotal >= 1 && q.limits.maxFromSingleBand >= 1
    ensures Askable(q, bands)
    ensures Subsequence(Handed(q, true, bands), Handed(q, false, bands)) <==> KeepsPace(q, cs)
  {
    var n1 := FedOneBand(q, true, cs, bands);
    var n2 := FedOneBand(q, false, cs, bands);
    assert Flatten(bands) == cs by { assert bands[1..] == [] && cs + [] == cs; }
    StoppedV1SubsequenceIff(q, bands);
    OneBandMissed(q, cs, bands, n1, n2);
    ExaminedIff(q.(legacy := true), cs, bands, n1);
    ExaminedIff(q.(legacy := false), cs, bands, n2);
    PaceIff(q, cs, n1, n2);
  }

  lemma PaceIff(q: Question, cs: seq<nat>, n1: nat, n2: nat)
    requires q.HasAll(cs) && n1 <= |cs|
    requires ExaminedBefore(q.(legacy := true), cs, n1) && ExaminedBefore(q.(legacy := false), cs, n2)
    ensures KeepsPace(q, cs) <==> forall k :: n2 <= k < n1 ==> !Takes(q.(legacy := true), cs, k)
  {
    var q1, q2 := q.(legacy := true), q.(legacy := false);
    forall k | 0 <= k < |cs| ensures (RoomBefore(q1, cs, k) ==> RoomBefore(q2, cs, k)) <==> !(n2 <= k < n1) {
      assert RoomBefore(q1, cs, k) <==> k < n1;
      assert RoomBefore(q2, cs, k) <==> k < n2;
    }
  }

  ghost predicate ExaminedBefore(q: Question, cs: seq<nat>, n: nat)
    requires q.HasAll(cs)
  {
    forall k :: 0 <= k < |cs| ==> (RoomBefore(q, cs, k) <==> k < n)
  }

  lemma OneBandMissed(q: Question, cs: seq<nat>, bands: seq<seq<nat>>, n1: nat, n2: nat)
    requires q.HasAll(cs) && Distinct(cs) && Askable(q, bands) && n1 <= |cs| && n2 <= |cs|
    requires Fed(q, true, bands) == cs[..n1] && Fed(q, false, bands) == cs[..n2]
    ensures NothingMissed(q, bands) <==> forall k :: n2 <= k < n1 ==> !Takes(q.(legacy := true), cs, k)
  {
    var q1, q2, h1, h2 := q.(legacy := true), q.(legacy := false), cs[..n1], cs[..n2];
    if NothingMissed(q, bands) {
      forall k | n2 <= k < n1 ensures !Takes(q1, cs, k) {
        TakesOfPrefix(q1, cs, n1, k);
        assert h1[k] == cs[k];
      }
    }
    if forall k :: n2 <= k < n1 ==> !Takes(q1, cs, k) {
      forall k | 0 <= k < n1 && Takes(q1, h1, k) ensures exists l :: 0 <= l < n2 && h2[l] == h1[k] && Takes(q2, h2, l) {
        TakesOfPrefix(q1, cs, n1, k);
        TakenByBoth(q, cs, k);
        TakesOfPrefix(q2, cs, n2, k);
        assert h2[k] == h1[k];
      }
    }
  }

  // A collector examines the candidates it still has room for.
  lemma ExaminedIff(q: Question, cs: seq<nat>, bands: seq<seq<nat>>, n: nat)
    requires q.HasAll(cs) && bands == [cs] && q.limits.maxTotal >= 1 && q.limits.maxFromSingleBand >= 1
    requires Askable(q, bands) && n <= |cs| && Fed(q, q.legacy, bands) == cs[..n]
    ensures ExaminedBefore(q, cs, n)
  {
    assert q.(legacy := q.legacy) == q;
    var h := Feed(q, [], 0, cs);
    RunNone(q, h, bands[1..]);
    assert [] + cs == cs && [] + cs[..n] == cs[..n];
    FeedFacts(q, [], 0, cs);
    forall k | 0 <= k < |cs| ensures RoomBefore(q, cs, k) <==> k < n {
      if k < n {
        assert [] + cs[..k] == cs[..k];
        RoomInside(q, [], 0, cs, n, k);
      } else {
        HeldMonotone(q, cs, n, k);
      }
    }
  }

  lemma FirstOfStretch(h: seq<nat>, cs: seq<nat>, m: nat)
    requires cs != [] && m < |cs|
    ensures h + cs[..m + 1] == h + [cs[0]] + cs[1..][..m]
  {
  }

  lemma {:induction false} RoomInside(q: Question, h: seq<nat>, start: nat, cs: seq<nat>, n: nat, k: nat)
    requires q.HasAll(h) && q.HasAll(cs) && Room(q, h, start) && k < n <= |cs|
    requires Feed(q, h, start, cs) == h + cs[..n]
    ensures q.HasAll(h + cs[..k]) && Room(q, h + cs[..k], start)
    decreases |cs|
  {
    if k == 0 {
      assert h + cs[..0] == h;
    } else {
      var h1 := h + [cs[0]];
      HeldGrows(q, h, cs[0]);
      FirstOfStretch(h, cs, n - 1);
      FirstOfStretch(h, cs, k - 1);
      assert |h1| < |h + cs[..n]|;
      assert !Full(q, h1, start);
      RoomInside(q, h1, start, cs[1..], n - 1, k - 1);
    }
  }

  lemma {:induction false} HeldMonotone(q: Question, cs: seq<nat>, k: nat, l: nat)
    requires q.HasAll(cs) && k <= l <= |cs|
    ensures |q.Held(cs[..k])| <= |q.Held(cs[..l])|
  {
    if k < l {
      HeldMonotone(q, cs, k, l - 1);
      assert cs[..l] == cs[..l - 1] + [cs[l - 1]];
      HeldGrows(q, cs[..l - 1], cs[l - 1]);
    }
  }

  // The lists do not depend on which collector is asked.
  lemma {:induction false} SameLists(q: Question, q': Question, cs: seq<nat>)
    requires q' == q.(legacy := q'.legacy) && q.HasAll(cs)
    ensures q'.HasAll(cs) && q'.SameCount(cs) == q.SameCount(cs) && q'.GenuineSameCount(cs) == q.GenuineSameCount(cs)
    ensures q'.V1List(cs) == q.V1List(cs) && q'.V2List(cs) == q.V2List(cs)
  {
    if cs != [] { SameLists(q, q', cs[..|cs| - 1]); }
  }

  lemma {:induction false} SameRadius(q: Question, q': Question, bs: seq<nat>)
    requires q' == q.(legacy := q'.legacy)
    ensures q'.WithinRadius(bs) == q.WithinRadius(bs)
  {
    if bs != [] { SameRadius(q, q', bs[..|bs| - 1]); }
  }
}
