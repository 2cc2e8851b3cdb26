/** What either collector has collected when the search has fed it all bands, or as much as it takes. */
module RunFacts {
  import opened BuddySweep
  import opened BuddyCollectors
  import opened BuddyFeed
  import opened Distinctness

  // What the collector counts while it examines d comes from d.
  lemma {:induction false} HeldAdds(q: Question, h: seq<nat>, d: seq<nat>) returns (e: seq<nat>)
    requires q.HasAll(h) && q.HasAll(h + d)
    ensures q.Held(h + d) == q.Held(h) + e && forall x :: x in e ==> x in d
    decreases |d|
  {
    if d == [] {
      assert h + d == h;
      e := [];
    } else {
      var d', x := d[..|d| - 1], d[|d| - 1];
      assert h + d == h + d' + [x];
      HasPrefix(q, h + d', [x]);
      var e' := HeldAdds(q, h, d');
      var one := HeldOne(q, h + d', x);
      e := e' + one;
      assert q.Held(h) + e == q.Held(h) + e' + one;
    }
  }

  lemma HasPrefix(q: Question, s: seq<nat>, t: seq<nat>)
    requires q.HasAll(s + t)
    ensures q.HasAll(s)
  {
    forall k | 0 <= k < |s| ensures q.geometry.Has(s[k]) { assert s[k] == (s + t)[k]; }
  }

  lemma HeldOne(q: Question, h: seq<nat>, x: nat) returns (e: seq<nat>)
    requires q.HasAll(h) && q.HasAll(h + [x])
    ensures q.Held(h + [x]) == q.Held(h) + e && (e == [] || e == [x])
  {
    assert (h + [x])[..|h|] == h;
    e := if q.Held(h + [x]) == q.Held(h) then [] else [x];
  }

  lemma FeedAdds(q: Question, h: seq<nat>, start: nat, cs: seq<nat>) returns (e: seq<nat>)
    requires q.HasAll(h) && q.HasAll(cs)
    ensures q.Held(Feed(q, h, start, cs)) == q.Held(h) + e && forall x :: x in e ==> x in cs
  {
    var n := FeedPrefix(q, h, start, cs);
    e := HeldAdds(q, h, cs[..n]);
  }

  ghost predicate InSome(bands: seq<seq<nat>>, x: nat) {
    exists b :: 0 <= b < |bands| && x in bands[b]
  }

  lemma InLaterBand(bands: seq<seq<nat>>, x: nat)
    requires bands != [] && InSome(bands[1..], x)
    ensures exists b :: 1 <= b < |bands| && x in bands[b]
  {
    var b :| 0 <= b < |bands[1..]| && x in bands[1..][b];
    assert x in bands[b + 1];
  }

  lemma {:induction false} RunAdds(q: Question, h: seq<nat>, bands: seq<seq<nat>>) returns (e: seq<nat>)
    requires q.HasAll(h) && Askable(q, bands)
    ensures q.Held(Run(q, h, bands)) == q.Held(h) + e && forall x :: x in e ==> InSome(bands, x)
    decreases |bands|
  {
    if bands == [] {
      e := [];
    } else {
      var h1 := Feed(q, h, |q.Held(h)|, bands[0]);
      RunUnfolds(q, h, bands, h1);
      var e2 := [];
      var e1 := FeedAdds(q, h, |q.Held(h)|, bands[0]);
      if |q.Held(h1)| != q.limits.maxTotal {
        e2 := RunAdds(q, h1, bands[1..]);
      }
      e := e1 + e2;
      Joined(q.Held(h), e1, e2, q.Held(h1), q.Held(Run(q, h, bands)), e);
      AddedByBands(bands, e1, e2);
    }
  }

  lemma RunUnfolds(q: Question, h: seq<nat>, bands: seq<seq<nat>>, h1: seq<nat>)
    requires q.HasAll(h) && Askable(q, bands) && bands != [] && h1 == Feed(q, h, |q.Held(h)|, bands[0])
    ensures Run(q, h, bands) == if |q.Held(h1)| == q.limits.maxTotal then h1 else Run(q, h1, bands[1..])
  {
  }

  lemma Joined(a: seq<nat>, e1: seq<nat>, e2: seq<nat>, b: seq<nat>, c: seq<nat>, e: seq<nat>)
    requires b == a + e1 && c == b + e2 && e == e1 + e2
    ensures c == a + e
  {
  }

  lemma AddedByBands(bands: seq<seq<nat>>, e1: seq<nat>, e2: seq<nat>)
    requires bands != [] && (forall x :: x in e1 ==> x in bands[0]) && forall x :: x in e2 ==> InSome(bands[1..], x)
    ensures forall x :: x in e1 + e2 ==> InSome(bands, x)
  {
    forall x | x in e1 + e2 ensures InSome(bands, x) {
      if x in e2 { InLaterBand(bands, x); }
    }
  }

  /** The collector never counts more than its total. */
  lemma {:induction false} RunTotal(q: Question, h: seq<nat>, bands: seq<seq<nat>>)
    requires q.HasAll(h) && Askable(q, bands) && |q.Held(h)| < q.limits.maxTotal && q.limits.maxFromSingleBand >= 1
    ensures q.Held(h) <= q.Held(Run(q, h, bands)) && |q.Held(Run(q, h, bands))| <= q.limits.maxTotal
    decreases |bands|
  {
    if bands != [] {
      var h1 := Feed(q, h, |q.Held(h)|, bands[0]);
      FeedFacts(q, h, |q.Held(h)|, bands[0]);
      if |q.Held(h1)| < q.limits.maxTotal { RunTotal(q, h1, bands[1..]); }
    }
  }

  // ---------------------------------------------------------------------------
  // Counting those of a band

  function Among(bs: seq<nat>, cs: seq<nat>): (n: nat)
    ensures n <= |bs|
  {
    if bs == [] then 0 else Among(bs[..|bs| - 1], cs) + if bs[|bs| - 1] in cs then 1 else 0
  }

  lemma {:induction false} AmongConcat(a: seq<nat>, b: seq<nat>, cs: seq<nat>)
    ensures Among(a + b, cs) == Among(a, cs) + Among(b, cs)
  {
    if b == [] {
      assert a + b == a;
    } else {
      AmongConcat(a, b[..|b| - 1], cs);
      assert (a + b)[..|a + b| - 1] == a + b[..|b| - 1];
    }
  }

  lemma {:induction false} AmongAll(bs: seq<nat>, cs: seq<nat>)
    requires forall x :: x in bs ==> x in cs
    ensures Among(bs, cs) == |bs|
  {
    if bs != [] {
      var b', x := bs[..|bs| - 1], bs[|bs| - 1];
      assert x in bs;
      AmongAll(b', cs);
    }
  }

  lemma {:induction false} AmongNone(bs: seq<nat>, cs: seq<nat>)
    requires forall x :: x in bs ==> x !in cs
    ensures Among(bs, cs) == 0
  {
    if bs != [] {
      var b', x := bs[..|bs| - 1], bs[|bs| - 1];
      assert x in bs;
      AmongNone(b', cs);
    }
  }

  lemma {:induction false} AmongSubsequence(a: seq<nat>, b: seq<nat>, cs: seq<nat>)
    requires Subsequence(a, b)
    ensures Among(a, cs) <= Among(b, cs)
  {
    if a != [] {
      var b' := b[..|b| - 1];
      if Subsequence(a, b') {
        AmongSubsequence(a, b', cs);
      } else {
        AmongSubsequence(a[..|a| - 1], b', cs);
      }
    }
  }

  ghost predicate Disjoint(bands: seq<seq<nat>>) {
    forall b, c, x: nat :: 0 <= b < c < |bands| && x in bands[b] ==> x !in bands[c]
  }

  /** The collector never counts more than it may from one band. */
  lemma {:induction false} RunBandLimit(q: Question, h: seq<nat>, bands: seq<seq<nat>>, b: nat)
    requires q.HasAll(h) && Askable(q, bands) && |q.Held(h)| < q.limits.maxTotal && q.limits.maxFromSingleBand >= 1
    requires Disjoint(bands) && b < |bands| && forall x :: x in h ==> x !in bands[b]
    ensures Among(q.Held(Run(q, h, bands)), bands[b]) <= q.limits.maxFromSingleBand
    decreases |bands|
  {
    var h1 := Feed(q, h, |q.Held(h)|, bands[0]);
    FeedFacts(q, h, |q.Held(h)|, bands[0]);
    var n := FeedPrefix(q, h, |q.Held(h)|, bands[0]);
    if b > 0 && |q.Held(h1)| != q.limits.maxTotal {
      forall x | x in h1 ensures x !in bands[1..][b - 1] { assert x in h || x in bands[0]; }
      DisjointRest(bands);
      RunBandLimit(q, h1, bands[1..], b - 1);
    } else {
      FirstBandLimit(q, h, bands, b);
      if |q.Held(h1)| != q.limits.maxTotal { LaterBandsAddNone(q, h1, bands); }
    }
  }

  // After the first band the limit holds for every band of which nothing had been examined before.
  lemma FirstBandLimit(q: Question, h: seq<nat>, bands: seq<seq<nat>>, b: nat)
    requires q.HasAll(h) && Askable(q, bands) && |q.Held(h)| < q.limits.maxTotal && q.limits.maxFromSingleBand >= 1
    requires b < |bands| && forall x :: x in h ==> x !in bands[b]
    ensures Among(q.Held(Feed(q, h, |q.Held(h)|, bands[0])), bands[b]) <= q.limits.maxFromSingleBand
  {
    FeedFacts(q, h, |q.Held(h)|, bands[0]);
    HeldInOrder(q, h);
    SubsequenceElements(q.Held(h), h);
    var e := FeedAdds(q, h, |q.Held(h)|, bands[0]);
    AmongNone(q.Held(h), bands[b]);
    AmongConcat(q.Held(h), e, bands[b]);
  }

  lemma DisjointRest(bands: seq<seq<nat>>)
    requires Disjoint(bands) && bands != []
    ensures Disjoint(bands[1..])
  {
    forall b, c, x: nat | 0 <= b < c < |bands[1..]| && x in bands[1..][b] ensures x !in bands[1..][c] {
      assert x in bands[b + 1];
    }
  }

  lemma LaterBandsAddNone(q: Question, h: seq<nat>, bands: seq<seq<nat>>)
    requires q.HasAll(h) && Askable(q, bands) && bands != [] && Disjoint(bands)
    ensures Among(q.Held(Run(q, h, bands[1..])), bands[0]) == Among(q.Held(h), bands[0])
  {
    var e := RunAdds(q, h, bands[1..]);
    forall x | x in e ensures x !in bands[0] { InLaterBand(bands, x); }
    AmongNone(e, bands[0]);
    AmongConcat(q.Held(h), e, bands[0]);
  }

  // ---------------------------------------------------------------------------
  // What can cost an eligible candidate its place

  // The allowance for the station of observation A is used up, by genuine candidates or, for V1, by any.
  predicate AllowanceUsed(q: Question, cs: seq<nat>)
    requires q.HasAll(cs) && q.HasAll(q.V2List(cs))
  {
    (if q.legacy then q.SameCount(cs) else q.SameCount(q.V2List(cs))) >= q.limits.maxWithSameStationId
  }

  // A genuine candidate that has been examined is collected unless it found the allowance used up.
  lemma {:induction false} ExaminedTaken(q: Question, cs: seq<nat>, x: nat)
    requires q.HasAll(cs) && x in cs && q.Genuine(x) && q.limits.maxWithSameStationId >= 0
    ensures q.HasAll(q.V2List(cs))
    ensures x in q.Collected(cs) || (q.SameStation(x) && AllowanceUsed(q, cs))
  {
    q.V2SameCount(cs);
    var i :| 0 <= i < |cs| && cs[i] == x;
    if Takes(q, cs, i) {
      CollectedIff(q, cs, x);
    } else {
      CountsGrow(q, cs, i);
      q.V2SameCount(cs[..i]);
    }
  }

  lemma {:induction false} CountsGrow(q: Question, cs: seq<nat>, n: nat)
    requires q.HasAll(cs) && n <= |cs|
    ensures q.SameCount(cs[..n]) <= q.SameCount(cs) && q.GenuineSameCount(cs[..n]) <= q.GenuineSameCount(cs)
  {
    if n < |cs| {
      var m := |cs| - 1;
      CountsGrow(q, cs[..m], n);
      assert cs[..m][..n] == cs[..n];
    } else {
      assert cs[..n] == cs;
    }
  }

  // Later candidates take nothing away.
  lemma {:induction false} LaterKeeps(q: Question, cs: seq<nat>, n: nat)
    requires q.HasAll(cs) && n <= |cs| && q.limits.maxWithSameStationId >= 0
    ensures forall x :: x in q.Collected(cs[..n]) ==> x in q.Collected(cs)
    ensures q.HasAll(q.V2List(cs)) && q.HasAll(q.V2List(cs[..n]))
    ensures AllowanceUsed(q, cs[..n]) ==> AllowanceUsed(q, cs)
  {
    forall x | x in q.Collected(cs[..n]) ensures x in q.Collected(cs) { CollectedKept(q, cs, n, x); }
    AllowanceKept(q, cs, n);
  }

  lemma CollectedKept(q: Question, cs: seq<nat>, n: nat, x: nat)
    requires q.HasAll(cs) && n <= |cs| && x in q.Collected(cs[..n])
    ensures x in q.Collected(cs)
  {
    CollectedIff(q, cs[..n], x);
    var i :| 0 <= i < n && cs[..n][i] == x && Takes(q, cs[..n], i);
    TakesOfPrefix(q, cs, n, i);
    CollectedIff(q, cs, x);
  }

  lemma AllowanceKept(q: Question, cs: seq<nat>, n: nat)
    requires q.HasAll(cs) && n <= |cs| && q.limits.maxWithSameStationId >= 0
    ensures q.HasAll(q.V2List(cs)) && q.HasAll(q.V2List(cs[..n]))
    ensures AllowanceUsed(q, cs[..n]) ==> AllowanceUsed(q, cs)
  {
    CountsGrow(q, cs, n);
    q.V2SameCount(cs);
    q.V2SameCount(cs[..n]);
  }

  lemma {:induction false} RunPrefix(q: Question, h: seq<nat>, bands: seq<seq<nat>>)
    requires q.HasAll(h) && Askable(q, bands)
    ensures h <= Run(q, h, bands)
    decreases |bands|
  {
    if bands != [] {
      var h1 := Feed(q, h, |q.Held(h)|, bands[0]);
      var n := FeedPrefix(q, h, |q.Held(h)|, bands[0]);
      if |q.Held(h1)| != q.limits.maxTotal { RunPrefix(q, h1, bands[1..]); }
    }
  }

  // Why x of band b is not collected: the total, the band's limit, or the allowance for its station
  ghost predicate Excused(q: Question, cs: seq<nat>, band: seq<nat>, x: nat)
    requires q.HasAll(cs) && q.HasAll(q.V2List(cs)) && q.Has(x)
  {
    || |q.Held(cs)| == q.limits.maxTotal
    || Among(q.Held(cs), band) >= q.limits.maxFromSingleBand
    || (q.SameStation(x) && AllowanceUsed(q, cs))
  }

  ghost predicate Served(q: Question, cs: seq<nat>, band: seq<nat>, x: nat) {
    q.HasAll(cs) && q.HasAll(q.V2List(cs)) && q.Has(x) && (x in q.Collected(cs) || Excused(q, cs, band, x))
  }

  /** Every genuine candidate is collected, unless the total, the limit of its band or the allowance for its station
      was used up. */
  lemma {:induction false} RunComplete(q: Question, h: seq<nat>, bands: seq<seq<nat>>, b: nat, x: nat)
    requires q.HasAll(h) && Askable(q, bands) && |q.Held(h)| < q.limits.maxTotal && q.limits.maxFromSingleBand >= 1
    requires q.limits.maxWithSameStationId >= 0 && b < |bands| && x in bands[b] && q.Genuine(x)
    ensures Served(q, Run(q, h, bands), bands[b], x)
    decreases |bands|, 1
  {
    var h1, r := Feed(q, h, |q.Held(h)|, bands[0]), Run(q, h, bands);
    q.V2SameCount(r);
    RunUnfolds(q, h, bands, h1);
    FeedFacts(q, h, |q.Held(h)|, bands[0]);
    if |q.Held(h1)| == q.limits.maxTotal {
    } else if b == 0 {
      RunPrefix(q, h1, bands[1..]);
      FirstBandComplete(q, h, bands[0], h1, r, x);
    } else {
      RestComplete(q, h1, bands, b, x);
    }
  }

  lemma {:induction false} RestComplete(q: Question, h1: seq<nat>, bands: seq<seq<nat>>, b: nat, x: nat)
    requires q.HasAll(h1) && Askable(q, bands) && |q.Held(h1)| < q.limits.maxTotal && q.limits.maxFromSingleBand >= 1
    requires q.limits.maxWithSameStationId >= 0 && 1 <= b < |bands| && x in bands[b] && q.Genuine(x)
    ensures Served(q, Run(q, h1, bands[1..]), bands[b], x)
    decreases |bands|, 0
  {
    LaterBand(bands, b);
    RunComplete(q, h1, bands[1..], b - 1, x);
  }

  lemma LaterBand(bands: seq<seq<nat>>, b: nat)
    requires 1 <= b < |bands|
    ensures bands[1..][b - 1] == bands[b]
  {
  }

  lemma FirstBandComplete(q: Question, h: seq<nat>, band: seq<nat>, h1: seq<nat>, r: seq<nat>, x: nat)
    requires q.HasAll(h) && q.HasAll(band) && q.HasAll(r) && q.HasAll(q.V2List(r)) && q.limits.maxWithSameStationId >= 0
    requires h1 == Feed(q, h, |q.Held(h)|, band) && h1 <= r && x in band && q.Genuine(x)
    requires h1 == h + band || Full(q, h1, |q.Held(h)|)
    requires |q.Held(h1)| < q.limits.maxTotal
    ensures Served(q, r, band, x)
  {
    if x in h1 {
      ExaminedTaken(q, h1, x);
      assert r[..|h1|] == h1;
      LaterKeeps(q, r, |h1|);
    } else {
      var e := FeedAdds(q, h, |q.Held(h)|, band);
      AmongAll(e, band);
      AmongConcat(q.Held(h), e, band);
      var d := r[|h1|..];
      assert r == h1 + d;
      var e' := HeldAdds(q, h1, d);
      AmongConcat(q.Held(h1), e', band);
    }
  }
}
