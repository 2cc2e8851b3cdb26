/**
 The history check: observations flagged in a wide window are found again in the assimilation window by
 time, position and station. A differentiator tells identical observations apart, so that the
 matching is an intersection of multisets.
 */
module HistoryCheck {
  import opened Missing
  import opened Sorting
  import opened DistinctInts

  // Time stamp, position and station; identical observations share it
  datatype Key<T> = Key(time: int, lat: real, lon: real, station: T)

  // ---------------------------------------------------------------------------
  // Counting

  // How many of the first n keys are selected and equal to k
  function Count<K(==)>(keys: seq<K>, selected: seq<bool>, n: nat, k: K): (c: nat)
    requires n <= |keys| == |selected|
  {
    if n == 0 then 0 else Count(keys, selected, n - 1, k) + (if selected[n - 1] && keys[n - 1] == k then 1 else 0)
  }

  lemma {:induction false} CountMonotone<K>(keys: seq<K>, selected: seq<bool>, m: nat, n: nat, k: K)
    requires m <= n <= |keys| == |selected|
    ensures Count(keys, selected, m, k) <= Count(keys, selected, n, k)
  {
    if m < n { CountMonotone(keys, selected, m, n - 1, k); }
  }

  // Counting keys is counting labels when the two agree on what equals the one counted.
  lemma {:induction false} CountRename<K, L>(keys: seq<K>, labels: seq<L>, selected: seq<bool>, n: nat, k: K, l: L)
    requires n <= |keys| == |labels| == |selected|
    requires forall j :: 0 <= j < n ==> (keys[j] == k <==> labels[j] == l)
    ensures Count(keys, selected, n, k) == Count(labels, selected, n, l)
  {
    if n > 0 { CountRename(keys, labels, selected, n - 1, k, l); }
  }

  // ---------------------------------------------------------------------------
  // Matching

  // Identifiers (key, differentiator) of the flagged observations of the wide window: the differentiator counts
  // up from 0 until the identifier is new.
  method CollectFlagged<K(==, !new)>(keys: seq<K>, flagged: seq<bool>) returns (ids: set<(K, nat)>)
    requires |keys| == |flagged|
    ensures forall k, d: nat :: (k, d) in ids <==> d < Count(keys, flagged, |keys|, k)
  {
    ids := {};
    for i := 0 to |keys|
      invariant forall k, d: nat :: (k, d) in ids <==> d < Count(keys, flagged, i, k)
    {
      if flagged[i] {
        var d: nat := 0;
        while (keys[i], d) in ids
          invariant d <= Count(keys, flagged, i, keys[i])
          decreases Count(keys, flagged, i, keys[i]) - d
        {
          d := d + 1;
        }
        ids := ids + {(keys[i], d)};
      }
    }
  }

  // m maps identifiers to observations: (k, d) to the applied observation with key k that has d such before it.
  ghost predicate Indexes<K(!new)>(keys: seq<K>, apply: seq<bool>, n: nat, m: map<(K, nat), nat>)
    requires n <= |keys| == |apply|
  {
    && (forall k, d: nat {:trigger (k, d) in m} :: (k, d) in m <==> d < Count(keys, apply, n, k))
    && forall k, d: nat {:trigger m[(k, d)]} :: (k, d) in m ==>
         && m[(k, d)] < n && apply[m[(k, d)]] && keys[m[(k, d)]] == k
         && Count(keys, apply, m[(k, d)], k) == d
  }

  method IndexWindow<K(==, !new)>(keys: seq<K>, apply: seq<bool>) returns (m: map<(K, nat), nat>)
    requires |keys| == |apply|
    ensures Indexes(keys, apply, |keys|, m)
  {
    m := map[];
    for i := 0 to |keys|
      invariant Indexes(keys, apply, i, m)
    {
      if !apply[i] { continue; }
      var d: nat := 0;
      while (keys[i], d) in m
        invariant d <= Count(keys, apply, i, keys[i])
        decreases Count(keys, apply, i, keys[i]) - d
      {
        d := d + 1;
      }
      m := m[(keys[i], d) := i];
    }
  }

  // Flags the applied observations whose identifier is among those given.
  method FlagMatches<K(==, !new)>(keys: seq<K>, apply: seq<bool>, ids: set<(K, nat)>, m: map<(K, nat), nat>)
    returns (toFlag: seq<bool>)
    requires |keys| == |apply| && Indexes(keys, apply, |keys|, m)
    ensures |toFlag| == |keys|
    ensures forall i {:trigger toFlag[i]} :: 0 <= i < |keys| ==>
              (toFlag[i] <==> apply[i] && (keys[i], Count(keys, apply, i, keys[i])) in ids)
  {
    toFlag := seq(|keys|, _ => false);
    var rest := ids;
    while rest != {}
      invariant rest <= ids && |toFlag| == |keys|
      invariant forall i {:trigger toFlag[i]} :: 0 <= i < |keys| ==>
                  (toFlag[i] <==> apply[i] && (keys[i], Count(keys, apply, i, keys[i])) in ids - rest)
      decreases |rest|
    {
      var id :| id in rest;
      rest := rest - {id};
      if id in m {
        assert (id.0, id.1) == id;
        var locToFlag := m[id];
        if apply[locToFlag] { toFlag := toFlag[locToFlag := true]; }
      }
      forall i | 0 <= i < |keys| && apply[i] && (keys[i], Count(keys, apply, i, keys[i])) == id
        ensures id in m && m[id] == i
      {
        Identified(keys, apply, m, i);
      }
    }
  }

  // Every applied observation is the one its own identifier maps to.
  lemma Identified<K(!new)>(keys: seq<K>, apply: seq<bool>, m: map<(K, nat), nat>, i: nat)
    requires |keys| == |apply| && i < |keys| && apply[i] && Indexes(keys, apply, |keys|, m)
    ensures (keys[i], Count(keys, apply, i, keys[i])) in m && m[(keys[i], Count(keys, apply, i, keys[i]))] == i
  {
    var k, d := keys[i], Count(keys, apply, i, keys[i]);
    CountMonotone(keys, apply, i + 1, |keys|, k);
    assert (k, d) in m;
    var j := m[(k, d)];
    if j < i {
      CountMonotone(keys, apply, j + 1, i, k);
    } else if i < j {
      CountMonotone(keys, apply, i + 1, j, k);
    }
  }

  // toFlag selects, for every key, the first applied window observations with that key, as many as there are
  // flagged wide observations with it.
  ghost predicate IsIntersection<K>(wide: seq<K>, flagged: seq<bool>, window: seq<K>, apply: seq<bool>,
                                    toFlag: seq<bool>)
    requires |wide| == |flagged| && |window| == |apply|
  {
    && |toFlag| == |window|
    && forall i {:trigger toFlag[i]} :: 0 <= i < |window| ==>
         (toFlag[i] <==> apply[i] && Count(window, apply, i, window[i]) < Count(wide, flagged, |wide|, window[i]))
  }

  method MatchFlagged<K(==, !new)>(wide: seq<K>, flagged: seq<bool>, window: seq<K>, apply: seq<bool>)
    returns (toFlag: seq<bool>)
    requires |wide| == |flagged| && |window| == |apply|
    ensures IsIntersection(wide, flagged, window, apply, toFlag)
  {
    var ids := CollectFlagged(wide, flagged);
    var m := IndexWindow(window, apply);
    toFlag := FlagMatches(window, apply, ids, m);
  }

  function Min(x: nat, y: nat): (r: nat) { if x <= y then x else y }

  // Selecting the occurrences of k with fewer than m applied ones before them selects min(m, n) of n.
  lemma {:induction false} CountFirst<K>(window: seq<K>, apply: seq<bool>, toFlag: seq<bool>, n: nat, k: K, m: nat)
    requires |window| == |apply| == |toFlag| && n <= |window|
    requires forall i {:trigger toFlag[i]} :: 0 <= i < n && window[i] == k ==>
               (toFlag[i] <==> apply[i] && Count(window, apply, i, k) < m)
    ensures Count(window, toFlag, n, k) == Min(m, Count(window, apply, n, k))
  {
    if n > 0 { CountFirst(window, apply, toFlag, n - 1, k, m); }
  }

  /** The multiset law: with m flagged wide and n applied window observations of a key, min(m, n) are flagged. */
  lemma IntersectionCount<K>(wide: seq<K>, flagged: seq<bool>, window: seq<K>, apply: seq<bool>, toFlag: seq<bool>,
                             k: K)
    requires |wide| == |flagged| && |window| == |apply|
    requires IsIntersection(wide, flagged, window, apply, toFlag)
    ensures Count(window, toFlag, |window|, k)
            == Min(Count(wide, flagged, |wide|, k), Count(window, apply, |window|, k))
  {
    CountFirst(window, apply, toFlag, |window|, k, Count(wide, flagged, |wide|, k));
  }

  /** Within a key, an applied observation is flagged only if all applied ones before it are. */
  lemma IntersectionTakesFirst<K>(wide: seq<K>, flagged: seq<bool>, window: seq<K>, apply: seq<bool>, toFlag: seq<bool>,
                                  i: nat, j: nat)
    requires |wide| == |flagged| && |window| == |apply| && i < j < |window|
    requires IsIntersection(wide, flagged, window, apply, toFlag)
    requires window[i] == window[j] && apply[i] && toFlag[j]
    ensures toFlag[i]
  {
    CountMonotone(window, apply, i, j, window[i]);
  }

  // ---------------------------------------------------------------------------
  // Station identifiers

  const TRACK_FLAG := 21

  // Where station ids come from: no station variable (with or without grouping into records), or a variable of
  // some type
  datatype StationSource<T> =
    | Ungrouped
    | Records(recordNumbers: seq<nat>)
    | Integers(ints: seq<int>)
    | Texts(texts: seq<T>)
    | Unsupported

  datatype Space<T> = Space(times: seq<int>, lats: seq<real>, lons: seq<real>, stations: StationSource<T>) {
    predicate WellSized() {
      && |lats| == |lons| == |times|
      && match stations
         case Records(rs) => |rs| == |times|
         case Integers(ns) => |ns| == |times|
         case Texts(ts) => |ts| == |times|
         case _ => true
    }
  }

  // What identifies a station, before names are numbered
  datatype Label<T> = Number(n: int) | Text(t: T)

  function LabelOf<T>(s: Space<T>, i: nat): (l: Label<T>)
    requires s.WellSized() && i < |s.times| && !s.stations.Unsupported?
  {
    match s.stations
    case Ungrouped => Number(0)
    case Records(rs) => Number(rs[i])
    case Integers(ns) => Number(ns[i])
    case Texts(ts) => Text(ts[i])
  }

  function Labels<T>(s: Space<T>): (keys: seq<Key<Label<T>>>)
    requires s.WellSized() && !s.stations.Unsupported?
    ensures |keys| == |s.times|
    ensures forall i :: 0 <= i < |keys| ==> keys[i] == Key(s.times[i], s.lats[i], s.lons[i], LabelOf(s, i))
  {
    seq(|s.times|, i requires 0 <= i < |s.times| => Key(s.times[i], s.lats[i], s.lons[i], LabelOf(s, i)))
  }

  // The number that stands for a station
  ghost predicate Encodes<T>(stationIdMap: map<T, int>, l: Label<T>, id: int) {
    if l.Number? then id == l.n else l.t in stationIdMap && id == stationIdMap[l.t]
  }

  method GetStationIds<T(==)>(stationIdMap: map<T, int>, s: Space<T>) returns (r: Result<seq<int>>)
    requires s.WellSized()
    ensures r.Err? <==>
            s.stations.Unsupported? || (s.stations.Texts? && exists t :: t in s.stations.texts && t !in stationIdMap)
    ensures r.Ok? ==> |r.value| == |s.times| && forall i :: 0 <= i < |s.times| ==>
              Encodes(stationIdMap, LabelOf(s, i), r.value[i])
  {
    match s.stations
    case Ungrouped => r := Ok(seq(|s.times|, _ => 0));
    case Records(rs) => r := Ok(seq(|rs|, i requires 0 <= i < |rs| => rs[i]));
    case Integers(ns) => r := Ok(ns);
    case Unsupported => r := Err("Only integer and string variables may be used as station IDs");
    case Texts(ts) =>
      var ids := [];
      for i := 0 to |ts|
        invariant |ids| == i
        invariant forall j :: 0 <= j < i ==> ts[j] in stationIdMap && ids[j] == stationIdMap[ts[j]]
      {
        if ts[i] !in stationIdMap { return Err("out of range"); }
        ids := ids + [stationIdMap[ts[i]]];
      }
      r := Ok(ids);
  }

  // A station variable of text type in one space only is an error, unless the wide space has no observations.
  predicate Mismatched<T>(wide: Space<T>, window: Space<T>) {
    || wide.stations.Unsupported? || window.stations.Unsupported?
    || (window.stations.Texts? && !wide.stations.Texts?)
    || (wide.stations.Texts? && !window.stations.Texts? && |wide.stations.texts| > 0)
  }

  function Keys<T>(s: Space<T>, ids: seq<int>): (keys: seq<Key<int>>)
    requires s.WellSized() && |ids| == |s.times|
  {
    seq(|s.times|, i requires 0 <= i < |s.times| => Key(s.times[i], s.lats[i], s.lons[i], ids[i]))
  }

  /** The observations to flag are the multiset intersection by time, position and station name (or number),
      although the matching works on numbered stations. */
  method ApplyFilter<T(==, !new)>(leq: (T, T) -> bool, wide: Space<T>, wideFlags: seq<int>, window: Space<T>,
                                  apply: seq<bool>)
    returns (r: Result<seq<bool>>)
    requires TotalOrder(leq) && wide.WellSized() && window.WellSized()
    requires |wideFlags| == |wide.times| && |apply| == |window.times|
    ensures r.Err? <==> Mismatched(wide, window)
    ensures r.Ok? ==> IsIntersection(Labels(wide), FlaggedBy(wideFlags), Labels(window), apply, r.value)
  {
    var stationIdMap: map<T, int> := map[];
    if window.stations.Texts? {
      if !wide.stations.Texts? { return Err("station ids are not strings"); }
      stationIdMap := NumberValues(leq, wide.stations.texts + window.stations.texts);
    }
    var wideIds := GetStationIds(stationIdMap, wide);
    if wideIds.Err? { return Err(wideIds.message); }
    assert wide.stations.Texts? && |wide.times| > 0 ==> wide.stations.texts[0] in stationIdMap;
    var windowIds := GetStationIds(stationIdMap, window);
    if windowIds.Err? { return Err(windowIds.message); }
    var wideKeys, windowKeys := Keys(wide, wideIds.value), Keys(window, windowIds.value);
    var toFlag := MatchFlagged(wideKeys, FlaggedBy(wideFlags), windowKeys, apply);
    MatchByLabel(stationIdMap, wide, wideIds.value, FlaggedBy(wideFlags), window, windowIds.value, apply, toFlag);
    r := Ok(toFlag);
  }

  // Observation i of the space is of the station with number n, or of the one named t.
  predicate OfNumber<T>(s: Space<T>, i: nat, n: int)
    requires s.WellSized() && i < |s.times|
  {
    || (s.stations.Ungrouped? && n == 0)
    || (s.stations.Records? && s.stations.recordNumbers[i] == n)
    || (s.stations.Integers? && s.stations.ints[i] == n)
  }

  ghost predicate OfName<T>(s: Space<T>, i: nat, t: T)
    requires s.WellSized() && i < |s.times|
  {
    s.stations.Texts? && s.stations.texts[i] == t
  }

  // Same time, same position, and the same record, number or name of a station
  ghost predicate Identical<T(!new)>(s: Space<T>, i: nat, s': Space<T>, j: nat)
    requires s.WellSized() && s'.WellSized() && i < |s.times| && j < |s'.times|
  {
    && s.times[i] == s'.times[j] && s.lats[i] == s'.lats[j] && s.lons[i] == s'.lons[j]
    && ((exists n :: OfNumber(s, i, n) && OfNumber(s', j, n)) || (exists t :: OfName(s, i, t) && OfName(s', j, t)))
  }

  lemma IdenticalIff<T(!new)>(s: Space<T>, i: nat, s': Space<T>, j: nat)
    requires s.WellSized() && s'.WellSized() && !s.stations.Unsupported? && !s'.stations.Unsupported?
    requires i < |s.times| && j < |s'.times|
    ensures Labels(s)[i] == Labels(s')[j] <==> Identical(s, i, s', j)
  {
    if LabelOf(s, i) == LabelOf(s', j) {
      match LabelOf(s, i)
      case Number(n) => assert OfNumber(s, i, n) && OfNumber(s', j, n);
      case Text(t) => assert OfName(s, i, t) && OfName(s', j, t);
    }
  }

  lemma {:induction false} CountedExists<K>(keys: seq<K>, selected: seq<bool>, n: nat, k: K)
    requires n <= |keys| == |selected|
    ensures Count(keys, selected, n, k) > 0 <==> exists j :: 0 <= j < n && selected[j] && keys[j] == k
  {
    if n > 0 { CountedExists(keys, selected, n - 1, k); }
  }

  /** Of identical observations applied in the window the first is flagged exactly if a flagged wide one is identical to
      it; none is flagged without such a one. */
  lemma FlaggedHasTwin<T(!new)>(wide: Space<T>, flagged: seq<bool>, window: Space<T>, apply: seq<bool>,
                                toFlag: seq<bool>, i: nat)
    requires wide.WellSized() && window.WellSized() && !wide.stations.Unsupported? && !window.stations.Unsupported?
    requires |flagged| == |wide.times| && |apply| == |window.times| && i < |window.times|
    requires IsIntersection(Labels(wide), flagged, Labels(window), apply, toFlag)
    ensures var twin := exists j :: 0 <= j < |wide.times| && flagged[j] && Identical(wide, j, window, i);
            && (toFlag[i] ==> apply[i] && twin)
            && (apply[i] && twin && (forall h :: 0 <= h < i && apply[h] ==> !Identical(window, h, window, i)) ==>
                  toFlag[i])
  {
    var wl, nl := Labels(wide), Labels(window);
    CountedExists(wl, flagged, |wl|, nl[i]);
    CountedExists(nl, apply, i, nl[i]);
    forall j | 0 <= j < |wl| ensures wl[j] == nl[i] <==> Identical(wide, j, window, i) {
      IdenticalIff(wide, j, window, i);
    }
    forall h | 0 <= h < i ensures nl[h] == nl[i] <==> Identical(window, h, window, i) {
      IdenticalIff(window, h, window, i);
    }
  }

  function FlaggedBy(flags: seq<int>): (r: seq<bool>)
    ensures |r| == |flags| && forall i :: 0 <= i < |flags| ==> (r[i] <==> flags[i] == 21)
  {
    seq(|flags|, i requires 0 <= i < |flags| => flags[i] == TRACK_FLAG)
  }

  // Numbered stations are equal exactly when their labels are.
  lemma SameStation<T>(m: map<T, int>, l: Label<T>, id: int, l': Label<T>, id': int)
    requires forall x, y :: x in m && y in m && m[x] == m[y] ==> x == y
    requires Encodes(m, l, id) && Encodes(m, l', id') && l.Number? == l'.Number?
    ensures id == id' <==> l == l'
  {
  }

  lemma MatchByLabel<T>(m: map<T, int>, wide: Space<T>, wideIds: seq<int>, flagged: seq<bool>,
                        window: Space<T>, windowIds: seq<int>, apply: seq<bool>, toFlag: seq<bool>)
    requires forall x, y :: x in m && y in m && m[x] == m[y] ==> x == y
    requires wide.WellSized() && window.WellSized() && !wide.stations.Unsupported? && !window.stations.Unsupported?
    requires |wide.times| > 0 ==> wide.stations.Texts? == window.stations.Texts?
    requires |wideIds| == |wide.times| == |flagged| && |windowIds| == |window.times| == |apply|
    requires forall i :: 0 <= i < |wide.times| ==> Encodes(m, LabelOf(wide, i), wideIds[i])
    requires forall i :: 0 <= i < |window.times| ==> Encodes(m, LabelOf(window, i), windowIds[i])
    requires IsIntersection(Keys(wide, wideIds), flagged, Keys(window, windowIds), apply, toFlag)
    ensures IsIntersection(Labels(wide), flagged, Labels(window), apply, toFlag)
  {
    var wk, nk, wl, nl := Keys(wide, wideIds), Keys(window, windowIds), Labels(wide), Labels(window);
    forall i {:trigger toFlag[i]} | 0 <= i < |nl|
      ensures toFlag[i] <==> apply[i] && Count(nl, apply, i, nl[i]) < Count(wl, flagged, |wl|, nl[i])
    {
      forall j | 0 <= j < |wl| ensures wk[j] == nk[i] <==> wl[j] == nl[i] {
        SameStation(m, LabelOf(wide, j), wideIds[j], LabelOf(window, i), windowIds[i]);
      }
      forall j | 0 <= j < i ensures nk[j] == nk[i] <==> nl[j] == nl[i] {
        SameStation(m, LabelOf(window, j), windowIds[j], LabelOf(window, i), windowIds[i]);
      }
      CountRename(wk, wl, flagged, |wl|, nk[i], nl[i]);
      CountRename(nk, nl, apply, i, nk[i], nl[i]);
    }
  }
}
