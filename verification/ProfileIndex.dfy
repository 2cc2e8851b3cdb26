/**
 The index of profiles for the buddy check: which locations, gathered from all processes, make up which
 level of which profile, and the copying of data between flat vectors and profiles by levels.
 */
module ProfileIndex {
  import opened Missing
  import opened BuddySweep
  import opened Distinctness

  // ---------------------------------------------------------------------------
  // Records as ordered lists of locations

  // The number of the first n locations that belong to record r
  function RecordSize(recordIds: seq<nat>, n: nat, r: nat): (c: nat)
    requires n <= |recordIds|
  {
    if n == 0 then 0 else RecordSize(recordIds, n - 1, r) + (if recordIds[n - 1] == r then 1 else 0)
  }

  // The positions within each record are distinct and smaller than the size of the record.
  ghost predicate WellIndexed(recordIds: seq<nat>, within: seq<nat>) {
    && |within| == |recordIds|
    && (forall g :: 0 <= g < |within| ==> within[g] < RecordSize(recordIds, |recordIds|, recordIds[g]))
    && forall g, h :: 0 <= g < h < |within| && recordIds[g] == recordIds[h] ==> within[g] != within[h]
  }

  ghost predicate Listed(records: seq<seq<nat>>, g: nat) {
    exists i :: 0 <= i < |records| && g in records[i]
  }

  // What one process holds: the locations, in order, of each of its records, whose ids are the keys.
  ghost predicate Lists(recordIds: seq<nat>, keys: seq<nat>, records: seq<seq<nat>>) {
    && |keys| == |records| && Distinct(keys)
    && (forall i :: 0 <= i < |records| ==> Distinct(records[i]))
    && (forall i, k :: 0 <= i < |records| && 0 <= k < |records[i]| ==>
          records[i][k] < |recordIds| && recordIds[records[i][k]] == keys[i])
    && forall g: nat :: g < |recordIds| ==> Listed(records, g)
  }

  // The positions of the first n lists have been entered.
  ghost predicate Positioned(records: seq<seq<nat>>, n: nat, within: seq<nat>)
    requires n <= |records|
  {
    forall i, k :: 0 <= i < n && 0 <= k < |records[i]| ==> records[i][k] < |within| && within[records[i][k]] == k
  }

  /** The position of each location within its record, of one process */
  method LocationIndices(ghost recordIds: seq<nat>, ghost keys: seq<nat>, nlocs: nat, records: seq<seq<nat>>)
    returns (within: seq<nat>)
    requires nlocs == |recordIds| && Lists(recordIds, keys, records)
    ensures WellIndexed(recordIds, within) && Positioned(records, |records|, within)
  {
    within := seq(nlocs, _ => 0);
    for i := 0 to |records|
      invariant |within| == nlocs && Positioned(records, i, within)
    {
      var index := 0;
      while index < |records[i]|
        invariant 0 <= index <= |records[i]| && |within| == nlocs && Positioned(records, i, within)
        invariant forall k :: 0 <= k < index ==> within[records[i][k]] == k
      {
        NotListedBefore(recordIds, keys, records, i, index);
        within := within[records[i][index] := index];
        index := index + 1;
      }
    }
    PositionsFit(recordIds, keys, records, within);
  }

  lemma NotListedBefore(recordIds: seq<nat>, keys: seq<nat>, records: seq<seq<nat>>, i: nat, k: nat)
    requires Lists(recordIds, keys, records) && i < |records| && k < |records[i]|
    ensures forall j, l :: 0 <= j < i && 0 <= l < |records[j]| ==> records[j][l] != records[i][k]
    ensures forall l :: 0 <= l < k ==> records[i][l] != records[i][k]
  {
    forall j, l | 0 <= j < i && 0 <= l < |records[j]| ensures records[j][l] != records[i][k] {
      assert keys[j] != keys[i];
    }
  }

  // The locations of record r among the first n
  ghost function Members(recordIds: seq<nat>, n: nat, r: nat): (s: set<nat>)
    requires n <= |recordIds|
  {
    set g: nat | g < n && recordIds[g] == r
  }

  lemma {:induction false} MembersSize(recordIds: seq<nat>, n: nat, r: nat)
    requires n <= |recordIds|
    ensures |Members(recordIds, n, r)| == RecordSize(recordIds, n, r)
  {
    if n > 0 {
      MembersSize(recordIds, n - 1, r);
      assert Members(recordIds, n, r)
          == Members(recordIds, n - 1, r) + if recordIds[n - 1] == r then {n - 1} else {};
    }
  }

  lemma ListFits(recordIds: seq<nat>, keys: seq<nat>, records: seq<seq<nat>>, i: nat)
    requires Lists(recordIds, keys, records) && i < |records|
    ensures |records[i]| <= RecordSize(recordIds, |recordIds|, keys[i])
  {
    ElementsSize(records[i]);
    MembersSize(recordIds, |recordIds|, keys[i]);
    SubsetSize(Elements(records[i]), Members(recordIds, |recordIds|, keys[i]));
  }

  lemma PositionsFit(recordIds: seq<nat>, keys: seq<nat>, records: seq<seq<nat>>, within: seq<nat>)
    requires Lists(recordIds, keys, records) && |within| == |recordIds| && Positioned(records, |records|, within)
    ensures WellIndexed(recordIds, within)
  {
    forall g: nat | g < |within| ensures within[g] < RecordSize(recordIds, |recordIds|, recordIds[g]) {
      var i, k := PlaceOf(recordIds, keys, records, g);
      ListFits(recordIds, keys, records, i);
    }
    forall g: nat, h: nat | g < h < |within| && recordIds[g] == recordIds[h] ensures within[g] != within[h] {
      var i, k := PlaceOf(recordIds, keys, records, g);
      var j, l := PlaceOf(recordIds, keys, records, h);
    }
  }

  lemma PlaceOf(recordIds: seq<nat>, keys: seq<nat>, records: seq<seq<nat>>, g: nat) returns (i: nat, k: nat)
    requires Lists(recordIds, keys, records) && g < |recordIds|
    ensures i < |records| && k < |records[i]| && records[i][k] == g
    ensures recordIds[g] == keys[i]
  {
    assert Listed(records, g);
    i :| i < |records| && g in records[i];
    k :| k < |records[i]| && records[i][k] == g;
  }

  /** Positions gathered from several processes still are positions, if no record is split between processes. */
  lemma GatheredWellIndexed(recordIds: seq<nat>, within: seq<nat>, recordIds': seq<nat>, within': seq<nat>)
    requires WellIndexed(recordIds, within) && WellIndexed(recordIds', within')
    requires forall i, j :: 0 <= i < |recordIds| && 0 <= j < |recordIds'| ==> recordIds[i] != recordIds'[j]
    ensures WellIndexed(recordIds + recordIds', within + within')
  {
    var n, ids, all := |recordIds|, recordIds + recordIds', within + within';
    forall g | 0 <= g < |all| ensures all[g] < RecordSize(ids, |ids|, ids[g]) {
      GatheredSize(recordIds, recordIds', |recordIds'|, ids[g]);
    }
    forall g, h | 0 <= g < h < |all| && ids[g] == ids[h] ensures all[g] != all[h] {
    }
  }

  lemma {:induction false} GatheredSize(recordIds: seq<nat>, recordIds': seq<nat>, n: nat, r: nat)
    requires n <= |recordIds'|
    ensures RecordSize(recordIds + recordIds', |recordIds| + n, r)
         == RecordSize(recordIds, |recordIds|, r) + RecordSize(recordIds', n, r)
  {
    if n > 0 {
      GatheredSize(recordIds, recordIds', n - 1, r);
    } else {
      PrefixSize(recordIds, recordIds', |recordIds|, r);
    }
  }

  lemma {:induction false} PrefixSize(recordIds: seq<nat>, recordIds': seq<nat>, n: nat, r: nat)
    requires n <= |recordIds|
    ensures RecordSize(recordIds + recordIds', n, r) == RecordSize(recordIds, n, r)
  {
    if n > 0 { PrefixSize(recordIds, recordIds', n - 1, r); }
  }

  type RecordMap = map<nat, seq<nat>>

  // m lists, for every record, exactly its locations, each at its position within the record.
  ghost predicate Partitions(recordIds: seq<nat>, within: seq<nat>, m: RecordMap)
    requires |within| == |recordIds|
  {
    && (forall r :: r in m <==> r in recordIds)
    && (forall g {:trigger within[g]} :: 0 <= g < |recordIds| ==>
          within[g] < |m[recordIds[g]]| && m[recordIds[g]][within[g]] == g)
    && forall r, k {:trigger m[r][k]} :: r in m && 0 <= k < |m[r]| ==>
         m[r][k] < |recordIds| && recordIds[m[r][k]] == r && within[m[r][k]] == k
  }

  // The positions taken by the first n locations in record r
  ghost function Taken(recordIds: seq<nat>, within: seq<nat>, n: nat, r: nat): (s: set<nat>)
    requires n <= |recordIds| == |within|
  {
    set g | 0 <= g < n && recordIds[g] == r :: within[g]
  }

  lemma {:induction false} TakenSize(recordIds: seq<nat>, within: seq<nat>, n: nat, r: nat)
    requires n <= |recordIds| && WellIndexed(recordIds, within)
    ensures |Taken(recordIds, within, n, r)| == RecordSize(recordIds, n, r)
  {
    if n > 0 {
      TakenSize(recordIds, within, n - 1, r);
      var s, t := Taken(recordIds, within, n, r), Taken(recordIds, within, n - 1, r);
      if recordIds[n - 1] == r {
        assert s == t + {within[n - 1]};
        assert within[n - 1] !in t;
      } else {
        assert s == t;
      }
    }
  }

  // Distinct positions below the size of the record leave no position free.
  lemma EverySlotTaken(recordIds: seq<nat>, within: seq<nat>, r: nat, k: nat) returns (g: nat)
    requires WellIndexed(recordIds, within) && k < RecordSize(recordIds, |recordIds|, r)
    ensures g < |recordIds| && recordIds[g] == r && within[g] == k
  {
    var n := |recordIds|;
    var taken := Taken(recordIds, within, n, r);
    TakenSize(recordIds, within, n, r);
    FullSubset(taken, Below(RecordSize(recordIds, n, r)));
    assert k in taken;
    g :| 0 <= g < n && recordIds[g] == r && within[g] == k;
  }

  method CountLocations(recordIds: seq<nat>) returns (numLocs: map<nat, nat>)
    ensures forall r :: r in numLocs <==> r in recordIds
    ensures forall r :: r in numLocs ==> numLocs[r] == RecordSize(recordIds, |recordIds|, r)
  {
    numLocs := map[];
    for g := 0 to |recordIds|
      invariant forall r :: r in numLocs <==> r in recordIds[..g]
      invariant forall r: nat :: RecordSize(recordIds, g, r) == if r in numLocs then numLocs[r] else 0
    {
      var r := recordIds[g];
      assert recordIds[..g + 1] == recordIds[..g] + [r];
      numLocs := numLocs[r := (if r in numLocs then numLocs[r] else 0) + 1];
    }
    assert recordIds[..|recordIds|] == recordIds;
  }

  // The first n locations have been entered into m.
  ghost predicate Filled(recordIds: seq<nat>, within: seq<nat>, n: nat, m: RecordMap)
    requires n <= |recordIds| == |within|
  {
    && (forall r :: r in m <==> r in recordIds)
    && (forall r :: r in m ==> |m[r]| == RecordSize(recordIds, |recordIds|, r))
    && forall g {:trigger within[g]} :: 0 <= g < n ==> within[g] < |m[recordIds[g]]| && m[recordIds[g]][within[g]] == g
  }

  lemma FillStep(recordIds: seq<nat>, within: seq<nat>, n: nat, m: RecordMap, locations: seq<nat>)
    requires n < |recordIds| && WellIndexed(recordIds, within) && Filled(recordIds, within, n, m)
    requires locations == m[recordIds[n]][within[n] := n]
    ensures Filled(recordIds, within, n + 1, m[recordIds[n] := locations])
  {
  }

  lemma FilledPartitions(recordIds: seq<nat>, within: seq<nat>, m: RecordMap)
    requires WellIndexed(recordIds, within) && Filled(recordIds, within, |recordIds|, m)
    ensures Partitions(recordIds, within, m)
  {
    forall r, k {:trigger m[r][k]} | r in m && 0 <= k < |m[r]|
      ensures m[r][k] < |recordIds| && recordIds[m[r][k]] == r && within[m[r][k]] == k
    {
      var g := EverySlotTaken(recordIds, within, r, k);
    }
  }

  /** The record map is a partition of all locations: no slot is left empty and none is written twice. */
  method MapRecordIdsToLocations(recordIds: seq<nat>, within: seq<nat>) returns (m: RecordMap)
    requires WellIndexed(recordIds, within)
    ensures Partitions(recordIds, within, m)
  {
    var numLocs := CountLocations(recordIds);
    m := map r | r in numLocs :: seq(numLocs[r], _ => 0);
    for gloc := 0 to |recordIds|
      invariant Filled(recordIds, within, gloc, m)
    {
      var r := recordIds[gloc];
      var locations: seq<nat> := m[r][within[gloc] := gloc];
      FillStep(recordIds, within, gloc, m, locations);
      m := m[r := locations];
    }
    FilledPartitions(recordIds, within, m);
  }

  // ---------------------------------------------------------------------------
  // Profiles

  type Index = seq<seq<nat>>

  // A location takes part unless the extended observation space says otherwise.
  predicate Chosen(extended: Option<seq<int>>, loc: nat) {
    extended.None? || (loc < |extended.value| && extended.value[loc] == 1)
  }

  function ChosenOf(extended: Option<seq<int>>, locations: seq<nat>): (r: seq<nat>)
    ensures |r| <= |locations|
  {
    if locations == [] then []
    else ChosenOf(extended, locations[..|locations| - 1])
         + (if Chosen(extended, locations[|locations| - 1]) then [locations[|locations| - 1]] else [])
  }

  predicate Complete(m: RecordMap, extended: Option<seq<int>>, numLevels: nat, r: nat) {
    r in m && |ChosenOf(extended, m[r])| == numLevels
  }

  // The records below n, in ascending order, that have exactly numLevels chosen locations
  function FullRecords(m: RecordMap, extended: Option<seq<int>>, numLevels: nat, n: nat): (rs: seq<nat>) {
    if n == 0 then []
    else FullRecords(m, extended, numLevels, n - 1) + (if Complete(m, extended, numLevels, n - 1) then [n - 1] else [])
  }

  lemma {:induction false} FullRecordsFacts(m: RecordMap, extended: Option<seq<int>>, numLevels: nat, n: nat,
                                            rs: seq<nat>)
    requires rs == FullRecords(m, extended, numLevels, n)
    ensures forall i :: 0 <= i < |rs| ==> rs[i] < n && Complete(m, extended, numLevels, rs[i])
    ensures forall i, j :: 0 <= i < j < |rs| ==> rs[i] < rs[j]
    ensures forall r: nat :: r < n && Complete(m, extended, numLevels, r) ==> r in rs
  {
    if n > 0 {
      var rs' := FullRecords(m, extended, numLevels, n - 1);
      FullRecordsFacts(m, extended, numLevels, n - 1, rs');
      if Complete(m, extended, numLevels, n - 1) {
        assert rs == rs' + [n - 1];
      } else {
        assert rs == rs';
      }
    }
  }

  lemma {:induction false} FullRecordsCount(m: RecordMap, extended: Option<seq<int>>, numLevels: nat, n: nat)
    ensures |FullRecords(m, extended, numLevels, n)| <= |KeysBelow(m, n)|
  {
    if n > 0 {
      FullRecordsCount(m, extended, numLevels, n - 1);
      if n - 1 in m {
        assert KeysBelow(m, n) == KeysBelow(m, n - 1) + {n - 1};
      } else {
        assert KeysBelow(m, n) == KeysBelow(m, n - 1);
      }
    }
  }

  function KeysBelow(m: RecordMap, n: nat): (s: set<nat>) {
    set r | r in m && r < n
  }

  lemma RoomForRow(m: RecordMap, n: nat)
    requires n in m
    ensures |KeysBelow(m, n)| < |m|
  {
    SubsetSize(KeysBelow(m, n) + {n}, m.Keys);
  }

  // The rows are the chosen locations of the complete records, in the order of the records.
  ghost predicate IsIndex(m: RecordMap, extended: Option<seq<int>>, numLevels: nat, bound: nat, index: Index) {
    var rs := FullRecords(m, extended, numLevels, bound);
    |index| == |rs| && forall i :: 0 <= i < |rs| ==> rs[i] in m && index[i] == ChosenOf(extended, m[rs[i]])
  }

  // A record with some chosen locations, but not as many as there are levels
  ghost predicate Ragged(m: RecordMap, extended: Option<seq<int>>, numLevels: nat, r: nat)
    requires r in m
  {
    ChosenOf(extended, m[r]) != [] && |ChosenOf(extended, m[r])| != numLevels
  }

  // The table holds the rows of the records below n, of which none is ragged.
  ghost predicate RowsDone(m: RecordMap, extended: Option<seq<int>>, numLevels: nat, n: nat, recnum: nat,
                           table: array2<nat>)
    reads table
  {
    && recnum == |FullRecords(m, extended, numLevels, n)| <= |m| == table.Length0 && table.Length1 == numLevels
    && (forall k :: 0 <= k < n && k in m ==> !Ragged(m, extended, numLevels, k))
    && RowsAre(m, extended, FullRecords(m, extended, numLevels, n), table)
  }

  lemma RowSkipped(m: RecordMap, extended: Option<seq<int>>, numLevels: nat, rec: nat, recnum: nat, table: array2<nat>)
    requires RowsDone(m, extended, numLevels, rec, recnum, table) && rec !in m
    ensures RowsDone(m, extended, numLevels, rec + 1, recnum, table)
  {
    assert FullRecords(m, extended, numLevels, rec + 1) == FullRecords(m, extended, numLevels, rec);
  }

  lemma RowDone(m: RecordMap, extended: Option<seq<int>>, numLevels: nat, rec: nat, recnum: nat, rs: seq<nat>,
                table: array2<nat>)
    requires table.Length0 == |m| && table.Length1 == numLevels && rs == FullRecords(m, extended, numLevels, rec)
    requires recnum == |rs| < |m| && Complete(m, extended, numLevels, rec) && RowsAre(m, extended, rs + [rec], table)
    requires forall k :: 0 <= k < rec && k in m ==> !Ragged(m, extended, numLevels, k)
    ensures RowsDone(m, extended, numLevels, rec + 1, recnum + 1, table)
  {
  }

  method DeriveIndices(m: RecordMap, extended: Option<seq<int>>, numLevels: nat, bound: nat) returns (r: Result<Index>)
    requires forall rec :: rec in m ==> rec < bound && |ChosenOf(extended, m[rec])| <= numLevels
    ensures r.Err? <==> exists rec :: rec in m && Ragged(m, extended, numLevels, rec)
    ensures r.Ok? ==> IsIndex(m, extended, numLevels, bound, r.value)
  {
    var profileIndex := new nat[|m|, numLevels];
    var recnum := 0;
    for rec := 0 to bound
      invariant RowsDone(m, extended, numLevels, rec, recnum, profileIndex)
    {
      if rec !in m {
        RowSkipped(m, extended, numLevels, rec, recnum, profileIndex);
        continue;
      }
      var levnum := AddRecord(m, extended, numLevels, rec, recnum, profileIndex);
      if levnum == numLevels {
        recnum := recnum + 1;
      } else if levnum != 0 {
        return Err("record length does not match the number of levels expected");
      }
    }
    ghost var rs := FullRecords(m, extended, numLevels, bound);
    var rows := TakeRows(m, extended, rs, profileIndex, recnum);
    assert IsIndex(m, extended, numLevels, bound, rows);
    r := Ok(rows);
  }

  // Enters one record into the next row: it stays there if it is complete, and is written over if it has no level.
  method AddRecord(m: RecordMap, extended: Option<seq<int>>, numLevels: nat, rec: nat, recnum: nat, table: array2<nat>)
    returns (levnum: nat)
    requires RowsDone(m, extended, numLevels, rec, recnum, table) && rec in m
    requires |ChosenOf(extended, m[rec])| <= numLevels
    modifies table
    ensures levnum == numLevels ==> RowsDone(m, extended, numLevels, rec + 1, recnum + 1, table)
    ensures levnum == 0 != numLevels ==> RowsDone(m, extended, numLevels, rec + 1, recnum, table)
    ensures levnum != numLevels && levnum != 0 ==> Ragged(m, extended, numLevels, rec)
  {
    ghost var rs := FullRecords(m, extended, numLevels, rec);
    RoomForRow(m, rec);
    FullRecordsCount(m, extended, numLevels, rec);
    levnum := WriteRow(extended, m[rec], numLevels, table, recnum);
    assert RowsAre(m, extended, rs, table);
    if levnum == numLevels {
      RowAdded(m, extended, rs, rec, table);
      RowDone(m, extended, numLevels, rec, recnum, rs, table);
    }
  }

  // Drops the rows that were not filled.
  method TakeRows(ghost m: RecordMap, ghost extended: Option<seq<int>>, ghost rs: seq<nat>, table: array2<nat>, n: nat)
    returns (rows: Index)
    requires n == |rs| && RowsAre(m, extended, rs, table)
    ensures |rows| == n
    ensures forall i :: 0 <= i < n ==>
              Complete(m, extended, table.Length1, rs[i]) && rows[i] == ChosenOf(extended, m[rs[i]])
  {
    rows := seq(n, i requires 0 <= i < table.Length0 reads table =>
              seq(table.Length1, l requires 0 <= l < table.Length1 reads table => table[i, l]));
    forall i | 0 <= i < n ensures rows[i] == ChosenOf(extended, m[rs[i]]) {
      assert Complete(m, extended, table.Length1, rs[i]);
    }
  }

  // The first rows of the table hold the chosen locations of the records rs.
  ghost predicate RowsAre(m: RecordMap, extended: Option<seq<int>>, rs: seq<nat>, table: array2<nat>)
    reads table
  {
    && |rs| <= table.Length0
    && (forall i :: 0 <= i < |rs| ==> Complete(m, extended, table.Length1, rs[i]))
    && forall i, l :: 0 <= i < |rs| && 0 <= l < table.Length1 ==> table[i, l] == ChosenOf(extended, m[rs[i]])[l]
  }

  lemma RowAdded(m: RecordMap, extended: Option<seq<int>>, rs: seq<nat>, rec: nat, table: array2<nat>)
    requires RowsAre(m, extended, rs, table) && |rs| < table.Length0 && Complete(m, extended, table.Length1, rec)
    requires forall l :: 0 <= l < table.Length1 ==> table[|rs|, l] == ChosenOf(extended, m[rec])[l]
    ensures RowsAre(m, extended, rs + [rec], table)
  {
  }

  // Writes the chosen locations of one record into a row and counts them.
  method WriteRow(extended: Option<seq<int>>, locations: seq<nat>, numLevels: nat, table: array2<nat>, row: nat)
    returns (levnum: nat)
    requires row < table.Length0 && table.Length1 == numLevels
    requires |ChosenOf(extended, locations)| <= numLevels
    modifies table
    ensures levnum == |ChosenOf(extended, locations)|
    ensures forall l :: 0 <= l < levnum ==> table[row, l] == ChosenOf(extended, locations)[l]
    ensures forall i, l :: 0 <= i < table.Length0 && 0 <= l < table.Length1 && i != row ==>
              table[i, l] == old(table[i, l])
  {
    levnum := 0;
    for k := 0 to |locations|
      invariant levnum == |ChosenOf(extended, locations[..k])|
      invariant forall l :: 0 <= l < levnum ==> l < numLevels && table[row, l] == ChosenOf(extended, locations[..k])[l]
      invariant forall i, l :: 0 <= i < table.Length0 && 0 <= l < table.Length1 && i != row ==>
                  table[i, l] == old(table[i, l])
    {
      assert locations[..k + 1][..k] == locations[..k];
      ChosenPrefix(extended, locations, k + 1);
      if Chosen(extended, locations[k]) {
        table[row, levnum] := locations[k];
        levnum := levnum + 1;
      }
    }
    assert locations[..|locations|] == locations;
  }

  lemma {:induction false} ChosenPrefix(extended: Option<seq<int>>, locations: seq<nat>, k: nat)
    requires k <= |locations|
    ensures |ChosenOf(extended, locations[..k])| <= |ChosenOf(extended, locations)|
  {
    if k < |locations| {
      var init := locations[..|locations| - 1];
      ChosenPrefix(extended, init, k);
      assert init[..k] == locations[..k];
    } else {
      assert locations[..k] == locations;
    }
  }

  // ---------------------------------------------------------------------------
  // No location is in two cells

  ghost predicate Injective(index: Index, cols: nat, n: nat) {
    && (forall i :: 0 <= i < |index| ==> |index[i]| == cols)
    && (forall i, l :: 0 <= i < |index| && 0 <= l < cols ==> index[i][l] < n)
    && forall i, l, j, k ::
         0 <= i < |index| && 0 <= l < cols && 0 <= j < |index| && 0 <= k < cols && index[i][l] == index[j][k] ==>
         i == j && l == k
  }

  lemma {:induction false} ChosenDistinct(extended: Option<seq<int>>, locations: seq<nat>)
    requires Distinct(locations)
    ensures Distinct(ChosenOf(extended, locations))
    ensures forall x: nat :: x in ChosenOf(extended, locations) <==> x in locations && Chosen(extended, x)
  {
    if locations != [] {
      var init, last := locations[..|locations| - 1], locations[|locations| - 1];
      ChosenDistinct(extended, init);
      assert locations == init + [last];
      assert last !in init;
    }
  }

  lemma RecordDistinct(recordIds: seq<nat>, within: seq<nat>, m: RecordMap, r: nat)
    requires |within| == |recordIds| && Partitions(recordIds, within, m) && r in m
    ensures Distinct(m[r])
    ensures forall x: nat :: x in m[r] <==> x < |recordIds| && recordIds[x] == r
  {
    forall k, l | 0 <= k < l < |m[r]| ensures m[r][k] != m[r][l] {
      assert within[m[r][k]] == k && within[m[r][l]] == l;
    }
    forall x: nat | x in m[r] ensures x < |recordIds| && recordIds[x] == r {
      var k :| 0 <= k < |m[r]| && m[r][k] == x;
    }
    forall x: nat | x < |recordIds| && recordIds[x] == r ensures x in m[r] {
      assert m[r][within[x]] == x;
    }
  }

  /** The cells of the derived index hold distinct locations: the chosen ones of the complete records, and all those. */
  lemma IndexIsInjective(recordIds: seq<nat>, within: seq<nat>, m: RecordMap, extended: Option<seq<int>>,
                         numLevels: nat, bound: nat, index: Index)
    requires |within| == |recordIds| && Partitions(recordIds, within, m)
    requires IsIndex(m, extended, numLevels, bound, index) && forall r :: r in m ==> r < bound
    ensures Injective(index, numLevels, |recordIds|)
    ensures forall x: nat ::
              x < |recordIds| && Chosen(extended, x) && Complete(m, extended, numLevels, recordIds[x]) ==>
              exists i :: 0 <= i < |index| && x in index[i]
  {
    var rs := FullRecords(m, extended, numLevels, bound);
    FullRecordsFacts(m, extended, numLevels, bound, rs);
    forall i | 0 <= i < |index|
      ensures |index[i]| == numLevels && Distinct(index[i])
      ensures forall x: nat :: x in index[i] <==> x < |recordIds| && recordIds[x] == rs[i] && Chosen(extended, x)
    {
      assert Complete(m, extended, numLevels, rs[i]);
      RecordDistinct(recordIds, within, m, rs[i]);
      ChosenDistinct(extended, m[rs[i]]);
    }
    RowsInjective(index, numLevels, recordIds, rs);
    forall x: nat | x < |recordIds| && Chosen(extended, x) && Complete(m, extended, numLevels, recordIds[x])
      ensures exists i :: 0 <= i < |index| && x in index[i]
    {
      var i :| 0 <= i < |rs| && rs[i] == recordIds[x];
      assert x in index[i];
    }
  }

  // A location takes part in the check if it belongs to an averaged profile, as all do without an extended space.
  predicate Averaged(extended: Option<seq<int>>, x: nat) {
    match extended
    case None => true
    case Some(flags) => x < |flags| && flags[x] == 1
  }

  // The locations of the record of x that take part
  ghost function ProfileOf(recordIds: seq<nat>, extended: Option<seq<int>>, x: nat): (s: set<nat>)
    requires x < |recordIds|
  {
    set y: nat | y < |recordIds| && recordIds[y] == recordIds[x] && Averaged(extended, y)
  }

  /** The index holds exactly the locations that take part and whose records have as many of them as there are
      levels. */
  lemma IndexHolds(recordIds: seq<nat>, within: seq<nat>, m: RecordMap, extended: Option<seq<int>>, numLevels: nat,
                   bound: nat, index: Index, x: nat)
    requires |within| == |recordIds| && Partitions(recordIds, within, m)
    requires IsIndex(m, extended, numLevels, bound, index) && forall r :: r in m ==> r < bound
    ensures (exists i :: 0 <= i < |index| && x in index[i])
       <==> x < |recordIds| && Averaged(extended, x) && |ProfileOf(recordIds, extended, x)| == numLevels
  {
    var rs := FullRecords(m, extended, numLevels, bound);
    FullRecordsFacts(m, extended, numLevels, bound, rs);
    if i :| 0 <= i < |index| && x in index[i] {
      ProfileSize(recordIds, within, m, extended, rs[i], x);
    }
    if x < |recordIds| && Averaged(extended, x) && |ProfileOf(recordIds, extended, x)| == numLevels {
      assert recordIds[x] in m;
      ProfileSize(recordIds, within, m, extended, recordIds[x], x);
      assert Complete(m, extended, numLevels, recordIds[x]) && recordIds[x] in rs;
      var i :| 0 <= i < |rs| && rs[i] == recordIds[x];
      assert x in index[i];
    }
  }

  lemma ProfileSize(recordIds: seq<nat>, within: seq<nat>, m: RecordMap, extended: Option<seq<int>>, r: nat, x: nat)
    requires |within| == |recordIds| && Partitions(recordIds, within, m) && r in m
    ensures x in ChosenOf(extended, m[r]) <==> x < |recordIds| && recordIds[x] == r && Averaged(extended, x)
    ensures x < |recordIds| && recordIds[x] == r ==>
              |ProfileOf(recordIds, extended, x)| == |ChosenOf(extended, m[r])|
  {
    RecordDistinct(recordIds, within, m, r);
    ChosenDistinct(extended, m[r]);
    var chosen := ChosenOf(extended, m[r]);
    if x < |recordIds| && recordIds[x] == r {
      ElementsSize(chosen);
      assert forall y: nat :: y in Elements(chosen) <==> y in chosen;
      assert ProfileOf(recordIds, extended, x) == Elements(chosen);
    }
  }

  lemma RowsInjective(index: Index, cols: nat, recordIds: seq<nat>, rs: seq<nat>)
    requires |rs| == |index| && forall i, j :: 0 <= i < j < |rs| ==> rs[i] != rs[j]
    requires forall i :: 0 <= i < |index| ==> |index[i]| == cols && Distinct(index[i])
    requires forall i :: 0 <= i < |index| ==> forall x: nat :: x in index[i] ==>
               x < |recordIds| && recordIds[x] == rs[i]
    ensures Injective(index, cols, |recordIds|)
  {
    forall i, l, j, k | 0 <= i < |index| && 0 <= l < cols && 0 <= j < |index| && 0 <= k < cols
        && index[i][l] == index[j][k]
      ensures i == j && l == k
    {
      assert index[i][l] in index[i] && index[j][k] in index[j];
    }
    forall i, l | 0 <= i < |index| && 0 <= l < cols ensures index[i][l] < |recordIds| {
      assert index[i][l] in index[i];
    }
  }

  // ---------------------------------------------------------------------------
  // Flat data and data by profile

  // Without an index every location is a profile of one level.
  function IndexFor(index: Option<Index>, n: nat): (ix: Index) {
    if index.Some? then index.value else seq(n, i requires 0 <= i < n => [i])
  }

  ghost predicate Fits(index: Option<Index>, cols: nat, n: nat) {
    Injective(IndexFor(index, n), cols, n)
  }

  ghost predicate IsUnraveled(flat: seq<Datum>, ix: Index, cols: nat, g: Grid)
    requires Injective(ix, cols, |flat|)
  {
    Rectangular(g, |ix|, cols) && forall i, l :: 0 <= i < |ix| && 0 <= l < cols ==> g[i][l] == flat[ix[i][l]]
  }

  // flat' has the data of g in the cells of the index, and is flat elsewhere.
  ghost predicate IsUpdated(flat: seq<Datum>, ix: Index, cols: nat, g: Grid, flat': seq<Datum>)
    requires Injective(ix, cols, |flat|) && Rectangular(g, |ix|, cols)
  {
    && |flat'| == |flat|
    && (forall i, l :: 0 <= i < |ix| && 0 <= l < cols ==> flat'[ix[i][l]] == g[i][l])
    && forall x :: 0 <= x < |flat| && !Covered(ix, cols, x) ==> flat'[x] == flat[x]
  }

  ghost predicate Covered(ix: Index, cols: nat, x: int) {
    exists i, l :: 0 <= i < |ix| && 0 <= l < |ix[i]| && l < cols && ix[i][l] == x
  }

  method Unravel(flat: seq<Datum>, index: Option<Index>, cols: nat) returns (res: array2<Datum>)
    requires Fits(index, cols, |flat|)
    ensures fresh(res) && res.Length0 == |IndexFor(index, |flat|)| && res.Length1 == cols
    ensures IsUnraveled(flat, IndexFor(index, |flat|), cols, Rows(res))
  {
    var ix := IndexFor(index, |flat|);
    res := new Datum[|ix|, cols]((_, _) => Missing);
    for row := 0 to |ix|
      invariant forall i, l :: 0 <= i < row && 0 <= l < cols ==> res[i, l] == flat[ix[i][l]]
    {
      for col := 0 to cols
        invariant forall i, l :: 0 <= i < |ix| && 0 <= l < cols && (i < row || (i == row && l < col)) ==>
                    res[i, l] == flat[ix[i][l]]
      {
        res[row, col] := flat[ix[row][col]];
      }
    }
  }

  // The cells before (row, col) have been written.
  ghost predicate PartlyUpdated(flat: seq<Datum>, ix: Index, cols: nat, g: Grid, flat': seq<Datum>, row: nat, col: nat)
    requires Injective(ix, cols, |flat|) && Rectangular(g, |ix|, cols)
  {
    && |flat'| == |flat|
    && (forall i, l :: 0 <= i < |ix| && 0 <= l < cols && (i < row || (i == row && l < col)) ==>
          flat'[ix[i][l]] == g[i][l])
    && forall x :: 0 <= x < |flat| && !Covered(ix, cols, x) ==> flat'[x] == flat[x]
  }

  lemma PartlyUpdatedStep(flat: seq<Datum>, ix: Index, cols: nat, g: Grid, flat': seq<Datum>, row: nat, col: nat)
    requires Injective(ix, cols, |flat|) && Rectangular(g, |ix|, cols) && row < |ix| && col < cols
    requires PartlyUpdated(flat, ix, cols, g, flat', row, col)
    ensures PartlyUpdated(flat, ix, cols, g, flat'[ix[row][col] := g[row][col]], row, col + 1)
  {
  }

  method UpdateFlatData(flatArray: array<Datum>, g: array2<Datum>, index: Option<Index>)
    requires Fits(index, g.Length1, flatArray.Length) && g.Length0 == |IndexFor(index, flatArray.Length)|
    modifies flatArray
    ensures IsUpdated(old(flatArray[..]), IndexFor(index, flatArray.Length), g.Length1, Rows(g), flatArray[..])
  {
    var ix := IndexFor(index, flatArray.Length);
    for row := 0 to g.Length0
      invariant PartlyUpdated(old(flatArray[..]), ix, g.Length1, Rows(g), flatArray[..], row, 0)
    {
      for col := 0 to g.Length1
        invariant PartlyUpdated(old(flatArray[..]), ix, g.Length1, Rows(g), flatArray[..], row, col)
      {
        ghost var before := flatArray[..];
        PartlyUpdatedStep(old(flatArray[..]), ix, g.Length1, Rows(g), before, row, col);
        flatArray[ix[row][col]] := g[row, col];
        assert flatArray[..] == before[ix[row][col] := Rows(g)[row][col]];
      }
    }
  }

  /** Reading back what was written gives the data written. */
  lemma UnravelUpdated(flat: seq<Datum>, ix: Index, cols: nat, g: Grid, flat': seq<Datum>, g': Grid)
    requires Injective(ix, cols, |flat|) && Rectangular(g, |ix|, cols)
    requires IsUpdated(flat, ix, cols, g, flat') && IsUnraveled(flat', ix, cols, g')
    ensures g' == g
  {
    SameGrid(g', g, |ix|, cols);
  }

  /** Writing what was read changes nothing. */
  lemma UpdateUnraveled(flat: seq<Datum>, ix: Index, cols: nat, g: Grid, flat': seq<Datum>)
    requires Injective(ix, cols, |flat|) && IsUnraveled(flat, ix, cols, g)
    requires IsUpdated(flat, ix, cols, g, flat')
    ensures flat' == flat
  {
    forall x | 0 <= x < |flat| ensures flat'[x] == flat[x] {
      if Covered(ix, cols, x) {
        var i, l :| 0 <= i < |ix| && 0 <= l < |ix[i]| && l < cols && ix[i][l] == x;
        assert flat'[ix[i][l]] == g[i][l];
      }
    }
  }
}
