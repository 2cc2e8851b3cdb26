/** The numbering of distinct values (station names) by consecutive integers that keep their order. */
module DistinctInts {

  import opened Sorting

  ghost predicate StrictlyAscending<T>(leq: (T, T) -> bool, v: seq<T>) {
    forall i, j :: 0 <= i < j < |v| ==> leq(v[i], v[j]) && v[i] != v[j]
  }

  method UniqueElements<T(!new, ==)>(leq: (T, T) -> bool, v: seq<T>) returns (r: seq<T>)
    requires TotalOrder(leq)
    ensures StrictlyAscending(leq, r) && forall x :: x in r <==> x in v
  {
    var sorted := Sorted(leq, v);
    r := [];
    for k := 0 to |sorted|
      invariant StrictlyAscending(leq, r)
      invariant forall x :: x in r <==> x in sorted[..k]
      invariant k == 0 ==> r == []
      invariant k > 0 ==> |r| > 0 && r[|r| - 1] == sorted[k - 1]
    {
      assert sorted[..k + 1] == sorted[..k] + [sorted[k]];
      if |r| == 0 || r[|r| - 1] != sorted[k] {
        forall i | 0 <= i < |r| ensures leq(r[i], sorted[k]) && r[i] != sorted[k] {
          assert k > 0 && leq(sorted[k - 1], sorted[k]);
          assert i < |r| - 1 ==> leq(r[i], r[|r| - 1]) && r[i] != r[|r| - 1];
        }
        r := r + [sorted[k]];
      }
    }
    assert sorted[..|sorted|] == sorted;
  }

  // m numbers exactly the values of v, consecutively from 0, in their order.
  ghost predicate Numbers<T(!new)>(leq: (T, T) -> bool, v: seq<T>, m: map<T, int>) {
    && (forall x :: x in m <==> x in v)
    && (forall x :: x in m ==> 0 <= m[x] < |m|)
    && (forall x, y :: x in m && y in m ==> (m[x] <= m[y] <==> leq(x, y)))
    && forall k :: 0 <= k < |m| ==> k in m.Values
  }

  lemma NumbersFromList<T(!new)>(leq: (T, T) -> bool, v: seq<T>, unique: seq<T>, m: map<T, int>)
    requires TotalOrder(leq) && StrictlyAscending(leq, unique) && |m| == |unique|
    requires forall x :: x in unique <==> x in v
    requires forall x :: x in m <==> x in unique
    requires forall j :: 0 <= j < |unique| ==> unique[j] in m && m[unique[j]] == j
    ensures Numbers(leq, v, m)
  {
    forall x | x in m ensures 0 <= m[x] < |m| && unique[m[x]] == x {
      var i :| 0 <= i < |unique| && unique[i] == x;
    }
    forall x, y | x in m && y in m ensures m[x] <= m[y] <==> leq(x, y) {
      var i, j := m[x], m[y];
      assert unique[i] == x && unique[j] == y;
    }
    forall k | 0 <= k < |m| ensures k in m.Values {
      assert m[unique[k]] == k;
    }
  }

  method NumberList<T(!new, ==)>(unique: seq<T>) returns (m: map<T, int>)
    requires forall i, j :: 0 <= i < j < |unique| ==> unique[i] != unique[j]
    ensures |m| == |unique| && forall x :: x in m <==> x in unique
    ensures forall j :: 0 <= j < |unique| ==> unique[j] in m && m[unique[j]] == j
  {
    m := map[];
    var index := 0;
    for k := 0 to |unique|
      invariant index == k == |m|
      invariant forall x :: x in m ==> x in unique
      invariant forall j :: k <= j < |unique| ==> unique[j] !in m
      invariant forall j :: 0 <= j < k ==> unique[j] in m && m[unique[j]] == j
    {
      m := m[unique[k] := index];
      index := index + 1;
    }
  }

  method NumberValues<T(!new, ==)>(leq: (T, T) -> bool, v: seq<T>) returns (m: map<T, int>)
    requires TotalOrder(leq)
    ensures Numbers(leq, v, m)
  {
    var unique := UniqueElements(leq, v);
    m := NumberList(unique);
    NumbersFromList(leq, v, unique, m);
  }

  /** Equal values, and only those, get equal numbers; smaller values get smaller numbers; no number is skipped. */
  method MapDistinctValuesToDistinctInts<T(!new, ==)>(leq: (T, T) -> bool, values: seq<T>) returns (ints: seq<int>)
    requires TotalOrder(leq)
    ensures |ints| == |values|
    ensures forall i, j :: 0 <= i < |ints| && 0 <= j < |ints| ==> (ints[i] <= ints[j] <==> leq(values[i], values[j]))
    ensures forall i, j :: 0 <= i < |ints| && 0 <= j < |ints| ==> (ints[i] == ints[j] <==> values[i] == values[j])
    ensures forall i, k :: 0 <= i < |ints| && 0 <= k <= ints[i] ==> k in ints
  {
    var intByValue := NumberValues(leq, values);
    ints := seq(|values|, i requires 0 <= i < |values| => intByValue[values[i]]);
    forall i, k | 0 <= i < |ints| && 0 <= k <= ints[i] ensures k in ints {
      assert k in intByValue.Values;
      var x :| x in intByValue && intByValue[x] == k;
      var j :| 0 <= j < |values| && values[j] == x;
      assert ints[j] == k;
    }
  }
}
