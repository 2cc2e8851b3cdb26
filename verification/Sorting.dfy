/** Sorting with respect to a total order, in the place of the library's sort functions. */
module Sorting {

  ghost predicate TotalOrder<T(!new)>(leq: (T, T) -> bool) {
    && (forall x :: leq(x, x))
    && (forall x, y :: leq(x, y) || leq(y, x))
    && (forall x, y :: leq(x, y) && leq(y, x) ==> x == y)
    && forall x, y, z :: leq(x, y) && leq(y, z) ==> leq(x, z)
  }

  ghost predicate Ascending<T>(leq: (T, T) -> bool, v: seq<T>) {
    forall i, j :: 0 <= i < j < |v| ==> leq(v[i], v[j])
  }

  // Stands for the library sort.
  function Sorted<T(!new)>(leq: (T, T) -> bool, v: seq<T>): (r: seq<T>)
    requires TotalOrder(leq)
    ensures Ascending(leq, r) && forall x :: x in r <==> x in v
  {
    if v == [] then [] else Inserted(leq, v[0], Sorted(leq, v[1..]))
  }

  function Inserted<T(!new)>(leq: (T, T) -> bool, x: T, v: seq<T>): (r: seq<T>)
    requires TotalOrder(leq) && Ascending(leq, v)
    ensures Ascending(leq, r) && forall y :: y in r <==> y == x || y in v
  {
    if v == [] || leq(x, v[0]) then [x] + v else
      var t := Inserted(leq, x, v[1..]);
      assert forall y :: y in t ==> leq(v[0], y) by {
        forall y | y in t ensures leq(v[0], y) {
          if y in v[1..] { var k :| 0 <= k < |v| - 1 && v[k + 1] == y; }
        }
      }
      [v[0]] + t
  }

  // How many elements satisfy p
  function Occurrences<T>(v: seq<T>, p: T -> bool): (n: nat)
    ensures n <= |v|
  {
    if v == [] then 0 else (if p(v[0]) then 1 else 0) + Occurrences(v[1..], p)
  }

  lemma {:induction false} InsertedOccurrences<T(!new)>(leq: (T, T) -> bool, x: T, v: seq<T>, p: T -> bool)
    requires TotalOrder(leq) && Ascending(leq, v)
    ensures Occurrences(Inserted(leq, x, v), p) == (if p(x) then 1 else 0) + Occurrences(v, p)
  {
    if v == [] || leq(x, v[0]) {
      assert ([x] + v)[1..] == v;
    } else {
      InsertedOccurrences(leq, x, v[1..], p);
      var t := Inserted(leq, x, v[1..]);
      assert ([v[0]] + t)[1..] == t;
    }
  }

  /** Sorting changes no count, and so no length. */
  lemma {:induction false} SortedOccurrences<T(!new)>(leq: (T, T) -> bool, v: seq<T>, p: T -> bool)
    requires TotalOrder(leq)
    ensures Occurrences(Sorted(leq, v), p) == Occurrences(v, p) && |Sorted(leq, v)| == |v|
  {
    if v != [] {
      SortedOccurrences(leq, v[1..], p);
      InsertedOccurrences(leq, v[0], Sorted(leq, v[1..]), p);
      InsertedLength(leq, v[0], Sorted(leq, v[1..]));
    }
  }

  lemma {:induction false} InsertedLength<T(!new)>(leq: (T, T) -> bool, x: T, v: seq<T>)
    requires TotalOrder(leq) && Ascending(leq, v)
    ensures |Inserted(leq, x, v)| == |v| + 1
  {
    if v != [] && !leq(x, v[0]) { InsertedLength(leq, x, v[1..]); }
  }
}
