/** Sequences without repetition, and counting them. */
module Distinctness {
  ghost predicate Distinct<T>(s: seq<T>) {
    forall k, l :: 0 <= k < l < |s| ==> s[k] != s[l]
  }

  lemma DistinctConcat<T>(s: seq<T>, t: seq<T>)
    requires Distinct(s) && Distinct(t) && forall x :: x in s ==> x !in t
    ensures Distinct(s + t)
  {
    forall k, l | 0 <= k < l < |s + t| ensures (s + t)[k] != (s + t)[l] {
      if k < |s| <= l { assert s[k] in s && t[l - |s|] in t; }
    }
  }

  function Below(n: nat): (s: set<nat>)
    ensures |s| == n && forall k :: k in s <==> 0 <= k < n
  {
    if n == 0 then {} else Below(n - 1) + {n - 1}
  }

  function Elements(s: seq<nat>): (r: set<nat>) {
    set k | 0 <= k < |s| :: s[k]
  }

  lemma {:induction false} ElementsSize(s: seq<nat>)
    requires Distinct(s)
    ensures |Elements(s)| == |s|
  {
    if s != [] {
      var n := |s| - 1;
      ElementsSize(s[..n]);
      assert Elements(s) == Elements(s[..n]) + {s[n]};
      assert s[n] !in Elements(s[..n]);
    }
  }

  lemma FullSubset(s: set<nat>, t: set<nat>)
    requires s <= t && |s| == |t|
    ensures s == t
  {
    if s != t {
      var x :| x in t && x !in s;
      assert |s + {x}| == |s| + 1;
      SubsetSize(s + {x}, t);
    }
  }

  lemma {:induction false} SubsetSize(s: set<nat>, t: set<nat>)
    requires s <= t
    ensures |s| <= |t|
    decreases s
  {
    if s != {} {
      var x :| x in s;
      SubsetSize(s - {x}, t - {x});
    }
  }

  /** n different numbers below n are all of them. */
  lemma PermutationCovers(s: seq<nat>, v: nat)
    requires Distinct(s) && (forall k :: 0 <= k < |s| ==> s[k] < |s|) && v < |s|
    ensures v in s
  {
    ElementsSize(s);
    FullSubset(Elements(s), Below(|s|));
    assert v in Elements(s);
  }
}
