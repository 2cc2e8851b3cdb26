/** Lists of pairs put together, and pairs of observations that occur in them once. */
module PairLists {
  import opened BuddySweep

  predicate SameObservations(p: Pair, p': Pair) {
    || (p.obsIdA == p'.obsIdA && p.obsIdB == p'.obsIdB)
    || (p.obsIdA == p'.obsIdB && p.obsIdB == p'.obsIdA)
  }

  function Concat(lists: seq<seq<Pair>>): (ps: seq<Pair>) {
    if lists == [] then [] else Concat(lists[..|lists| - 1]) + lists[|lists| - 1]
  }

  lemma {:induction false} ConcatElement(lists: seq<seq<Pair>>, p: Pair)
    requires p in Concat(lists)
    ensures exists i :: 0 <= i < |lists| && p in lists[i]
  {
    var n := |lists| - 1;
    if p !in lists[n] { ConcatElement(lists[..n], p); }
  }

  lemma {:induction false} ConcatContains(lists: seq<seq<Pair>>, i: nat, p: Pair)
    requires i < |lists| && p in lists[i]
    ensures p in Concat(lists)
  {
    var n := |lists| - 1;
    if i < n { ConcatContains(lists[..n], i, p); }
  }

  // No two observations are paired twice in ps, or once in each of a and b.
  ghost predicate NoRepeat(ps: seq<Pair>) {
    forall k, l :: 0 <= k < l < |ps| ==> !SameObservations(ps[k], ps[l])
  }

  ghost predicate NoneShared(a: seq<Pair>, b: seq<Pair>) {
    forall p, p' :: p in a && p' in b ==> !SameObservations(p, p')
  }

  lemma NoRepeatConcat(a: seq<Pair>, b: seq<Pair>)
    requires NoRepeat(a) && NoRepeat(b) && NoneShared(a, b)
    ensures NoRepeat(a + b)
  {
    forall k, l | 0 <= k < l < |a + b| ensures !SameObservations((a + b)[k], (a + b)[l]) {
      if k < |a| <= l { assert a[k] in a && b[l - |a|] in b; }
    }
  }

  lemma {:induction false} ConcatNoRepeat(lists: seq<seq<Pair>>)
    requires forall i :: 0 <= i < |lists| ==> NoRepeat(lists[i])
    requires forall i, j :: 0 <= i < j < |lists| ==> NoneShared(lists[i], lists[j])
    ensures NoRepeat(Concat(lists))
  {
    if lists != [] {
      var n := |lists| - 1;
      ConcatNoRepeat(lists[..n]);
      forall p, p' | p in Concat(lists[..n]) && p' in lists[n] ensures !SameObservations(p, p') {
        ConcatElement(lists[..n], p);
        var i :| 0 <= i < n && p in lists[..n][i];
        assert NoneShared(lists[i], lists[n]);
      }
      NoRepeatConcat(Concat(lists[..n]), lists[n]);
    }
  }
}
