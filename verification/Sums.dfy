/** Finite sums of reals and the exchange laws that the linear-algebra modules rest on. */
module Sums {

  function Sum(n: nat, f: nat -> real): (s: real) {
    if n == 0 then 0.0 else Sum(n - 1, f) + f(n - 1)
  }

  lemma {:induction false} SumExt(n: nat, f: nat -> real, g: nat -> real)
    requires forall i: nat :: i < n ==> f(i) == g(i)
    ensures Sum(n, f) == Sum(n, g)
  {
    if n > 0 { SumExt(n - 1, f, g); }
  }

  lemma {:induction false} SumAdd(n: nat, f: nat -> real, g: nat -> real, h: nat -> real)
    requires forall i: nat :: i < n ==> h(i) == f(i) + g(i)
    ensures Sum(n, h) == Sum(n, f) + Sum(n, g)
  {
    if n > 0 { SumAdd(n - 1, f, g, h); }
  }

  lemma {:induction false} SumScale(n: nat, c: real, f: nat -> real, h: nat -> real)
    requires forall i: nat :: i < n ==> h(i) == c * f(i)
    ensures Sum(n, h) == c * Sum(n, f)
  {
    if n > 0 {
      SumScale(n - 1, c, f, h);
      assert c * (Sum(n - 1, f) + f(n - 1)) == c * Sum(n - 1, f) + c * f(n - 1);
    }
  }

  lemma {:induction false} SumAffine(n: nat, c: real, f: nat -> real, g: nat -> real, h: nat -> real)
    requires forall i: nat :: i < n ==> h(i) == f(i) + c * g(i)
    ensures Sum(n, h) == Sum(n, f) + c * Sum(n, g)
  {
    if n > 0 {
      SumAffine(n - 1, c, f, g, h);
      assert c * (Sum(n - 1, g) + g(n - 1)) == c * Sum(n - 1, g) + c * g(n - 1);
    }
  }

  lemma {:induction false} SumDifference(n: nat, f: nat -> real, g: nat -> real, h: nat -> real, d: nat -> real)
    requires forall i: nat {:trigger d(i)} :: i < n ==> f(i) - 2.0 * g(i) + h(i) == d(i)
    ensures Sum(n, f) - 2.0 * Sum(n, g) + Sum(n, h) == Sum(n, d)
  {
    if n > 0 {
      SumDifference(n - 1, f, g, h, d);
      assert f(n - 1) - 2.0 * g(n - 1) + h(n - 1) == d(n - 1);
    }
  }

  lemma {:induction false} SumZero(n: nat, f: nat -> real)
    requires forall i: nat :: i < n ==> f(i) == 0.0
    ensures Sum(n, f) == 0.0
  {
    if n > 0 { SumZero(n - 1, f); }
  }

  lemma {:induction false} SumSingle(n: nat, f: nat -> real, k: nat)
    requires k < n && forall i: nat :: i < n && i != k ==> f(i) == 0.0
    ensures Sum(n, f) == f(k)
  {
    if k == n - 1 { SumZero(n - 1, f); } else { SumSingle(n - 1, f, k); }
  }

  lemma {:induction false} SumNonNegative(n: nat, f: nat -> real)
    requires forall i: nat :: i < n ==> f(i) >= 0.0
    ensures Sum(n, f) >= 0.0
  {
    if n > 0 { SumNonNegative(n - 1, f); }
  }

  // Exchange of the order of summation; g and h name the two inner sums.
  lemma {:induction false} SumSwap(n: nat, m: nat, f: (nat, nat) -> real, g: nat -> real, h: nat -> real)
    requires forall i: nat :: i < n ==> g(i) == Sum(m, (j: nat) => f(i, j))
    requires forall j: nat :: j < m ==> h(j) == Sum(n, (i: nat) => f(i, j))
    ensures Sum(n, g) == Sum(m, h)
  {
    if n == 0 {
      SumZero(m, h);
    } else {
      var h' := (j: nat) => Sum(n - 1, (i: nat) => f(i, j));
      SumSwap(n - 1, m, f, g, h');
      var last := (j: nat) => f(n - 1, j);
      forall j: nat | j < m ensures h(j) == h'(j) + last(j) {
        assert h(j) == Sum(n, (i: nat) => f(i, j));
        SumExt(n - 1, (i: nat) => f(i, j), (i: nat) => f(i, j));
      }
      SumAdd(m, h', last, h);
      SumExt(m, last, (j: nat) => f(n - 1, j));
    }
  }

  // A sum over the flattened index i*m + j is the double sum over i and j.
  lemma {:induction false} SumFlat(n: nat, m: nat, f: nat -> real, g: nat -> real)
    requires forall i: nat :: i < n ==> g(i) == Sum(m, (j: nat) => f(i * m + j))
    ensures Sum(n * m, f) == Sum(n, g)
  {
    if n > 0 {
      SumFlat(n - 1, m, f, g);
      assert n * m == (n - 1) * m + m;
      SumSplit((n - 1) * m, m, f, (j: nat) => f((n - 1) * m + j));
    }
  }

  lemma {:induction false} SumSplit(n: nat, m: nat, f: nat -> real, tail: nat -> real)
    requires forall j: nat :: j < m ==> tail(j) == f(n + j)
    ensures Sum(n + m, f) == Sum(n, f) + Sum(m, tail)
  {
    if m > 0 { SumSplit(n, m - 1, f, tail); }
  }

  // The indices below n at which a mask is set, in increasing order.
  function Selected(mask: nat -> bool, n: nat): (s: seq<nat>) {
    if n == 0 then []
    else if mask(n - 1) then Selected(mask, n - 1) + [n - 1]
    else Selected(mask, n - 1)
  }

  lemma {:induction false} SelectedFacts(mask: nat -> bool, n: nat)
    ensures |Selected(mask, n)| <= n
    ensures forall a :: 0 <= a < |Selected(mask, n)| ==> Selected(mask, n)[a] < n && mask(Selected(mask, n)[a])
    ensures forall a, b :: 0 <= a < b < |Selected(mask, n)| ==> Selected(mask, n)[a] < Selected(mask, n)[b]
    ensures forall i: nat :: i < n && mask(i) ==> i in Selected(mask, n)
  {
    if n > 0 {
      SelectedFacts(mask, n - 1);
      var s := Selected(mask, n - 1);
      if mask(n - 1) { assert (s + [n - 1])[|s|] == n - 1; }
    }
  }

  // The position of a selected index is the number of selected indices before it.
  lemma {:induction false} SelectedRank(mask: nat -> bool, n: nat, i: nat)
    requires i < n && mask(i)
    ensures |Selected(mask, i)| < |Selected(mask, n)| && Selected(mask, n)[|Selected(mask, i)|] == i
  {
    if i < n - 1 { SelectedRank(mask, n - 1, i); }
  }

  // Summing the gathered entries is summing all entries, when those left out are zero.
  lemma {:induction false} SumGather(n: nat, mask: nat -> bool, f: nat -> real, s: seq<nat>, g: nat -> real)
    requires forall i: nat :: i < n && !mask(i) ==> f(i) == 0.0
    requires s == Selected(mask, n)
    requires forall a: nat :: a < |s| ==> g(a) == f(s[a])
    ensures Sum(|s|, g) == Sum(n, f)
  {
    if n > 0 {
      var s' := Selected(mask, n - 1);
      if mask(n - 1) {
        assert s == s' + [n - 1];
        assert g(|s'|) == f(s[|s'|]);
        SumGather(n - 1, mask, f, s', g);
        assert Sum(|s|, g) == Sum(|s'|, g) + g(|s'|);
      } else {
        SumGather(n - 1, mask, f, s', g);
      }
    }
  }
}
