/** Sums of natural numbers. */
module Sums {

  function Sum(s: seq<nat>): (n: nat) {
    if s == [] then 0 else Sum(s[..|s| - 1]) + s[|s| - 1]
  }

  lemma SumNothing()
    ensures Sum([]) == 0
  {
  }

  lemma SumNext(s: seq<nat>, k: nat)
    requires k < |s|
    ensures Sum(s[..k + 1]) == Sum(s[..k]) + s[k]
  {
    assert s[..k + 1][..k] == s[..k];
  }

  lemma {:induction false} SumMonotone(s: seq<nat>, k: nat, m: nat)
    requires k <= m <= |s|
    ensures Sum(s[..k]) <= Sum(s[..m])
    decreases m
  {
    if k < m {
      SumMonotone(s, k, m - 1);
      SumNext(s, m - 1);
    }
  }

  lemma {:induction false} SumSplit(s: seq<nat>, k: nat, m: nat)
    requires k + m <= |s|
    ensures Sum(s[..k + m]) == Sum(s[..k]) + Sum(s[k..][..m])
    decreases m
  {
    if m > 0 {
      SumSplit(s, k, m - 1);
      SumNext(s, k + m - 1);
      SumNext(s[k..], m - 1);
    }
  }

  lemma SumOfRest(s: seq<nat>, k: nat, m: nat)
    requires k + m <= |s|
    ensures Sum(s[k..][..m]) <= Sum(s)
  {
    assert s[..|s|] == s;
    SumMonotone(s, k + m, |s|);
    SumSplit(s, k, m);
  }

  lemma {:induction false} SumUpdate(s: seq<nat>, i: nat, v: nat)
    requires i < |s|
    ensures Sum(s[i := v]) == Sum(s) - s[i] + v
    decreases |s|
  {
    var last := |s| - 1;
    if i < last {
      SumUpdate(s[..last], i, v);
      assert s[i := v][..last] == s[..last][i := v];
    } else {
      assert s[i := v][..last] == s[..last];
    }
  }

  lemma {:induction false} SumZeros(s: seq<nat>)
    requires forall k :: 0 <= k < |s| ==> s[k] == 0
    ensures Sum(s) == 0
  {
    if s != [] {
      SumZeros(s[..|s| - 1]);
    }
  }
}
