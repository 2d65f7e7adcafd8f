/** Distribution by counting: every element goes to the first free place of its
    key's section.  FSST uses this twice, to renumber codes by symbol length and
    to order batch jobs by string length. */
module CountingSort {

  /** How many keys are equal to `k`. */
  function Equal(keys: seq<nat>, k: nat): (n: nat)
    ensures n <= |keys|
  {
    if keys == [] then 0
    else Equal(keys[..|keys| - 1], k) + (if keys[|keys| - 1] == k then 1 else 0)
  }

  /** How many keys are below `k`: where the section of key `k` starts. */
  function Below(keys: seq<nat>, k: nat): (n: nat)
    ensures n <= |keys|
  {
    if keys == [] then 0
    else Below(keys[..|keys| - 1], k) + (if keys[|keys| - 1] < k then 1 else 0)
  }

  /** Place of element `i`.  Sections fill upwards, except that of key `mirrored`,
      which fills downwards from its end. */
  function Place(keys: seq<nat>, mirrored: nat, i: nat): (p: int)
    requires i < |keys|
  {
    var k := keys[i];
    if k == mirrored then Below(keys, k) + Equal(keys, k) - 1 - Equal(keys[..i], k)
    else Below(keys, k) + Equal(keys[..i], k)
  }

  /** Sections are adjacent. */
  lemma {:induction false} BelowNext(keys: seq<nat>, k: nat)
    ensures Below(keys, k + 1) == Below(keys, k) + Equal(keys, k)
  {
    if keys != [] {
      BelowNext(keys[..|keys| - 1], k);
    }
  }

  lemma {:induction false} BelowZero(keys: seq<nat>)
    ensures Below(keys, 0) == 0
  {
    if keys != [] {
      BelowZero(keys[..|keys| - 1]);
    }
  }

  lemma {:induction false} BelowMonotone(keys: seq<nat>, k: nat, m: nat)
    requires k < m
    ensures Below(keys, k) + Equal(keys, k) <= Below(keys, m)
    decreases m
  {
    BelowNext(keys, k);
    if k + 1 < m {
      BelowMonotone(keys, k, m - 1);
      BelowNext(keys, m - 1);
    }
  }

  /** All keys below `m`: the sections fill the whole range. */
  lemma {:induction false} BelowAll(keys: seq<nat>, m: nat)
    requires forall i :: 0 <= i < |keys| ==> keys[i] < m
    ensures Below(keys, m) == |keys|
  {
    if keys != [] {
      BelowAll(keys[..|keys| - 1], m);
    }
  }

  lemma EqualStep(keys: seq<nat>, k: nat, i: nat)
    requires i < |keys|
    ensures Equal(keys[..i + 1], k) == Equal(keys[..i], k) + (if keys[i] == k then 1 else 0)
  {
    assert keys[..i + 1][..i] == keys[..i];
  }

  lemma {:induction false} EqualMonotone(keys: seq<nat>, k: nat, i: nat, j: nat)
    requires i <= j <= |keys|
    ensures Equal(keys[..i], k) <= Equal(keys[..j], k)
    decreases j
  {
    if i < j {
      EqualMonotone(keys, k, i, j - 1);
      EqualStep(keys, k, j - 1);
    }
  }

  /** An element lies inside its own section, and later equal elements after it. */
  lemma RankInside(keys: seq<nat>, i: nat, j: nat)
    requires i < j <= |keys|
    ensures Equal(keys[..i], keys[i]) < Equal(keys[..j], keys[i])
  {
    EqualStep(keys, keys[i], i);
    EqualMonotone(keys, keys[i], i + 1, j);
  }

  lemma PlaceInSection(keys: seq<nat>, mirrored: nat, i: nat)
    requires i < |keys|
    ensures Below(keys, keys[i]) <= Place(keys, mirrored, i) < Below(keys, keys[i]) + Equal(keys, keys[i])
    ensures Place(keys, mirrored, i) < |keys|
  {
    assert keys[..|keys|] == keys;
    RankInside(keys, i, |keys|);
    BelowNext(keys, keys[i]);
  }

  /** Smaller keys are placed first. */
  lemma PlaceByKey(keys: seq<nat>, mirrored: nat, i: nat, j: nat)
    requires i < |keys| && j < |keys| && keys[i] < keys[j]
    ensures Place(keys, mirrored, i) < Place(keys, mirrored, j)
  {
    PlaceInSection(keys, mirrored, i);
    PlaceInSection(keys, mirrored, j);
    BelowMonotone(keys, keys[i], keys[j]);
  }

  /** Equal keys keep their order, or reverse it in the mirrored section. */
  lemma PlaceStable(keys: seq<nat>, mirrored: nat, i: nat, j: nat)
    requires i < j < |keys| && keys[i] == keys[j]
    ensures if keys[i] == mirrored then Place(keys, mirrored, j) < Place(keys, mirrored, i)
            else Place(keys, mirrored, i) < Place(keys, mirrored, j)
  {
    RankInside(keys, i, j);
  }

  lemma PlaceInjective(keys: seq<nat>, mirrored: nat, i: nat, j: nat)
    requires i < |keys| && j < |keys| && i != j
    ensures Place(keys, mirrored, i) != Place(keys, mirrored, j)
  {
    if keys[i] < keys[j] {
      PlaceByKey(keys, mirrored, i, j);
    } else if keys[j] < keys[i] {
      PlaceByKey(keys, mirrored, j, i);
    } else {
      PlaceStable(keys, mirrored, if i < j then i else j, if i < j then j else i);
    }
  }

  /** The places of all elements. */
  function Places(keys: seq<nat>, mirrored: nat): (ps: seq<int>)
    ensures |ps| == |keys| && forall i :: 0 <= i < |keys| ==> ps[i] == Place(keys, mirrored, i)
  {
    seq(|keys|, i requires 0 <= i < |keys| => Place(keys, mirrored, i))
  }

  ghost predicate IsPermutation(ps: seq<int>) {
    && (forall i :: 0 <= i < |ps| ==> 0 <= ps[i] < |ps|)
    && (forall i, j :: 0 <= i < j < |ps| ==> ps[i] != ps[j])
  }

  lemma PlacesPermute(keys: seq<nat>, mirrored: nat)
    ensures IsPermutation(Places(keys, mirrored))
  {
    var ps := Places(keys, mirrored);
    forall i | 0 <= i < |ps| ensures 0 <= ps[i] < |ps| {
      PlaceInSection(keys, mirrored, i);
    }
    forall i, j | 0 <= i < j < |ps| ensures ps[i] != ps[j] {
      PlaceInjective(keys, mirrored, i, j);
    }
  }

  // A permutation hits every position.

  lemma {:induction false} DistinctCount(ps: seq<int>)
    requires forall i, j :: 0 <= i < j < |ps| ==> ps[i] != ps[j]
    ensures |set x | x in ps| == |ps|
  {
    if ps != [] {
      var init, last := ps[..|ps| - 1], ps[|ps| - 1];
      DistinctCount(init);
      assert ps == init + [last];
      assert (set x | x in ps) == (set x | x in init) + {last};
    }
  }

  ghost function Range(n: nat): (r: set<int>)
    ensures |r| == n && forall x :: x in r <==> 0 <= x < n
  {
    if n == 0 then {} else Range(n - 1) + {n - 1}
  }

  lemma SubsetFull(a: set<int>, b: set<int>)
    requires a <= b && |a| == |b|
    ensures a == b
  {
    assert b == a + (b - a);
    assert |b - a| == 0;
    assert b - a == {};
  }

  lemma PermutationOnto(ps: seq<int>, c: int) returns (i: nat)
    requires IsPermutation(ps) && 0 <= c < |ps|
    ensures i < |ps| && ps[i] == c
  {
    DistinctCount(ps);
    SubsetFull((set x | x in ps), Range(|ps|));
    assert c in Range(|ps|);
    i :| 0 <= i < |ps| && ps[i] == c;
  }
}
