/** The perfect binary reduction tree that every orchestrator walks: power-of-two
    slot counts, one tree level as the pairwise combination of the level below,
    and arrival orders (the order in which outstanding ids come off a queue). */
module Levels {
  import opened Pqt

  predicate IsPow2(n: int)
    decreases n
  {
    n == 1 || (n >= 2 && n % 2 == 0 && IsPow2(n / 2))
  }

  /** The next level of the tree: slot k holds the combination of slots 2k and 2k+1. */
  function Pairwise(s: seq<Triple>): (r: seq<Triple>)
    ensures |r| == |s| / 2
  {
    seq(|s| / 2, k requires 0 <= k < |s| / 2 => Combine(s[2 * k], s[2 * k + 1]))
  }

  /** Halving a level keeps the in-order combination of the whole level. */
  lemma {:induction false} PairwisePreservesFold(s: seq<Triple>)
    requires |s| % 2 == 0
    ensures CombineAll(Pairwise(s)) == CombineAll(s)
    decreases |s|
  {
    if |s| > 0 {
      var n := |s|;
      var s' := s[..n - 2];
      var p := Pairwise(s);
      assert Pairwise(s') == p[..|p| - 1];
      PairwisePreservesFold(s');
      assert s == s' + s[n - 2..];
      CombineAllAppend(s', s[n - 2..]);
      assert s[n - 2..][..1] == [s[n - 2]];
      CombineAllSingle(s[n - 2]);
    }
  }

  lemma HalfIsPow2(n: int)
    requires IsPow2(n) && n >= 2
    ensures n % 2 == 0 && IsPow2(n / 2) && n / 2 >= 1
  {
  }

  /** `order` is a permutation of the ids 0 .. n-1. */
  predicate IsOrder(order: seq<nat>, n: nat)
  {
    && |order| == n
    && (forall i :: 0 <= i < |order| ==> order[i] < n)
    && (forall i, j :: 0 <= i < j < |order| ==> order[i] != order[j])
    && (forall k :: 0 <= k < n ==> k in order)
  }

  function Iota(n: nat): (s: seq<nat>)
    ensures |s| == n && forall i :: 0 <= i < n ==> s[i] == i
  {
    seq(n, i requires 0 <= i < n => i)
  }

  lemma IotaIsOrder(n: nat)
    ensures IsOrder(Iota(n), n)
  {
    var s := Iota(n);
    forall k | 0 <= k < n ensures k in s {
      assert s[k] == k;
    }
  }

  /** The next id pulled is one that has not arrived before. */
  lemma NextIsFresh(order: seq<nat>, n: nat, t: nat)
    requires IsOrder(order, n) && t < n
    ensures order[t] < n && order[t] !in order[..t]
    ensures forall j :: j in order[..t + 1] <==> j in order[..t] || j == order[t]
  {
    assert order[..t + 1] == order[..t] + [order[t]];
  }

  /** While some id has not arrived, another pull is still possible. */
  lemma MissingMeansMore(order: seq<nat>, n: nat, t: nat, j: nat)
    requires IsOrder(order, n) && t <= n && j < n && j !in order[..t]
    ensures t < n
  {
    assert j in order;
    var i :| 0 <= i < |order| && order[i] == j;
  }
}
