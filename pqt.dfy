/** Binary-splitting arithmetic of the Chudnovsky series: PQT triples, the
    combination rule, the closed-form leaf and the recursive splitting
    ComputePQT (chudnovsky.cpp:59-80). All integers are exact. */
module Pqt {

  /** The binary-splitting accumulator of one sub-range. */
  datatype Triple = Triple(P: int, Q: int, T: int)

  /** Constants of the Chudnovsky series (chudnovsky.cpp:7-14). */
  const A: int := 13591409
  const B: int := 545140134
  const C: int := 640320
  /** C^3/24; C3_24IsExact gives its value. */
  const C3_24: int := C * C * C / 24

  /** C++ integer division, which truncates toward zero (Dafny's `/` is Euclidean). */
  function CDiv(x: int, d: int): (q: int)
    requires d > 0
    ensures x >= 0 ==> q == x / d
    ensures x < 0 ==> q == -((-x) / d)
    ensures -d < x - q * d < d
  {
    if x >= 0 then x / d else -((-x) / d)
  }

  /** The neutral triple: combining with it on either side changes nothing. */
  const Unit: Triple := Triple(1, 1, 0)

  /** Combination of the triple of a left range with that of the adjacent right range. */
  function Combine(l: Triple, r: Triple): Triple
  {
    Triple(l.P * r.P, l.Q * r.Q, l.T * r.Q + l.P * r.T)
  }

  /** Left-to-right combination of a sequence of triples. */
  function CombineAll(s: seq<Triple>): Triple
  {
    if |s| == 0 then Unit else Combine(CombineAll(s[..|s| - 1]), s[|s| - 1])
  }

  /** Closed form of the unit interval ending at n2. */
  function Leaf(n2: int): Triple
  {
    var p := (2 * n2 - 1) * (6 * n2 - 1) * (6 * n2 - 5);
    var t := (A + B * n2) * p;
    Triple(p, C3_24 * n2 * n2 * n2, if n2 % 2 == 1 then -t else t)
  }

  /** The split point of ComputePQT: `(n1 + n2) / 2` in C++ arithmetic. */
  function Mid(n1: int, n2: int): (m: int)
    requires n1 + 1 < n2
    ensures n1 < m < n2
    ensures -1 <= 2 * m - (n1 + n2) <= 1
  {
    CDiv(n1 + n2, 2)
  }

  /** Version 0: the single-threaded binary-splitting recursion. It terminates
      only for n1 < n2; with n1 == n2 the source recurses forever. */
  function ComputePQT(n1: int, n2: int): Triple
    requires n1 < n2
    decreases n2 - n1
  {
    if n1 + 1 == n2 then Leaf(n2)
    else
      var mid := Mid(n1, n2);
      Combine(ComputePQT(n1, mid), ComputePQT(mid, n2))
  }

  /** The unit leaves of [n1, n2), in order. */
  function Leaves(n1: int, n2: int): (s: seq<Triple>)
    requires n1 <= n2
    ensures |s| == n2 - n1
    ensures forall i :: 0 <= i < |s| ==> s[i] == Leaf(n1 + i + 1)
  {
    seq(n2 - n1, i requires 0 <= i < n2 - n1 => Leaf(n1 + i + 1))
  }

  lemma C3_24IsExact()
    ensures C3_24 * 24 == C * C * C
    ensures C3_24 == 10939058860032000
  {
  }

  lemma CombineAssociative(x: Triple, y: Triple, z: Triple)
    ensures Combine(Combine(x, y), z) == Combine(x, Combine(y, z))
  {
  }

  lemma UnitIsNeutral(x: Triple)
    ensures Combine(Unit, x) == x && Combine(x, Unit) == x
  {
  }

  /** The rule is order-sensitive: swapping the operands can change the result. */
  lemma CombineNotCommutative()
    ensures exists x: Triple, y: Triple :: Combine(x, y) != Combine(y, x)
  {
    var x, y := Triple(2, 1, 0), Triple(1, 1, 1);
    assert Combine(x, y).T == 2 && Combine(y, x).T == 1;
  }

  lemma CombineAllSingle(x: Triple)
    ensures CombineAll([x]) == x
  {
    assert [x][..0] == [];
    UnitIsNeutral(x);
  }

  lemma {:induction false} CombineAllAppend(s: seq<Triple>, t: seq<Triple>)
    ensures CombineAll(s + t) == Combine(CombineAll(s), CombineAll(t))
    decreases |t|
  {
    if |t| == 0 {
      assert s + t == s;
      UnitIsNeutral(CombineAll(s));
    } else {
      var t' := t[..|t| - 1];
      assert (s + t)[..|s + t| - 1] == s + t';
      CombineAllAppend(s, t');
      CombineAssociative(CombineAll(s), CombineAll(t'), t[|t| - 1]);
    }
  }

  lemma LeavesSplit(n1: int, m: int, n2: int)
    requires n1 <= m <= n2
    ensures Leaves(n1, n2) == Leaves(n1, m) + Leaves(m, n2)
  {
  }

  /** The recursion computes the in-order combination of all unit leaves,
      whatever split points it uses. */
  lemma {:induction false} ComputeIsFold(n1: int, n2: int)
    requires n1 < n2
    ensures ComputePQT(n1, n2) == CombineAll(Leaves(n1, n2))
    decreases n2 - n1
  {
    if n1 + 1 == n2 {
      assert Leaves(n1, n2) == [Leaf(n2)];
      CombineAllSingle(Leaf(n2));
    } else {
      var mid := Mid(n1, n2);
      ComputeIsFold(n1, mid);
      ComputeIsFold(mid, n2);
      LeavesSplit(n1, mid, n2);
      CombineAllAppend(Leaves(n1, mid), Leaves(mid, n2));
    }
  }

  /** Splitting at any interior point and combining gives the same triple. */
  lemma ComputeSplitAnywhere(n1: int, m: int, n2: int)
    requires n1 < m < n2
    ensures ComputePQT(n1, n2) == Combine(ComputePQT(n1, m), ComputePQT(m, n2))
  {
    ComputeIsFold(n1, n2);
    ComputeIsFold(n1, m);
    ComputeIsFold(m, n2);
    LeavesSplit(n1, m, n2);
    CombineAllAppend(Leaves(n1, m), Leaves(m, n2));
  }

  lemma MulPositive(x: int, y: int)
    requires x > 0 && y > 0
    ensures x * y > 0
  {
  }

  lemma MulAtLeast(x: int, y: int, lo: int)
    requires x >= lo >= 0 && y >= 1
    ensures x * y >= lo
  {
  }

  /** Signs of the closed-form leaf for the terms the series uses (n2 >= 1). */
  lemma LeafSigns(n2: int)
    requires n2 >= 1
    ensures Leaf(n2).P > 0
    ensures Leaf(n2).Q >= C3_24 > 1
    ensures Leaf(n2).T < 0 <==> n2 % 2 == 1
    ensures Leaf(n2).T != 0
  {
    MulPositive(2 * n2 - 1, 6 * n2 - 1);
    MulPositive((2 * n2 - 1) * (6 * n2 - 1), 6 * n2 - 5);
    var p := (2 * n2 - 1) * (6 * n2 - 1) * (6 * n2 - 5);
    MulPositive(A + B * n2, p);
    MulPositive(n2, n2);
    MulPositive(n2 * n2, n2);
    MulAtLeast(C3_24, n2, C3_24);
    MulAtLeast(C3_24 * n2, n2, C3_24);
    MulAtLeast(C3_24 * n2 * n2, n2, C3_24);
  }

  /** Over non-negative ranges P and Q stay positive and Q grows at least like C3_24. */
  lemma {:induction false} ComputePositive(n1: int, n2: int)
    requires 0 <= n1 < n2
    ensures ComputePQT(n1, n2).P > 0
    ensures ComputePQT(n1, n2).Q >= C3_24
    decreases n2 - n1
  {
    if n1 + 1 == n2 {
      LeafSigns(n2);
    } else {
      var mid := Mid(n1, n2);
      ComputePositive(n1, mid);
      ComputePositive(mid, n2);
      var l, r := ComputePQT(n1, mid), ComputePQT(mid, n2);
      MulPositive(l.P, r.P);
      MulAtLeast(l.Q, r.Q, C3_24);
    }
  }
}
